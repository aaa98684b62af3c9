/** Which sessions the timeout branch of Chapter11/epoll_timerfd.c closes. Sessions are told apart
    by serial number, because descriptor numbers are reused, even inside one batch. */
module Timeouts {
  import opened EventLoop
  import opened SessionTables
  import opened SwapDelete

  /** The session with serial number `n` is in the table. */
  ghost predicate Alive(w: World, n: nat) {
    exists fd :: fd in w.serial && w.serial[fd] == n
  }

  /** Row `s` belongs to session `n`. */
  ghost predicate Holds(w: World, n: nat, s: Session) {
    s in w.rows && s.socketfd in w.serial && w.serial[s.socketfd] == n
  }

  /** Session `n` is gone without having timed out. */
  ghost predicate Gone(w: World, n: nat) {
    n < w.births && !Alive(w, n) && n !in w.timedOut
  }

  // ---------------------------------------------------------------- one step

  lemma OpenedFate(w: World, a: Accept, n: nat)
    requires Inv(w) && Fresh(w, a) && a.grant.Granted?
    ensures Opened(w, a).timedOut == w.timedOut
    ensures Gone(w, n) ==> Gone(Opened(w, a), n)
    ensures forall s :: Holds(w, n, s) ==> Holds(Opened(w, a), n, s)
  {
    hide Inv, Fresh;
    NumberUnknown(w, a);
    assert forall i :: 0 <= i < |w.rows| ==> Opened(w, a).rows[i] == w.rows[i];
  }

  lemma NumberUnknown(w: World, a: Accept)
    requires Inv(w) && Fresh(w, a)
    ensures a.fd !in w.serial
  {
    hide Distinct, Deadlines;
  }

  lemma {:induction false} AcceptAllFate(w: World, accepts: seq<Accept>, n: nat)
    requires Inv(w) && AllFresh(w, accepts)
    requires forall k :: 0 <= k < |accepts| ==> Works(accepts[k])
    ensures AcceptAll(w, accepts).Returns? && AcceptAll(w, accepts).w.timedOut == w.timedOut
    ensures Gone(w, n) ==> Gone(AcceptAll(w, accepts).w, n)
    ensures forall s :: Holds(w, n, s) ==> Holds(AcceptAll(w, accepts).w, n, s)
    decreases |accepts|
  {
    hide Gone, Holds, AcceptOne, Agree, Deadlines, Serials, Memory;
    if accepts != [] {
      AcceptOpens(w, accepts[0]);
      OpenedKeepsInv(w, accepts[0]);
      OpenedFate(w, accepts[0], n);
      AcceptAllFate(Opened(w, accepts[0]), accepts[1..], n);
    }
  }

  /** Closing session `i` leaves every other session as it is. */
  lemma ClosedFate(w: World, i: nat, k: nat)
    requires Inv(w) && i < |w.rows| && k < |w.rows|
    requires w.rows[i].socketfd in w.serial && w.rows[k].socketfd in w.serial
    ensures var n := w.serial[w.rows[k].socketfd];
            if k == i then !Alive(Closed(w, i), n) else Holds(Closed(w, i), n, w.rows[k])
  {
    hide Deadlines, Timers, OnTime;
    if k != i {
      RemoveIndex(w.rows, i);
      var t := Closed(w, i);
      assert t.rows[if k == |w.rows| - 1 then i else k] == w.rows[k];
    }
  }

  /** After closing session `j`, session `i` is gone if it was that one and untouched otherwise. */
  lemma ClosedByHangupFate(w: World, j: nat, i: nat)
    requires Inv(w) && j < |w.rows| && i < |w.rows| && w.rows[i].socketfd in w.serial
    ensures var n := w.serial[w.rows[i].socketfd];
            n !in Closed(w, j).timedOut && (Holds(Closed(w, j), n, w.rows[i]) || Gone(Closed(w, j), n))
  {
    hide Agree, Deadlines, Holds, Alive;
    SerialsDiffer(w, j, i);
    ClosedFate(w, j, i);
  }

  lemma ClosedByTimeoutFate(w: World, j: nat, i: nat)
    requires Inv(w) && j < |w.rows| && i < |w.rows|
    requires w.rows[i].socketfd in w.serial && w.rows[j].socketfd in w.serial
    ensures var n, t := w.serial[w.rows[i].socketfd], Closed(Expire(w, j), j);
            if i == j then n in t.timedOut else n !in t.timedOut && Holds(t, n, w.rows[i])
  {
    hide Agree, Deadlines, Alive;
    SerialsDiffer(w, j, i);
    ClosedFate(w, j, i);
  }

  lemma TimerFound(w: World, i: nat)
    requires Agree(w) && i < |w.rows|
    ensures FindTimer(w.rows, w.rows[i].timerfd) == i && w.rows[i].timerfd != w.listener
  {
    RowInColumns(w.rows, i);
  }

  lemma UntouchedFate(w: World, i: nat)
    requires Inv(w) && i < |w.rows| && w.rows[i].socketfd in w.serial
    ensures Holds(w, w.serial[w.rows[i].socketfd], w.rows[i]) && w.serial[w.rows[i].socketfd] !in w.timedOut
  {}

  /** What an input event of another descriptor than the listener does to a session. */
  lemma InputFate(w: World, e: Event, i: nat)
    requires Inv(w) && -1 <= e.recv && e.input && e.fd != w.listener
    requires i < |w.rows| && w.rows[i].socketfd in w.serial
    ensures var s, n, t := w.rows[i], w.serial[w.rows[i].socketfd], HandleNow(w, e);
            && t.Returns?
            && if e.fd == s.timerfd then n in t.w.timedOut
               else n !in t.w.timedOut && (Holds(t.w, n, s) || Gone(t.w, n))
  {
    hide Distinct, Agree, Deadlines, Serials, Memory, Closed, Expire, Holds, Gone, HandleNow;
    var j, k := FindTimer(w.rows, e.fd), FindSocket(w.rows, e.fd);
    HandleCases(w, e);
    TimerFound(w, i);
    UntouchedFate(w, i);
    if j < |w.rows| {
      ClosedByTimeoutFate(w, j, i);
    } else if Recv(w, e) == 0 {
      ClosedByHangupFate(w, k, i);
    } else if Recv(w, e) > 0 {
      SetTimerKeepsInv(w, k);
      RearmedFate(w, k, i);
    }
  }

  lemma RearmedFate(w: World, k: nat, i: nat)
    requires Inv(w) && k < |w.rows| && i < |w.rows| && w.rows[i].socketfd in w.serial
    ensures var n, t := w.serial[w.rows[i].socketfd], Rearmed(w, k);
            n !in t.timedOut && Holds(t, n, w.rows[i])
  {}

  /** What one event does to a session: an input event of its timer closes it by timeout; any
      other event leaves it alone or closes it without a timeout. */
  lemma HandleFate(w: World, e: Event, i: nat)
    requires Inv(w) && Obliging(w, e) && i < |w.rows| && w.rows[i].socketfd in w.serial
    ensures var s, n, t := w.rows[i], w.serial[w.rows[i].socketfd], Handle(w, e);
            && t.Returns?
            && if e.input && e.fd == s.timerfd then n in t.w.timedOut
               else n !in t.w.timedOut && (Holds(t.w, n, s) || Gone(t.w, n))
  {
    hide Agree, Deadlines, Serials, Memory, Gone, Holds, HandleNow;
    var w1 := w.(now := w.now + e.delay);
    TimePasses(w, w1.now);
    UntouchedFate(w1, i);
    TimerFound(w1, i);
    NotInput(w1, e);
    if e.input && e.fd == w.listener {
      AcceptAllFate(w1, e.accepts, w.serial[w.rows[i].socketfd]);
    } else if e.input {
      InputFate(w1, e, i);
    }
  }

  lemma GoneThroughClose(w: World, i: nat, n: nat)
    requires i < |w.rows| && w.rows[i].socketfd in w.serial && Gone(w, n)
    ensures Gone(Closed(w, i), n) && Gone(Closed(Expire(w, i), i), n)
  {}

  lemma GoneThroughRearm(w: World, i: nat, n: nat)
    requires i < |w.rows| && Gone(w, n)
    ensures Gone(Rearmed(w, i), n)
  {}

  /** A session that is gone stays gone, and no later one gets its serial number. */
  lemma GoneStays(w: World, e: Event, n: nat)
    requires Inv(w) && Obliging(w, e) && Gone(w, n)
    ensures Handle(w, e).Returns? && Gone(Handle(w, e).w, n)
  {
    hide Gone, Agree, Deadlines, Serials, Memory, HandleNow;
    var w1 := w.(now := w.now + e.delay);
    TimePasses(w, w1.now);
    GoneLater(w, w1.now, n);
    NotInput(w1, e);
    if e.input && e.fd == w.listener {
      AcceptAllFate(w1, e.accepts, n);
    } else if e.input {
      GoneThroughInput(w1, e, n);
    }
  }

  lemma GoneLater(w: World, later: int, n: nat)
    requires Gone(w, n)
    ensures Gone(w.(now := later), n)
  {}

  lemma GoneThroughInput(w: World, e: Event, n: nat)
    requires Inv(w) && -1 <= e.recv && e.input && e.fd != w.listener && Gone(w, n)
    ensures HandleNow(w, e).Returns? && Gone(HandleNow(w, e).w, n)
  {
    hide Gone, Agree, Deadlines, Serials, Memory, Closed, Expire, Rearmed, HandleNow;
    var j, k := FindTimer(w.rows, e.fd), FindSocket(w.rows, e.fd);
    HandleCases(w, e);
    if j < |w.rows| {
      GoneThroughClose(w, j, n);
    } else if Recv(w, e) != -1 {
      SetTimerKeepsInv(w, k);
      SerialsDiffer(w, k, k);
      GoneThroughClose(w, k, n);
      GoneThroughRearm(w, k, n);
    }
  }

  lemma HandleOnlyAddsTimeouts(w: World, e: Event, n: nat)
    requires Inv(w) && Obliging(w, e) && n in w.timedOut
    ensures Handle(w, e).Returns? && n in Handle(w, e).w.timedOut
  {
    hide Agree, Deadlines, Serials, Memory, Gone, Holds, HandleNow;
    var w1 := w.(now := w.now + e.delay);
    TimePasses(w, w1.now);
    NotInput(w1, e);
    if e.input && e.fd == w.listener {
      AcceptAllFate(w1, e.accepts, n);
    } else if e.input {
      var k := FindSocket(w.rows, e.fd);
      HandleCases(w1, e);
      if k < |w.rows| {
        SetTimerKeepsInv(w1, k);
      }
    }
  }

  lemma NotInput(w: World, e: Event)
    ensures !e.input ==> HandleNow(w, e) == Returns(w, 0)
    ensures e.input && e.fd == w.listener ==> HandleNow(w, e) == AcceptAll(w, e.accepts)
  {
    hide AcceptAll, DelEv, SetTimer;
  }

  lemma SerialsDiffer(w: World, i: nat, k: nat)
    requires Inv(w) && i < |w.rows| && k < |w.rows|
    ensures w.rows[i].socketfd in w.serial && w.rows[k].socketfd in w.serial
    ensures w.serial[w.rows[i].socketfd] == w.serial[w.rows[k].socketfd] ==> i == k
  {
    RowInColumns(w.rows, i);
    RowInColumns(w.rows, k);
  }

  // ---------------------------------------------------------------- whole batches

  /** The world after the first `k` events of a batch. */
  function After(w: World, events: seq<Event>, k: nat): World
    requires k <= |events|
    decreases k
  {
    if k == 0 then w
    else
      var o := Handle(w, events[0]);
      if o.Exits? then w else After(o.w, events[1..], k - 1)
  }

  lemma {:induction false} GoneThroughBatch(w: World, events: seq<Event>, n: nat)
    requires Inv(w) && AllObliging(w, events) && Gone(w, n)
    ensures HandleAll(w, events).Returns? && Gone(HandleAll(w, events).w, n)
    ensures forall k :: 0 <= k <= |events| ==> Gone(After(w, events, k), n)
    decreases |events|
  {
    hide Inv, Gone, Handle;
    if events != [] {
      GoneStays(w, events[0], n);
      HandleKeepsInv(w, events[0]);
      GoneThroughBatch(Handle(w, events[0]).w, events[1..], n);
    }
  }

  lemma {:induction false} TimedOutThroughBatch(w: World, events: seq<Event>, n: nat)
    requires Inv(w) && AllObliging(w, events) && n in w.timedOut
    ensures HandleAll(w, events).Returns? && n in HandleAll(w, events).w.timedOut
    decreases |events|
  {
    hide Inv, Handle;
    if events != [] {
      HandleOnlyAddsTimeouts(w, events[0], n);
      HandleKeepsInv(w, events[0]);
      TimedOutThroughBatch(Handle(w, events[0]).w, events[1..], n);
    }
  }

  /** Event `k` of the batch is an input event on `tfd` and finds session `n` still in the table. */
  ghost predicate Strikes(w: World, events: seq<Event>, n: nat, tfd: int, k: nat) {
    k < |events| && events[k].input && events[k].fd == tfd && Alive(After(w, events, k), n)
  }

  /** A session that is in the table when epoll_wait returns is closed by the timeout branch of
      that batch exactly if an input event of the timer it had then meets it still in the table,
      whatever numbers are reused in between. */
  lemma {:induction false} TimeoutExact(w: World, events: seq<Event>, n: nat, s: Session)
    requires Inv(w) && AllObliging(w, events) && Holds(w, n, s)
    ensures HandleAll(w, events).Returns?
    ensures n in HandleAll(w, events).w.timedOut <==> exists k :: Strikes(w, events, n, s.timerfd, k)
    decreases |events|
  {
    hide Inv, Handle;
    if events == [] {
      NotTimedOut(w, n, s);
    } else {
      HandleKeepsInv(w, events[0]);
      var t, rest := Handle(w, events[0]).w, events[1..];
      var i: nat :| i < |w.rows| && w.rows[i] == s;
      HandleFate(w, events[0], i);
      if events[0].input && events[0].fd == s.timerfd {
        TimedOutThroughBatch(t, rest, n);
        assert Strikes(w, events, n, s.timerfd, 0);
      } else if Holds(t, n, s) {
        TimeoutExact(t, rest, n, s);
        StrikesShift(w, events, n, s.timerfd);
      } else {
        GoneThroughBatch(t, rest, n);
        forall k: nat
          ensures !Strikes(w, events, n, s.timerfd, k)
        {
          if 0 < k <= |events| {
            assert Gone(After(t, rest, k - 1), n);
          }
        }
      }
    }
  }

  lemma NotTimedOut(w: World, n: nat, s: Session)
    requires Inv(w) && Holds(w, n, s)
    ensures n !in w.timedOut
  {}

  /** Beyond a first event that does not strike, the strikes are those of the rest of the batch. */
  lemma StrikesShift(w: World, events: seq<Event>, n: nat, tfd: int)
    requires events != [] && Handle(w, events[0]).Returns?
    requires !(events[0].input && events[0].fd == tfd)
    ensures (exists k :: Strikes(w, events, n, tfd, k))
            <==> exists k :: Strikes(Handle(w, events[0]).w, events[1..], n, tfd, k)
  {
    hide Handle;
    var t, rest := Handle(w, events[0]).w, events[1..];
    forall k: nat
      ensures Strikes(t, rest, n, tfd, k) == Strikes(w, events, n, tfd, k + 1)
    {}
    forall k: nat | Strikes(w, events, n, tfd, k)
      ensures Strikes(t, rest, n, tfd, k - 1)
    {}
  }

  /** epoll_wait reports input on a timer only if it has expired by then. */
  ghost predicate Reported(w: World, events: seq<Event>) {
    forall k :: 0 <= k < |events| && events[k].input && events[k].fd in w.armed ==> w.armed[events[k].fd] <= w.now
  }

  /** A session whose deadline is still ahead when epoll_wait returns is not closed by the timeout
      branch of that batch: one that is has been idle for its whole timeout. */
  lemma NotBeforeDeadline(w: World, events: seq<Event>, n: nat, s: Session)
    requires Inv(w) && AllObliging(w, events) && Reported(w, events) && Holds(w, n, s)
    ensures HandleAll(w, events).Returns?
    ensures n in HandleAll(w, events).w.timedOut ==>
              s.socketfd in w.active && w.active[s.socketfd] + s.timeout <= w.now
  {
    hide Agree, Serials, Memory, Handle;
    TimeoutExact(w, events, n, s);
    var i: nat :| i < |w.rows| && w.rows[i] == s;
    assert OnTime(w, w.rows[i]);
    if k: nat :| Strikes(w, events, n, s.timerfd, k) {
      assert events[k].fd in w.armed;
    }
  }

  // ---------------------------------------------------------------- what the loop does not promise

  lemma StandStill(w: World)
    ensures w.(now := w.now + 0) == w
  {}

  lemma HandleOne(w: World, e: Event)
    ensures HandleAll(w, [e]) == Handle(w, e)
    ensures AllObliging(w, [e]) == Obliging(w, e)
  {
    hide Handle, Obliging;
    assert [e][1..] == [];
  }

  lemma HandleThen(w: World, e: Event, rest: seq<Event>, t: World)
    requires Handle(w, e) == Returns(t, 0)
    ensures HandleAll(w, [e] + rest) == HandleAll(t, rest)
    ensures AllObliging(w, [e] + rest) <==> Obliging(w, e) && AllObliging(t, rest)
    ensures forall k: nat :: k <= |rest| ==> After(w, [e] + rest, k + 1) == After(t, rest, k)
  {
    hide Handle, Obliging;
    assert ([e] + rest)[1..] == rest;
  }

  lemma SocketFound(w: World, i: nat)
    requires Agree(w) && i < |w.rows|
    ensures FindSocket(w.rows, w.rows[i].socketfd) == i && w.rows[i].socketfd != w.listener
    ensures FindTimer(w.rows, w.rows[i].socketfd) == |w.rows|
    ensures w.rows[i].socketfd in w.open && w.open[w.rows[i].socketfd] == SocketFd
  {
    RowInColumns(w.rows, i);
    var k := FindTimer(w.rows, w.rows[i].socketfd);
    if k < |w.rows| {
      RowInColumns(w.rows, k);
    }
  }

  /** A receive re-arms the timer. */
  lemma ReceiveHandled(w: World, i: nat)
    requires Inv(w) && i < |w.rows|
    ensures Handle(w, Event(w.rows[i].socketfd, true, [], 1, 0)) == Returns(Rearmed(w, i), 0) && Inv(Rearmed(w, i))
  {
    hide Deadlines, Distinct, Serials, Memory;
    StandStill(w);
    SocketFound(w, i);
    HandleCases(w, Event(w.rows[i].socketfd, true, [], 1, 0));
    SetTimerKeepsInv(w, i);
  }

  /** What an event of a session's socket does: a failing recv is only reported, a hang-up closes the
      session, and data sets its timer to the full timeout again. */
  lemma SocketEvent(w: World, i: nat, n: int)
    requires Inv(w) && i < |w.rows| && -1 <= n
    ensures Handle(w, Event(w.rows[i].socketfd, true, [], n, 0)) ==
              if n == -1 then Returns(w, 0) else if n == 0 then Returns(Closed(w, i), 0) else Returns(Rearmed(w, i), 0)
  {
    hide Deadlines, Distinct, Serials, Memory;
    StandStill(w);
    SocketFound(w, i);
    HandleCases(w, Event(w.rows[i].socketfd, true, [], n, 0));
    SetTimerKeepsInv(w, i);
  }

  /** An event without input, or of a descriptor that is not open any more, changes nothing. */
  lemma OtherEvent(w: World, e: Event)
    requires Inv(w) && -1 <= e.recv && (!e.input || e.fd !in w.open)
    ensures Handle(w, e) == Returns(w.(now := w.now + e.delay), 0)
  {
    hide Deadlines, Distinct, Serials, Memory, HandleNow;
    var w1 := w.(now := w.now + e.delay);
    TimePasses(w, w1.now);
    NotInput(w1, e);
    if e.input {
      var k := FindTimer(w1.rows, e.fd);
      if k < |w1.rows| {
        RowInColumns(w1.rows, k);
      }
      HandleCases(w1, e);
    }
  }

  /** An input event of a timer closes its session. */
  lemma TimeoutHandled(w: World, i: nat, fd: int)
    requires Inv(w) && i < |w.rows| && fd == w.rows[i].timerfd
    ensures fd != w.listener && w.rows[i].socketfd in w.serial && Obliging(w, Event(fd, true, [], 0, 0))
    ensures Handle(w, Event(fd, true, [], 0, 0)) == Returns(Closed(Expire(w, i), i), 0) && Inv(Closed(Expire(w, i), i))
  {
    hide Deadlines, Distinct, Serials, Memory;
    StandStill(w);
    TimerFound(w, i);
    HandleCases(w, Event(fd, true, [], 0, 0));
    ClosedKeepsInv(w, i);
  }

  /** A timer event already in the batch closes its session even if the session received data
      earlier in the same batch and its new deadline is ahead. */
  lemma RearmedStillCloses(w: World, i: nat)
    requires Inv(w) && i < |w.rows| && 0 < w.rows[i].timeout
    requires w.rows[i].timerfd in w.armed && w.armed[w.rows[i].timerfd] <= w.now
    ensures var s := w.rows[i];
            var batch := [Event(s.socketfd, true, [], 1, 0), Event(s.timerfd, true, [], 0, 0)];
            && s.socketfd in w.serial && Reported(w, batch) && AllObliging(w, batch)
            && HandleAll(w, batch).Returns? && w.serial[s.socketfd] in HandleAll(w, batch).w.timedOut
            && var before := After(w, batch, 1);
               s.timerfd in before.armed && before.now < before.armed[s.timerfd]
  {
    hide Agree, Deadlines, Serials, Memory, Handle, HandleAll, AllObliging;
    var s, t := w.rows[i], Rearmed(w, i);
    var e, f := Event(s.socketfd, true, [], 1, 0), Event(s.timerfd, true, [], 0, 0);
    assert Obliging(w, e) by {
      SocketFound(w, i);
    }
    assert Obliging(t, f) by {
      TimerFound(w, i);
    }
    ReceiveHandled(w, i);
    TimeoutHandled(t, i, s.timerfd);
    HandleOne(t, f);
    HandleThen(w, e, [f], t);
    SocketNotArmed(w, i);
    assert [e] + [f] == [e, f];
    assert After(w, [e] + [f], 0 + 1) == t;
  }

  lemma SocketNotArmed(w: World, i: nat)
    requires Inv(w) && i < |w.rows|
    ensures w.rows[i].socketfd !in w.armed
  {
    RowInColumns(w.rows, i);
  }

  /** A stale event can close a brand-new session: session `i` hangs up while the event of its
      expired timer is still in the batch, a connection accepted in between gets both its numbers,
      and the stale event is taken for the newcomer's timeout. */
  lemma ReusedNumberCloses(w: World, i: nat)
    requires Inv(w) && i < |w.rows| && 0 <= w.rows[i].socketfd && 0 <= w.rows[i].timerfd
    requires w.rows[i].timerfd in w.armed && w.armed[w.rows[i].timerfd] <= w.now
    ensures var s := w.rows[i];
            var accept := Accept(s.socketfd, true, Granted(s.timerfd), 0);
            var batch := [Event(s.socketfd, true, [], 0, 0), Event(w.listener, true, [accept], 0, 0),
                          Event(s.timerfd, true, [], 0, 0)];
            && Reported(w, batch) && AllObliging(w, batch)
            && HandleAll(w, batch).Returns? && w.births in HandleAll(w, batch).w.timedOut
            && var before := After(w, batch, 2);
               s.timerfd in before.armed && before.armed[s.timerfd] == before.now + TIMEOUT
  {
    var s, accept := w.rows[i], Accept(w.rows[i].socketfd, true, Granted(w.rows[i].timerfd), 0);
    var e, f, g := Event(s.socketfd, true, [], 0, 0), Event(w.listener, true, [accept], 0, 0),
                   Event(s.timerfd, true, [], 0, 0);
    hide *;
    HangupHandled(w, i);
    var t := Closed(w, i);
    NumbersFree(w, i);
    SocketNotArmed(w, i);
    ListenerNotArmed(w);
    ThreeReported(w, e, f, g);
    NewcomerExpires(t, accept);
    HandleThree(w, e, t, f, Opened(t, accept), g);
  }

  /** A hang-up closes the session. */
  lemma HangupHandled(w: World, i: nat)
    requires Inv(w) && i < |w.rows|
    ensures Handle(w, Event(w.rows[i].socketfd, true, [], 0, 0)) == Returns(Closed(w, i), 0) && Inv(Closed(w, i))
    ensures Obliging(w, Event(w.rows[i].socketfd, true, [], 0, 0))
  {
    hide Deadlines, Distinct, Serials, Memory;
    StandStill(w);
    SocketFound(w, i);
    HandleCases(w, Event(w.rows[i].socketfd, true, [], 0, 0));
    ClosedKeepsInv(w, i);
  }

  lemma NumbersFree(w: World, i: nat)
    requires Inv(w) && i < |w.rows| && 0 <= w.rows[i].socketfd && 0 <= w.rows[i].timerfd
    ensures var t := Closed(w, i);
            && Fresh(t, Accept(w.rows[i].socketfd, true, Granted(w.rows[i].timerfd), 0))
            && t.listener == w.listener && t.births == w.births
  {
    RowInColumns(w.rows, i);
  }

  /** The lowest number not in use, which is what accept and timerfd_create return. */
  ghost predicate Lowest(w: World, fd: int) {
    Unused(w, fd) && forall g :: 0 <= g < fd ==> !Unused(w, g)
  }

  /** And the kernel does return these numbers if they were the lowest ones for the session too. */
  lemma ReusedNumbersLowest(w: World, i: nat)
    requires Inv(w) && i < |w.rows| && 0 <= w.rows[i].socketfd < w.rows[i].timerfd
    requires forall g :: 0 <= g < w.rows[i].timerfd && g != w.rows[i].socketfd ==> !Unused(w, g)
    ensures var s, o := w.rows[i], Handle(w, Event(w.rows[i].socketfd, true, [], 0, 0));
            && o.Returns? && Lowest(o.w, s.socketfd)
            && Lowest(o.w.(open := o.w.open[s.socketfd := SocketFd]), s.timerfd)
  {
    hide Deadlines, Serials, Memory, Handle, Unused;
    HangupHandled(w, i);
    NumbersFree(w, i);
    var s, t := w.rows[i], Closed(w, i);
    var u := t.(open := t.open[s.socketfd := SocketFd]);
    UsedAfter(w, i, s.timerfd);
    forall g | 0 <= g < s.timerfd
      ensures (g < s.socketfd ==> !Unused(t, g)) && !Unused(u, g)
    {
      UsedAfter(w, i, g);
    }
  }

  /** A number is free after a hang-up and an accept as it was before, except the session's own. */
  lemma UsedAfter(w: World, i: nat, g: int)
    requires i < |w.rows|
    ensures var s, t := w.rows[i], Closed(w, i);
            var u := t.(open := t.open[s.socketfd := SocketFd]);
            && (g != s.socketfd && g != s.timerfd ==> Unused(t, g) == Unused(u, g) == Unused(w, g))
            && !Unused(u, s.socketfd) && (g != s.socketfd ==> Unused(u, g) == Unused(t, g))
  {}

  lemma ThreeReported(w: World, e: Event, f: Event, g: Event)
    requires e.fd !in w.armed && f.fd !in w.armed
    requires g.fd in w.armed ==> w.armed[g.fd] <= w.now
    ensures Reported(w, [e, f, g])
  {}

  /** An input event on the timer of a session accepted just before closes it. */
  lemma NewcomerExpires(t: World, a: Accept)
    requires Inv(t) && Fresh(t, a) && Works(a) && a.delay == 0
    ensures var e, f, u := Event(t.listener, true, [a], 0, 0), Event(a.grant.tfd, true, [], 0, 0), Opened(t, a);
            && Obliging(t, e) && Handle(t, e) == Returns(u, 0)
            && Obliging(u, f) && Handle(u, f).Returns? && t.births in Handle(u, f).w.timedOut
            && a.grant.tfd in u.armed && u.armed[a.grant.tfd] == u.now + TIMEOUT
  {
    hide Agree, Deadlines, Serials, Memory, Handle, Obliging;
    AcceptHandled(t, a);
    TimeoutHandled(Opened(t, a), |t.rows|, a.grant.tfd);
  }

  lemma HandleThree(w: World, e: Event, t: World, f: Event, u: World, g: Event)
    requires Handle(w, e) == Returns(t, 0) && Handle(t, f) == Returns(u, 0)
    ensures HandleAll(w, [e, f, g]) == Handle(u, g) && After(w, [e, f, g], 2) == u
    ensures AllObliging(w, [e, f, g]) <==> Obliging(w, e) && Obliging(t, f) && Obliging(u, g)
  {
    hide Handle, HandleAll, AllObliging, Obliging;
    HandleOne(u, g);
    HandleThen(t, f, [g], u);
    HandleThen(w, e, [f] + [g], t);
    assert [e] + ([f] + [g]) == [e, f, g];
    assert After(t, [f] + [g], 0 + 1) == u;
    assert After(w, [e] + ([f] + [g]), 1 + 1) == u;
  }

  lemma ListenerNotArmed(w: World)
    requires Inv(w)
    ensures w.listener !in w.armed
  {}

  /** A listener event with one accept opens one session. */
  lemma AcceptHandled(w: World, a: Accept)
    requires Inv(w) && Fresh(w, a) && Works(a)
    ensures Handle(w, Event(w.listener, true, [a], 0, 0)) == Returns(Opened(w, a), 0) && Inv(Opened(w, a))
    ensures Obliging(w, Event(w.listener, true, [a], 0, 0))
  {
    hide Agree, Deadlines, Serials, Memory, AcceptOne, Opened, Fresh, HandleNow, AcceptAll, AllFresh;
    AcceptOpens(w, a);
    OpenedKeepsInv(w, a);
    AcceptOnly(w, a);
    StandStill(w);
    NotInput(w, Event(w.listener, true, [a], 0, 0));
  }

  lemma AcceptOnly(w: World, a: Accept)
    requires AcceptOne(w, a).Returns? && AcceptOne(w, a).ret == 0
    ensures AcceptAll(w, [a]) == AcceptOne(w, a)
    ensures AllFresh(w, [a]) == Fresh(w, a)
  {
    hide AcceptOne, Fresh;
    assert [a][1..] == [];
    assert AcceptAll(AcceptOne(w, a).w, []) == AcceptOne(w, a);
  }
}
