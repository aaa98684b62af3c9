/** The event loop of Chapter11/epoll_timerfd.c as a function of what the kernel does.

    A `World` is the program's table together with the kernel's view of the process: the open
    descriptors, the epoll interest set and the armed timers. The kernel's choices are arguments:
    which numbers accept and timerfd_create return, what recv returns, how much time passes, which
    events a batch holds. A number may be returned whenever it is not open, so a descriptor closed
    early in a batch can be reused later in it, and events of that batch can be stale. */
module EventLoop {
  import opened SessionTables
  import opened SwapDelete

  datatype Kind = ListenerFd | SocketFd | TimerFd

  /** `fixed` are the descriptors that stay open throughout: epollfd and the standard streams.
      `capacity` is the number of rows there is memory for. The last five fields record the
      history: when each session was last accepted or received from, its serial number, how many
      sessions there were, the serial numbers of those that the timeout branch closed, and the
      largest number of sessions at a time. */
  datatype World = World(
    rows: seq<Session>, open: map<int, Kind>, interest: set<int>, armed: map<int, int>, now: int,
    capacity: nat, listener: int, fixed: set<int>,
    active: map<int, int>, serial: map<int, nat>, births: nat, timedOut: set<nat>, peak: nat)

  /** The program goes on with a return value, or exits through `pr_crt`. */
  datatype Outcome = Returns(w: World, ret: int) | Exits

  /** What becomes of the timer of a new session. */
  datatype Grant =
    | Granted(tfd: int)               // created and set
    | Unset(tfd: int, errno: int)     // timerfd_settime fails
    | Refused(errno: int)             // timerfd_create fails

  /** One successful accept, some time after the previous step; `memory` says whether realloc succeeds
      if it is called. */
  datatype Accept = Accept(fd: int, memory: bool, grant: Grant, delay: nat)

  /** One reported event, handled some time after the previous one. `accepts` is used if it is the
      listener's, `recv` is what recv returns if the descriptor is an open socket. */
  datatype Event = Event(fd: int, input: bool, accepts: seq<Accept>, recv: int, delay: nat)

  const TIMEOUT := 30
  const EBADF := 9

  // ---------------------------------------------------------------- the program

  /** `fds_set_timerfd` */
  function SetTimer(w: World, s: Session): Outcome {
    if s.timerfd in w.open && w.open[s.timerfd] == TimerFd then
      Returns(w.(armed := w.armed[s.timerfd := w.now + s.timeout]), 0)
    else Returns(w, EBADF)
  }

  /** `epoll_ctl` with EPOLL_CTL_ADD fails on a member and on a closed descriptor. */
  predicate CanWatch(w: World, fd: int) {
    fd in w.open && fd !in w.interest
  }

  /** `fds_new_timerfd` succeeding: a row and an open, unarmed timer. */
  function Enrol(w: World, s: Session): World {
    w.(rows := w.rows + [s], open := w.open[s.timerfd := TimerFd],
       serial := w.serial[s.socketfd := w.births], births := w.births + 1,
       peak := if w.peak < |w.rows| + 1 then |w.rows| + 1 else w.peak)
  }

  predicate Full(w: World) {
    |w.rows| == w.capacity
  }

  /** Memory for one more row. */
  function Grown(w: World): World {
    if Full(w) then w.(capacity := w.capacity + GROWTH) else w
  }

  /** `add_ev` with a positive timeout, as get_epollevent calls it. */
  function AddEv(w: World, fd: int, timeout: int, memory: bool, grant: Grant): Outcome {
    if !CanWatch(w, fd) then Exits
    else if Full(w) && !memory then Returns(w.(interest := w.interest + {fd}), ENOMEM)
    else
      var w1 := Grown(w.(interest := w.interest + {fd}));
      if grant.Refused? then Returns(w1, grant.errno)
      else
        var s := Session(fd, grant.tfd, timeout);
        var w2 := Enrol(w1, s);
        if grant.Unset? then Returns(w2, grant.errno)
        else
          var w3 := SetTimer(w2, s).w;
          if CanWatch(w3, s.timerfd) then Returns(w3.(interest := w3.interest + {s.timerfd}), 0) else Exits
  }

  /** `close`, which also forgets an armed timer. */
  function CloseFd(w: World, fd: int): World {
    w.(open := w.open - {fd}, armed := w.armed - {fd})
  }

  /** The row of a session leaves the table. */
  function Strike(w: World, k: nat, fd: int): World
    requires k < |w.rows|
  {
    w.(rows := Remove(w.rows, k), active := w.active - {fd}, serial := w.serial - {fd})
  }

  /** `del_ev` */
  function DelEv(w: World, fd: int): Outcome {
    if fd !in w.interest then Exits
    else
      var w1 := CloseFd(w.(interest := w.interest - {fd}), fd);
      var i := FindSocket(w1.rows, fd);
      if i == |w1.rows| then Returns(w1, -1)
      else
        var tfd := w1.rows[i].timerfd;
        if tfd !in w1.interest then Exits
        else
          var w2 := CloseFd(w1.(interest := w1.interest - {tfd}), tfd);
          var k := FindTimer(w2.rows, tfd);
          if k == |w2.rows| then Returns(w2, ENOENT)
          else Returns(Strike(w2, k, fd), 0)
  }

  /** The macros ADD_EV and DEL_EV: a return value of -1 ends the program, any other is ignored. */
  function Checked(o: Outcome): Outcome {
    if o.Exits? || o.ret == -1 then Exits else Returns(o.w, 0)
  }

  /** One pass of the accept loop. */
  function AcceptOne(w: World, a: Accept): Outcome {
    var now := w.now + a.delay;
    Checked(AddEv(w.(now := now, open := w.open[a.fd := SocketFd], active := w.active[a.fd := now]),
                  a.fd, TIMEOUT, a.memory, a.grant))
  }

  /** The accept loop; it ends with the first accept that fails. */
  function AcceptAll(w: World, accepts: seq<Accept>): Outcome
    decreases |accepts|
  {
    if accepts == [] then Returns(w, 0)
    else
      var o := AcceptOne(w, accepts[0]);
      if o.Exits? then Exits else AcceptAll(o.w, accepts[1..])
  }

  /** `recv` fails on a descriptor that is not an open socket. */
  function Recv(w: World, e: Event): int {
    if e.fd in w.open && w.open[e.fd] == SocketFd then e.recv else -1
  }

  /** One event, after some time. */
  function Handle(w: World, e: Event): Outcome {
    HandleNow(w.(now := w.now + e.delay), e)
  }

  /** The body of the loop in `get_epollevent`. */
  function HandleNow(w: World, e: Event): Outcome {
    if !e.input then Returns(w, 0)
    else if e.fd == w.listener then AcceptAll(w, e.accepts)
    else
      var i := FindTimer(w.rows, e.fd);
      if i < |w.rows| then
        var s := w.rows[i].socketfd;
        Checked(DelEv(if s in w.serial then w.(timedOut := w.timedOut + {w.serial[s]}) else w, s))
      else
        var r := Recv(w, e);
        if r == -1 then Returns(w, 0)
        else if r == 0 then Checked(DelEv(w, e.fd))
        else
          var t, k := w.(active := w.active[e.fd := w.now]), FindSocket(w.rows, e.fd);
          if k == |w.rows| then Returns(t, -1) else SetTimer(t, w.rows[k])
  }

  /** `get_epollevent`: a return value other than 0 abandons the rest of the batch. */
  function HandleAll(w: World, events: seq<Event>): Outcome
    decreases |events|
  {
    if events == [] then Returns(w, 0)
    else
      var o := Handle(w, events[0]);
      if o.Exits? || o.ret != 0 then o else HandleAll(o.w, events[1..])
  }

  /** One round of the loop in `main`: some time passes in epoll_wait, then a batch is handled. */
  datatype Batch = Batch(wait: nat, events: seq<Event>)

  function Rounds(w: World, batches: seq<Batch>): Outcome
    decreases |batches|
  {
    if batches == [] then Returns(w, 0)
    else
      var o := HandleAll(w.(now := w.now + batches[0].wait), batches[0].events);
      if o.Exits? then Exits
      else
        var rest := Rounds(o.w, batches[1..]);
        if rest.Exits? || o.ret == 0 then rest else rest.(ret := o.ret)
  }

  // ---------------------------------------------------------------- the kernel's rules

  predicate Unused(w: World, fd: int) {
    0 <= fd && fd !in w.open && fd !in w.fixed
  }

  /** accept and timerfd_create return numbers that are not open; error numbers are positive. */
  predicate Fresh(w: World, a: Accept) {
    && Unused(w, a.fd)
    && (if a.grant.Refused? then 0 < a.grant.errno else Unused(w, a.grant.tfd) && a.grant.tfd != a.fd)
    && (a.grant.Unset? ==> 0 < a.grant.errno)
  }

  predicate AllFresh(w: World, accepts: seq<Accept>)
    decreases |accepts|
  {
    accepts == [] ||
    (Fresh(w, accepts[0]) && (AcceptOne(w, accepts[0]).Returns? ==> AllFresh(AcceptOne(w, accepts[0]).w, accepts[1..])))
  }

  /** The new session gets its row and a timer that is set. */
  predicate Timed(w: World, a: Accept) {
    a.grant.Granted? && (a.memory || !Full(w))
  }

  predicate Works(a: Accept) {
    a.memory && a.grant.Granted?
  }

  /** The accepts of a listener event are possible, there is memory, and every timer is created and
      set. */
  predicate Obliging(w: World, e: Event) {
    && -1 <= e.recv
    && (e.input && e.fd == w.listener ==>
          && AllFresh(w.(now := w.now + e.delay), e.accepts)
          && forall k :: 0 <= k < |e.accepts| ==> Works(e.accepts[k]))
  }

  predicate AllObliging(w: World, events: seq<Event>)
    decreases |events|
  {
    events == [] ||
    (Obliging(w, events[0]) && (Handle(w, events[0]).Returns? ==> AllObliging(Handle(w, events[0]).w, events[1..])))
  }

  predicate RoundsObliging(w: World, batches: seq<Batch>)
    decreases |batches|
  {
    batches == [] ||
    var w1 := w.(now := w.now + batches[0].wait);
    && AllObliging(w1, batches[0].events)
    && (HandleAll(w1, batches[0].events).Returns? ==> RoundsObliging(HandleAll(w1, batches[0].events).w, batches[1..]))
  }

  // ---------------------------------------------------------------- agreement

  /** Table, open descriptors, interest set and timers agree. */
  ghost predicate Agree(w: World) {
    && Distinct(w.rows) && Sockets(w.rows) !! Timers(w.rows)
    && w.listener !in Sockets(w.rows) && w.listener !in Timers(w.rows)
    && w.fixed !! (Sockets(w.rows) + Timers(w.rows) + {w.listener})
    && w.interest == {w.listener} + Sockets(w.rows) + Timers(w.rows)
    && w.open.Keys == w.interest
    && w.open[w.listener] == ListenerFd
    && (forall fd :: fd in Sockets(w.rows) ==> w.open[fd] == SocketFd)
    && (forall fd :: fd in Timers(w.rows) ==> w.open[fd] == TimerFd)
  }

  /** The session's timer is armed at its last accept or receive plus its timeout. */
  ghost predicate OnTime(w: World, s: Session) {
    && s.timerfd in w.armed && s.socketfd in w.active
    && w.armed[s.timerfd] == w.active[s.socketfd] + s.timeout
  }

  ghost predicate Deadlines(w: World) {
    && w.armed.Keys == Timers(w.rows) && w.active.Keys == Sockets(w.rows)
    && forall i :: 0 <= i < |w.rows| ==> OnTime(w, w.rows[i])
  }

  /** Serial numbers are used once, and a session closed by timeout is not in the table. */
  ghost predicate Serials(w: World) {
    && w.serial.Keys == Sockets(w.rows)
    && (forall fd :: fd in w.serial ==> w.serial[fd] < w.births && w.serial[fd] !in w.timedOut)
    && (forall fd, gd :: fd in w.serial && gd in w.serial && w.serial[fd] == w.serial[gd] ==> fd == gd)
    && (forall n :: n in w.timedOut ==> n < w.births)
  }

  /** The rows fit, and there is never a whole block more than the peak needed. */
  ghost predicate Memory(w: World) {
    && |w.rows| <= w.capacity && w.capacity % GROWTH == 0
    && |w.rows| <= w.peak && w.capacity < w.peak + GROWTH
  }

  ghost predicate Inv(w: World) {
    Agree(w) && Deadlines(w) && Serials(w) && Memory(w)
  }

  /** The world in which `main` enters its loop. */
  ghost predicate Initial(w: World) {
    && w.rows == [] && w.open == map[w.listener := ListenerFd] && w.interest == {w.listener}
    && w.armed == map[] && w.active == map[] && w.serial == map[] && w.births == 0 && w.timedOut == {}
    && w.capacity == 0 && w.peak == 0
    && w.listener !in w.fixed
  }

  lemma InitialHasInv(w: World)
    requires Initial(w)
    ensures Inv(w)
  {
    assert Sockets(w.rows) == {} && Timers(w.rows) == {};
  }

  // ---------------------------------------------------------------- closing a session

  /** The world without session `i`. */
  function Closed(w: World, i: nat): World
    requires i < |w.rows|
  {
    var fds := {w.rows[i].socketfd, w.rows[i].timerfd};
    w.(rows := Remove(w.rows, i), open := w.open - fds, interest := w.interest - fds, armed := w.armed - fds,
       active := w.active - {w.rows[i].socketfd}, serial := w.serial - {w.rows[i].socketfd})
  }

  lemma RowInColumns(rows: seq<Session>, i: nat)
    requires i < |rows|
    ensures rows[i].socketfd in Sockets(rows) && rows[i].timerfd in Timers(rows)
  {}

  /** `del_ev` on a session's socket deletes members only, finds the session and closes both
      descriptors. */
  lemma DelEvCloses(w: World, i: nat)
    requires Agree(w) && i < |w.rows|
    ensures DelEv(w, w.rows[i].socketfd) == Returns(Closed(w, i), 0)
  {
    RowInColumns(w.rows, i);
    var s := w.rows[i];
    assert FindSocket(w.rows, s.socketfd) == i;
    assert FindTimer(w.rows, s.timerfd) == i;
    assert s.timerfd in w.interest - {s.socketfd};
    var fds := {s.socketfd, s.timerfd};
    assert w.interest - {s.socketfd} - {s.timerfd} == w.interest - fds;
    assert w.open - {s.socketfd} - {s.timerfd} == w.open - fds;
    assert w.armed - {s.socketfd} - {s.timerfd} == w.armed - fds;
  }

  lemma ClosedAgrees(w: World, i: nat)
    requires Agree(w) && i < |w.rows|
    ensures Agree(Closed(w, i))
  {
    RowInColumns(w.rows, i);
    RemoveColumns(w.rows, i);
  }

  /** Another session shares no descriptor with the closed one, so its deadline stands. */
  lemma OthersStayOnTime(w: World, i: nat, k: nat)
    requires Agree(w) && i < |w.rows| && k < |w.rows| && k != i && OnTime(w, w.rows[k])
    ensures OnTime(Closed(w, i), w.rows[k])
  {
    RowInColumns(w.rows, i);
    RowInColumns(w.rows, k);
  }

  lemma ClosedKeepsKeys(w: World, i: nat)
    requires Agree(w) && Deadlines(w) && i < |w.rows|
    ensures Closed(w, i).armed.Keys == Timers(Closed(w, i).rows)
    ensures Closed(w, i).active.Keys == Sockets(Closed(w, i).rows)
  {
    RowInColumns(w.rows, i);
    RemoveColumns(w.rows, i);
  }

  lemma ClosedKeepsDeadlines(w: World, i: nat)
    requires Agree(w) && Deadlines(w) && i < |w.rows|
    ensures Deadlines(Closed(w, i))
  {
    hide Remove, Distinct, OnTime, Sockets, Timers, Agree;
    RemoveIndex(w.rows, i);
    ClosedKeepsKeys(w, i);
    var t := Closed(w, i);
    forall k | 0 <= k < |t.rows|
      ensures OnTime(t, t.rows[k])
    {
      OthersStayOnTime(w, i, if k == i then |w.rows| - 1 else k);
    }
  }

  /** The session's serial number goes on the list of those closed by timeout. */
  function Expire(w: World, i: nat): World
    requires i < |w.rows| && w.rows[i].socketfd in w.serial
  {
    w.(timedOut := w.timedOut + {w.serial[w.rows[i].socketfd]})
  }

  lemma ClosedKeepsSerials(w: World, i: nat)
    requires Agree(w) && Serials(w) && i < |w.rows| && w.rows[i].socketfd in w.serial
    ensures Serials(Closed(w, i)) && Serials(Closed(Expire(w, i), i))
  {
    RemoveColumns(w.rows, i);
  }

  /** Whether it hangs up or times out, closing a session keeps the invariant. */
  lemma ClosedKeepsInv(w: World, i: nat)
    requires Inv(w) && i < |w.rows|
    ensures w.rows[i].socketfd in w.serial && Inv(Closed(w, i)) && Inv(Closed(Expire(w, i), i))
  {
    hide Distinct, Sockets, Timers;
    RowInColumns(w.rows, i);
    ClosedKeepsSerials(w, i);
    ClosedAgrees(w, i);
    ClosedAgrees(Expire(w, i), i);
    ClosedKeepsDeadlines(w, i);
    ClosedKeepsDeadlines(Expire(w, i), i);
    RemoveIndex(w.rows, i);
  }

  // ---------------------------------------------------------------- opening a session

  /** The world with a new session. */
  function Opened(w: World, a: Accept): World
    requires a.grant.Granted?
  {
    var now, fds := w.now + a.delay, {a.fd, a.grant.tfd};
    w.(now := now, rows := w.rows + [Session(a.fd, a.grant.tfd, TIMEOUT)],
       capacity := if Full(w) then w.capacity + GROWTH else w.capacity,
       peak := if w.peak < |w.rows| + 1 then |w.rows| + 1 else w.peak,
       open := w.open[a.fd := SocketFd][a.grant.tfd := TimerFd], interest := w.interest + fds,
       armed := w.armed[a.grant.tfd := now + TIMEOUT], active := w.active[a.fd := now],
       serial := w.serial[a.fd := w.births], births := w.births + 1)
  }

  lemma AcceptOpens(w: World, a: Accept)
    requires Agree(w) && Fresh(w, a) && Timed(w, a)
    ensures AcceptOne(w, a) == Returns(Opened(w, a), 0)
  {
    hide Sockets, Timers, Distinct;
    assert w.interest + {a.fd} + {a.grant.tfd} == w.interest + {a.fd, a.grant.tfd};
  }

  lemma OpenedAgrees(w: World, a: Accept)
    requires Agree(w) && Fresh(w, a) && a.grant.Granted?
    ensures Agree(Opened(w, a))
  {
    AppendColumns(w.rows, Session(a.fd, a.grant.tfd, TIMEOUT));
    forall k | 0 <= k < |w.rows|
      ensures w.rows[k].socketfd in w.interest && w.rows[k].timerfd in w.interest
    {
      RowInColumns(w.rows, k);
    }
  }

  lemma OpenedKeepsDeadlines(w: World, a: Accept)
    requires Agree(w) && Deadlines(w) && Fresh(w, a) && a.grant.Granted?
    ensures Deadlines(Opened(w, a))
  {
    var t := Opened(w, a);
    AppendColumns(w.rows, Session(a.fd, a.grant.tfd, TIMEOUT));
    forall k | 0 <= k < |t.rows|
      ensures OnTime(t, t.rows[k])
    {
      if k < |w.rows| {
        assert OnTime(w, w.rows[k]);
        RowInColumns(w.rows, k);
        assert w.rows[k].timerfd in w.open && w.rows[k].socketfd in w.open;
      }
    }
  }

  lemma OpenedKeepsSerials(w: World, a: Accept)
    requires Agree(w) && Serials(w) && Fresh(w, a) && a.grant.Granted?
    ensures Serials(Opened(w, a))
  {
    AppendColumns(w.rows, Session(a.fd, a.grant.tfd, TIMEOUT));
  }

  lemma OpenedKeepsInv(w: World, a: Accept)
    requires Inv(w) && Fresh(w, a) && a.grant.Granted?
    ensures Inv(Opened(w, a))
  {
    hide Agree, Deadlines, Serials, Memory, Opened, Fresh;
    OpenedAgrees(w, a);
    OpenedKeepsDeadlines(w, a);
    OpenedKeepsSerials(w, a);
    OpenedKeepsMemory(w, a);
  }

  lemma OpenedKeepsMemory(w: World, a: Accept)
    requires Memory(w) && a.grant.Granted?
    ensures Memory(Opened(w, a))
  {}

  lemma UntimedSessionBreaks(w: World, a: Accept)
    requires Agree(w) && Fresh(w, a) && !Timed(w, a)
    ensures AcceptOne(w, a).Returns? && AcceptOne(w, a).ret == 0
    ensures !Agree(AcceptOne(w, a).w)
  {
    var t := AcceptOne(w, a).w;
    if a.grant.Refused? || (Full(w) && !a.memory) {
      assert t.rows == w.rows && a.fd in t.interest && a.fd !in w.interest;
    } else {
      assert a.grant.tfd in t.open && a.grant.tfd !in t.interest;
    }
  }

  /** An accept never ends the program, whatever becomes of the timer; the invariant survives it
      exactly when there was memory for the row and the timer could be created and set. ADD_EV
      overlooks the positive error number. */
  lemma AcceptExact(w: World, a: Accept)
    requires Inv(w) && Fresh(w, a)
    ensures AcceptOne(w, a).Returns? && AcceptOne(w, a).ret == 0
    ensures Inv(AcceptOne(w, a).w) <==> Timed(w, a)
  {
    hide Deadlines, Serials, Memory, AcceptOne, Agree;
    if Timed(w, a) {
      AcceptOpens(w, a);
      OpenedKeepsInv(w, a);
    } else {
      UntimedSessionBreaks(w, a);
    }
  }

  // ---------------------------------------------------------------- no run fails

  /** The world with the timer of session `i` set anew. */
  function Rearmed(w: World, i: nat): World
    requires i < |w.rows|
  {
    var s := w.rows[i];
    w.(armed := w.armed[s.timerfd := w.now + s.timeout], active := w.active[s.socketfd := w.now])
  }

  lemma RearmedKeepsDeadlines(w: World, i: nat)
    requires Agree(w) && Deadlines(w) && i < |w.rows|
    ensures Deadlines(Rearmed(w, i))
  {
    hide Sockets, Timers;
    RowInColumns(w.rows, i);
    forall k | 0 <= k < |w.rows|
      ensures OnTime(Rearmed(w, i), w.rows[k])
    {
      assert OnTime(w, w.rows[k]);
    }
  }

  lemma RearmedAgrees(w: World, i: nat)
    requires Agree(w) && Serials(w) && i < |w.rows|
    ensures Agree(Rearmed(w, i)) && Serials(Rearmed(w, i))
  {
    hide Sockets, Timers, Distinct;
  }

  lemma TimerIsOpen(w: World, i: nat)
    requires Agree(w) && i < |w.rows|
    ensures w.rows[i].timerfd in w.open && w.open[w.rows[i].timerfd] == TimerFd
  {
    RowInColumns(w.rows, i);
  }

  lemma SetTimerKeepsInv(w: World, i: nat)
    requires Inv(w) && i < |w.rows|
    ensures SetTimer(w.(active := w.active[w.rows[i].socketfd := w.now]), w.rows[i]) == Returns(Rearmed(w, i), 0)
    ensures Inv(Rearmed(w, i))
  {
    hide Agree, Deadlines, Serials;
    TimerIsOpen(w, i);
    RearmedKeepsDeadlines(w, i);
    RearmedAgrees(w, i);
  }

  lemma TimePasses(w: World, later: int)
    requires Inv(w)
    ensures Inv(w.(now := later))
  {
    hide Sockets, Timers, Distinct;
    assert forall k :: 0 <= k < |w.rows| && OnTime(w, w.rows[k]) ==> OnTime(w.(now := later), w.rows[k]);
  }

  lemma {:induction false} AcceptAllKeepsInv(w: World, accepts: seq<Accept>)
    requires Inv(w) && AllFresh(w, accepts)
    requires forall k :: 0 <= k < |accepts| ==> Works(accepts[k])
    ensures AcceptAll(w, accepts).Returns? && AcceptAll(w, accepts).ret == 0 && Inv(AcceptAll(w, accepts).w)
    decreases |accepts|
  {
    hide Inv, AcceptOne;
    if accepts != [] {
      AcceptExact(w, accepts[0]);
      AcceptAllKeepsInv(AcceptOne(w, accepts[0]).w, accepts[1..]);
    }
  }

  /** The three ways to handle an input event of another descriptor than the listener: close the
      session whose timer it is, ignore a failing recv, or serve the session whose socket it is. */
  lemma HandleCases(w: World, e: Event)
    requires Inv(w) && -1 <= e.recv && e.input && e.fd != w.listener
    ensures var i, k := FindTimer(w.rows, e.fd), FindSocket(w.rows, e.fd);
            if i < |w.rows| then
              && w.rows[i].socketfd in w.serial
              && HandleNow(w, e) == Returns(Closed(Expire(w, i), i), 0)
            else if Recv(w, e) == -1 then HandleNow(w, e) == Returns(w, 0)
            else
              && k < |w.rows|
              && HandleNow(w, e) ==
                   if Recv(w, e) == 0 then Returns(Closed(w, k), 0)
                   else SetTimer(w.(active := w.active[w.rows[k].socketfd := w.now]), w.rows[k])
  {
    hide DelEv, SetTimer, Closed, Distinct, OnTime;
    var i, k := FindTimer(w.rows, e.fd), FindSocket(w.rows, e.fd);
    if i < |w.rows| {
      RowInColumns(w.rows, i);
      DelEvCloses(Expire(w, i), i);
    } else if Recv(w, e) != -1 {
      assert e.fd in Sockets(w.rows);
      if Recv(w, e) == 0 {
        DelEvCloses(w, k);
      }
    }
  }

  /** Whatever event is reported, stale or not, and whatever the kernel answers: no exit, no
      nonzero return, and the invariant is kept. */
  lemma InputKeepsInv(w: World, e: Event)
    requires Inv(w) && -1 <= e.recv && e.input && e.fd != w.listener
    ensures HandleNow(w, e).Returns? && HandleNow(w, e).ret == 0 && Inv(HandleNow(w, e).w)
  {
    hide HandleNow, Closed, Agree, Deadlines, Serials, Memory;
    var i, k := FindTimer(w.rows, e.fd), FindSocket(w.rows, e.fd);
    HandleCases(w, e);
    if i < |w.rows| {
      ClosedKeepsInv(w, i);
    } else if Recv(w, e) != -1 {
      ClosedKeepsInv(w, k);
      SetTimerKeepsInv(w, k);
    }
  }

  lemma HandleKeepsInv(w: World, e: Event)
    requires Inv(w) && Obliging(w, e)
    ensures Handle(w, e).Returns? && Handle(w, e).ret == 0 && Inv(Handle(w, e).w)
  {
    hide DelEv, SetTimer, Agree, Deadlines, Serials, Memory;
    var w1 := w.(now := w.now + e.delay);
    TimePasses(w, w1.now);
    if e.input && e.fd == w.listener {
      AcceptAllKeepsInv(w1, e.accepts);
    } else if e.input {
      InputKeepsInv(w1, e);
    }
  }

  lemma {:induction false} HandleAllKeepsInv(w: World, events: seq<Event>)
    requires Inv(w) && AllObliging(w, events)
    ensures HandleAll(w, events).Returns? && HandleAll(w, events).ret == 0 && Inv(HandleAll(w, events).w)
    decreases |events|
  {
    hide Inv, Handle;
    if events != [] {
      HandleKeepsInv(w, events[0]);
      HandleAllKeepsInv(Handle(w, events[0]).w, events[1..]);
    }
  }

  /** After any number of batches of any events the program still runs, no call of get_epollevent
      has returned nonzero, and table, descriptors, interest set and timers agree. */
  lemma {:induction false} RoundsKeepInv(w: World, batches: seq<Batch>)
    requires Inv(w) && RoundsObliging(w, batches)
    ensures Rounds(w, batches).Returns? && Rounds(w, batches).ret == 0 && Inv(Rounds(w, batches).w)
    decreases |batches|
  {
    hide Inv, HandleAll;
    if batches != [] {
      TimePasses(w, w.now + batches[0].wait);
      var w1 := w.(now := w.now + batches[0].wait);
      HandleAllKeepsInv(w1, batches[0].events);
      RoundsKeepInv(HandleAll(w1, batches[0].events).w, batches[1..]);
    }
  }

  // ---------------------------------------------------------------- every connection, every event

  /** Time that passes up to the `n`-th of these accepts. */
  function Delays(accepts: seq<Accept>, n: nat): nat
    requires n <= |accepts|
  {
    if n == 0 then 0 else Delays(accepts, n - 1) + accepts[n - 1].delay
  }

  lemma {:induction false} DelaysTail(accepts: seq<Accept>, n: nat)
    requires 0 < n <= |accepts|
    ensures Delays(accepts, n) == accepts[0].delay + Delays(accepts[1..], n - 1)
  {
    if n > 1 {
      DelaysTail(accepts, n - 1);
    } else {
      assert Delays(accepts, 0) == 0;
    }
  }

  /** The rows of new sessions. */
  function NewRows(accepts: seq<Accept>): seq<Session>
    requires forall k :: 0 <= k < |accepts| ==> Works(accepts[k])
  {
    seq(|accepts|, k requires 0 <= k < |accepts| =>
      assert Works(accepts[k]); Session(accepts[k].fd, accepts[k].grant.tfd, 30))
  }

  lemma NewRowsTail(accepts: seq<Accept>)
    requires accepts != [] && forall k :: 0 <= k < |accepts| ==> Works(accepts[k])
    ensures NewRows(accepts) == [Session(accepts[0].fd, accepts[0].grant.tfd, 30)] + NewRows(accepts[1..])
  {}

  lemma OpenedKeepsArmed(w: World, a: Accept)
    requires Inv(w) && Fresh(w, a) && a.grant.Granted?
    ensures forall fd :: fd in w.armed ==> fd in Opened(w, a).armed && Opened(w, a).armed[fd] == w.armed[fd]
    ensures a.grant.tfd in Opened(w, a).armed && Opened(w, a).armed[a.grant.tfd] == w.now + a.delay + 30
    ensures Opened(w, a).now == w.now + a.delay
    ensures Opened(w, a).rows == w.rows + [Session(a.fd, a.grant.tfd, 30)]
  {
    hide Serials, Memory, OnTime;
    assert forall fd :: fd in w.armed ==> fd in w.open;
  }

  /** One listener event takes all pending connections: each gets a row, in order, and is due thirty
      seconds after its accept; no other timer changes. */
  lemma {:induction false} AcceptsAll(w: World, accepts: seq<Accept>)
    requires Inv(w) && AllFresh(w, accepts)
    requires forall k :: 0 <= k < |accepts| ==> Works(accepts[k])
    ensures AcceptAll(w, accepts).Returns? && AcceptAll(w, accepts).ret == 0
    ensures var t := AcceptAll(w, accepts).w;
            && t.rows == w.rows + NewRows(accepts) && t.now == w.now + Delays(accepts, |accepts|)
            && (forall fd :: fd in w.armed ==> fd in t.armed && t.armed[fd] == w.armed[fd])
            && forall k :: 0 <= k < |accepts| ==>
                 && accepts[k].grant.tfd in t.armed
                 && t.armed[accepts[k].grant.tfd] == w.now + Delays(accepts, k + 1) + 30
    decreases |accepts|
  {
    hide Inv, AcceptOne, Opened, Fresh, Delays, NewRows;
    AcceptAllKeepsInv(w, accepts);
    if accepts == [] {
      NothingNew();
    } else {
      var a, rest := accepts[0], accepts[1..];
      AcceptExact(w, a);
      AcceptIsOpened(w, a);
      OpenedKeepsArmed(w, a);
      AcceptsAll(Opened(w, a), rest);
      NewRowsTail(accepts);
      DelaysTail(accepts, |accepts|);
      var t := AcceptAll(w, accepts).w;
      forall k | 0 <= k < |accepts|
        ensures accepts[k].grant.tfd in t.armed
        ensures t.armed[accepts[k].grant.tfd] == w.now + Delays(accepts, k + 1) + 30
      {
        DelaysTail(accepts, k + 1);
        if k == 0 {
          NoDelay(rest);
        } else {
          assert rest[k - 1] == accepts[k];
        }
      }
    }
  }

  lemma NoDelay(accepts: seq<Accept>)
    ensures Delays(accepts, 0) == 0
  {}

  lemma NothingNew()
    ensures Delays([], 0) == 0 && NewRows([]) == []
  {}

  lemma AcceptIsOpened(w: World, a: Accept)
    requires Inv(w) && Fresh(w, a) && Works(a)
    ensures AcceptOne(w, a) == Returns(Opened(w, a), 0)
  {
    hide Deadlines, Serials, Memory;
    AcceptOpens(w, a);
  }

  /** The same for the event that get_epollevent handles. */
  lemma ListenerServesAll(w: World, e: Event)
    requires Inv(w) && Obliging(w, e) && e.input && e.fd == w.listener
    ensures Handle(w, e).Returns? && Handle(w, e).ret == 0
    ensures var t, accepts := Handle(w, e).w, e.accepts;
            && t.rows == w.rows + NewRows(accepts)
            && forall k :: 0 <= k < |accepts| ==>
                 && accepts[k].grant.tfd in t.armed
                 && t.armed[accepts[k].grant.tfd] == w.now + e.delay + Delays(accepts, k + 1) + 30
  {
    hide Inv, AcceptAll, AllFresh, Works;
    TimePasses(w, w.now + e.delay);
    AcceptsAll(w.(now := w.now + e.delay), e.accepts);
  }

  /** Memory for rows grows by sixteen, and only when it is used up. */
  lemma GrowsBySixteen(w: World, a: Accept)
    requires Inv(w) && Fresh(w, a) && Timed(w, a)
    ensures AcceptOne(w, a).Returns?
    ensures AcceptOne(w, a).w.capacity == if |w.rows| == w.capacity then w.capacity + 16 else w.capacity
  {
    hide Deadlines, Serials, Memory;
    AcceptOpens(w, a);
  }

  /** The error paths of add_ev and fds_set_timerfd: epoll_ctl refuses a member and a closed
      descriptor, and the program ends; without a timer there is no row, but the memory stays; and a
      timer that is not open is EBADF. */
  lemma ErrorPaths(w: World, fd: int, timeout: int, memory: bool, grant: Grant, s: Session)
    ensures fd in w.interest || fd !in w.open ==> AddEv(w, fd, timeout, memory, grant).Exits?
    ensures fd !in w.interest && fd in w.open && grant.Refused? && (memory || |w.rows| != w.capacity) ==>
              var o := AddEv(w, fd, timeout, memory, grant);
              && o.Returns? && o.ret == grant.errno && o.w.rows == w.rows && o.w.interest == w.interest + {fd}
              && o.w.capacity == if |w.rows| == w.capacity then w.capacity + 16 else w.capacity
    ensures fd !in w.interest && fd in w.open && !memory && |w.rows| == w.capacity ==>
              AddEv(w, fd, timeout, memory, grant) == Returns(w.(interest := w.interest + {fd}), 12)
    ensures s.timerfd !in w.open || w.open[s.timerfd] != TimerFd ==> SetTimer(w, s) == Returns(w, 9)
  {}

  /** Handling a batch is handling its parts one after the other, up to the first failure. */
  lemma {:induction false} HandleAllAppend(w: World, some: seq<Event>, more: seq<Event>)
    ensures var o := HandleAll(w, some);
            HandleAll(w, some + more) == if o.Exits? || o.ret != 0 then o else HandleAll(o.w, more)
    decreases |some|
  {
    hide Handle;
    if some == [] {
      assert some + more == more;
    } else {
      assert (some + more)[1..] == some[1..] + more;
      var o := Handle(w, some[0]);
      if o.Returns? {
        HandleAllAppend(o.w, some[1..], more);
      }
    }
  }

  lemma OneRound(w: World, batch: Batch)
    ensures Rounds(w, [batch]) == HandleAll(w.(now := w.now + batch.wait), batch.events)
  {
    hide HandleAll;
    assert [batch][1..] == [];
    assert forall t: World :: Rounds(t, []) == Returns(t, 0);
  }

  /** The rounds of `main` follow each other; a failing get_epollevent ends none but its own. */
  lemma {:induction false} RoundsAppend(w: World, some: seq<Batch>, more: seq<Batch>)
    ensures var o := Rounds(w, some);
            Rounds(w, some + more) ==
              if o.Exits? then Exits
              else
                var p := Rounds(o.w, more);
                if p.Exits? || o.ret == 0 then p else Returns(p.w, o.ret)
    decreases |some|
  {
    hide HandleAll;
    if some == [] {
      assert some + more == more;
    } else {
      assert (some + more)[1..] == some[1..] + more;
      var o := HandleAll(w.(now := w.now + some[0].wait), some[0].events);
      if o.Returns? {
        RoundsAppend(o.w, some[1..], more);
      }
    }
  }

  /** The session has no row: there was no memory for it, or no timer. */
  predicate Unlisted(w: World, a: Accept) {
    a.grant.Refused? || (Full(w) && !a.memory)
  }

  /** Why memory and timers have to succeed: after an accept whose session got no row, data on that
      socket makes get_epollevent fail, and its hang-up ends the program. After one whose timer could
      not be set, data sets it, but nothing watches it; the hang-up ends the program, and so does an
      event taken for its timeout. */
  lemma UntimedSocketFails(w: World, a: Accept)
    requires Inv(w) && Fresh(w, a) && !Timed(w, a)
    ensures AcceptOne(w, a).Returns?
    ensures var t := AcceptOne(w, a).w;
            && Handle(t, Event(a.fd, true, [], 0, 0)).Exits?
            && if Unlisted(w, a) then
                 forall n: nat :: 0 < n ==> Handle(t, Event(a.fd, true, [], n, 0)) == Returns(t, -1)
               else
                 && Handle(t, Event(a.grant.tfd, true, [], 0, 0)).Exits?
                 && forall n: nat :: 0 < n ==>
                      var o := Handle(t, Event(a.fd, true, [], n, 0));
                      o.Returns? && o.ret == 0 && a.grant.tfd in o.w.armed && a.grant.tfd !in o.w.interest
  {
    hide Inv, AcceptOne, DelEv, HandleNow, Full, SetTimer, Unused;
    NotInTable(w, a.fd);
    if Unlisted(w, a) {
      UnlistedAccept(w, a);
      var t := AcceptOne(w, a).w;
      assert t.(now := t.now + 0) == t;
      UnknownSocket(t, a.fd);
    } else {
      NotInTable(w, a.grant.tfd);
      UnsetAccept(w, a);
      FindLast(w.rows, Session(a.fd, a.grant.tfd, TIMEOUT));
      var t := AcceptOne(w, a).w;
      assert t.(now := t.now + 0) == t;
      UnsetSocket(t, a.fd, a.grant.tfd);
    }
  }

  lemma UnlistedAccept(w: World, a: Accept)
    requires Fresh(w, a) && Unlisted(w, a) && a.fd !in w.interest
    ensures AcceptOne(w, a).Returns?
    ensures var t := AcceptOne(w, a).w;
            && t.rows == w.rows && t.listener == w.listener
            && a.fd in t.interest && a.fd in t.open && t.open[a.fd] == SocketFd
            && a.fd in t.active && t.active[a.fd] == t.now
  {}

  lemma UnsetAccept(w: World, a: Accept)
    requires Fresh(w, a) && a.grant.Unset? && !Unlisted(w, a) && a.fd !in w.interest && a.grant.tfd !in w.interest
    ensures AcceptOne(w, a).Returns?
    ensures var t := AcceptOne(w, a).w;
            && t.rows == w.rows + [Session(a.fd, a.grant.tfd, TIMEOUT)] && t.listener == w.listener
            && a.fd in t.interest && a.fd in t.open && t.open[a.fd] == SocketFd
            && a.grant.tfd !in t.interest && a.grant.tfd in t.open && t.open[a.grant.tfd] == TimerFd
            && a.fd in t.active && t.active[a.fd] == t.now
  {}

  lemma FindLast(rows: seq<Session>, s: Session)
    requires FindSocket(rows, s.socketfd) == |rows| == FindTimer(rows, s.timerfd)
    requires FindTimer(rows, s.socketfd) == |rows| && s.socketfd != s.timerfd
    ensures FindSocket(rows + [s], s.socketfd) == |rows| == FindTimer(rows + [s], s.timerfd)
    ensures FindTimer(rows + [s], s.socketfd) == |rows| + 1
  {
    var more := rows + [s];
    assert more[|rows|] == s && |more| == |rows| + 1;
    assert forall k :: 0 <= k < |rows| ==> more[k] == rows[k];
  }

  /** A session whose timer is not in the interest set. */
  lemma UnsetSocket(w: World, fd: int, tfd: int)
    requires fd != w.listener && tfd != w.listener && fd in w.interest && tfd !in w.interest && fd != tfd
    requires fd in w.open && w.open[fd] == SocketFd && tfd in w.open && w.open[tfd] == TimerFd
    requires fd in w.active && w.active[fd] == w.now
    requires |w.rows| > 0 && w.rows[|w.rows| - 1] == Session(fd, tfd, TIMEOUT)
    requires FindSocket(w.rows, fd) == |w.rows| - 1 == FindTimer(w.rows, tfd) && FindTimer(w.rows, fd) == |w.rows|
    ensures HandleNow(w, Event(fd, true, [], 0, 0)).Exits?
    ensures HandleNow(w, Event(tfd, true, [], 0, 0)).Exits?
    ensures forall n: nat :: 0 < n ==>
              var o := HandleNow(w, Event(fd, true, [], n, 0));
              o.Returns? && o.ret == 0 && tfd in o.w.armed && tfd !in o.w.interest
  {}

  lemma UnknownSocket(w: World, fd: int)
    requires fd != w.listener && fd in w.interest && fd in w.open && w.open[fd] == SocketFd
    requires FindSocket(w.rows, fd) == |w.rows| && FindTimer(w.rows, fd) == |w.rows|
    requires fd in w.active && w.active[fd] == w.now
    ensures forall n: nat :: 0 < n ==> HandleNow(w, Event(fd, true, [], n, 0)) == Returns(w, -1)
    ensures HandleNow(w, Event(fd, true, [], 0, 0)).Exits?
  {
    assert w.(active := w.active[fd := w.now]) == w;
  }

  lemma NotInTable(w: World, fd: int)
    requires Inv(w) && Unused(w, fd)
    ensures FindSocket(w.rows, fd) == |w.rows| && FindTimer(w.rows, fd) == |w.rows|
    ensures fd != w.listener && fd !in w.interest
  {
    hide Deadlines, Serials, Memory;
    var i, k := FindSocket(w.rows, fd), FindTimer(w.rows, fd);
    if i < |w.rows| {
      RowInColumns(w.rows, i);
    }
    if k < |w.rows| {
      RowInColumns(w.rows, k);
    }
  }
}
