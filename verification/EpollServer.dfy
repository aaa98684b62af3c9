/** The code of Chapter11/epoll_timerfd.c on its global session table, next to the kernel's sets
    that its system calls change. Every method does what EventLoop's function of the same name
    says, so the theorems about those functions are theorems about these methods. */
module EpollServers {
  import opened EventLoop
  import opened SessionTables

  /** A timerfd_create that succeeds does not return -1. */
  predicate RealTimers(accepts: seq<Accept>) {
    forall k :: 0 <= k < |accepts| && !accepts[k].grant.Refused? ==> accepts[k].grant.tfd != -1
  }

  class EpollServer {
    const table: SessionTable
    const listener: int
    const fixed: set<int>
    var open: map<int, Kind>
    var interest: set<int>
    var armed: map<int, int>
    var now: int
    ghost var active: map<int, int>
    ghost var serial: map<int, nat>
    ghost var births: nat
    ghost var timedOut: set<nat>

    ghost predicate Valid()
      reads this, table
    {
      table.Valid()
    }

    ghost function Model(): World
      requires Valid()
      reads this, table, table.list
    {
      World(table.Rows(), open, interest, armed, now, table.nAllocated, listener, fixed,
            active, serial, births, timedOut, table.peak)
    }

    constructor (listener: int, fixed: set<int>, now: int)
      requires listener !in fixed
      ensures Valid() && Initial(Model())
      ensures fresh(table) && fresh(table.list)
    {
      this.table := new SessionTable();
      this.listener, this.fixed, this.now := listener, fixed, now;
      this.open, this.interest, this.armed := map[listener := ListenerFd], {listener}, map[];
      this.active, this.serial, this.births, this.timedOut := map[], map[], 0, {};
    }

    /** `fds_set_timerfd` */
    method SetTimer(s: Session) returns (ret: int)
      requires Valid()
      modifies this`armed
      ensures Valid() && Returns(Model(), ret) == EventLoop.SetTimer(old(Model()), s)
    {
      if s.timerfd in open && open[s.timerfd] == TimerFd {
        armed := armed[s.timerfd := now + s.timeout];
        return 0;
      }
      return EBADF;
    }

    /** `fds_new_timerfd` with the kernel's part: if there is memory and a timer, a row and an open
        timer. */
    method NewTimer(fd: int, timeout: int, memory: bool, grant: Grant) returns (listed: bool, err: int, at: nat)
      requires Valid() && (!grant.Refused? ==> grant.tfd != -1)
      modifies this`open, this`serial, this`births, table, table.list
      ensures Valid() && (table.list == old(table.list) || fresh(table.list))
      ensures listed <==> !grant.Refused? && (memory || !old(Full(Model())))
      ensures if listed then
                && err == 0 && at < table.list.Length && table.list[at] == Session(fd, grant.tfd, timeout)
                && Model() == Enrol(Grown(old(Model())), table.list[at])
              else if old(Full(Model())) && !memory then err == ENOMEM && Model() == old(Model())
              else err == grant.errno && Model() == Grown(old(Model()))
    {
      hide SessionTable.Tight;
      var tfd := if grant.Refused? then -1 else grant.tfd;
      listed := !grant.Refused? && (memory || table.nAllocated != table.nUsed);
      err, at := table.NewTimerfd(fd, timeout, memory, tfd, if grant.Refused? then grant.errno else 0);
      if listed {
        open := open[tfd := TimerFd];
        serial, births := serial[fd := births], births + 1;
      }
    }

    /** `add_ev` with a positive timeout; `exits` stands for pr_crt. */
    method AddEv(fd: int, timeout: int, memory: bool, grant: Grant) returns (exits: bool, ret: int)
      requires Valid() && (!grant.Refused? ==> grant.tfd != -1)
      modifies this, table, table.list
      ensures Valid() && (table.list == old(table.list) || fresh(table.list))
      ensures var o := EventLoop.AddEv(old(Model()), fd, timeout, memory, grant);
              exits == o.Exits? && (!exits ==> Returns(Model(), ret) == o)
    {
      hide SessionTable.Tight, CloseFd, FindSocket, FindTimer, Sockets, Timers;
      exits, ret := false, 0;
      if !(fd in open && fd !in interest) {
        return true, -1;
      }
      interest := interest + {fd};
      ghost var w := Model();
      var listed, err, at := NewTimer(fd, timeout, memory, grant);
      if !listed {
        return false, err;
      }
      var tfd := grant.tfd;
      if grant.Unset? {
        return false, grant.errno;
      }
      ret := SetTimer(table.list[at]);
      if !(tfd in open && tfd !in interest) {
        return true, -1;
      }
      interest := interest + {tfd};
    }

    /** EPOLL_CTL_DEL and close, as `del_ev` does for both descriptors of a session. */
    method Drop(fd: int) returns (exits: bool)
      requires Valid()
      modifies this`interest, this`open, this`armed
      ensures Valid() && exits == (fd !in old(interest))
      ensures !exits ==> Model() == CloseFd(old(Model()).(interest := old(interest) - {fd}), fd)
    {
      if fd !in interest {
        return true;
      }
      interest, open, armed := interest - {fd}, open - {fd}, armed - {fd};
      return false;
    }

    /** `del_ev` */
    method DelEv(fd: int) returns (exits: bool, ret: int)
      requires Valid()
      modifies this, table`nUsed, table.list
      ensures Valid()
      ensures var o := EventLoop.DelEv(old(Model()), fd);
              exits == o.Exits? && (!exits ==> Returns(Model(), ret) == o)
    {
      hide Sockets, Timers, CloseFd, FindSocket, FindTimer;
      exits := Drop(fd);
      if exits {
        return true, -1;
      }
      assert table.Rows() == old(table.Rows());
      var found, at := table.FindBySocketfd(fd);
      if found != 0 {
        return false, found;
      }
      var tfd := table.list[at].timerfd;
      exits := Drop(tfd);
      if exits {
        return true, -1;
      }
      ghost var before := Model();
      ret := table.DeleteByTimerfd(tfd);
      if ret == 0 {
        active, serial := active - {fd}, serial - {fd};
        assert Model() == Strike(before, FindTimer(before.rows, tfd), fd);
      }
      return false, ret;
    }

    /** The accept loop; `accepts` are the calls that succeed. */
    method AcceptLoop(accepts: seq<Accept>) returns (exits: bool)
      requires Valid()
      requires RealTimers(accepts)
      modifies this, table, table.list
      ensures Valid() && (table.list == old(table.list) || fresh(table.list))
      ensures var o := AcceptAll(old(Model()), accepts);
              exits == o.Exits? && (!exits ==> Returns(Model(), 0) == o)
    {
      hide EventLoop.AddEv;
      var k := 0;
      while k < |accepts|
        invariant k <= |accepts| && Valid() && (table.list == old(table.list) || fresh(table.list))
        invariant AcceptAll(Model(), accepts[k..]) == AcceptAll(old(Model()), accepts)
      {
        var a := accepts[k];
        assert accepts[k..][1..] == accepts[k + 1..];
        now, open := now + a.delay, open[a.fd := SocketFd];
        active := active[a.fd := now];
        var ret;
        exits, ret := AddEv(a.fd, TIMEOUT, a.memory, a.grant);
        if exits || ret == -1 {
          return true;
        }
        k := k + 1;
      }
      return false;
    }

    /** The body of the loop in `get_epollevent`. */
    method HandleEvent(e: Event) returns (exits: bool, ret: int)
      requires Valid()
      requires RealTimers(e.accepts)
      modifies this, table, table.list
      ensures Valid() && (table.list == old(table.list) || fresh(table.list))
      ensures var o := Handle(old(Model()), e);
              exits == o.Exits? && (!exits ==> Returns(Model(), ret) == o)
    {
      hide EventLoop.DelEv, EventLoop.SetTimer, AcceptAll, Sockets, Timers, FindSocket, FindTimer;
      now := now + e.delay;
      if !e.input {
        return false, 0;
      }
      if e.fd == listener {
        exits := AcceptLoop(e.accepts);
        return exits, 0;
      }
      var found, at := table.FindByTimerfd(e.fd);
      if found == 0 {
        var sfd := table.list[at].socketfd;
        if sfd in serial {
          timedOut := timedOut + {serial[sfd]};
        }
        exits, ret := DelEv(sfd);
        return exits || ret == -1, 0;
      }
      var received := if e.fd in open && open[e.fd] == SocketFd then e.recv else -1;
      if received == -1 {
        return false, 0;
      }
      if received == 0 {
        exits, ret := DelEv(e.fd);
        return exits || ret == -1, 0;
      }
      active := active[e.fd := now];
      found, at := table.FindBySocketfd(e.fd);
      if found != 0 {
        return false, found;
      }
      ret := SetTimer(table.list[at]);
      return false, ret;
    }

    /** `get_epollevent` */
    method GetEpollEvent(events: seq<Event>) returns (exits: bool, ret: int)
      requires Valid()
      requires forall i :: 0 <= i < |events| ==> RealTimers(events[i].accepts)
      modifies this, table, table.list
      ensures Valid() && (table.list == old(table.list) || fresh(table.list))
      ensures var o := HandleAll(old(Model()), events);
              exits == o.Exits? && (!exits ==> Returns(Model(), ret) == o)
      ensures old(Inv(Model())) && AllObliging(old(Model()), events) ==> !exits && ret == 0 && Inv(Model())
    {
      hide Inv, Handle;
      ghost var w := Model();
      if Inv(w) && AllObliging(w, events) {
        HandleAllKeepsInv(w, events);
      }
      var i := 0;
      while i < |events|
        invariant i <= |events| && Valid() && (table.list == old(table.list) || fresh(table.list))
        invariant HandleAll(Model(), events[i..]) == HandleAll(w, events)
      {
        assert events[i..][1..] == events[i + 1..];
        exits, ret := HandleEvent(events[i]);
        if exits || ret != 0 {
          return;
        }
        i := i + 1;
      }
      return false, 0;
    }

    /** The loop in `main`, for any number of batches; `ret` is the first nonzero return. */
    method Serve(batches: seq<Batch>) returns (exits: bool, ret: int)
      requires Valid()
      requires forall b, i :: 0 <= b < |batches| && 0 <= i < |batches[b].events| ==>
                 RealTimers(batches[b].events[i].accepts)
      modifies this, table, table.list
      ensures Valid() && (table.list == old(table.list) || fresh(table.list))
      ensures var o := Rounds(old(Model()), batches);
              exits == o.Exits? && (!exits ==> Returns(Model(), ret) == o)
    {
      hide Inv, HandleAll, AllObliging;
      exits, ret := false, 0;
      var b := 0;
      while b < |batches|
        invariant b <= |batches| && !exits && Valid() && (table.list == old(table.list) || fresh(table.list))
        invariant var rest := Rounds(Model(), batches[b..]);
                  Rounds(old(Model()), batches) == if rest.Exits? || ret == 0 then rest else Returns(rest.w, ret)
      {
        assert batches[b..][1..] == batches[b + 1..];
        now := now + batches[b].wait;
        var r;
        exits, r := GetEpollEvent(batches[b].events);
        if exits {
          return;
        }
        ret := if ret == 0 then r else ret;
        b := b + 1;
      }
    }
  }
}
