/** The session table of Chapter11/epoll_timerfd.c: an array that grows by sixteen, is searched
    by socket or by timer descriptor and shrinks by swap-delete. */
module SessionTables {
  import opened SwapDelete

  datatype Session = Session(socketfd: int, timerfd: int, timeout: int)

  // ---------------------------------------------------------------- the table as a value

  /** The first row with that socket; the number of rows when there is none. */
  function FindSocket(rows: seq<Session>, fd: int): (i: nat)
    ensures i <= |rows| && (i < |rows| ==> rows[i].socketfd == fd)
    ensures forall k :: 0 <= k < i ==> rows[k].socketfd != fd
  {
    if rows == [] || rows[0].socketfd == fd then 0 else 1 + FindSocket(rows[1..], fd)
  }

  /** The first row with that timer; the number of rows when there is none. */
  function FindTimer(rows: seq<Session>, fd: int): (i: nat)
    ensures i <= |rows| && (i < |rows| ==> rows[i].timerfd == fd)
    ensures forall k :: 0 <= k < i ==> rows[k].timerfd != fd
  {
    if rows == [] || rows[0].timerfd == fd then 0 else 1 + FindTimer(rows[1..], fd)
  }

  /** No descriptor occurs twice, in either column. */
  ghost predicate Distinct(rows: seq<Session>) {
    && (forall i, j :: 0 <= i < j < |rows| ==>
          rows[i].socketfd != rows[j].socketfd && rows[i].timerfd != rows[j].timerfd)
  }

  ghost function Sockets(rows: seq<Session>): set<int> {
    set i | 0 <= i < |rows| :: rows[i].socketfd
  }

  ghost function Timers(rows: seq<Session>): set<int> {
    set i | 0 <= i < |rows| :: rows[i].timerfd
  }

  /** The map from sockets to timers that the table stands for, and its inverse. */
  ghost function TimerOf(rows: seq<Session>): (m: map<int, int>)
    requires Distinct(rows)
    ensures m.Keys == Sockets(rows)
    ensures forall i :: 0 <= i < |rows| ==> m[rows[i].socketfd] == rows[i].timerfd
  {
    map i | 0 <= i < |rows| :: rows[i].socketfd := rows[i].timerfd
  }

  ghost function SocketOf(rows: seq<Session>): (m: map<int, int>)
    requires Distinct(rows)
    ensures m.Keys == Timers(rows)
    ensures forall i :: 0 <= i < |rows| ==> m[rows[i].timerfd] == rows[i].socketfd
  {
    map i | 0 <= i < |rows| :: rows[i].timerfd := rows[i].socketfd
  }

  /** Both searches succeed exactly on members, find what the maps hold, and are inverse to each
      other. */
  lemma LookupsAreInverse(rows: seq<Session>, fd: int)
    requires Distinct(rows)
    ensures FindSocket(rows, fd) < |rows| <==> fd in TimerOf(rows)
    ensures FindTimer(rows, fd) < |rows| <==> fd in SocketOf(rows)
    ensures fd in TimerOf(rows) ==>
              && rows[FindSocket(rows, fd)].timerfd == TimerOf(rows)[fd]
              && TimerOf(rows)[fd] in SocketOf(rows) && SocketOf(rows)[TimerOf(rows)[fd]] == fd
              && FindTimer(rows, TimerOf(rows)[fd]) == FindSocket(rows, fd)
    ensures fd in SocketOf(rows) ==>
              && rows[FindTimer(rows, fd)].socketfd == SocketOf(rows)[fd]
              && SocketOf(rows)[fd] in TimerOf(rows) && TimerOf(rows)[SocketOf(rows)[fd]] == fd
              && FindSocket(rows, SocketOf(rows)[fd]) == FindTimer(rows, fd)
  {
    var i, j := FindSocket(rows, fd), FindTimer(rows, fd);
    if i < |rows| {
      assert rows[i].timerfd in SocketOf(rows);
    }
    if j < |rows| {
      assert rows[j].socketfd in TimerOf(rows);
    }
  }

  /** A map that agrees with every row and has no other key is the table's map. */
  lemma IsTimerOf(rows: seq<Session>, m: map<int, int>)
    requires Distinct(rows) && m.Keys == Sockets(rows)
    requires forall i :: 0 <= i < |rows| ==> m[rows[i].socketfd] == rows[i].timerfd
    ensures m == TimerOf(rows)
  {
    forall fd | fd in m
      ensures m[fd] == TimerOf(rows)[fd]
    {
      var i :| 0 <= i < |rows| && rows[i].socketfd == fd;
    }
  }

  lemma IsSocketOf(rows: seq<Session>, m: map<int, int>)
    requires Distinct(rows) && m.Keys == Timers(rows)
    requires forall i :: 0 <= i < |rows| ==> m[rows[i].timerfd] == rows[i].socketfd
    ensures m == SocketOf(rows)
  {
    forall fd | fd in m
      ensures m[fd] == SocketOf(rows)[fd]
    {
      var i :| 0 <= i < |rows| && rows[i].timerfd == fd;
    }
  }

  lemma AppendColumns(rows: seq<Session>, s: Session)
    ensures Sockets(rows + [s]) == Sockets(rows) + {s.socketfd}
    ensures Timers(rows + [s]) == Timers(rows) + {s.timerfd}
  {
    var more := rows + [s];
    assert forall i :: 0 <= i < |rows| ==> more[i] == rows[i];
    assert more[|rows|] == s;
  }

  /** A new row adds one pair to the two-way map. */
  lemma AppendRefinesMap(rows: seq<Session>, s: Session)
    requires Distinct(rows) && s.socketfd !in Sockets(rows) && s.timerfd !in Timers(rows)
    ensures Distinct(rows + [s])
    ensures TimerOf(rows + [s]) == TimerOf(rows)[s.socketfd := s.timerfd]
    ensures SocketOf(rows + [s]) == SocketOf(rows)[s.timerfd := s.socketfd]
  {
    hide Sockets, Timers, Distinct;
    AppendDistinct(rows, s);
    AppendColumns(rows, s);
    IsTimerOf(rows + [s], TimerOf(rows)[s.socketfd := s.timerfd]);
    IsSocketOf(rows + [s], SocketOf(rows)[s.timerfd := s.socketfd]);
  }

  lemma AppendDistinct(rows: seq<Session>, s: Session)
    requires Distinct(rows) && s.socketfd !in Sockets(rows) && s.timerfd !in Timers(rows)
    ensures Distinct(rows + [s])
    ensures forall i :: 0 <= i < |rows| ==> rows[i].socketfd != s.socketfd && rows[i].timerfd != s.timerfd
  {}

  lemma RemoveColumns(rows: seq<Session>, i: nat)
    requires Distinct(rows) && i < |rows|
    ensures Distinct(Remove(rows, i))
    ensures Sockets(Remove(rows, i)) == Sockets(rows) - {rows[i].socketfd}
    ensures Timers(Remove(rows, i)) == Timers(rows) - {rows[i].timerfd}
  {
    var fewer := Remove(rows, i);
    assert forall k: nat :: k < |fewer| ==> fewer[k] == rows[if k == i then |rows| - 1 else k];
    forall fd | fd in Sockets(rows) - {rows[i].socketfd}
      ensures fd in Sockets(fewer)
    {
      var k :| 0 <= k < |rows| && rows[k].socketfd == fd;
      assert fewer[if k == |rows| - 1 then i else k] == rows[k];
    }
    forall fd | fd in Timers(rows) - {rows[i].timerfd}
      ensures fd in Timers(fewer)
    {
      var k :| 0 <= k < |rows| && rows[k].timerfd == fd;
      assert fewer[if k == |rows| - 1 then i else k] == rows[k];
    }
  }

  /** Swap-delete removes exactly that row's pair from the two-way map. */
  lemma RemoveRefinesMap(rows: seq<Session>, i: nat)
    requires Distinct(rows) && i < |rows|
    ensures Distinct(Remove(rows, i))
    ensures TimerOf(Remove(rows, i)) == TimerOf(rows) - {rows[i].socketfd}
    ensures SocketOf(Remove(rows, i)) == SocketOf(rows) - {rows[i].timerfd}
  {
    RemoveColumns(rows, i);
    var fewer := Remove(rows, i);
    assert forall k: nat :: k < |fewer| ==> fewer[k] == rows[if k == i then |rows| - 1 else k];
    IsTimerOf(fewer, TimerOf(rows) - {rows[i].socketfd});
    IsSocketOf(fewer, SocketOf(rows) - {rows[i].timerfd});
  }

  // ---------------------------------------------------------------- the table in memory

  const ENOENT := 2
  const ENOMEM := 12
  const GROWTH := 16

  class SessionTable {
    var list: array<Session>
    var nAllocated: nat
    var nUsed: nat
    ghost var peak: nat // the largest number of sessions so far

    ghost predicate Valid()
      reads this
    {
      && list.Length == nAllocated && nUsed <= nAllocated
      && nAllocated % GROWTH == 0 && nUsed <= peak && nAllocated <= peak + GROWTH
    }

    /** Never a whole block more than the peak needed. */
    ghost predicate Tight()
      reads this
    {
      nAllocated < peak + GROWTH
    }

    ghost function Rows(): seq<Session>
      requires Valid()
      reads this, list
    {
      list[..nUsed]
    }

    constructor ()
      ensures Valid() && Tight() && fresh(list) && Rows() == [] && nAllocated == peak == 0
    {
      list := new Session[0];
      nAllocated, nUsed, peak := 0, 0, 0;
    }

    /** `fds_new_timerfd`: `memory` says whether realloc succeeds when it is called, `fd` is what
        timerfd_create returns. On success `at` is the index of the new row. The growth stays tight
        exactly if no growth is followed by a failing timerfd_create. */
    method NewTimerfd(socketfd: int, timeout: int, memory: bool, fd: int, errno: int) returns (err: int, at: nat)
      requires Valid()
      modifies this, list
      ensures Valid() && (list == old(list) || fresh(list))
      ensures var full := old(nAllocated == nUsed);
              if full && !memory then err == ENOMEM && unchanged(this)
              else if fd == -1 then err == errno
              else err == 0
      ensures if (old(nAllocated == nUsed) && !memory) || fd == -1
              then Rows() == old(Rows()) && peak == old(peak)
              else && at == old(nUsed) && Rows() == old(Rows()) + [Session(socketfd, fd, timeout)]
                   && peak == if old(peak) < nUsed then nUsed else old(peak)
      ensures nAllocated == old(nAllocated) + if old(nAllocated == nUsed) && memory then GROWTH else 0
      ensures old(Tight()) ==> (Tight() <==> !(old(nAllocated == nUsed == peak) && memory && fd == -1))
    {
      err, at := 0, 0;
      if nAllocated == nUsed {
        if !memory {
          err := ENOMEM;
          return;
        }
        var bigger := new Session[nAllocated + GROWTH];
        forall i | 0 <= i < nUsed {
          bigger[i] := list[i];
        }
        list, nAllocated := bigger, nAllocated + GROWTH;
      }
      if fd == -1 {
        err := errno;
        return;
      }
      list[nUsed] := Session(socketfd, fd, timeout);
      at := nUsed;
      nUsed := nUsed + 1;
      if peak < nUsed {
        peak := nUsed;
      }
    }

    /** `fds_deletebytimerfd` */
    method DeleteByTimerfd(timerfd: int) returns (err: int)
      requires Valid()
      modifies this`nUsed, list
      ensures Valid()
      ensures var i := old(FindTimer(Rows(), timerfd));
              if i < old(nUsed) then
                && err == 0 && Rows() == Remove(old(Rows()), i)
                && nUsed < list.Length && list[nUsed].socketfd == list[nUsed].timerfd == -1
              else err == ENOENT && Rows() == old(Rows())
    {
      var i := 0;
      while i < nUsed
        invariant i <= nUsed && nUsed == old(nUsed)
        invariant forall k :: 0 <= k < i ==> list[k].timerfd != timerfd
        invariant list[..] == old(list[..])
      {
        if list[i].timerfd == timerfd {
          if i != nUsed - 1 {
            list[i] := list[nUsed - 1];
          }
          list[nUsed - 1] := list[nUsed - 1].(socketfd := -1, timerfd := -1);
          nUsed := nUsed - 1;
          assert old(FindTimer(Rows(), timerfd)) == i;
          return 0;
        }
        i := i + 1;
      }
      assert old(FindTimer(Rows(), timerfd)) == nUsed;
      return ENOENT;
    }

    /** `fds_findbysocketfd`: the row's index stands for the pointer stored in `*ret_fds`. */
    method FindBySocketfd(fd: int) returns (ret: int, at: nat)
      requires Valid()
      ensures at == FindSocket(Rows(), fd) && ret == if at < |Rows()| then 0 else -1
      ensures ret == 0 <==> fd in Sockets(Rows())
    {
      at := 0;
      while at < nUsed
        invariant at <= nUsed
        invariant forall k :: 0 <= k < at ==> list[k].socketfd != fd
      {
        if list[at].socketfd == fd {
          assert FindSocket(Rows(), fd) == at;
          return 0, at;
        }
        at := at + 1;
      }
      return -1, at;
    }

    /** `fds_findbytimerfd` */
    method FindByTimerfd(fd: int) returns (ret: int, at: nat)
      requires Valid()
      ensures at == FindTimer(Rows(), fd) && ret == if at < |Rows()| then 0 else -1
      ensures ret == 0 <==> fd in Timers(Rows())
    {
      at := 0;
      while at < nUsed
        invariant at <= nUsed
        invariant forall k :: 0 <= k < at ==> list[k].timerfd != fd
      {
        if list[at].timerfd == fd {
          assert FindTimer(Rows(), fd) == at;
          return 0, at;
        }
        at := at + 1;
      }
      return -1, at;
    }
  }
}
