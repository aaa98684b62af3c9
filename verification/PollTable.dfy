/** The descriptor table of Chapter07/io_poll.c and the sweep that serves it while it shrinks. */
module PollTables {
  import opened Serving
  import opened SwapDelete

  /** A table entry with the events that the last poll reported for it. */
  datatype Entry = Entry(fd: int, pollin: bool, pollerr: bool, pollnval: bool, other: bool) {
    predicate Signalled() {
      pollin || pollerr || pollnval || other
    }

    /** The events that the sweep counts down. */
    predicate Counted() {
      pollin || pollerr || pollnval
    }
  }

  ghost predicate Distinct(rows: seq<Entry>) {
    forall i, j :: 0 <= i < j < |rows| ==> rows[i].fd != rows[j].fd
  }

  ghost function Fds(rows: seq<Entry>): set<int> {
    set k | 0 <= k < |rows| :: rows[k].fd
  }

  /** Descriptors at index `i` or later for which poll reported POLLIN. */
  ghost function ReadyFrom(rows: seq<Entry>, i: nat): set<int> {
    set k | i <= k < |rows| && rows[k].pollin :: rows[k].fd
  }

  /** Number of entries at index `i` or later with an event: any event, which over the whole table is
      what poll returns, or one that the sweep counts down. */
  function SignalledFrom(rows: seq<Entry>, i: nat, any: bool): nat
    decreases |rows| - i
  {
    if i >= |rows| then 0
    else (if (if any then rows[i].Signalled() else rows[i].Counted()) then 1 else 0) + SignalledFrom(rows, i + 1, any)
  }

  /** No client at an index below `n` with POLLIN has been closed by its peer. */
  predicate NobodyHungUp(rows: seq<Entry>, n: nat, recv: int -> int) {
    forall k :: 1 <= k < n && k < |rows| && rows[k].pollin ==> recv(rows[k].fd) != 0
  }

  lemma NobodyElse(rows: seq<Entry>, n: nat, recv: int -> int)
    requires NobodyHungUp(rows, n, recv) && ReadyFrom(rows, n) == {}
    ensures NobodyHungUp(rows, |rows|, recv)
  {
    assert forall k :: n <= k < |rows| && rows[k].pollin ==> rows[k].fd in ReadyFrom(rows, n);
  }

  // ---------------------------------------------------------------- what a step of the sweep does

  lemma ReadyStep(rows: seq<Entry>, i: nat)
    requires Distinct(rows) && i < |rows|
    ensures ReadyFrom(rows, i) == ReadyFrom(rows, i + 1) + if rows[i].pollin then {rows[i].fd} else {}
    ensures rows[i].fd !in ReadyFrom(rows, i + 1)
  {}

  /** A deletion brings the last entry to the gap: what is ready from there on is what was ready
      behind it. */
  lemma ReadyAfterRemove(rows: seq<Entry>, i: nat)
    requires Distinct(rows) && i < |rows|
    ensures Distinct(Remove(rows, i))
    ensures Fds(Remove(rows, i)) == Fds(rows) - {rows[i].fd}
    ensures ReadyFrom(Remove(rows, i), i) == ReadyFrom(rows, i + 1)
  {
    var fewer := Remove(rows, i);
    RemoveIndex(rows, i);
    forall k | 0 <= k < |rows| && k != i
      ensures fewer[if k == |rows| - 1 then i else k] == rows[k]
    {}
  }

  lemma {:induction false} SignalledTail(rows: seq<Entry>, other: seq<Entry>, i: nat, any: bool)
    requires |rows| == |other| && forall k :: i <= k < |rows| ==> rows[k] == other[k]
    ensures SignalledFrom(rows, i, any) == SignalledFrom(other, i, any)
    decreases |rows| - i
  {
    if i < |rows| {
      SignalledTail(rows, other, i + 1, any);
    }
  }

  lemma {:induction false} SignalledLast(rows: seq<Entry>, i: nat, any: bool)
    requires i < |rows|
    ensures SignalledFrom(rows, i, any)
            == SignalledFrom(rows[..|rows| - 1], i, any) + SignalledFrom([rows[|rows| - 1]], 0, any)
    decreases |rows| - i
  {
    if i < |rows| - 1 {
      SignalledLast(rows, i + 1, any);
    }
  }

  lemma SignalledAfterRemove(rows: seq<Entry>, i: nat, any: bool)
    requires i < |rows|
    ensures SignalledFrom(Remove(rows, i), i, any) == SignalledFrom(rows, i + 1, any)
  {
    if i < |rows| - 1 {
      SignalledLast(rows, i + 1, any);
      SignalledTail(Remove(rows, i), rows[..|rows| - 1], i + 1, any);
    }
  }

  /** Where nothing is signalled, or at the end of the table, nothing is ready or to be counted. */
  lemma {:induction false} NothingSignalled(rows: seq<Entry>, i: nat)
    requires SignalledFrom(rows, i, true) == 0 || |rows| <= i
    ensures ReadyFrom(rows, i) == {} && SignalledFrom(rows, i, false) == 0
    decreases |rows| - i
  {
    if i < |rows| {
      NothingSignalled(rows, i + 1);
      assert forall k :: i <= k < |rows| && rows[k].pollin ==> k == i || rows[k].fd in ReadyFrom(rows, i + 1);
    }
  }

  lemma SignalledStep(rows: seq<Entry>, i: nat)
    requires i < |rows|
    ensures SignalledFrom(rows, i, true) == (if rows[i].Signalled() then 1 else 0) + SignalledFrom(rows, i + 1, true)
    ensures SignalledFrom(rows, i, false) == (if rows[i].Counted() then 1 else 0) + SignalledFrom(rows, i + 1, false)
  {}

  lemma SweepStarts(rows: seq<Entry>, recv: int -> int)
    requires 0 < |rows|
    ensures SignalledFrom(rows, 1, true) <= SignalledFrom(rows, 0, true)
    ensures NoRepeats([]) && Elements([]) == {} && HungUp([], recv) == {}
  {}

  lemma SameIndex(rows: seq<Entry>, i: int, k: int)
    requires Distinct(rows) && 0 <= i < |rows| && 0 <= k < |rows| && rows[i].fd == rows[k].fd
    ensures i == k && rows[i].fd in Fds(rows)
  {}

  lemma FirstStays(rows: seq<Entry>, i: nat)
    requires 0 < i < |rows|
    ensures |Remove(rows, i)| == |rows| - 1 && Remove(rows, i)[0] == rows[0]
  {}

  // ---------------------------------------------------------------- the table

  class PollTable {
    const fds: array<Entry>
    var cnt: nat
    var open: set<int> // the kernel's view: the descriptors the program holds

    /** The table lists exactly the open descriptors, the listener first, each once. */
    ghost predicate Valid()
      reads this, fds
    {
      && 0 < cnt <= fds.Length && Distinct(Rows()) && open == Fds(Rows())
    }

    ghost function Rows(): seq<Entry>
      requires cnt <= fds.Length
      reads this, fds
    {
      fds[..cnt]
    }

    constructor (capacity: nat, listener: int)
      requires 0 < capacity
      ensures Valid() && fresh(fds) && fds.Length == capacity && cnt == 1 && fds[0].fd == listener
    {
      fds := new Entry[capacity](_ => Entry(0, false, false, false, false));
      cnt, open := 1, {listener};
      new;
      fds[0] := fds[0].(fd := listener);
    }

    /** `add_socket`, on a descriptor that accept has just opened. */
    method AddSocket(fd: int) returns (r: int)
      requires Valid() && fd !in open
      modifies this, fds
      ensures old(cnt) < fds.Length ==>
                && r == cnt == old(cnt) + 1 && fds[..old(cnt)] == old(Rows()) && fds[old(cnt)].fd == fd
                && open == old(open) + {fd} && Valid()
      ensures old(cnt) == fds.Length ==> r == -1 && cnt == old(cnt) && Rows() == old(Rows()) && open == old(open) + {fd}
    {
      open := open + {fd};
      if cnt < fds.Length {
        fds[cnt] := fds[cnt].(fd := fd);
        cnt := cnt + 1;
        assert fds[..cnt] == old(Rows()) + [fds[cnt - 1]];
        assert forall k :: 0 <= k < old(cnt) ==> old(Rows())[k].fd in old(open);
        return cnt;
      }
      return -1;
    }

    /** `del_socket`. The slot it marks as free is the one behind the table: in a full table `overrun`
        reports a write behind the array, after which C promises nothing. */
    method DelSocket(fd: int) returns (i: int, overrun: bool)
      requires Valid()
      modifies this, fds
      ensures overrun <==> old(cnt) == fds.Length && fd in old(open)
      ensures cnt <= old(cnt)
      ensures !overrun ==> open == old(open) - {fd} && Distinct(Rows()) && open == Fds(Rows())
      ensures !overrun ==>
              if fd in old(open) then
                && 0 <= i < old(cnt) && old(fds[i].fd) == fd && Rows() == Remove(old(Rows()), i)
                && cnt + 1 < fds.Length && fds[cnt + 1].fd == -1
              else i == -1 && Rows() == old(Rows())
    {
      open := open - {fd};
      i, overrun := 0, false;
      while i < cnt
        invariant 0 <= i <= cnt && !overrun
        invariant forall k :: 0 <= k < i ==> fds[k].fd != fd
      {
        if fds[i].fd == fd {
          ReadyAfterRemove(Rows(), i);
          if i != cnt - 1 {
            fds[i] := fds[cnt - 1];
          }
          if cnt == fds.Length {
            return i, true;
          }
          fds[cnt] := fds[cnt].(fd := -1);
          cnt := cnt - 1;
          assert Rows() == Remove(old(Rows()), i);
          return i, false;
        }
        i := i + 1;
      }
      return -1, false;
    }

    /** The sweep in `main` after a poll that returned `retPoll` and did not report the listener.
        `recv` is what recv returns for each descriptor. Every client with POLLIN is served exactly
        once and no other, the clients that hung up are closed, and the others stay; unless the table
        is full and a ready client has hung up, exactly when its deletion overruns the array. `left` is
        what remains of the countdown: the entries that neither have POLLIN nor report an error. */
    method Sweep(retPoll: nat, recv: int -> int) returns (served: seq<int>, left: nat, overrun: bool)
      requires Valid() && retPoll == SignalledFrom(Rows(), 0, true)
      modifies this, fds
      ensures overrun <==> old(cnt) == fds.Length && !NobodyHungUp(old(Rows()), old(cnt), recv)
      ensures !overrun ==>
                && Valid() && fds[0] == old(fds[0])
                && NoRepeats(served) && Elements(served) == old(ReadyFrom(Rows(), 1))
                && Fds(Rows()) == old(Fds(Rows())) - HungUp(served, recv)
                && left == retPoll - old(SignalledFrom(Rows(), 1, false))
    {
      hide NoRepeats, Elements, HungUp, ReadyFrom, SignalledFrom, Fds, Remove, Distinct;
      served, left, overrun := [], retPoll, false;
      var i := 1;
      SweepStarts(Rows(), recv);
      while i < cnt && left > 0
        invariant 1 <= i <= cnt && Valid() && fds[0] == old(fds[0])
        invariant old(cnt) == fds.Length ==> Rows() == old(Rows()) && NobodyHungUp(Rows(), i, recv)
        invariant !overrun && cnt <= old(cnt)
        invariant SignalledFrom(Rows(), i, true) <= left
        invariant left + old(SignalledFrom(Rows(), 1, false)) == retPoll + SignalledFrom(Rows(), i, false)
        invariant NoRepeats(served) && Elements(served) !! ReadyFrom(Rows(), i)
        invariant Elements(served) + ReadyFrom(Rows(), i) == old(ReadyFrom(Rows(), 1))
        invariant Fds(Rows()) == old(Fds(Rows())) - HungUp(served, recv)
        decreases cnt - i
      {
        ghost var rows := Rows();
        assert rows[i] == fds[i];
        ReadyStep(rows, i);
        SignalledStep(rows, i);
        if fds[i].pollin {
          var fd := fds[i].fd;
          ServeOne(served, fd, recv);
          served := served + [fd];
          if recv(fd) == 0 {
            SameIndex(rows, i, i);
            ReadyAfterRemove(rows, i);
            SignalledAfterRemove(rows, i, true);
            SignalledAfterRemove(rows, i, false);
            var at;
            at, overrun := DelSocket(fd);
            if overrun {
              return;
            }
            SameIndex(rows, at, i);
            FirstStays(rows, i);
            assert fds[0] == Rows()[0];
            i := i - 1;
          }
          left := left - 1;
        } else if fds[i].pollerr {
          left := left - 1;
        } else if fds[i].pollnval {
          left := left - 1;
        }
        i := i + 1;
      }
      NothingSignalled(Rows(), i);
      if old(cnt) == fds.Length {
        NobodyElse(Rows(), i, recv);
      }
    }

    /** One round of the loop in `main`: poll reports `answers`; if the listener is ready the round
        accepts one connection (`conn`, or -1 if accept fails) and serves nobody, otherwise it is a
        sweep. A connection that does not fit is closed again. */
    method Round(answers: seq<Entry>, conn: int, recv: int -> int) returns (served: seq<int>, overrun: bool)
      requires Valid() && |answers| == cnt && (conn != -1 ==> conn !in open)
      modifies this, fds
      ensures overrun <==> !answers[0].pollin && old(cnt) == fds.Length
                           && exists k :: 1 <= k < old(cnt) && answers[k].pollin && recv(old(fds[k].fd)) == 0
      ensures !overrun ==> Valid()
      ensures !overrun ==>
              if answers[0].pollin then
                && served == []
                && Fds(Rows()) == old(Fds(Rows())) + if conn == -1 || old(cnt) == fds.Length then {} else {conn}
              else
                && NoRepeats(served)
                && Elements(served) == (set k | 1 <= k < old(cnt) && answers[k].pollin :: old(fds[k].fd))
                && Fds(Rows()) == old(Fds(Rows())) - HungUp(served, recv)
    {
      forall k | 0 <= k < cnt {
        fds[k] := answers[k].(fd := fds[k].fd);
      }
      SameFds(old(Rows()), Rows());
      var retPoll := SignalledFrom(fds[..cnt], 0, true);
      served, overrun := [], false;
      assert forall k :: 0 <= k < cnt ==> Rows()[k].pollin == answers[k].pollin && Rows()[k].fd == old(Rows())[k].fd;
      if fds[0].pollin {
        if conn == -1 {
          return;
        }
        var r := AddSocket(conn);
        if r == -1 {
          open := open - {conn};
        }
        return;
      }
      var left;
      served, left, overrun := Sweep(retPoll, recv);
    }
  }

  lemma SameFds(a: seq<Entry>, b: seq<Entry>)
    requires |a| == |b| && forall k :: 0 <= k < |a| ==> a[k].fd == b[k].fd
    ensures Fds(a) == Fds(b) && (Distinct(a) ==> Distinct(b))
  {
    assert forall x :: x in Fds(a) ==> exists k :: 0 <= k < |b| && b[k].fd == x;
  }
}
