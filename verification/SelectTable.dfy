/** The descriptor table of Chapter07/io_select.c and its sweep, which goes on behind the gap of a
    deletion and so passes over the entry that was moved there. */
module SelectTables {
  import opened Serving
  import opened SwapDelete

  /** The descriptors at index `i` or later that select reported. */
  ghost function ReadyFrom(s: seq<int>, readable: set<int>, i: nat): set<int> {
    set k | i <= k < |s| && s[k] in readable :: s[k]
  }

  lemma ReadyStep(s: seq<int>, readable: set<int>, i: nat)
    requires NoRepeats(s) && i < |s|
    ensures ReadyFrom(s, readable, i) == ReadyFrom(s, readable, i + 1) + if s[i] in readable then {s[i]} else {}
    ensures s[i] !in ReadyFrom(s, readable, i + 1)
  {}

  lemma RemoveFromTable(s: seq<int>, i: nat)
    requires NoRepeats(s) && i < |s|
    ensures NoRepeats(Remove(s, i)) && Elements(Remove(s, i)) == Elements(s) - {s[i]}
    ensures Remove(s, i)[..i] == s[..i]
  {
    RemoveIndex(s, i);
    forall k | 0 <= k < |s| && k != i
      ensures Remove(s, i)[if k == |s| - 1 then i else k] == s[k]
    {}
  }

  /** The client that a deletion at `i` passes over, if any: the last one, moved into the gap. */
  ghost function Moved(rows: seq<int>, readable: set<int>, i: nat): set<int>
    requires i < |rows|
  {
    if i < |rows| - 1 && rows[|rows| - 1] in readable then {rows[|rows| - 1]} else {}
  }

  /** From index `i` on there were ready: the entry deleted there, the one moved into the gap, and
      what is ready behind the gap. */
  lemma ReadyAtGap(s: seq<int>, readable: set<int>, i: nat)
    requires NoRepeats(s) && i < |s| && s[i] in readable
    ensures var moved, behind := Moved(s, readable, i), ReadyFrom(Remove(s, i), readable, i + 1);
            && ReadyFrom(s, readable, i) == {s[i]} + moved + behind
            && s[i] !in moved + behind && moved !! behind && |moved| <= 1 && moved <= Elements(s)
  {
    ReadyStep(s, readable, i);
    RemoveIndex(s, i);
    forall k | i < k < |s| - 1
      ensures Remove(s, i)[k] == s[k]
    {}
    assert ReadyFrom(s, readable, i + 1) == Moved(s, readable, i) + ReadyFrom(Remove(s, i), readable, i + 1);
  }

  /** The sweep from index `i` on as a function: the descriptors served, in order, and the table left. */
  function Swept(rows: seq<int>, readable: set<int>, recv: int -> int, i: nat): (seq<int>, seq<int>)
    decreases |rows| - i
  {
    if i >= |rows| then ([], rows)
    else if rows[i] !in readable then Swept(rows, readable, recv, i + 1)
    else
      var (served, left) := Swept(if recv(rows[i]) == 0 then Remove(rows, i) else rows, readable, recv, i + 1);
      ([rows[i]] + served, left)
  }

  /** What the sweep does at one index. */
  lemma SweptStep(rows: seq<int>, readable: set<int>, recv: int -> int, i: nat, before: seq<int>)
    requires i < |rows|
    ensures var (served, left) := Swept(rows, readable, recv, i);
            if rows[i] !in readable then Swept(rows, readable, recv, i + 1) == (served, left)
            else
              var (more, left') := Swept(if recv(rows[i]) == 0 then Remove(rows, i) else rows, readable, recv, i + 1);
              left' == left && before + served == (before + [rows[i]]) + more
  {
    hide Remove;
  }

  lemma SweptEnds(rows: seq<int>, readable: set<int>, recv: int -> int, i: nat, before: seq<int>)
    requires |rows| <= i
    ensures Swept(rows, readable, recv, i) == ([], rows) && before + [] == before
  {}

  /** A ready client is passed over when one before it hangs up: the bound on the clients passed
      over is reached. */
  lemma SomeArePassedOver(listener: int, a: int, b: int, recv: int -> int)
    requires listener != a && a != b && b != listener && recv(a) == 0
    ensures Swept([listener, a, b], {a, b}, recv, 1) == ([a], [listener, b])
  {
    var rows := [listener, a, b];
    assert Remove(rows, 1) == [listener, b];
    assert Swept(Remove(rows, 1), {a, b}, recv, 2) == ([], [listener, b]);
    assert rows[1] == a && [a] + [] == [a];
  }

  // ---------------------------------------------------------------- who is passed over how often

  /** A sweep that goes on at index `i` does not touch the entries before it. */
  lemma {:induction false} SweptKeepsFront(rows: seq<int>, readable: set<int>, recv: int -> int, i: nat)
    requires i <= |rows|
    ensures i <= |Swept(rows, readable, recv, i).1| && Swept(rows, readable, recv, i).1[..i] == rows[..i]
    decreases |rows| - i
  {
    if i < |rows| {
      if rows[i] in readable && recv(rows[i]) == 0 {
        var fewer := Remove(rows, i);
        if i + 1 <= |fewer| {
          SweptKeepsFront(fewer, readable, recv, i + 1);
          assert fewer[..i + 1][..i] == rows[..i];
        }
      } else {
        SweptKeepsFront(rows, readable, recv, i + 1);
        assert rows[..i + 1][..i] == rows[..i];
      }
    }
  }

  /** A ready client is served, or it moves to a smaller index. */
  lemma {:induction false} ServedOrCloser(rows: seq<int>, readable: set<int>, recv: int -> int, i: nat, p: nat)
    requires i <= p < |rows| && rows[p] in readable
    ensures var (served, left) := Swept(rows, readable, recv, i);
            rows[p] in served || exists q :: i <= q < p && q < |left| && left[q] == rows[p]
    decreases |rows| - i
  {
    if rows[i] in readable && i < p && recv(rows[i]) == 0 {
      var fewer := Remove(rows, i);
      RemoveIndex(rows, i);
      if p < |rows| - 1 {
        ServedOrCloser(fewer, readable, recv, i + 1, p);
      } else {
        SweptKeepsFront(fewer, readable, recv, i + 1);
        var left := Swept(fewer, readable, recv, i + 1).1;
        assert left[..i + 1][i] == rows[p];
      }
    } else if i < p {
      ServedOrCloser(rows, readable, recv, i + 1, p);
    }
  }

  /** One round: a connection that accept returned is added if it fits, or a sweep. */
  datatype Turn = Accepting(fd: int) | Sweeping(readable: set<int>, recv: int -> int)

  function AfterTurn(rows: seq<int>, capacity: nat, turn: Turn): seq<int> {
    match turn
    case Accepting(fd) => if |rows| < capacity then rows + [fd] else rows
    case Sweeping(readable, recv) => Swept(rows, readable, recv, 1).1
  }

  /** Whether some sweep of these rounds serves `fd`. */
  predicate ServedIn(rows: seq<int>, capacity: nat, turns: seq<Turn>, fd: int)
    decreases |turns|
  {
    turns != [] &&
    ((turns[0].Sweeping? && fd in Swept(rows, turns[0].readable, turns[0].recv, 1).0)
     || ServedIn(AfterTurn(rows, capacity, turns[0]), capacity, turns[1..], fd))
  }

  function CountSweeps(turns: seq<Turn>): nat
    decreases |turns|
  {
    if turns == [] then 0 else (if turns[0].Sweeping? then 1 else 0) + CountSweeps(turns[1..])
  }

  /** No client starves: one at index `p` that stays ready is served within `p` sweeps, however many
      others come and go meanwhile. */
  lemma {:induction false} NobodyStarves(rows: seq<int>, capacity: nat, turns: seq<Turn>, p: nat)
    requires 1 <= p < |rows| && p <= CountSweeps(turns)
    requires forall k :: 0 <= k < |turns| && turns[k].Sweeping? ==> rows[p] in turns[k].readable
    ensures ServedIn(rows, capacity, turns, rows[p])
    decreases |turns|
  {
    hide Swept;
    var next := AfterTurn(rows, capacity, turns[0]);
    match turns[0] {
      case Accepting(_) => NobodyStarves(next, capacity, turns[1..], p);
      case Sweeping(readable, recv) =>
        ServedOrCloser(rows, readable, recv, 1, p);
        if rows[p] !in Swept(rows, readable, recv, 1).0 {
          var q :| 1 <= q < p && q < |next| && next[q] == rows[p];
          NobodyStarves(next, capacity, turns[1..], q);
        }
    }
  }

  // ---------------------------------------------------------------- one sweep

  /** Where a sweep stands at index `i`, having started with the table `start`: the ready clients
      are those served, those passed over and those still ahead. */
  ghost predicate Progress(start: seq<int>, readable: set<int>, recv: int -> int,
                           rows: seq<int>, i: nat, served: seq<int>, missed: set<int>) {
    && NoRepeats(rows) && Elements(rows) == Elements(start) - HungUp(served, recv)
    && NoRepeats(served) && Elements(served) !! ReadyFrom(rows, readable, i)
    && missed !! Elements(served) + ReadyFrom(rows, readable, i)
    && Elements(served) + missed + ReadyFrom(rows, readable, i) == ReadyFrom(start, readable, 1)
    && |missed| <= |HungUp(served, recv)|
    && missed <= Elements(rows)
  }

  lemma ProgressStarts(start: seq<int>, readable: set<int>, recv: int -> int)
    requires NoRepeats(start)
    ensures Progress(start, readable, recv, start, 1, [], {})
  {
    assert Elements([]) == {} && HungUp([], recv) == {};
  }

  lemma ProgressEnds(start: seq<int>, readable: set<int>, recv: int -> int,
                     rows: seq<int>, i: nat, served: seq<int>, missed: set<int>)
    requires Progress(start, readable, recv, rows, i, served, missed) && |rows| <= i
    ensures NoRepeats(served) && Elements(served) <= ReadyFrom(start, readable, 1)
    ensures missed == ReadyFrom(start, readable, 1) - Elements(served)
    ensures |missed| <= |HungUp(served, recv)| && missed <= Elements(rows)
    ensures Elements(rows) == Elements(start) - HungUp(served, recv)
  {
    assert ReadyFrom(rows, readable, i) == {};
  }

  lemma PassStep(start: seq<int>, readable: set<int>, recv: int -> int,
                 rows: seq<int>, i: nat, served: seq<int>, missed: set<int>)
    requires Progress(start, readable, recv, rows, i, served, missed) && i < |rows| && rows[i] !in readable
    ensures Progress(start, readable, recv, rows, i + 1, served, missed)
  {
    ReadyStep(rows, readable, i);
  }

  lemma ServeStep(start: seq<int>, readable: set<int>, recv: int -> int,
                  rows: seq<int>, i: nat, served: seq<int>, missed: set<int>)
    requires Progress(start, readable, recv, rows, i, served, missed) && i < |rows| && rows[i] in readable
    requires recv(rows[i]) != 0
    ensures Progress(start, readable, recv, rows, i + 1, served + [rows[i]], missed)
  {
    hide Elements, ReadyFrom, HungUp, NoRepeats;
    ReadyStep(rows, readable, i);
    ServeOne(served, rows[i], recv);
    Serve(Elements(served), missed, ReadyFrom(rows, readable, i), ReadyFrom(start, readable, 1),
          rows[i], ReadyFrom(rows, readable, i + 1));
  }

  /** `fd` goes from those ahead to those served. */
  lemma Serve(served: set<int>, missed: set<int>, ahead: set<int>, all: set<int>, fd: int, ahead': set<int>)
    requires served !! ahead && missed !! served + ahead && served + missed + ahead == all
    requires fd !in ahead' && ahead == ahead' + {fd}
    ensures served + {fd} !! ahead' && missed !! served + {fd} + ahead'
    ensures served + {fd} + missed + ahead' == all
  {}

  /** The accounts of a deletion: `fd` goes from those ahead to those served, `moved` from those
      ahead to those passed over. */
  lemma Account(served: set<int>, missed: set<int>, ahead: set<int>, all: set<int>,
                fd: int, moved: set<int>, ahead': set<int>, gone: set<int>)
    requires served !! ahead && missed !! served + ahead && served + missed + ahead == all
    requires fd !in moved + ahead' && moved !! ahead' && ahead == {fd} + moved + ahead'
    requires fd !in gone && |missed| <= |gone| && |moved| <= 1
    ensures served + {fd} !! ahead' && missed + moved !! served + {fd} + ahead'
    ensures served + {fd} + (missed + moved) + ahead' == all
    ensures |missed + moved| <= |gone + {fd}|
  {
    assert |missed + moved| == |missed| + |moved| by {
      assert missed !! moved;
    }
  }

  lemma DeleteStep(start: seq<int>, readable: set<int>, recv: int -> int,
                   rows: seq<int>, i: nat, served: seq<int>, missed: set<int>)
    requires Progress(start, readable, recv, rows, i, served, missed) && i < |rows| && rows[i] in readable
    requires recv(rows[i]) == 0
    ensures Progress(start, readable, recv, Remove(rows, i), i + 1, served + [rows[i]],
                     missed + Moved(rows, readable, i))
  {
    hide Elements, ReadyFrom, HungUp, NoRepeats, Moved, Remove;
    RemoveFromTable(rows, i);
    ReadyAtGap(rows, readable, i);
    ServeOne(served, rows[i], recv);
    Account(Elements(served), missed, ReadyFrom(rows, readable, i), ReadyFrom(start, readable, 1),
            rows[i], Moved(rows, readable, i), ReadyFrom(Remove(rows, i), readable, i + 1), HungUp(served, recv));
    TableLoses(Elements(rows), Elements(start), HungUp(served, recv), rows[i], missed, Moved(rows, readable, i));
  }

  lemma TableLoses(rows: set<int>, start: set<int>, gone: set<int>, fd: int, missed: set<int>, moved: set<int>)
    requires rows == start - gone && missed <= rows && moved <= rows && fd !in missed + moved
    ensures rows - {fd} == start - (gone + {fd}) && missed + moved <= rows - {fd}
  {}

  class SelectTable {
    const fds: array<int>
    var cnt: nat
    var open: set<int> // the kernel's view: the descriptors the program holds

    /** The table lists exactly the open descriptors, the listener first, each once. */
    ghost predicate Valid()
      reads this, fds
    {
      0 < cnt <= fds.Length && NoRepeats(Rows()) && open == Elements(Rows())
    }

    ghost function Rows(): seq<int>
      requires cnt <= fds.Length
      reads this, fds
    {
      fds[..cnt]
    }

    constructor (capacity: nat, listener: int)
      requires 0 < capacity
      ensures Valid() && fresh(fds) && fds.Length == capacity && Rows() == [listener]
    {
      fds := new int[capacity](_ => -1);
      cnt, open := 1, {listener};
      new;
      fds[0] := listener;
    }

    /** `add_socket`, on a descriptor that accept has just opened. */
    method AddSocket(fd: int) returns (r: int)
      requires Valid() && fd !in open
      modifies this, fds
      ensures open == old(open) + {fd} && cnt <= fds.Length
      ensures if old(cnt) < fds.Length then r == cnt && Rows() == old(Rows()) + [fd] && Valid()
              else r == -1 && Rows() == old(Rows())
    {
      open := open + {fd};
      if cnt < fds.Length {
        fds[cnt] := fd;
        cnt := cnt + 1;
        assert Rows() == old(Rows()) + [fd];
        ServeOne(old(Rows()), fd, _ => 0);
        return cnt;
      }
      return -1;
    }

    /** `del_socket` */
    method DelSocket(fd: int) returns (i: int)
      requires Valid()
      modifies this, fds
      ensures open == old(open) - {fd} && cnt <= old(cnt) && NoRepeats(Rows()) && open == Elements(Rows())
      ensures if fd in old(open) then
                && 0 <= i < old(cnt) && old(fds[i]) == fd && Rows() == Remove(old(Rows()), i)
                && cnt < fds.Length && fds[cnt] == -1
              else i == -1 && Rows() == old(Rows())
    {
      open := open - {fd};
      i := 0;
      while i < cnt
        invariant 0 <= i <= cnt
        invariant forall k :: 0 <= k < i ==> fds[k] != fd
      {
        if fds[i] == fd {
          RemoveFromTable(Rows(), i);
          if i != cnt - 1 {
            fds[i] := fds[cnt - 1];
          }
          fds[cnt - 1] := -1;
          cnt := cnt - 1;
          assert Rows() == Remove(old(Rows()), i);
          return i;
        }
        i := i + 1;
      }
      return -1;
    }

    /** `mk_fds`: the set of all descriptors in the table, and the greatest of them or -1. */
    method MkFds() returns (all: set<int>, max: int)
      requires Valid()
      ensures all == Elements(Rows())
      ensures -1 <= max && (forall fd :: fd in all ==> fd <= max) && (max in all || max == -1)
    {
      all, max := {}, -1;
      var i := 0;
      while i < cnt
        invariant i <= cnt && all == Elements(fds[..i])
        invariant -1 <= max && (forall fd :: fd in all ==> fd <= max) && (max in all || max == -1)
      {
        max := if max > fds[i] then max else fds[i];
        all := all + {fds[i]};
        assert fds[..i + 1] == fds[..i] + [fds[i]];
        i := i + 1;
      }
    }

    /** The sweep in `main` after a select that reported `readable` and not the listener; `recv` is
        what recv returns for each descriptor. Only ready clients are served, each at most once, and
        those that hung up are closed. The ready clients passed over are no more than the deletions,
        and each is still in the table, so `MkFds` puts it in the next round's set. */
    method Sweep(readable: set<int>, recv: int -> int) returns (served: seq<int>)
      requires Valid()
      modifies this, fds
      ensures Valid() && fds[0] == old(fds[0])
      ensures (served, Rows()) == Swept(old(Rows()), readable, recv, 1)
      ensures NoRepeats(served) && Elements(served) <= old(ReadyFrom(Rows(), readable, 1))
      ensures Elements(Rows()) == old(Elements(Rows())) - HungUp(served, recv)
      ensures var missed := old(ReadyFrom(Rows(), readable, 1)) - Elements(served);
              |missed| <= |HungUp(served, recv)| && missed <= Elements(Rows())
    {
      hide Progress, Swept, NoRepeats, Elements, ReadyFrom, HungUp, Moved, Remove;
      served := [];
      ghost var start, missed := Rows(), {};
      var i := 1;
      ProgressStarts(start, readable, recv);
      assert [] + Swept(start, readable, recv, 1).0 == Swept(start, readable, recv, 1).0;
      while i < cnt
        invariant 1 <= i && 1 <= cnt && Valid() && fds[0] == old(fds[0])
        invariant Progress(start, readable, recv, Rows(), i, served, missed)
        invariant var (more, left) := Swept(Rows(), readable, recv, i);
                  (served + more, left) == Swept(start, readable, recv, 1)
        decreases cnt - i
      {
        SweptStep(Rows(), readable, recv, i, served);
        ghost var rows := Rows();
        if fds[i] in readable {
          var fd := fds[i];
          if recv(fd) == 0 {
            DeleteStep(start, readable, recv, rows, i, served, missed);
            missed := missed + Moved(rows, readable, i);
            InTable(rows, i);
            var at := DelSocket(fd);
            SameIndex(rows, at, i);
            FirstStays(rows, i);
            assert fds[0] == Rows()[0];
          } else {
            ServeStep(start, readable, recv, rows, i, served, missed);
          }
          served := served + [fd];
        } else {
          PassStep(start, readable, recv, rows, i, served, missed);
        }
        i := i + 1;
      }
      ProgressEnds(start, readable, recv, Rows(), i, served, missed);
      SweptEnds(Rows(), readable, recv, i, served);
    }

    /** One round of the loop in `main`: select is asked about all descriptors in the table and
        reports those with input. If the listener is one, the round accepts one connection
        (`conn`, or -1 if accept fails) and serves nobody, otherwise it is a sweep. A connection that
        does not fit is closed again. */
    method Round(input: set<int>, conn: int, recv: int -> int) returns (served: seq<int>)
      requires Valid() && (conn != -1 ==> conn !in open)
      modifies this, fds
      ensures Valid()
      ensures if old(fds[0]) !in input then
                && (served, Rows()) == Swept(old(Rows()), input * old(Elements(Rows())), recv, 1)
                && Rows() == AfterTurn(old(Rows()), fds.Length, Sweeping(input * old(Elements(Rows())), recv))
              else
                && served == []
                && Rows() == old(Rows()) + (if conn != -1 && old(cnt) < fds.Length then [conn] else [])
                && (conn != -1 ==> Rows() == AfterTurn(old(Rows()), fds.Length, Accepting(conn)))
    {
      served := [];
      var all, max := MkFds();
      var readable := input * all;
      assert Rows()[0] == fds[0];
      if fds[0] in readable {
        if conn == -1 {
          return;
        }
        var r := AddSocket(conn);
        if r == -1 {
          open := open - {conn};
        }
        return;
      }
      served := Sweep(readable, recv);
    }
  }

  lemma FirstStays(s: seq<int>, i: nat)
    requires 0 < i < |s|
    ensures |Remove(s, i)| == |s| - 1 && Remove(s, i)[0] == s[0]
  {}

  lemma InTable(s: seq<int>, i: nat)
    requires i < |s|
    ensures s[i] in Elements(s)
  {}

  lemma SameIndex(s: seq<int>, i: int, k: int)
    requires NoRepeats(s) && 0 <= i < |s| && 0 <= k < |s| && s[i] == s[k]
    ensures i == k
  {}
}
