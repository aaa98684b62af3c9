/** The shared work queue as the programs keep it: an array updated in place. The contracts hold
    for a caller that owns the mutex; QueueProtocol shows that every access is made so. */
module WorkQueues {
  import opened Rings

  class WorkQueue {
    const item: array<int>
    var idx: nat
    var cnt: nat

    ghost predicate Valid()
      reads this, item
    {
      View().Valid()
    }

    /** The ring this object stands for. */
    ghost function View(): Ring
      reads this, item
    {
      Ring(item[..], idx, cnt)
    }

    ghost function Contents(): seq<int>
      requires Valid()
      reads this, item
    {
      View().Contents()
    }

    constructor (capacity: nat)
      requires 0 < capacity
      ensures Valid() && fresh(item) && item.Length == capacity
      ensures Contents() == [] && View() == Ring(seq(capacity, _ => 0), 0, 0)
    {
      item := new int[capacity](_ => 0);
      idx, cnt := 0, 0;
    }

    /** `push_item`: appends as long a prefix of `buf` as there are free slots, and returns its
        length. */
    method Push(buf: seq<int>) returns (i: nat)
      requires Valid()
      modifies this`cnt, item
      ensures Valid()
      ensures i == if |buf| <= item.Length - old(cnt) then |buf| else item.Length - old(cnt)
      ensures Contents() == old(Contents()) + buf[..i]
    {
      i := 0;
      var j: nat := (idx + cnt) % item.Length;
      FirstFreeIsCursor(View());
      while i < |buf|
        invariant Valid() && View().Cursor(j)
        invariant i <= |buf| && cnt == old(cnt) + i
        invariant Contents() == old(Contents()) + buf[..i]
      {
        if cnt == item.Length {
          break;
        }
        ghost var before, k := View(), j;
        if j == item.Length {
          j := 0;
        }
        item[j] := buf[i];
        i, j, cnt := i + 1, j + 1, cnt + 1;
        assert View() == before.Put(k, buf[i - 1]).0;
        PutAppends(before, k, buf[i - 1]);
        assert buf[..i] == buf[..i - 1] + [buf[i - 1]];
      }
    }

    /** One pass of the loop in `pop_item`: takes the oldest value, or reports that the caller has
        to wait. */
    method TryPop() returns (taken: bool, value: int)
      requires Valid()
      modifies this`idx, this`cnt
      ensures Valid()
      ensures taken == (old(cnt) > 0)
      ensures taken ==> [value] + Contents() == old(Contents())
      ensures !taken ==> View() == old(View())
    {
      taken, value := false, 0;
      if cnt > 0 {
        TakeRemovesOldest(View());
        if idx == item.Length {
          idx := 0;
        }
        value := item[idx];
        idx := idx + 1;
        cnt := cnt - 1;
        taken := true;
        assert View() == old(View()).Take().0;
      }
    }
  }
}
