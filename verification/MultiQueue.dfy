/** The data of `MultiQueue` (src/multi_queue.h) and the regions its methods run while holding the mutex. */
module MultiQueueData {
  import opened Common
  import opened AtomicQueue
  import opened BusyMask

  /** The abstract queue behind busy bits and a buffer: stale elements of free slots are invisible. */
  function Visible<V>(busy: seq<bool>, elems: seq<Option<V>>): (q: Slots<V>)
    requires |busy| == |elems|
    ensures |q| == |busy|
  {
    seq(|busy|, i requires 0 <= i < |busy| => if busy[i] then elems[i] else None)
  }

  class MultiQueue<V> {
    var busyMask: nat
    var elems: seq<Option<V>>
    var waiting: seq<int>
    ghost var busy: seq<bool>

    ghost predicate Valid()
      reads this
    {
      && |elems| == |waiting| == |busy|
      && busyMask == MaskOf(busy)
      && (forall i :: 32 <= i < |busy| ==> !busy[i])
      && forall i :: 0 <= i < |busy| && busy[i] ==> elems[i].Some?
    }

    ghost function Contents(): (q: Slots<V>)
      requires Valid()
      reads this
      ensures |q| == |elems|
    {
      Visible(busy, elems)
    }

    constructor (numElems: nat)
      ensures Valid() && Contents() == Empty(numElems)
      ensures waiting == seq(numElems, _ => 0)
    {
      busyMask := 0;
      elems := seq(numElems, _ => None);
      waiting := seq(numElems, _ => 0);
      busy := seq(numElems, _ => false);
      new;
      NoneBusyMask(numElems);
      assert Contents() == Empty(numElems);
    }

    /** The full-mask test, common to `push` and `pop`. */
    lemma FullTest()
      requires Valid() && |elems| <= 63
      ensures busyMask == FullMask(|elems|) <==> Released(Contents())
    {
      PopTestMeans(busy);
      assert forall k :: 0 <= k < |busy| ==> (Contents()[k].Some? <==> busy[k]);
    }

    /** One pass of `push`, from the loop test to the wait or the return, with every shift defined. */
    method TryPush(i: nat, elem: V) returns (suspended: bool, result: int)
      requires Valid() && i < |elems| <= 63 && i <= 31
      modifies this
      ensures Valid() && |elems| == old(|elems|)
      ensures suspended <==> old(Contents())[i].Some?
      ensures suspended ==> Contents() == old(Contents()) && waiting == old(waiting)[i := old(waiting)[i] + 1]
      ensures !suspended ==> Contents() == Push(old(Contents()), i, elem) && waiting == old(waiting)
      ensures !suspended ==> result == if Released(Contents()) then 1 else 0
    {
      var bit := BitOf(i);
      SlotTestIsExact(busy, i);
      result := 0;
      if And(busyMask, bit) != 0 {
        waiting := waiting[i := waiting[i] + 1];
        assert Contents() == old(Contents());
        return true, 0;
      }
      elems := elems[i := Some(elem)];
      OrMarksSlot(busy, i);
      busyMask := Or(busyMask, bit);
      busy := busy[i := true];
      assert Contents() == Push(old(Contents()), i, elem);
      FullTest();
      if busyMask == FullMask(|elems|) {
        result := 1;
      }
      suspended := false;
    }

    /** What a producer does between waking up with the mutex and testing again. */
    method ResumePush(i: nat)
      requires Valid() && i < |elems|
      modifies this
      ensures Valid() && Contents() == old(Contents())
      ensures waiting == old(waiting)[i := old(waiting)[i] - 1]
    {
      waiting := waiting[i := waiting[i] - 1];
      assert Contents() == old(Contents());
    }

    /** One pass of `pop`; `notified[i]` says whether `cv_busy[i]` is signalled. */
    method TryPop() returns (suspended: bool, dest: seq<Option<V>>, notified: seq<bool>)
      requires Valid() && |elems| <= 63
      modifies this
      ensures Valid() && |elems| == old(|elems|) && waiting == old(waiting)
      ensures suspended <==> !Released(old(Contents()))
      ensures suspended ==> Contents() == old(Contents())
      ensures !suspended ==> dest == old(Contents()) && Contents() == Empty(|elems|)
      ensures !suspended ==> |notified| == |waiting|
      ensures !suspended ==> forall i :: 0 <= i < |waiting| ==> (notified[i] <==> waiting[i] > 0)
    {
      FullTest();
      if busyMask != FullMask(|elems|) {
        return true, [], [];
      }
      dest := elems;
      assert dest == Contents();
      busyMask := 0;
      busy := seq(|elems|, _ => false);
      NoneBusyMask(|elems|);
      assert Contents() == Empty(|elems|);
      suspended := false;
      notified := [];
      for i := 0 to |elems|
        invariant |notified| == i && forall k :: 0 <= k < i ==> notified[k] == (waiting[k] > 0)
      {
        notified := notified + [waiting[i] > 0];
      }
    }
  }
}
