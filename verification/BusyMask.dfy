/** The 64-bit `busy_mask` of src/multi_queue.h, with its shifts as written there.
    A mask is a natural number below 2^64; `And` and `Or` are the bitwise operators. */
module BusyMask {
  import opened AtomicQueue
  import opened Common

  function And(a: nat, b: nat): nat {
    if a == 0 || b == 0 then 0
    else 2 * And(a / 2, b / 2) + if a % 2 == 1 && b % 2 == 1 then 1 else 0
  }

  function Or(a: nat, b: nat): (r: nat)
    ensures r >= a && r >= b
    decreases a + b
  {
    if a == 0 then b
    else if b == 0 then a
    else 2 * Or(a / 2, b / 2) + if a % 2 == 1 || b % 2 == 1 then 1 else 0
  }

  /** `1 << i` computed on a 32-bit `int` and converted to `u64`: bit 31 is sign-extended.
      The shift is defined up to 31 only. */
  function BitOf(i: nat): nat
    requires i <= 31
  {
    if i == 31 then 0xFFFF_FFFF_8000_0000 else Pow2(i)
  }

  /** `(u64(1) << n) - 1`, defined up to 63. */
  function FullMask(n: nat): nat
    requires n <= 63
  {
    Pow2(n) - 1
  }

  predicate AllBusy(busy: seq<bool>) {
    forall i :: 0 <= i < |busy| ==> busy[i]
  }

  /** The sum of `2^i` over the busy slots. */
  function Weight(busy: seq<bool>): nat {
    if busy == [] then 0 else (if busy[0] then 1 else 0) + 2 * Weight(busy[1..])
  }

  /** `Weight` is that sum: marking a free slot adds its power of two. */
  lemma {:induction false} WeightAddsPower(busy: seq<bool>, i: nat)
    requires i < |busy| && !busy[i]
    ensures Weight(busy[i := true]) == Weight(busy) + Pow2(i)
  {
    if i > 0 {
      WeightAddsPower(busy[1..], i - 1);
      assert busy[i := true][1..] == busy[1..][i - 1 := true];
    } else {
      assert busy[i := true][1..] == busy[1..];
    }
  }

  /** An empty queue has mask zero. */
  lemma {:induction false} NoneBusyIsZero(busy: seq<bool>)
    ensures Weight(busy) == 0 <==> forall i :: 0 <= i < |busy| ==> !busy[i]
  {
    if busy != [] {
      NoneBusyIsZero(busy[1..]);
      assert forall i :: 1 <= i < |busy| ==> busy[i] == busy[1..][i - 1];
    }
  }

  // --- up to 31 slots ---

  /** The full mask is the sum over the busy slots iff every slot is busy. */
  lemma {:induction false} FullTestIsExact(busy: seq<bool>)
    ensures Weight(busy) <= Pow2(|busy|) - 1
    ensures Weight(busy) == Pow2(|busy|) - 1 <==> AllBusy(busy)
  {
    if busy != [] {
      FullTestIsExact(busy[1..]);
      assert forall i :: 1 <= i < |busy| ==> busy[i] == busy[1..][i - 1];
    }
  }

  lemma {:induction false} AndPowerIsSlot(busy: seq<bool>, i: nat)
    requires i < |busy|
    ensures And(Weight(busy), Pow2(i)) != 0 <==> busy[i]
  {
    var w := Weight(busy);
    assert w / 2 == Weight(busy[1..]) && (w % 2 == 1 <==> busy[0]);
    if i > 0 {
      AndPowerIsSlot(busy[1..], i - 1);
      assert Pow2(i) / 2 == Pow2(i - 1) && Pow2(i) % 2 == 0;
    }
  }

  lemma {:induction false} OrPowerMarksSlot(busy: seq<bool>, i: nat)
    requires i < |busy|
    ensures Or(Weight(busy), Pow2(i)) == Weight(busy[i := true])
  {
    var w := Weight(busy);
    assert w / 2 == Weight(busy[1..]) && (w % 2 == 1 <==> busy[0]);
    if i > 0 {
      OrPowerMarksSlot(busy[1..], i - 1);
      assert Pow2(i) / 2 == Pow2(i - 1) && Pow2(i) % 2 == 0;
      assert busy[i := true][1..] == busy[1..][i - 1 := true];
    } else {
      assert busy[i := true][1..] == busy[1..];
      assert Or(w / 2, 0) == w / 2;
    }
  }

  // --- slot 31 ---

  /** Busy bits that the program can have set without an undefined shift: `1 << i` needs i <= 31, and the
      full mask at most 63 slots. */
  predicate ShiftsDefined(busy: seq<bool>) {
    |busy| <= 63 && forall i :: 32 <= i < |busy| ==> !busy[i]
  }

  /** The bits of the first 31 slots. */
  function Low(busy: seq<bool>): (low: seq<bool>)
    ensures |low| <= EXACT_SLOTS && |low| <= |busy|
    ensures forall i :: 0 <= i < |low| ==> low[i] == busy[i]
  {
    if |busy| <= EXACT_SLOTS then busy else busy[..EXACT_SLOTS]
  }

  /** `x << k`, without a bound on the width. */
  function Shl(x: nat, k: nat): (r: nat)
    ensures r >= x
  {
    if k == 0 then x else 2 * Shl(x, k - 1)
  }

  /** Slot 31 stands for all the bits from 31 to 63. */
  const HIGH: nat := 0x1_FFFF_FFFF

  function High(busy: seq<bool>): (h: nat)
    ensures h == 0 || h == HIGH
  {
    if |busy| > EXACT_SLOTS && busy[EXACT_SLOTS] then HIGH else 0
  }

  /** The value of `busy_mask` for given busy slots. Up to 31 slots it is their sum of powers. */
  function MaskOf(busy: seq<bool>): (mask: nat)
    ensures |busy| <= EXACT_SLOTS ==> mask == Weight(busy)
  {
    Weight(Low(busy)) + if High(busy) == 0 then 0 else 0xFFFF_FFFF_8000_0000
  }

  lemma {:induction false} ZeroShifted(k: nat)
    ensures Shl(0, k) == 0
  {
    if k > 0 {
      ZeroShifted(k - 1);
    }
  }

  lemma Shifted31()
    ensures Pow2(31) == 0x8000_0000 && Shl(HIGH, 31) == 0xFFFF_FFFF_8000_0000 && Shl(0, 31) == 0
  {
    assert Pow2(8) == 0x100;
    assert Pow2(16) == 0x1_0000;
    assert Pow2(24) == 0x100_0000;
    assert Shl(HIGH, 8) == 0x1FF_FFFF_FF00;
    assert Shl(HIGH, 16) == 0x1_FFFF_FFFF_0000;
    assert Shl(HIGH, 24) == 0x1FF_FFFF_FF00_0000;
    ZeroShifted(31);
  }

  /** Bitwise operations act on the low and the high bits separately. */
  lemma {:induction false} AndSplits(a: nat, w: nat, x: nat, b: nat, v: nat, y: nat, k: nat)
    requires w < Pow2(k) && v < Pow2(k) && a == w + Shl(x, k) && b == v + Shl(y, k)
    ensures And(a, b) == And(w, v) + Shl(And(x, y), k)
  {
    if k > 0 {
      AndSplits(a / 2, w / 2, x, b / 2, v / 2, y, k - 1);
      AndHalves(a, b);
      AndHalves(w, v);
    }
  }

  lemma {:induction false} OrSplits(a: nat, w: nat, x: nat, b: nat, v: nat, y: nat, k: nat)
    requires w < Pow2(k) && v < Pow2(k) && a == w + Shl(x, k) && b == v + Shl(y, k)
    ensures Or(a, b) == Or(w, v) + Shl(Or(x, y), k)
  {
    if k > 0 {
      OrSplits(a / 2, w / 2, x, b / 2, v / 2, y, k - 1);
      OrHalves(a, b);
      OrHalves(w, v);
    }
  }

  /** The recursion of `And`, also where one operand is zero. */
  lemma AndHalves(a: nat, b: nat)
    ensures And(a, b) == 2 * And(a / 2, b / 2) + if a % 2 == 1 && b % 2 == 1 then 1 else 0
  {
  }

  lemma OrHalves(a: nat, b: nat)
    ensures Or(a, b) == 2 * Or(a / 2, b / 2) + if a % 2 == 1 || b % 2 == 1 then 1 else 0
  {
  }

  lemma {:induction false} SameOperand(a: nat)
    ensures And(a, a) == a && Or(a, a) == a
  {
    if a > 0 {
      SameOperand(a / 2);
    }
  }

  lemma {:induction false} Pow2Grows(i: nat, k: nat)
    requires i < k
    ensures Pow2(i) < Pow2(k)
  {
    if i + 1 < k {
      Pow2Grows(i, k - 1);
    }
  }

  lemma WeightBelow(busy: seq<bool>, k: nat)
    requires |busy| <= k
    ensures Weight(busy) < Pow2(k)
  {
    FullTestIsExact(busy);
    if |busy| < k {
      Pow2Grows(|busy|, k);
    }
  }

  /** Below the high bits the tests and updates work on the low bits alone. */
  lemma LowBit(mask: nat, low: seq<bool>, x: nat, i: nat, k: nat)
    requires i < |low| <= k && Weight(low) < Pow2(k) && mask == Weight(low) + Shl(x, k)
    ensures And(mask, Pow2(i)) != 0 <==> low[i]
    ensures Or(mask, Pow2(i)) == Weight(low[i := true]) + Shl(x, k)
  {
    Pow2Grows(i, k);
    ZeroShifted(k);
    AndSplits(mask, Weight(low), x, Pow2(i), Pow2(i), 0, k);
    OrSplits(mask, Weight(low), x, Pow2(i), Pow2(i), 0, k);
    AndPowerIsSlot(low, i);
    OrPowerMarksSlot(low, i);
  }

  /** And on the high bits, which are all set or all clear, they set all or test any. */
  lemma HighBits(mask: nat, w: nat, x: nat, bits: nat, h: nat, k: nat)
    requires w < Pow2(k) && mask == w + Shl(x, k) && bits == Shl(h, k)
    requires (x == 0 || x == h) && h > 0
    ensures And(mask, bits) != 0 <==> x == h
    ensures Or(mask, bits) == w + bits
  {
    AndSplits(mask, w, x, bits, 0, h, k);
    OrSplits(mask, w, x, bits, 0, h, k);
    SameOperand(h);
    ZeroShifted(k);
  }

  lemma MaskSplits(busy: seq<bool>, k: nat)
    requires k == 31
    ensures MaskOf(busy) == Weight(Low(busy)) + Shl(High(busy), k)
    ensures Weight(Low(busy)) < Pow2(k) && BitOf(k) == Shl(HIGH, k)
  {
    Shifted31();
    WeightBelow(Low(busy), k);
  }

  /** The single-slot test of `push` is exact, for every slot whose shift is defined. */
  lemma SlotTestIsExact(busy: seq<bool>, i: nat)
    requires i < |busy| && i <= 31
    ensures And(MaskOf(busy), BitOf(i)) != 0 <==> busy[i]
  {
    var k := 31;
    MaskSplits(busy, k);
    if i < k {
      LowBit(MaskOf(busy), Low(busy), High(busy), i, k);
    } else {
      HighBits(MaskOf(busy), Weight(Low(busy)), High(busy), BitOf(k), HIGH, k);
    }
  }

  lemma LowOfMarked(busy: seq<bool>, i: nat)
    requires i < |busy| && i < 31
    ensures i < |Low(busy)| && Low(busy[i := true]) == Low(busy)[i := true] && High(busy[i := true]) == High(busy)
  {
  }

  lemma OrMarksLow(busy: seq<bool>, i: nat, k: nat)
    requires i < |busy| && i < k == 31
    ensures Or(MaskOf(busy), BitOf(i)) == MaskOf(busy[i := true])
  {
    MaskSplits(busy, k);
    MaskSplits(busy[i := true], k);
    LowOfMarked(busy, i);
    LowBit(MaskOf(busy), Low(busy), High(busy), i, k);
  }

  lemma OrMarksHigh(busy: seq<bool>, k: nat)
    requires |busy| > k == 31
    ensures Or(MaskOf(busy), BitOf(k)) == MaskOf(busy[k := true])
  {
    MaskSplits(busy, k);
    MaskSplits(busy[k := true], k);
    HighBits(MaskOf(busy), Weight(Low(busy)), High(busy), BitOf(k), HIGH, k);
    assert Low(busy[k := true]) == Low(busy);
  }

  /** Or-ing the bit in marks the slot and no other. */
  lemma OrMarksSlot(busy: seq<bool>, i: nat)
    requires i < |busy| && i <= 31
    ensures Or(MaskOf(busy), BitOf(i)) == MaskOf(busy[i := true])
  {
    if i < 31 {
      OrMarksLow(busy, i, 31);
    } else {
      OrMarksHigh(busy, 31);
    }
  }

  /** What the full-mask test of `push` and `pop` amounts to: every slot is busy, and there are at most 31. */
  lemma PopTestMeans(busy: seq<bool>)
    requires ShiftsDefined(busy)
    ensures MaskOf(busy) == FullMask(|busy|) <==> AllBusy(busy) && |busy| <= EXACT_SLOTS
  {
    FullTestIsExact(Low(busy));
    WeightBelow(Low(busy), 31);
    Shifted31();
    if |busy| > EXACT_SLOTS {
      Pow2Grows(31, |busy|);
      Pow2Of63(|busy|);
      assert FullMask(|busy|) >= 0x8000_0000;
    }
  }

  lemma Pow2Of63(n: nat)
    requires n <= 63
    ensures Pow2(n) <= 0x8000_0000_0000_0000
  {
    if n < 63 {
      Pow2Grows(n, 63);
    }
    Shifted31();
    assert Pow2(40) == 0x100_0000_0000;
    assert Pow2(48) == 0x1_0000_0000_0000;
    assert Pow2(56) == 0x100_0000_0000_0000;
  }

  // --- over any sequence of pushes and pops ---

  /** What happens to the mask: a push marks its slot, a pop clears all. */
  datatype Op = Mark(slot: nat) | Clear

  predicate OpsOn(ops: seq<Op>, n: nat) {
    forall k :: 0 <= k < |ops| && ops[k].Mark? ==> ops[k].slot < n && ops[k].slot <= 31
  }

  /** `busy_mask` as the code computes it. */
  function MaskAfter(ops: seq<Op>): nat
    requires forall k :: 0 <= k < |ops| && ops[k].Mark? ==> ops[k].slot <= 31
  {
    if ops == [] then 0
    else match ops[|ops| - 1]
      case Mark(i) => Or(MaskAfter(ops[..|ops| - 1]), BitOf(i))
      case Clear => 0
  }

  /** The slots pushed since the last pop. */
  function BusyAfter(ops: seq<Op>, n: nat): (busy: seq<bool>)
    requires OpsOn(ops, n)
    ensures |busy| == n
  {
    if ops == [] then seq(n, _ => false)
    else match ops[|ops| - 1]
      case Mark(i) => BusyAfter(ops[..|ops| - 1], n)[i := true]
      case Clear => seq(n, _ => false)
  }

  lemma NoneBusyMask(n: nat)
    ensures MaskOf(seq(n, _ => false)) == 0
  {
    NoneBusyIsZero(Low(seq(n, _ => false)));
  }

  /** After any sequence of pushes and pops the mask is determined by the busy slots. */
  lemma {:induction false} MaskFollowsBusy(ops: seq<Op>, n: nat)
    requires n <= 63 && OpsOn(ops, n)
    ensures MaskAfter(ops) == MaskOf(BusyAfter(ops, n)) && ShiftsDefined(BusyAfter(ops, n))
  {
    if ops == [] || ops[|ops| - 1].Clear? {
      NoneBusyMask(n);
    } else {
      var rest := ops[..|ops| - 1];
      MaskFollowsBusy(rest, n);
      OrMarksSlot(BusyAfter(rest, n), ops[|ops| - 1].slot);
    }
  }

  /** Up to 31 slots it is the sum of `2^i` over the slots pushed since the last pop. */
  lemma MaskAfterIsWeight(ops: seq<Op>, n: nat)
    requires n <= 31 && OpsOn(ops, n)
    ensures MaskAfter(ops) == Weight(BusyAfter(ops, n))
  {
    MaskFollowsBusy(ops, n);
  }

  /** A pop waiting on `n` slots is released exactly when every slot has been pushed since the last one. */
  ghost predicate PopTestExactFor(n: nat)
    requires n <= 32
  {
    forall ops: seq<Op> :: OpsOn(ops, n) ==> (MaskAfter(ops) == FullMask(n) <==> AllBusy(BusyAfter(ops, n)))
  }

  /** Among the slot counts for which all shifts are defined, the test is exact iff n <= 31. */
  lemma PopTestExactIff(n: nat)
    requires n <= 32
    ensures PopTestExactFor(n) <==> n <= 31
  {
    forall ops: seq<Op> | OpsOn(ops, n)
      ensures MaskAfter(ops) == FullMask(n) <==> AllBusy(BusyAfter(ops, n)) && n <= EXACT_SLOTS
    {
      MaskFollowsBusy(ops, n);
      PopTestMeans(BusyAfter(ops, n));
    }
    var all := PushEach(32, 32);
    assert n == 32 ==> OpsOn(all, n) && AllBusy(BusyAfter(all, n));
  }

  /** Slots 0 to n - 1, each pushed once. */
  lemma {:induction false} PushEach(k: nat, n: nat) returns (ops: seq<Op>)
    requires k <= n <= 32
    ensures OpsOn(ops, n) && forall i :: 0 <= i < n ==> (BusyAfter(ops, n)[i] <==> i < k)
  {
    if k == 0 {
      ops := [];
    } else {
      var rest := PushEach(k - 1, n);
      ops := rest + [Mark(k - 1)];
      assert ops[..|ops| - 1] == rest;
    }
  }

  /** Pushing slots 0 to 31 once each fills the queue, and the pop's test still fails. */
  lemma NotExactFor32()
    ensures !PopTestExactFor(32)
  {
    PopTestExactIff(32);
  }

  // --- a queue with more slots than its task has inputs ---

  /** If `m` producers push into a queue of `n > m` slots and the pop waits for `m`, no push ever finds the queue
      full, and none signals: a consumer that slept first sleeps on although its own test has come to hold. */
  lemma NobodySignals(ops: seq<Op>, m: nat, n: nat)
    requires m < n <= 63 && OpsOn(ops, m)
    ensures MaskAfter(ops) != FullMask(n)
    ensures MaskAfter(ops) == FullMask(m) <==> AllBusy(BusyAfter(ops, m)) && m <= EXACT_SLOTS
  {
    MaskFollowsBusy(ops, m);
    PopTestMeans(BusyAfter(ops, m));
    MaskFollowsBusy(ops, n);
    LaterSlotsStayFree(ops, m, n);
    PopTestMeans(BusyAfter(ops, n));
  }

  lemma {:induction false} LaterSlotsStayFree(ops: seq<Op>, m: nat, n: nat)
    requires m < n && OpsOn(ops, m)
    ensures !BusyAfter(ops, n)[m]
  {
    if ops != [] {
      LaterSlotsStayFree(ops[..|ops| - 1], m, n);
    }
  }

  // --- the tests decide what the atomic queue says they decide ---

  function Bits<V>(q: Slots<V>): (busy: seq<bool>)
    ensures |busy| == |q|
  {
    seq(|q|, i requires 0 <= i < |q| => q[i].Some?)
  }

  function OpsOf<V>(events: seq<Event<V>>): (ops: seq<Op>)
    ensures |ops| == |events|
  {
    seq(|events|, k requires 0 <= k < |events| => if events[k].Pushed? then Mark(events[k].slot) else Clear)
  }

  lemma {:induction false} HistoryBusy<V>(n: nat, events: seq<Event<V>>)
    requires After(n, events).Some? && OpsOn(OpsOf(events), n)
    ensures BusyAfter(OpsOf(events), n) == Bits(After(n, events).value)
  {
    AfterLength(n, events);
    if events == [] {
      assert Bits(Empty<V>(n)) == seq(n, _ => false);
    } else {
      var rest := events[..|events| - 1];
      assert OpsOf(events)[..|events| - 1] == OpsOf(rest);
      HistoryBusy(n, rest);
      AfterLength(n, rest);
    }
  }

  /** After every history of the atomic queue, the test of `push` tells whether the slot is occupied, and the
      test of `pop` whether the queue is released. */
  lemma HistoryTests<V>(n: nat, events: seq<Event<V>>, i: nat)
    requires n <= 63 && After(n, events).Some? && OpsOn(OpsOf(events), n) && i < n && i <= 31
    ensures |After(n, events).value| == n
    ensures var q, mask := After(n, events).value, MaskAfter(OpsOf(events));
            && (And(mask, BitOf(i)) != 0 <==> q[i].Some?)
            && (mask == FullMask(n) <==> Released(q))
            && (n <= EXACT_SLOTS ==> mask == Weight(Bits(q)))
  {
    AfterLength(n, events);
    var busy := Bits(After(n, events).value);
    HistoryBusy(n, events);
    MaskFollowsBusy(OpsOf(events), n);
    SlotTestIsExact(busy, i);
    PopTestMeans(busy);
    assert forall k :: 0 <= k < n ==> (busy[k] <==> After(n, events).value[k].Some?);
  }
}
