/** The queue as its callers see it: one-place slots, each filled by a guarded atomic push,
    all emptied together by a guarded atomic pop. A pop is released by the mask test of
    src/multi_queue.h, which succeeds on full queues of up to 31 slots and never on wider ones;
    `BusyMask` and `Monitor` derive that from the bits. */
module AtomicQueue {
  import opened Common

  type Slots<V> = seq<Option<V>>

  function Empty<V>(n: nat): Slots<V> {
    seq(n, _ => None)
  }

  predicate Full<V>(q: Slots<V>) {
    forall i :: 0 <= i < |q| ==> q[i].Some?
  }

  /** The most slots for which the mask tests are exact. */
  const EXACT_SLOTS: nat := 31

  /** Whether the test of `pop` succeeds. */
  predicate Released<V>(q: Slots<V>) {
    Full(q) && |q| <= EXACT_SLOTS
  }

  function Push<V>(q: Slots<V>, i: nat, v: V): Slots<V>
    requires i < |q| && q[i].None?
  {
    q[i := Some(v)]
  }

  function Values<V>(q: Slots<V>): seq<V>
    requires Full(q)
  {
    seq(|q|, i requires 0 <= i < |q| => q[i].value)
  }

  /** One completed operation, with what it returned. */
  datatype Event<V> = Pushed(slot: nat, value: V, filled: bool) | Popped(values: seq<V>)

  /** The queue after an operation; None if the operation could not have completed as recorded. */
  ghost function Apply<V>(q: Slots<V>, e: Event<V>): Option<Slots<V>> {
    match e
    case Pushed(i, v, filled) =>
      if i < |q| && q[i].None? && (filled <==> Released(Push(q, i, v))) then Some(Push(q, i, v)) else None
    case Popped(values) =>
      if Released(q) && values == Values(q) then Some(Empty(|q|)) else None
  }

  /** The queue of `n` slots after a history, oldest event first. */
  ghost function After<V>(n: nat, events: seq<Event<V>>): Option<Slots<V>> {
    if events == [] then Some(Empty(n))
    else match After(n, events[..|events| - 1])
      case None => None
      case Some(q) => Apply(q, events[|events| - 1])
  }

  lemma AfterAppend<V>(n: nat, events: seq<Event<V>>, e: Event<V>)
    ensures After(n, events + [e]) ==
            match After(n, events) case None => None case Some(q) => Apply(q, e)
  {
  }

  lemma {:induction false} AfterLength<V>(n: nat, events: seq<Event<V>>)
    ensures After(n, events).Some? ==> |After(n, events).value| == n
  {
    if events != [] {
      AfterLength(n, events[..|events| - 1]);
    }
  }

  /** Everything ever pushed into slot `i`, in order. */
  ghost function PushedInto<V>(events: seq<Event<V>>, i: nat): seq<V> {
    if events == [] then []
    else
      var rest, e := PushedInto(events[..|events| - 1], i), events[|events| - 1];
      if e.Pushed? && e.slot == i then rest + [e.value] else rest
  }

  /** What the successive pops returned for slot `i`. */
  ghost function PoppedFrom<V>(events: seq<Event<V>>, i: nat): seq<V> {
    if events == [] then []
    else
      var rest, e := PoppedFrom(events[..|events| - 1], i), events[|events| - 1];
      if e.Popped? && i < |e.values| then rest + [e.values[i]] else rest
  }

  ghost function Pops<V>(events: seq<Event<V>>): nat {
    if events == [] then 0
    else Pops(events[..|events| - 1]) + if events[|events| - 1].Popped? then 1 else 0
  }

  /** The number of pushes that returned 1. */
  ghost function Fills<V>(events: seq<Event<V>>): nat {
    if events == [] then 0
    else
      var e := events[|events| - 1];
      Fills(events[..|events| - 1]) + if e.Pushed? && e.filled then 1 else 0
  }

  /** Each slot is a one-place channel: the k-th pop returns the k-th element pushed on it,
      and pushes are ahead of pops by exactly the slot's busy bit. */
  lemma {:induction false} SlotIsFifo<V>(n: nat, events: seq<Event<V>>, i: nat)
    requires i < n && After(n, events).Some?
    ensures |After(n, events).value| == n
    ensures var slot := After(n, events).value[i];
            PushedInto(events, i) == PoppedFrom(events, i) + if slot.Some? then [slot.value] else []
    ensures |PoppedFrom(events, i)| == Pops(events)
  {
    AfterLength(n, events);
    if events != [] {
      var rest := events[..|events| - 1];
      SlotIsFifo(n, rest, i);
    }
  }

  /** Pushes that returned 1 are ahead of pops exactly while the next pop is released. */
  lemma {:induction false} FillsMatchPops<V>(n: nat, events: seq<Event<V>>)
    requires n >= 1 && After(n, events).Some?
    ensures Fills(events) == Pops(events) + if Released(After(n, events).value) then 1 else 0
  {
    AfterLength(n, events);
    if events == [] {
      assert Empty<V>(n)[0].None?;
    } else {
      var rest, e := events[..|events| - 1], events[|events| - 1];
      FillsMatchPops(n, rest);
      AfterLength(n, rest);
      var q := After(n, rest).value;
      match e {
        case Pushed(i, v, filled) =>
          assert !Full(q);
        case Popped(values) =>
          assert Empty<V>(n)[0].None?;
      }
    }
  }

  lemma {:induction false} CountsAppend<V>(a: seq<Event<V>>, b: seq<Event<V>>)
    ensures Fills(a + b) == Fills(a) + Fills(b) && Pops(a + b) == Pops(a) + Pops(b)
  {
    if b == [] {
      assert a + b == a;
    } else {
      CountsAppend(a, b[..|b| - 1]);
      assert (a + b)[..|a + b| - 1] == a + b[..|b| - 1];
    }
  }

  lemma {:induction false} PrefixIsLegal<V>(n: nat, a: seq<Event<V>>, b: seq<Event<V>>)
    requires After(n, a + b).Some?
    ensures After(n, a).Some?
  {
    if b == [] {
      assert a + b == a;
    } else {
      assert (a + b)[..|a + b| - 1] == a + b[..|b| - 1];
      PrefixIsLegal(n, a, b[..|b| - 1]);
    }
  }

  /** Between two consecutive pops exactly one push returns 1. */
  lemma OneFillBetweenPops<V>(n: nat, a: seq<Event<V>>, first: Event<V>, b: seq<Event<V>>, second: Event<V>)
    requires n >= 1 && first.Popped? && second.Popped? && Pops(b) == 0
    requires After(n, a + [first] + b + [second]).Some?
    ensures Fills(b) == 1
  {
    var upTo := a + [first] + b;
    PrefixIsLegal(n, upTo, [second]);
    PrefixIsLegal(n, a + [first], b);
    AfterAppend(n, upTo, second);
    FillsMatchPops(n, upTo);
    AfterAppend(n, a, first);
    FillsMatchPops(n, a + [first]);
    AfterLength(n, a + [first]);
    PrefixIsLegal(n, a, [first]);
    assert After(n, a + [first]).value[0].None?;
    CountsAppend(a + [first], b);
  }

  /** A queue that is too wide for its mask is never popped. */
  lemma {:induction false} WideNeverPops<V>(n: nat, events: seq<Event<V>>)
    requires n > EXACT_SLOTS && After(n, events).Some?
    ensures Pops(events) == 0
  {
    if events != [] {
      WideNeverPops(n, events[..|events| - 1]);
      AfterLength(n, events[..|events| - 1]);
    }
  }
}
