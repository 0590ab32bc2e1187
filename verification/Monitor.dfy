/** `MultiQueue` at the granularity of its mutex and condition variables: any number of producers
    per slot, one consumer, and arbitrary spurious wakeups. */
module Monitor {
  import opened Common
  import opened AtomicQueue
  import opened BusyMask
  import opened MultiQueueData

  datatype Producer<V> =
    | PIdle              // not inside push
    | PLock(value: V)    // constructing the unique_lock
    | PTest(value: V)    // holds the mutex, at the loop test
    | PAsleep(value: V)  // blocked in cv_busy[i].wait
    | PWoken(value: V)   // leaving wait, re-acquiring the mutex
    | PStored            // holds the mutex, element stored, at the full-mask test

  datatype Consumer =
    | CIdle
    | CLock
    | CTest
    | CAsleep            // blocked in cv_ready.wait
    | CWoken
    | CNotify(next: nat) // holds the mutex, mask cleared, in the notification loop

  datatype Owner = Nobody | ByProducer(p: nat) | ByConsumer

  /** The tests look at `mask` alone. Two history variables follow the run: `busy` has the slots marked since
      the last pop, and `events` the operations whose effect has taken place. */
  datatype State<V> = State(
    slotOf: seq<nat>,
    owner: Owner,
    mask: nat,
    busy: seq<bool>,
    elems: seq<Option<V>>,
    waiting: seq<int>,
    producers: seq<Producer<V>>,
    consumer: Consumer,
    events: seq<Event<V>>)

  datatype Label<V> =
    | Call(p: nat, value: V) | Lock(p: nat) | Suspend(p: nat) | Store(p: nat) | Return(p: nat)
    | Spurious(p: nat) | Relock(p: nat)
    | ConsumerCall | ConsumerLock | ConsumerSuspend | ConsumerTake
    | ConsumerNotify(chosen: Option<nat>) | ConsumerReturn | ConsumerSpurious | ConsumerRelock

  function Init<V>(slots: nat, slotOf: seq<nat>): State<V> {
    State(slotOf, Nobody, 0,
          seq(slots, _ => false), seq(slots, _ => None), seq(slots, _ => 0),
          seq(|slotOf|, _ => PIdle), CIdle, [])
  }

  // --- well-formed states ---

  /** A queue and its producers' slots for which the program shifts by defined amounts only. */
  predicate Sizes(slots: nat, slotOf: seq<nat>) {
    1 <= slots <= 63 && forall p :: 0 <= p < |slotOf| ==> slotOf[p] < slots && slotOf[p] <= 31
  }

  predicate Shape<V>(s: State<V>) {
    && Sizes(|s.busy|, s.slotOf)
    && |s.busy| == |s.elems| == |s.waiting|
    && |s.slotOf| == |s.producers|
    && s.mask == MaskOf(s.busy) && ShiftsDefined(s.busy)
    && forall i :: 0 <= i < |s.busy| && s.busy[i] ==> s.elems[i].Some?
  }

  /** The abstraction: what the callers of push and pop see. */
  function Abs<V>(s: State<V>): Slots<V>
    requires Shape(s)
  {
    Visible(s.busy, s.elems)
  }

  /** Producer `p` is blocked on the condition variable of slot `i`. */
  predicate AsleepOn<V>(s: State<V>, p: nat, i: nat)
    requires Shape(s)
  {
    p < |s.producers| && s.slotOf[p] == i && s.producers[p].PAsleep?
  }

  /** Producer `p` is inside push on slot `i`, past its wait and not asleep. */
  predicate AwakeOn<V>(s: State<V>, p: nat, i: nat)
    requires Shape(s)
  {
    p < |s.producers| && s.slotOf[p] == i && (s.producers[p].PWoken? || s.producers[p].PTest?)
  }

  /** `busy_mask & bit`. */
  predicate SlotTest<V>(s: State<V>, p: nat)
    requires Shape(s) && p < |s.producers|
  {
    And(s.mask, BitOf(s.slotOf[p])) != 0
  }

  /** `busy_mask == (u64(1) << n) - 1`. */
  predicate FullTest(mask: nat, slots: nat)
    requires slots <= 63
  {
    mask == FullMask(slots)
  }

  lemma SlotTestIsBusy<V>(s: State<V>, p: nat)
    requires Shape(s) && p < |s.producers|
    ensures SlotTest(s, p) <==> s.busy[s.slotOf[p]]
  {
    SlotTestIsExact(s.busy, s.slotOf[p]);
  }

  lemma FullTestIsReleased<V>(s: State<V>)
    requires Shape(s)
    ensures FullTest(s.mask, |s.busy|) <==> Released(Abs(s))
    ensures FullTest(s.mask, |s.busy|) <==> AllBusy(s.busy) && |s.busy| <= EXACT_SLOTS
  {
    PopTestMeans(s.busy);
    assert forall i :: 0 <= i < |s.busy| ==> (Abs(s)[i].Some? <==> s.busy[i]);
  }

  // --- steps ---

  predicate Enabled<V>(s: State<V>, l: Label<V>)
    requires Shape(s)
  {
    match l
    case Call(p, _) => p < |s.producers| && s.producers[p].PIdle?
    case Lock(p) => p < |s.producers| && s.producers[p].PLock? && s.owner.Nobody?
    case Suspend(p) => p < |s.producers| && s.producers[p].PTest? && SlotTest(s, p)
    case Store(p) => p < |s.producers| && s.producers[p].PTest? && !SlotTest(s, p)
    case Return(p) => p < |s.producers| && s.producers[p].PStored?
    case Spurious(p) => p < |s.producers| && s.producers[p].PAsleep?
    case Relock(p) => p < |s.producers| && s.producers[p].PWoken? && s.owner.Nobody?
    case ConsumerCall => s.consumer.CIdle?
    case ConsumerLock => s.consumer.CLock? && s.owner.Nobody?
    case ConsumerSuspend => s.consumer.CTest? && !FullTest(s.mask, |s.busy|)
    case ConsumerTake => s.consumer.CTest? && FullTest(s.mask, |s.busy|)
    case ConsumerNotify(chosen) =>
      && s.consumer.CNotify? && s.consumer.next < |s.busy|
      && NotifyOne(s, s.consumer.next, chosen)
    case ConsumerReturn => s.consumer.CNotify? && s.consumer.next >= |s.busy|
    case ConsumerSpurious => s.consumer.CAsleep?
    case ConsumerRelock => s.consumer.CWoken? && s.owner.Nobody?
  }

  /** `if (waiting[i] > 0) cv_busy[i].notify_one()`: one of the sleepers wakes, if there is any. */
  predicate NotifyOne<V>(s: State<V>, i: nat, chosen: Option<nat>)
    requires Shape(s) && i < |s.busy|
  {
    match chosen
    case Some(p) => s.waiting[i] > 0 && AsleepOn(s, p, i)
    case None => s.waiting[i] <= 0 || forall p: nat :: p < |s.producers| ==> !AsleepOn(s, p, i)
  }

  function Next<V>(s: State<V>, l: Label<V>): State<V>
    requires Shape(s) && Enabled(s, l)
  {
    match l
    case Call(p, v) => s.(producers := s.producers[p := PLock(v)])
    case Lock(p) => s.(owner := ByProducer(p), producers := s.producers[p := PTest(s.producers[p].value)])
    case Suspend(p) =>
      var i := s.slotOf[p];
      s.(owner := Nobody,
         waiting := s.waiting[i := s.waiting[i] + 1],
         producers := s.producers[p := PAsleep(s.producers[p].value)])
    case Store(p) =>
      var i, v := s.slotOf[p], s.producers[p].value;
      var mask := Or(s.mask, BitOf(i));
      s.(elems := s.elems[i := Some(v)],
         mask := mask,
         busy := s.busy[i := true],
         producers := s.producers[p := PStored],
         events := s.events + [Pushed(i, v, FullTest(mask, |s.busy|))])
    case Return(p) =>
      s.(owner := Nobody,
         producers := s.producers[p := PIdle],
         consumer := if FullTest(s.mask, |s.busy|) && s.consumer.CAsleep? then CWoken else s.consumer)
    case Spurious(p) => s.(producers := s.producers[p := PWoken(s.producers[p].value)])
    case Relock(p) =>
      var i := s.slotOf[p];
      s.(owner := ByProducer(p),
         waiting := s.waiting[i := s.waiting[i] - 1],
         producers := s.producers[p := PTest(s.producers[p].value)])
    case ConsumerCall => s.(consumer := CLock)
    case ConsumerLock => s.(owner := ByConsumer, consumer := CTest)
    case ConsumerSuspend => s.(owner := Nobody, consumer := CAsleep)
    case ConsumerTake =>
      FullTestIsReleased(s);
      s.(mask := 0,
         busy := seq(|s.busy|, _ => false),
         consumer := CNotify(0),
         events := s.events + [Popped(Values(Abs(s)))])
    case ConsumerNotify(chosen) =>
      var woken := match chosen
        case None => s.producers
        case Some(p) => s.producers[p := PWoken(s.producers[p].value)];
      s.(producers := woken, consumer := CNotify(s.consumer.next + 1))
    case ConsumerReturn => s.(owner := Nobody, consumer := CIdle)
    case ConsumerSpurious => s.(consumer := CWoken)
    case ConsumerRelock => s.(owner := ByConsumer, consumer := CTest)
  }

  // --- the invariant ---

  /** Exactly the mutex owner is between lock and unlock. */
  predicate MutexHeld<V>(s: State<V>) {
    && (forall p: nat :: p < |s.producers| ==>
          (s.producers[p].PTest? || s.producers[p].PStored? <==> s.owner == ByProducer(p)))
    && (s.owner.ByProducer? ==> s.owner.p < |s.producers|)
    && (s.consumer.CTest? || s.consumer.CNotify? <==> s.owner == ByConsumer)
  }

  predicate Registered<V>(p: Producer<V>) {
    p.PAsleep? || p.PWoken?
  }

  /** The producers counted in `waiting[i]`. */
  function RegisteredOn<V>(s: State<V>, i: nat): seq<bool>
    requires Shape(s)
  {
    seq(|s.producers|, p requires 0 <= p < |s.producers| => s.slotOf[p] == i && Registered(s.producers[p]))
  }

  predicate WaitingCounts<V>(s: State<V>)
    requires Shape(s)
  {
    forall i: nat :: i < |s.busy| ==> s.waiting[i] == Count(RegisteredOn(s, i))
  }

  /** Slot `i` will still be signalled by the pop in progress. */
  predicate NotificationDue<V>(s: State<V>, i: nat) {
    s.consumer.CNotify? && s.consumer.next <= i
  }

  /** A sleeper on a free slot is never alone: somebody on that slot is awake, or will be signalled. */
  ghost predicate NoLostProducer<V>(s: State<V>)
    requires Shape(s)
  {
    forall p: nat, i: nat :: i < |s.busy| && !s.busy[i] && AsleepOn(s, p, i) ==>
      NotificationDue(s, i) || exists q :: AwakeOn(s, q, i)
  }

  /** A consumer asleep on a full mask has its signal pending: the filling push has not returned. */
  ghost predicate NoLostConsumer<V>(s: State<V>)
    requires Shape(s)
  {
    s.consumer.CAsleep? && FullTest(s.mask, |s.busy|) ==>
      exists p :: 0 <= p < |s.producers| && s.producers[p].PStored?
  }

  /** The completed operations are a legal history of the atomic queue, ending in the visible contents. */
  ghost predicate Refines<V>(s: State<V>)
    requires Shape(s)
  {
    After(|s.busy|, s.events) == Some(Abs(s))
  }

  /** A push about to return reports what its event recorded. */
  predicate ResultRecorded<V>(s: State<V>)
    requires Shape(s)
  {
    forall p :: 0 <= p < |s.producers| && s.producers[p].PStored? ==>
      && s.events != []
      && var e := s.events[|s.events| - 1];
      && e.Pushed? && e.slot == s.slotOf[p] && e.filled == FullTest(s.mask, |s.busy|)
  }

  ghost predicate Inv<V>(s: State<V>) {
    && Shape(s)
    && MutexHeld(s)
    && WaitingCounts(s)
    && NoLostProducer(s)
    && NoLostConsumer(s)
    && Refines(s)
    && ResultRecorded(s)
  }

  lemma InitInv<V>(slots: nat, slotOf: seq<nat>)
    requires Sizes(slots, slotOf)
    ensures Inv(Init<V>(slots, slotOf))
  {
    var s := Init<V>(slots, slotOf);
    NoneBusyMask(slots);
    forall i: nat | i < slots ensures s.waiting[i] == Count(RegisteredOn(s, i)) {
      CountBounds(RegisteredOn(s, i));
    }
    assert Abs(s) == Empty(slots);
  }

  lemma StepShape<V>(s: State<V>, l: Label<V>)
    requires Shape(s) && Enabled(s, l)
    ensures Shape(Next(s, l)) && |Next(s, l).busy| == |s.busy|
  {
    match l {
      case Store(p) => OrMarksSlot(s.busy, s.slotOf[p]);
      case ConsumerTake => NoneBusyMask(|s.busy|);
      case _ =>
    }
  }

  lemma StepMutex<V>(s: State<V>, l: Label<V>)
    requires Shape(s) && MutexHeld(s) && Enabled(s, l)
    ensures MutexHeld(Next(s, l))
  {
  }

  lemma StepWaiting<V>(s: State<V>, l: Label<V>)
    requires Shape(s) && MutexHeld(s) && WaitingCounts(s) && Enabled(s, l)
    ensures Shape(Next(s, l)) && WaitingCounts(Next(s, l))
  {
    StepShape(s, l);
    var s' := Next(s, l);
    forall i: nat | i < |s.busy| ensures s'.waiting[i] == Count(RegisteredOn(s', i)) {
      StepWaitingOn(s, l, i);
    }
  }

  lemma StepWaitingOn<V>(s: State<V>, l: Label<V>, i: nat)
    requires Shape(s) && MutexHeld(s) && Enabled(s, l) && Shape(Next(s, l))
    requires i < |s.busy| && s.waiting[i] == Count(RegisteredOn(s, i))
    ensures Next(s, l).waiting[i] == Count(RegisteredOn(Next(s, l), i))
  {
    var s' := Next(s, l);
    match MovedBy(l) {
      case Some(p) =>
        ProducerMoves(s, l, p);
        RegisteredUpdate(s, s', p, i);
      case None =>
        assert RegisteredOn(s', i) == RegisteredOn(s, i);
    }
  }

  /** The producer that a step moves. */
  function MovedBy<V>(l: Label<V>): Option<nat> {
    match l
    case Call(p, _) => Some(p)
    case Lock(p) => Some(p)
    case Suspend(p) => Some(p)
    case Store(p) => Some(p)
    case Return(p) => Some(p)
    case Spurious(p) => Some(p)
    case Relock(p) => Some(p)
    case ConsumerNotify(chosen) => chosen
    case _ => None
  }

  /** A step moves one producer at most, and changes `waiting` only for that producer's slot, by its
      registration. */
  lemma ProducerMoves<V>(s: State<V>, l: Label<V>, p: nat)
    requires Shape(s) && MutexHeld(s) && Enabled(s, l) && MovedBy(l) == Some(p)
    ensures p < |s.producers| && |Next(s, l).producers| == |s.producers| && |Next(s, l).waiting| == |s.waiting|
    ensures Next(s, l).slotOf == s.slotOf && Next(s, l).producers == s.producers[p := Next(s, l).producers[p]]
    ensures forall i: nat :: i < |s.waiting| ==>
              Next(s, l).waiting[i] == s.waiting[i]
                - (if s.slotOf[p] == i && Registered(s.producers[p]) then 1 else 0)
                + (if s.slotOf[p] == i && Registered(Next(s, l).producers[p]) then 1 else 0)
  {
  }

  /** When one producer moves, the number registered on a slot changes by that producer alone. */
  lemma RegisteredUpdate<V>(s: State<V>, s': State<V>, p: nat, i: nat)
    requires Shape(s) && Shape(s') && s'.slotOf == s.slotOf && p < |s.producers| == |s'.producers|
    requires s'.producers == s.producers[p := s'.producers[p]]
    ensures Count(RegisteredOn(s', i)) == Count(RegisteredOn(s, i))
              - (if s.slotOf[p] == i && Registered(s.producers[p]) then 1 else 0)
              + (if s.slotOf[p] == i && Registered(s'.producers[p]) then 1 else 0)
  {
    var now := s.slotOf[p] == i && Registered(s'.producers[p]);
    assert RegisteredOn(s', i) == RegisteredOn(s, i)[p := now];
    CountUpdate(RegisteredOn(s, i), p, now);
  }

  lemma StepNoLostProducer<V>(s: State<V>, l: Label<V>)
    requires Shape(s) && MutexHeld(s) && WaitingCounts(s) && NoLostProducer(s) && Enabled(s, l)
    ensures Shape(Next(s, l)) && NoLostProducer(Next(s, l))
  {
    StepShape(s, l);
    var s' := Next(s, l);
    forall p: nat, i: nat | i < |s'.busy| && !s'.busy[i] && AsleepOn(s', p, i) && !NotificationDue(s', i)
      ensures exists q :: AwakeOn(s', q, i)
    {
      AwakeAfter(s, l, p, i);
    }
  }

  /** Whoever is awake on a slot stays so until that slot is taken. */
  lemma StaysAwake<V>(s: State<V>, l: Label<V>, q: nat, i: nat)
    requires Shape(s) && MutexHeld(s) && Enabled(s, l) && Shape(Next(s, l))
    requires AwakeOn(s, q, i) && i < |s.busy| && !Next(s, l).busy[i]
    ensures AwakeOn(Next(s, l), q, i)
  {
    if l == Suspend(q) {
      SlotTestIsBusy(s, q);
    }
  }

  /** A producer falls asleep on an occupied slot only. */
  lemma SleptBefore<V>(s: State<V>, l: Label<V>, p: nat, i: nat)
    requires Shape(s) && Enabled(s, l) && Shape(Next(s, l))
    requires i < |s.busy| && !Next(s, l).busy[i] && AsleepOn(Next(s, l), p, i)
    ensures AsleepOn(s, p, i)
  {
    if l == Suspend(p) {
      SlotTestIsBusy(s, p);
    }
  }

  /** The heart of the argument, for one sleeper on one free slot. */
  lemma AwakeAfter<V>(s: State<V>, l: Label<V>, p: nat, i: nat)
    requires Shape(s) && MutexHeld(s) && WaitingCounts(s) && NoLostProducer(s) && Enabled(s, l)
    requires Shape(Next(s, l))
    requires i < |s.busy| && !Next(s, l).busy[i] && AsleepOn(Next(s, l), p, i) && !NotificationDue(Next(s, l), i)
    ensures exists q :: AwakeOn(Next(s, l), q, i)
  {
    var s' := Next(s, l);
    SleptBefore(s, l, p, i);
    if l.ConsumerNotify? && s.consumer.next == i {
      SleeperIsCounted(s, p, i);
      assert AwakeOn(s', l.chosen.value, i);
    } else {
      assert !NotificationDue(s, i);
      var q :| AwakeOn(s, q, i);
      StaysAwake(s, l, q, i);
    }
  }

  lemma SleeperIsCounted<V>(s: State<V>, p: nat, i: nat)
    requires Shape(s) && WaitingCounts(s) && i < |s.busy| && AsleepOn(s, p, i)
    ensures s.waiting[i] > 0
  {
    CountBounds(RegisteredOn(s, i));
    assert RegisteredOn(s, i)[p];
  }

  lemma StepNoLostConsumer<V>(s: State<V>, l: Label<V>)
    requires Shape(s) && MutexHeld(s) && NoLostConsumer(s) && Enabled(s, l)
    ensures Shape(Next(s, l)) && NoLostConsumer(Next(s, l))
  {
    StepShape(s, l);
    var s' := Next(s, l);
    if l.Store? {
      assert s'.producers[l.p].PStored?;
    } else if p :| 0 <= p < |s.producers| && s.producers[p].PStored? {
      assert s.owner == ByProducer(p);
      assert s'.producers[p].PStored? || l == Return(p);
    }
  }

  /** Every step is either invisible to the callers or exactly one atomic push or pop. */
  lemma StepRefines<V>(s: State<V>, l: Label<V>)
    requires Shape(s) && Refines(s) && Enabled(s, l)
    ensures Shape(Next(s, l)) && Refines(Next(s, l))
    ensures var s' := Next(s, l);
            if l.Store? || l.ConsumerTake?
            then |s'.events| == |s.events| + 1 && s'.events[..|s.events|] == s.events
                 && Apply(Abs(s), s'.events[|s.events|]) == Some(Abs(s'))
            else s'.events == s.events && Abs(s') == Abs(s)
  {
    StepShape(s, l);
    var s' := Next(s, l);
    match l {
      case Store(p) =>
        var i, v := s.slotOf[p], s.producers[p].value;
        SlotTestIsBusy(s, p);
        assert Abs(s') == Push(Abs(s), i, v);
        FullTestIsReleased(s');
        AfterAppend(|s.busy|, s.events, Pushed(i, v, FullTest(s'.mask, |s.busy|)));
      case ConsumerTake =>
        FullTestIsReleased(s);
        assert Abs(s') == Empty(|s.busy|);
        AfterAppend(|s.busy|, s.events, Popped(Values(Abs(s))));
      case _ =>
        assert Abs(s') == Abs(s);
    }
  }

  lemma StepResult<V>(s: State<V>, l: Label<V>)
    requires Shape(s) && MutexHeld(s) && ResultRecorded(s) && Enabled(s, l)
    ensures Shape(Next(s, l)) && ResultRecorded(Next(s, l))
  {
    StepShape(s, l);
  }

  lemma StepInv<V>(s: State<V>, l: Label<V>)
    requires Inv(s) && Enabled(s, l)
    ensures Inv(Next(s, l))
  {
    StepShape(s, l);
    StepMutex(s, l);
    StepWaiting(s, l);
    StepNoLostProducer(s, l);
    StepNoLostConsumer(s, l);
    StepRefines(s, l);
    StepResult(s, l);
  }

  // --- runs ---

  /** A run from the initial state; step `k` takes label `k`. */
  ghost predicate Run<V>(slots: nat, slotOf: seq<nat>, states: seq<State<V>>, labels: seq<Label<V>>) {
    && |states| == |labels| + 1
    && states[0] == Init(slots, slotOf)
    && forall k {:trigger labels[k]} :: 0 <= k < |labels| ==>
         Shape(states[k]) && Enabled(states[k], labels[k]) && states[k + 1] == Next(states[k], labels[k])
  }

  lemma {:induction false} RunInv<V>(slots: nat, slotOf: seq<nat>, states: seq<State<V>>, labels: seq<Label<V>>, k: nat)
    requires Sizes(slots, slotOf)
    requires Run(slots, slotOf, states, labels) && k < |states|
    ensures Inv(states[k]) && |states[k].busy| == slots
  {
    if k == 0 {
      InitInv<V>(slots, slotOf);
    } else {
      RunInv(slots, slotOf, states, labels, k - 1);
      StepInv(states[k - 1], labels[k - 1]);
      StepShape(states[k - 1], labels[k - 1]);
    }
  }

  /** No lost wakeups, in every state of every run. */
  lemma NoLostWakeups<V>(slots: nat, slotOf: seq<nat>, states: seq<State<V>>, labels: seq<Label<V>>, k: nat)
    requires Sizes(slots, slotOf)
    requires Run(slots, slotOf, states, labels) && k < |states|
    ensures Shape(states[k]) && |states[k].busy| == slots
    ensures var s := states[k];
            forall p: nat, i: nat :: i < slots && !s.busy[i] && AsleepOn(s, p, i) ==>
              NotificationDue(s, i) || exists q :: AwakeOn(s, q, i)
    ensures var s := states[k];
            s.consumer.CAsleep? && Released(Abs(s)) ==>
              s.owner.ByProducer? && s.owner.p < |s.producers| && s.producers[s.owner.p].PStored?
  {
    RunInv(slots, slotOf, states, labels, k);
    var s := states[k];
    FullTestIsReleased(s);
    if s.consumer.CAsleep? && Released(Abs(s)) {
      var p :| 0 <= p < |s.producers| && s.producers[p].PStored?;
      assert s.owner == ByProducer(p);
    }
  }

  /** A step the monitor takes on its own: no new call and no spurious wakeup. */
  predicate Internal<V>(l: Label<V>) {
    !l.Call? && !l.ConsumerCall? && !l.Spurious? && !l.ConsumerSpurious?
  }

  // --- the monitor comes to rest ---

  function ProducerWork<V>(p: Producer<V>): nat {
    match p
    case PIdle => 0
    case PLock(_) => 6
    case PTest(_) => 5
    case PAsleep(_) => 4
    case PWoken(_) => 6
    case PStored => 3
  }

  /** Everything the consumer may still do in this call, the notifications included. */
  function ConsumerWork(c: Consumer, slots: nat): int {
    match c
    case CIdle => 0
    case CNotify(next) => 1 + 3 * (slots - next)
    case CAsleep => 2 + 3 * slots
    case CTest => 3 + 3 * slots
    case CLock => 4 + 3 * slots
    case CWoken => 4 + 3 * slots
  }

  function Works<V>(s: State<V>): (w: seq<int>)
    ensures |w| == |s.producers|
  {
    seq(|s.producers|, p requires 0 <= p < |s.producers| => ProducerWork(s.producers[p]))
  }

  function Work<V>(s: State<V>): int {
    Sum(Works(s)) + ConsumerWork(s.consumer, |s.busy|)
  }

  /** The notification loop stays within the slots. */
  predicate NotifiesSlots<V>(s: State<V>) {
    s.consumer.CNotify? ==> s.consumer.next <= |s.busy|
  }

  lemma StepNotifies<V>(s: State<V>, l: Label<V>)
    requires Shape(s) && NotifiesSlots(s) && Enabled(s, l)
    ensures NotifiesSlots(Next(s, l))
  {
    StepShape(s, l);
  }

  /** The change in the work of the producer that moves. */
  function ProducerChange<V>(s: State<V>, l: Label<V>): int
    requires Shape(s) && MutexHeld(s) && Enabled(s, l)
  {
    match MovedBy(l)
    case None => 0
    case Some(p) =>
      ProducerMoves(s, l, p);
      ProducerWork(Next(s, l).producers[p]) - ProducerWork(s.producers[p])
  }

  lemma WorkAfter<V>(s: State<V>, l: Label<V>)
    requires Shape(s) && MutexHeld(s) && Enabled(s, l)
    ensures Sum(Works(Next(s, l))) == Sum(Works(s)) + ProducerChange(s, l)
  {
    var s' := Next(s, l);
    match MovedBy(l) {
      case Some(p) =>
        ProducerMoves(s, l, p);
        SumUpdate(Works(s), p, ProducerWork(s'.producers[p]));
        assert Works(s') == Works(s)[p := ProducerWork(s'.producers[p])];
      case None =>
        assert Works(s') == Works(s);
    }
  }

  /** A woken sleeper gains less than the notification that woke it, or the push, uses up. */
  lemma ChangesBalance<V>(s: State<V>, l: Label<V>)
    requires Shape(s) && MutexHeld(s) && NotifiesSlots(s) && Enabled(s, l) && Internal(l)
    ensures |Next(s, l).busy| == |s.busy|
    ensures 0 <= ConsumerWork(Next(s, l).consumer, |s.busy|)
    ensures ProducerChange(s, l) + ConsumerWork(Next(s, l).consumer, |s.busy|) < ConsumerWork(s.consumer, |s.busy|)
  {
  }

  /** Every internal step uses up work that only new calls and spurious wakeups can add. */
  lemma InternalStepsRunOut<V>(s: State<V>, l: Label<V>)
    requires Shape(s) && MutexHeld(s) && NotifiesSlots(s) && Enabled(s, l) && Internal(l)
    ensures 0 <= Work(Next(s, l)) < Work(s)
  {
    ChangesBalance(s, l);
    WorkAfter(s, l);
    SumNonNegative(Works(Next(s, l)));
  }

  lemma RunStepWork<V>(slots: nat, slotOf: seq<nat>, states: seq<State<V>>, labels: seq<Label<V>>, k: nat)
    requires Sizes(slots, slotOf) && Run(slots, slotOf, states, labels) && k < |labels| && Internal(labels[k])
    ensures 0 <= Work(states[k + 1]) < Work(states[k])
  {
    RunNotifies(slots, slotOf, states, labels, k);
    RunInv(slots, slotOf, states, labels, k);
    InternalStepsRunOut(states[k], labels[k]);
  }

  lemma WorkIsNatural<V>(slots: nat, slotOf: seq<nat>, states: seq<State<V>>, labels: seq<Label<V>>, k: nat)
    requires Sizes(slots, slotOf) && Run(slots, slotOf, states, labels) && k < |states|
    ensures 0 <= Work(states[k])
  {
    RunNotifies(slots, slotOf, states, labels, k);
    SumNonNegative(Works(states[k]));
  }

  /** In every run, no more internal steps in a row than the work at their start. */
  lemma {:induction false} QuietRunIsShort<V>(
    slots: nat, slotOf: seq<nat>, states: seq<State<V>>, labels: seq<Label<V>>, j: nat, k: nat)
    requires Sizes(slots, slotOf) && Run(slots, slotOf, states, labels) && j <= k < |states|
    requires forall i :: j <= i < k ==> Internal(labels[i])
    ensures k - j <= Work(states[j]) - Work(states[k]) && 0 <= Work(states[k])
  {
    if j == k {
      WorkIsNatural(slots, slotOf, states, labels, k);
    } else {
      QuietRunIsShort(slots, slotOf, states, labels, j, k - 1);
      RunStepWork(slots, slotOf, states, labels, k - 1);
    }
  }

  lemma {:induction false} RunNotifies<V>(
    slots: nat, slotOf: seq<nat>, states: seq<State<V>>, labels: seq<Label<V>>, k: nat)
    requires Sizes(slots, slotOf) && Run(slots, slotOf, states, labels) && k < |states|
    ensures NotifiesSlots(states[k])
  {
    if k > 0 {
      RunNotifies(slots, slotOf, states, labels, k - 1);
      StepNotifies(states[k - 1], labels[k - 1]);
    }
  }

  /** When the monitor comes to rest, the mutex is free, and whoever is still inside is asleep for a
      reason the atomic queue agrees with: a producer because its slot is occupied, the consumer
      because a pop is not released: some slot is empty, or there are more than 31. */
  lemma RestingSleepersAreBlocked<V>(s: State<V>)
    requires Inv(s)
    requires forall l: Label<V> :: Internal(l) ==> !Enabled(s, l)
    ensures s.owner == Nobody
    ensures forall p :: 0 <= p < |s.producers| ==>
              s.producers[p].PIdle? || (s.producers[p].PAsleep? && Abs(s)[s.slotOf[p]].Some?)
    ensures s.consumer.CIdle? || (s.consumer.CAsleep? && !Released(Abs(s)))
  {
    if s.owner != Nobody {
      OwnerCanStep(s);
    }
    forall p: nat | p < |s.producers|
      ensures s.producers[p].PIdle? || (s.producers[p].PAsleep? && Abs(s)[s.slotOf[p]].Some?)
    {
      SlotTestIsBusy(s, p);
      assert !Enabled(s, Label<V>.Lock(p)) && !Enabled(s, Label<V>.Relock(p));
      assert AsleepOn(s, p, s.slotOf[p]) || !s.producers[p].PAsleep?;
      NobodyAwakeAtRest(s, s.slotOf[p]);
    }
    assert !Enabled(s, Label<V>.ConsumerLock) && !Enabled(s, Label<V>.ConsumerRelock);
    FullTestIsReleased(s);
  }

  lemma NobodyAwakeAtRest<V>(s: State<V>, i: nat)
    requires Inv(s) && s.owner == Nobody
    requires forall l: Label<V> :: Internal(l) ==> !Enabled(s, l)
    ensures forall q: nat :: !AwakeOn(s, q, i)
  {
    forall q: nat ensures !AwakeOn(s, q, i) {
      assert !Enabled(s, Label<V>.Relock(q));
    }
  }

  /** Whoever holds the mutex can always take its next step. */
  lemma OwnerCanStep<V>(s: State<V>)
    requires Inv(s) && s.owner != Nobody
    ensures exists l: Label<V> :: Internal(l) && Enabled(s, l)
  {
    match s.owner {
      case ByProducer(p) =>
        if s.producers[p].PStored? {
          assert Enabled(s, Label<V>.Return(p));
        } else if SlotTest(s, p) {
          assert Enabled(s, Label<V>.Suspend(p));
        } else {
          assert Enabled(s, Label<V>.Store(p));
        }
      case ByConsumer =>
        if s.consumer.CTest? {
          assert if FullTest(s.mask, |s.busy|) then Enabled(s, Label<V>.ConsumerTake)
                 else Enabled(s, Label<V>.ConsumerSuspend);
        } else if s.consumer.next < |s.busy| {
          var i := s.consumer.next;
          if p: nat :| p < |s.producers| && s.waiting[i] > 0 && AsleepOn(s, p, i) {
            assert Enabled(s, Label<V>.ConsumerNotify(Some(p)));
          } else {
            assert Enabled(s, Label<V>.ConsumerNotify(None));
          }
        } else {
          assert Enabled(s, Label<V>.ConsumerReturn);
        }
    }
  }

  /** The monitor refines the atomic queue: in every state of every run, for every slot, the pops so
      far returned exactly the elements pushed so far, in order, up to the one still in the slot. */
  lemma MonitorIsAtomic<V>(slots: nat, slotOf: seq<nat>, states: seq<State<V>>, labels: seq<Label<V>>, k: nat, i: nat)
    requires Sizes(slots, slotOf)
    requires Run(slots, slotOf, states, labels) && k < |states| && i < slots
    ensures Shape(states[k]) && |states[k].busy| == slots
    ensures After(slots, states[k].events) == Some(Abs(states[k]))
    ensures var s := states[k];
            PushedInto(s.events, i) == PoppedFrom(s.events, i) + if s.busy[i] then [s.elems[i].value] else []
    ensures var s := states[k];
            Fills(s.events) == Pops(s.events) + if Released(Abs(s)) then 1 else 0
  {
    RunInv(slots, slotOf, states, labels, k);
    var s := states[k];
    SlotIsFifo(slots, s.events, i);
    FillsMatchPops(slots, s.events);
    FullTestIsReleased(s);
  }

  /** With 32 slots or more no pop ever returns, even with all slots full. */
  lemma WideQueueNeverPops<V>(slots: nat, slotOf: seq<nat>, states: seq<State<V>>, labels: seq<Label<V>>, k: nat)
    requires Sizes(slots, slotOf) && slots > EXACT_SLOTS
    requires Run(slots, slotOf, states, labels) && k < |states|
    ensures Pops(states[k].events) == 0
    ensures forall l: Label<V> :: Shape(states[k]) && Enabled(states[k], l) ==> !l.ConsumerTake?
  {
    RunInv(slots, slotOf, states, labels, k);
    WideNeverPops(slots, states[k].events);
    FullTestIsReleased(states[k]);
  }

  // --- what is called is what is pushed ---

  /** The values that producer `p` has called push with, in order. */
  function Called<V>(labels: seq<Label<V>>, p: nat): seq<V> {
    if labels == [] then []
    else
      var rest, l := Called(labels[..|labels| - 1], p), labels[|labels| - 1];
      if l.Call? && l.p == p then rest + [l.value] else rest
  }

  /** The values that have reached the slot by producer `p`: those of the events that its `Store` steps appended. */
  function Stored<V>(states: seq<State<V>>, labels: seq<Label<V>>, p: nat): seq<V>
    requires |states| == |labels| + 1
    requires forall k :: 0 <= k < |labels| && labels[k].Store? ==> EndsInPush(states[k + 1])
  {
    if labels == [] then []
    else
      var n := |labels| - 1;
      var rest := Stored(states[..n + 1], labels[..n], p);
      if labels[n] == Store(p) then rest + [LastPushed(states[n + 1])] else rest
  }

  predicate EndsInPush<V>(s: State<V>) {
    s.events != [] && s.events[|s.events| - 1].Pushed?
  }

  function LastPushed<V>(s: State<V>): V
    requires EndsInPush(s)
  {
    s.events[|s.events| - 1].value
  }

  /** The value of a push that has been called and not yet stored. */
  function Pending<V>(p: Producer<V>): seq<V> {
    if p.PIdle? || p.PStored? then [] else [p.value]
  }

  /** A step hands on the pending value of each producer: a call sets it, a store puts it into the event, for the
      producer's slot, and no other step changes it. */
  lemma StepKeepsValue<V>(s: State<V>, l: Label<V>, p: nat)
    requires Shape(s) && Enabled(s, l) && p < |s.producers|
    ensures var s' := Next(s, l);
            && |s'.producers| == |s.producers| && s'.slotOf == s.slotOf
            && (l.Store? ==> EndsInPush(s') && s'.events[|s'.events| - 1].slot == s.slotOf[l.p])
            && (if l.Call? && l.p == p then Pending(s.producers[p]) == [] && Pending(s'.producers[p]) == [l.value]
                else if l == Store(p) then Pending(s.producers[p]) == [LastPushed(s')] && Pending(s'.producers[p]) == []
                else Pending(s'.producers[p]) == Pending(s.producers[p]))
  {
  }

  predicate StoresPush<V>(states: seq<State<V>>, labels: seq<Label<V>>) {
    |states| == |labels| + 1 &&
    forall k :: 0 <= k < |labels| && labels[k].Store? ==> EndsInPush(states[k + 1])
  }

  lemma RunStores<V>(slots: nat, slotOf: seq<nat>, states: seq<State<V>>, labels: seq<Label<V>>)
    requires Sizes(slots, slotOf) && Run(slots, slotOf, states, labels)
    ensures StoresPush(states, labels)
  {
    forall k | 0 <= k < |labels| && labels[k].Store? ensures EndsInPush(states[k + 1]) {
      var l := labels[k];
      StepKeepsValue(states[k], l, l.p);
    }
  }

  lemma RunPrefix<V>(slots: nat, slotOf: seq<nat>, states: seq<State<V>>, labels: seq<Label<V>>, n: nat)
    requires Run(slots, slotOf, states, labels) && n <= |labels|
    ensures Run(slots, slotOf, states[..n + 1], labels[..n])
  {
    var ss, ls := states[..n + 1], labels[..n];
    forall k | 0 <= k < |ls|
      ensures Shape(ss[k]) && Enabled(ss[k], ls[k]) && ss[k + 1] == Next(ss[k], ls[k])
    {
      var l := labels[k];
      assert Shape(states[k]) && Enabled(states[k], l) && states[k + 1] == Next(states[k], l);
      assert ss[k] == states[k] && ss[k + 1] == states[k + 1] && ls[k] == l;
    }
  }

  /** In every run, what a producer has pushed is what it has called push with, in order, but for a last call that
      is still pending. */
  lemma {:induction false} CallsArePushed<V>(
    slots: nat, slotOf: seq<nat>, states: seq<State<V>>, labels: seq<Label<V>>, p: nat)
    requires Sizes(slots, slotOf) && Run(slots, slotOf, states, labels) && p < |slotOf|
    ensures StoresPush(states, labels) && |states[|labels|].producers| == |slotOf|
    ensures Called(labels, p) == Stored(states, labels, p) + Pending(states[|labels|].producers[p])
  {
    RunStores(slots, slotOf, states, labels);
    if labels != [] {
      var n := |labels| - 1;
      RunPrefix(slots, slotOf, states, labels, n);
      CallsArePushed(slots, slotOf, states[..n + 1], labels[..n], p);
      var l := labels[n];
      StepKeepsValue(states[n], l, p);
    }
  }

  // --- and what is popped ---

  /** Producer `p` is the only one on slot `i`. */
  predicate OnlyProducer(slotOf: seq<nat>, p: nat, i: nat) {
    p < |slotOf| && slotOf[p] == i && forall q :: 0 <= q < |slotOf| && q != p ==> slotOf[q] != i
  }

  /** A step appends to the pushes into slot `i` exactly when its producer stores. */
  lemma StepPushes<V>(s: State<V>, l: Label<V>, p: nat, i: nat)
    requires Shape(s) && Refines(s) && Enabled(s, l) && OnlyProducer(s.slotOf, p, i)
    ensures var s' := Next(s, l);
            PushedInto(s'.events, i) ==
              if l == Store(p) then PushedInto(s.events, i) + [Pending(s.producers[p])[0]] else PushedInto(s.events, i)
  {
    var s' := Next(s, l);
    StepRefines(s, l);
    if l.Store? || l.ConsumerTake? {
      assert s'.events[..|s'.events| - 1] == s.events;
    }
  }

  lemma {:induction false} StoredIsPushed<V>(
    slots: nat, slotOf: seq<nat>, states: seq<State<V>>, labels: seq<Label<V>>, p: nat, i: nat)
    requires Sizes(slots, slotOf) && Run(slots, slotOf, states, labels) && OnlyProducer(slotOf, p, i)
    ensures StoresPush(states, labels)
    ensures states[|labels|].slotOf == slotOf && PushedInto(states[|labels|].events, i) == Stored(states, labels, p)
  {
    RunStores(slots, slotOf, states, labels);
    if labels != [] {
      var n := |labels| - 1;
      RunPrefix(slots, slotOf, states, labels, n);
      StoredIsPushed(slots, slotOf, states[..n + 1], labels[..n], p, i);
      RunInv(slots, slotOf, states, labels, n);
      var l := labels[n];
      StepKeepsValue(states[n], l, p);
      StepPushes(states[n], l, p, i);
    }
  }

  /** With one producer on a slot, as every edge has: in every run the values it has called push with are, in order,
      those the pops have returned from the slot, then the one in the slot, if it is busy, then the one of a call
      that is still pending. Nothing is lost, repeated or exchanged. */
  lemma CallsArePopped<V>(
    slots: nat, slotOf: seq<nat>, states: seq<State<V>>, labels: seq<Label<V>>, p: nat, i: nat)
    requires Sizes(slots, slotOf) && Run(slots, slotOf, states, labels) && i < slots && OnlyProducer(slotOf, p, i)
    ensures Shape(states[|labels|]) && |states[|labels|].busy| == slots && p < |states[|labels|].producers|
    ensures var s := states[|labels|];
            Called(labels, p) ==
              PoppedFrom(s.events, i) + (if s.busy[i] then [s.elems[i].value] else []) + Pending(s.producers[p])
  {
    CallsArePushed(slots, slotOf, states, labels, p);
    StoredIsPushed(slots, slotOf, states, labels, p, i);
    MonitorIsAtomic(slots, slotOf, states, labels, |labels|, i);
  }

  // --- pops happen when called ---

  /** Calls and spurious wake-ups are up to the environment: whoever is outside may call with any value, and whoever
      sleeps may wake, whatever else is going on. */
  lemma EnvironmentIsFree<V>(s: State<V>, p: nat, value: V)
    requires Shape(s) && p < |s.producers|
    ensures s.producers[p].PIdle? ==> Enabled(s, Label<V>.Call(p, value))
    ensures s.producers[p].PAsleep? ==> Enabled(s, Label<V>.Spurious(p))
    ensures s.consumer.CIdle? ==> Enabled(s, Label<V>.ConsumerCall)
    ensures s.consumer.CAsleep? ==> Enabled(s, Label<V>.ConsumerSpurious)
  {
  }

  function PopCalls<V>(labels: seq<Label<V>>): nat {
    if labels == [] then 0
    else PopCalls(labels[..|labels| - 1]) + if labels[|labels| - 1].ConsumerCall? then 1 else 0
  }

  /** A pop has been called and has not taken the elements yet. */
  predicate PopPending(c: Consumer) {
    c.CLock? || c.CTest? || c.CAsleep? || c.CWoken?
  }

  lemma StepPops<V>(s: State<V>, l: Label<V>)
    requires Shape(s) && Refines(s) && Enabled(s, l)
    ensures var s' := Next(s, l);
            Pops(s'.events) + (if PopPending(s'.consumer) then 1 else 0)
              == Pops(s.events) + (if PopPending(s.consumer) then 1 else 0) + if l.ConsumerCall? then 1 else 0
  {
    var s' := Next(s, l);
    StepRefines(s, l);
    if l.Store? || l.ConsumerTake? {
      assert s'.events[..|s'.events| - 1] == s.events;
    }
  }

  /** In every run, as many pops as calls of pop, but for a last call that is still pending. */
  lemma {:induction false} PopsAreCalled<V>(slots: nat, slotOf: seq<nat>, states: seq<State<V>>, labels: seq<Label<V>>)
    requires Sizes(slots, slotOf) && Run(slots, slotOf, states, labels)
    ensures PopCalls(labels) ==
              Pops(states[|labels|].events) + if PopPending(states[|labels|].consumer) then 1 else 0
  {
    if labels != [] {
      var n := |labels| - 1;
      RunPrefix(slots, slotOf, states, labels, n);
      PopsAreCalled(slots, slotOf, states[..n + 1], labels[..n]);
      RunInv(slots, slotOf, states, labels, n);
      var l := labels[n];
      StepPops(states[n], l);
    }
  }
}
