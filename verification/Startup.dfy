/** The start-up of `Task::common_init`: two rounds of one reusable barrier around the originator's
    period initialisation (src/newstuff/rtask.cpp, `std::barrier` with one slot per task). */
module Startup {
  import opened Common

  datatype Pc =
    | SetScheduling        // scheduling.set()
    | Arrive(round: nat)   // barrier.arrive, first or second round
    | Blocked(round: nat, ticket: nat) // waiting for the barrier phase `ticket` to end
    | InitPeriod           // originator: period_init
    | Ready                // past common_init's second barrier

  /** `phase` counts completed barrier phases, `arrived` the arrivals in the current one. */
  datatype State = State(pcs: seq<Pc>, phase: nat, arrived: nat, scheduled: seq<bool>, periodSet: bool)

  function Init(n: nat): State {
    State(seq(n, _ => SetScheduling), 0, 0, seq(n, _ => false), false)
  }

  predicate Shape(s: State) {
    |s.pcs| == |s.scheduled| >= 1
  }

  predicate Enabled(s: State, t: nat) {
    t < |s.pcs| && match s.pcs[t]
                   case Blocked(_, ticket) => s.phase != ticket
                   case Ready => false
                   case _ => true
  }

  /** The last arrival starts the next phase and resets the count. */
  function Next(s: State, o: nat, t: nat): State
    requires Shape(s) && Enabled(s, t)
  {
    match s.pcs[t]
    case SetScheduling => s.(pcs := s.pcs[t := Arrive(1)], scheduled := s.scheduled[t := true])
    case Arrive(round) =>
      var last := s.arrived + 1 == |s.pcs|;
      s.(pcs := s.pcs[t := Blocked(round, s.phase)],
         phase := if last then s.phase + 1 else s.phase,
         arrived := if last then 0 else s.arrived + 1)
    case Blocked(round, _) =>
      s.(pcs := s.pcs[t := if round == 1 then (if t == o then InitPeriod else Arrive(2)) else Ready])
    case InitPeriod => s.(pcs := s.pcs[t := Arrive(2)], periodSet := true)
  }

  // --- the invariant ---

  /** Whether a task has arrived in the current phase. */
  function Waiting(s: State): seq<bool> {
    seq(|s.pcs|, t requires 0 <= t < |s.pcs| => s.pcs[t].Blocked? && s.pcs[t].ticket == s.phase)
  }

  /** Where a task can be in each phase of the barrier. */
  predicate PcFits(s: State, o: nat, t: nat)
    requires t < |s.pcs|
  {
    var pc := s.pcs[t];
    match s.phase
    case 0 => pc == SetScheduling || pc == Arrive(1) || pc == Blocked(1, 0)
    case 1 => pc == Blocked(1, 0) || (pc == InitPeriod && t == o) || pc == Arrive(2) || pc == Blocked(2, 1)
    case 2 => pc == Blocked(2, 1) || pc == Ready
    case _ => false
  }

  ghost predicate Inv(s: State, o: nat) {
    && Shape(s) && o < |s.pcs|
    && (forall t: nat :: t < |s.pcs| ==> PcFits(s, o, t))
    && (forall t: nat :: t < |s.pcs| ==> (s.scheduled[t] <==> s.pcs[t] != SetScheduling))
    && (s.periodSet <==> s.pcs[o] == Arrive(2) || (s.pcs[o].Blocked? && s.pcs[o].round == 2) || s.pcs[o].Ready?)
    && s.arrived == Count(Waiting(s)) < |s.pcs|
  }

  lemma InitInv(n: nat, o: nat)
    requires o < n
    ensures Inv(Init(n), o)
  {
    CountBounds(Waiting(Init(n)));
  }

  /** The arrival that fills the barrier finds everybody else already waiting in this phase. */
  lemma LastArrival(s: State, o: nat, t: nat)
    requires Inv(s, o) && Enabled(s, t) && s.pcs[t].Arrive? && s.arrived + 1 == |s.pcs|
    ensures forall u: nat :: u < |s.pcs| && u != t ==> s.pcs[u].Blocked? && s.pcs[u].ticket == s.phase
  {
    var all := Waiting(s)[t := true];
    CountUpdate(Waiting(s), t, true);
    CountBounds(all);
    forall u: nat | u < |s.pcs| && u != t ensures s.pcs[u].Blocked? && s.pcs[u].ticket == s.phase {
      assert all[u];
    }
  }

  lemma WaitingAfter(s: State, o: nat, t: nat)
    requires Inv(s, o) && Enabled(s, t)
    ensures var s' := Next(s, o, t); s'.arrived == Count(Waiting(s')) < |s'.pcs|
  {
    var s' := Next(s, o, t);
    if s.pcs[t].Arrive? && s.arrived + 1 == |s.pcs| {
      LastArrival(s, o, t);
      CountBounds(Waiting(s'));
    } else {
      assert Waiting(s') == Waiting(s)[t := s.pcs[t].Arrive?];
      CountUpdate(Waiting(s), t, s.pcs[t].Arrive?);
    }
  }

  lemma StepInv(s: State, o: nat, t: nat)
    requires Inv(s, o) && Enabled(s, t)
    ensures Inv(Next(s, o, t), o)
  {
    var s' := Next(s, o, t);
    WaitingAfter(s, o, t);
    if s.pcs[t].Arrive? && s.arrived + 1 == |s.pcs| {
      LastArrival(s, o, t);
    }
    forall u: nat | u < |s.pcs| ensures PcFits(s', o, u) {
      assert PcFits(s, o, u) && PcFits(s, o, t);
    }
    assert PcFits(s, o, t);
  }

  // --- runs ---

  ghost predicate Run(n: nat, o: nat, states: seq<State>, steps: seq<nat>) {
    && |states| == |steps| + 1
    && states[0] == Init(n)
    && forall k {:trigger steps[k]} :: 0 <= k < |steps| ==>
         Shape(states[k]) && Enabled(states[k], steps[k]) && states[k + 1] == Next(states[k], o, steps[k])
  }

  lemma {:induction false} RunInv(n: nat, o: nat, states: seq<State>, steps: seq<nat>, k: nat)
    requires o < n && Run(n, o, states, steps) && k < |states|
    ensures Inv(states[k], o) && |states[k].pcs| == n
  {
    if k == 0 {
      InitInv(n, o);
    } else {
      RunInv(n, o, states, steps, k - 1);
      StepInv(states[k - 1], o, steps[k - 1]);
    }
  }

  /** The originator initialises its period only when all tasks have set their scheduling; no task is past
      the second barrier before that initialisation, or while another has not yet arrived there; and two
      tasks blocked on the same phase of the barrier are in the same round. */
  ghost predicate Ordered(s: State, o: nat)
    requires Shape(s) && o < |s.pcs|
  {
    && (s.pcs[o].InitPeriod? || s.periodSet ==> forall t: nat :: t < |s.pcs| ==> s.scheduled[t])
    && (forall t: nat, u: nat :: t < |s.pcs| && u < |s.pcs| && s.pcs[t].Ready? ==>
          s.periodSet && (s.pcs[u] == Blocked(2, 1) || s.pcs[u].Ready?))
    && (forall t: nat, u: nat :: t < |s.pcs| && u < |s.pcs| && SamePhase(s.pcs[t], s.pcs[u]) ==>
          s.pcs[t].round == s.pcs[u].round)
  }

  predicate SamePhase(a: Pc, b: Pc) {
    a.Blocked? && b.Blocked? && a.ticket == b.ticket
  }

  lemma InvIsOrdered(s: State, o: nat)
    requires Inv(s, o)
    ensures Ordered(s, o)
  {
    assert PcFits(s, o, o);
    forall t: nat | t < |s.pcs| ensures s.pcs[o].InitPeriod? || s.periodSet ==> s.scheduled[t] {
      assert PcFits(s, o, t);
    }
    forall t: nat, u: nat | t < |s.pcs| && u < |s.pcs| && s.pcs[t].Ready?
      ensures s.periodSet && (s.pcs[u] == Blocked(2, 1) || s.pcs[u].Ready?)
    {
      assert PcFits(s, o, t) && PcFits(s, o, u);
    }
    forall t: nat, u: nat | t < |s.pcs| && u < |s.pcs| && SamePhase(s.pcs[t], s.pcs[u])
      ensures s.pcs[t].round == s.pcs[u].round
    {
      assert PcFits(s, o, t) && PcFits(s, o, u);
    }
  }

  /** In every state of every start-up the order holds, and somebody can step until all are ready. */
  lemma StartsInOrder(n: nat, o: nat, states: seq<State>, steps: seq<nat>, k: nat)
    requires o < n && Run(n, o, states, steps) && k < |states|
    ensures Shape(states[k]) && |states[k].pcs| == n && Ordered(states[k], o)
    ensures (forall t: nat :: !Enabled(states[k], t)) <==> (forall t: nat :: t < n ==> states[k].pcs[t].Ready?)
  {
    RunInv(n, o, states, steps, k);
    InvIsOrdered(states[k], o);
    if forall t: nat :: !Enabled(states[k], t) {
      NobodyStuck(states[k], o);
    }
  }

  lemma NobodyStuck(s: State, o: nat)
    requires Inv(s, o) && forall t: nat :: !Enabled(s, t)
    ensures forall t: nat :: t < |s.pcs| ==> s.pcs[t].Ready?
  {
    forall t: nat | t < |s.pcs| ensures s.pcs[t].Ready? || Waiting(s)[t] {
      assert !Enabled(s, t);
    }
    CountBounds(Waiting(s));
    forall u: nat | u < |s.pcs| ensures s.pcs[u].Ready? {
      assert PcFits(s, o, u);
      SomebodyIsReady(s, o);
    }
  }

  lemma SomebodyIsReady(s: State, o: nat)
    requires Inv(s, o) && forall t: nat :: t < |s.pcs| ==> s.pcs[t].Ready? || Waiting(s)[t]
    ensures s.phase == 2
  {
    CountBounds(Waiting(s));
    var t :| 0 <= t < |s.pcs| && !Waiting(s)[t];
    assert PcFits(s, o, t);
  }

  // --- how long it takes ---

  /** The steps a task still takes; the originator has one more. */
  function StepsOf(pc: Pc, originator: bool): int {
    match pc
    case SetScheduling => if originator then 6 else 5
    case Arrive(round) => if round != 1 then 2 else if originator then 5 else 4
    case Blocked(round, _) => if round != 1 then 1 else if originator then 4 else 3
    case InitPeriod => 3
    case Ready => 0
  }

  function StepsLeft(s: State, o: nat): (left: seq<int>)
    ensures |left| == |s.pcs|
  {
    seq(|s.pcs|, t requires 0 <= t < |s.pcs| => StepsOf(s.pcs[t], t == o))
  }

  lemma StepTakesOne(s: State, o: nat, t: nat)
    requires Inv(s, o) && Enabled(s, t)
    ensures Sum(StepsLeft(Next(s, o, t), o)) == Sum(StepsLeft(s, o)) - 1
  {
    assert PcFits(s, o, t);
    var left := StepsLeft(s, o);
    SumUpdate(left, t, left[t] - 1);
    assert StepsLeft(Next(s, o, t), o) == left[t := left[t] - 1];
  }

  lemma {:induction false} SumOfFives(n: nat, o: nat)
    requires o < n
    ensures Sum(StepsLeft(Init(n), o)) == 5 * n + 1
  {
    var fives := seq(n, _ => 5);
    SumConstant(fives, 5);
    SumUpdate(fives, o, 6);
    assert StepsLeft(Init(n), o) == fives[o := 6];
  }

  lemma {:induction false} RunSteps(n: nat, o: nat, states: seq<State>, steps: seq<nat>, k: nat)
    requires o < n && Run(n, o, states, steps) && k < |states|
    ensures k + Sum(StepsLeft(states[k], o)) == 5 * n + 1
  {
    if k == 0 {
      SumOfFives(n, o);
    } else {
      RunSteps(n, o, states, steps, k - 1);
      RunInv(n, o, states, steps, k - 1);
      StepTakesOne(states[k - 1], o, steps[k - 1]);
    }
  }

  /** Every start-up of n tasks takes at most 5 n + 1 steps, and is over exactly when it took them all. */
  lemma StartUpEnds(n: nat, o: nat, states: seq<State>, steps: seq<nat>)
    requires o < n && Run(n, o, states, steps)
    ensures |steps| <= 5 * n + 1
    ensures |states[|steps|].pcs| == n
    ensures |steps| == 5 * n + 1 <==> forall t: nat :: t < n ==> states[|steps|].pcs[t].Ready?
  {
    var s := states[|steps|];
    RunInv(n, o, states, steps, |steps|);
    RunSteps(n, o, states, steps, |steps|);
    var left := StepsLeft(s, o);
    SumNonNegative(left);
    if forall t: nat :: t < n ==> s.pcs[t].Ready? {
      SumZero(left);
    } else {
      var t: nat :| t < n && !s.pcs[t].Ready?;
      SumAtLeast(left, t);
    }
  }
}
