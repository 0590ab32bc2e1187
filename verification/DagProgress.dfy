/** Deadlock freedom, termination, and the exact condition under which the program completes. */
module DagProgress {
  import opened Common
  import opened AtomicQueue
  import opened PeriodicTask
  import opened DagModel
  import opened DagInvariant
  import opened DagSafety

  // --- deadlock freedom ---

  /** If no queue is wider than its mask allows: from any unfinished task, follow whom it waits for. Each hop
      goes down in (activations, rank), so the chase ends at a task that can step. */
  lemma {:induction false} SomeoneCanStep(cfg: Config, s: State, o: nat, z: nat, rank: seq<nat>, t: nat)
    returns (u: nat)
    requires Good(cfg, s, o, z, rank) && Narrow(cfg) && t < |cfg.ins| && !s.control[t].pc.Done?
    ensures u < |cfg.ins| && Enabled(cfg, s, u)
    decreases s.control[t].iter, rank[t]
  {
    var c := s.control[t];
    if Enabled(cfg, s, t) {
      u := t;
    } else if c.pc.PopInputs? {
      var i :| 0 <= i < |cfg.ins[t]| && s.queues[t][i].None?;
      var e := cfg.ins[t][i];
      assert SlotCounts(cfg, s, t, i);
      PushedAtMostBegan(cfg, e.task, s.control[e.task], e.idx);
      u := SomeoneCanStep(cfg, s, o, z, rank, e.task);
    } else {
      NarrowShifts(cfg);
      OnlyStartPushWaits(cfg, s, o, z, rank, t);
      OnlyTheSinkPops(cfg, s, o, z);
      u := SomeoneCanStep(cfg, s, o, z, rank, z);
    }
  }

  /** Apart from a task waiting for its inputs, only the originator's start push ever waits. */
  lemma OnlyStartPushWaits(cfg: Config, s: State, o: nat, z: nat, rank: seq<nat>, t: nat)
    requires Good(cfg, s, o, z, rank) && ShiftsDefined(cfg) && t < |cfg.ins|
    requires !Enabled(cfg, s, t) && !s.control[t].pc.Done? && !s.control[t].pc.PopInputs?
    ensures t == o && s.control[t].pc.StartPush? && s.start[0].Some?
  {
    if s.control[t].pc.PushOut? {
      EdgePushNeverBlocks(cfg, s, o, z, rank, t);
    } else if s.control[t].pc.StartPop? {
      assert t == z;
      StartPopNeverBlocks(cfg, s, o, z, rank);
    } else {
      assert IsOriginator(cfg, t);
    }
  }

  // --- termination ---

  function StepsLeft(cfg: Config, s: State): seq<int>
    requires Wired(cfg) && Shape(cfg, s)
  {
    seq(|cfg.ins|, t requires 0 <= t < |cfg.ins| => Left(cfg, t, s.control[t]))
  }

  /** The total number of steps all tasks still have to take. */
  function Remaining(cfg: Config, s: State): int
    requires Wired(cfg) && Shape(cfg, s)
  {
    Sum(StepsLeft(cfg, s))
  }

  lemma EveryStepCounts(cfg: Config, s: State, l: Label, s': State)
    requires Wired(cfg) && Step(cfg, s, l, s') && Shape(cfg, s')
    ensures Remaining(cfg, s') == Remaining(cfg, s) - 1
  {
    var t := l.task;
    SuccIsOk(cfg, t, s.control[t]);
    var before, after := StepsLeft(cfg, s), StepsLeft(cfg, s');
    assert after == before[t := Left(cfg, t, Succ(cfg, t, s.control[t]))];
    SumUpdate(before, t, after[t]);
  }

  lemma RemainingIsZeroWhenFinal(cfg: Config, s: State)
    requires Wired(cfg) && Shape(cfg, s)
    ensures Remaining(cfg, s) >= 0
    ensures Remaining(cfg, s) == 0 <==> Final(s)
  {
    var left := StepsLeft(cfg, s);
    SumNonNegative(left);
    if Final(s) {
      SumZero(left);
    } else {
      var t :| 0 <= t < |s.control| && !s.control[t].pc.Done?;
      SumAtLeast(left, t);
    }
  }

  lemma RunStepCounts(cfg: Config, states: seq<State>, labels: seq<Label>, k: nat)
    requires Wired(cfg) && Run(cfg, states, labels) && k < |labels|
    ensures Shape(cfg, states[k]) && Shape(cfg, states[k + 1])
    ensures Remaining(cfg, states[k + 1]) == Remaining(cfg, states[k]) - 1
  {
    StepShape(cfg, states[k], labels[k], states[k + 1]);
    EveryStepCounts(cfg, states[k], labels[k], states[k + 1]);
  }

  /** Every run has taken exactly the steps that its last state no longer owes. */
  lemma {:induction false} RunLength(cfg: Config, states: seq<State>, labels: seq<Label>, k: nat)
    requires Wired(cfg) && Run(cfg, states, labels) && k < |states|
    ensures Shape(cfg, states[k]) && Shape(cfg, Init(cfg))
    ensures Remaining(cfg, states[k]) + k == Remaining(cfg, Init(cfg))
  {
    InitShape(cfg);
    if k > 0 {
      RunLength(cfg, states, labels, k - 1);
      RunStepCounts(cfg, states, labels, k - 1);
    }
  }

  /** A run that cannot be extended: no task can step in its last state. */
  ghost predicate Maximal(cfg: Config, states: seq<State>, labels: seq<Label>)
    requires Wired(cfg) && Run(cfg, states, labels)
  {
    var last := states[|labels|];
    Shape(cfg, last) && forall t: nat :: !Enabled(cfg, last, t)
  }

  /** With one originator, one sink and no queue wider than 31 slots no run is longer than the total work,
      every maximal run does all of it, and ends with every task past its last activation. */
  lemma EveryMaximalRunCompletes(cfg: Config, states: seq<State>, labels: seq<Label>, o: nat, z: nat, rank: seq<nat>)
    requires Wired(cfg) && OneOriginator(cfg, o) && OneSink(cfg, z) && Ranks(cfg, rank) && Narrow(cfg)
    requires Run(cfg, states, labels)
    ensures Shape(cfg, Init(cfg)) && |labels| <= Remaining(cfg, Init(cfg))
    ensures Maximal(cfg, states, labels) <==> Final(states[|labels|])
    ensures Maximal(cfg, states, labels) <==> |labels| == Remaining(cfg, Init(cfg))
  {
    var last := states[|labels|];
    RunInv(cfg, states, labels, |labels|, o);
    RunLength(cfg, states, labels, |labels|);
    RemainingIsZeroWhenFinal(cfg, last);
    if !Final(last) {
      var t :| 0 <= t < |last.control| && !last.control[t].pc.Done?;
      var u := SomeoneCanStep(cfg, last, o, z, rank, t);
    }
  }

  // --- the end state ---

  /** When all tasks are done every queue is empty. */
  lemma FinalStateIsEmpty(cfg: Config, s: State, o: nat, z: nat, rank: seq<nat>)
    requires Good(cfg, s, o, z, rank) && Final(s)
    ensures s.start[0].None?
    ensures forall r, i :: 0 <= r < |cfg.ins| && 0 <= i < |cfg.ins[r]| ==> s.queues[r][i].None?
  {
    OnlyTheSinkPops(cfg, s, o, z);
    forall r, i | 0 <= r < |cfg.ins| && 0 <= i < |cfg.ins[r]| ensures s.queues[r][i].None? {
      assert SlotCounts(cfg, s, r, i);
    }
  }

  // --- completion needs exactly one sink ---

  /** An acyclic graph has a task without outputs. */
  lemma SomeSinkExists(cfg: Config, rank: seq<nat>) returns (z: nat)
    requires Wired(cfg) && Ranks(cfg, rank)
    ensures z < |cfg.outs| && IsSink(cfg, z)
  {
    z := HighestRank(rank, |rank|);
    OutputsRankHigher(cfg, rank);
  }

  lemma OutputsRankHigher(cfg: Config, rank: seq<nat>)
    requires Wired(cfg) && Ranks(cfg, rank)
    ensures forall s :: 0 <= s < |cfg.outs| && !IsSink(cfg, s) ==> exists r :: 0 <= r < |rank| && rank[r] > rank[s]
  {
    forall s | 0 <= s < |cfg.outs| && !IsSink(cfg, s) ensures exists r :: 0 <= r < |rank| && rank[r] > rank[s] {
      var e := cfg.outs[s][0];
      assert cfg.ins[e.task][e.idx].task == s;
      assert rank[e.task] > rank[s];
    }
  }

  lemma {:induction false} HighestRank(rank: seq<nat>, n: nat) returns (z: nat)
    requires 1 <= n <= |rank|
    ensures z < n && forall t :: 0 <= t < n ==> rank[t] <= rank[z]
  {
    z := 0;
    if n > 1 {
      z := HighestRank(rank, n - 1);
      if rank[z] < rank[n - 1] {
        z := n - 1;
      }
    }
  }

  lemma {:induction false} SumOfTwo(xs: seq<int>, i: nat, j: nat)
    requires i < j < |xs|
    requires forall k :: 0 <= k < |xs| ==> xs[k] >= 0
    ensures Sum(xs) >= xs[i] + xs[j]
  {
    var last := |xs| - 1;
    if j == last {
      SumAtLeast(xs[..last], i);
    } else {
      SumOfTwo(xs[..last], i, j);
    }
  }

  /** Each sink pops `start_time` once per activation and the originator pushes it once: with two sinks
      and at least one activation the tasks can never all finish. */
  lemma CompletionForcesOneSink(cfg: Config, s: State, o: nat, a: nat, b: nat)
    requires Inv(cfg, s, o) && Final(s) && cfg.activations >= 1
    requires a < |cfg.outs| && b < |cfg.outs| && IsSink(cfg, a) && IsSink(cfg, b)
    ensures a == b
  {
    var pops := SinkPops(cfg, s);
    assert pops[a] == cfg.activations && pops[b] == cfg.activations;
    assert Began(s.control[o]) == cfg.activations;
    if a < b {
      SumOfTwo(pops, a, b);
    } else if b < a {
      SumOfTwo(pops, b, a);
    }
  }

  // --- completion needs queues within the mask ---

  predicate WaitsForever(cfg: Config, s: State, r: nat)
    requires Wired(cfg) && r < |cfg.ins|
  {
    Shape(cfg, s) && s.control[r] == Control(0, PopInputs)
  }

  lemma WideTaskStarts(cfg: Config, r: nat)
    requires Wired(cfg) && r < |cfg.ins| && |cfg.ins[r]| > EXACT_SLOTS && cfg.activations >= 1
    ensures WaitsForever(cfg, Init(cfg), r)
  {
    InitShape(cfg);
  }

  lemma WideTaskWaits(cfg: Config, states: seq<State>, labels: seq<Label>, k: nat, r: nat)
    requires Wired(cfg) && Run(cfg, states, labels) && k < |labels|
    requires r < |cfg.ins| && |cfg.ins[r]| > EXACT_SLOTS && WaitsForever(cfg, states[k], r)
    ensures WaitsForever(cfg, states[k + 1], r)
  {
    StepShape(cfg, states[k], labels[k], states[k + 1]);
    assert !Enabled(cfg, states[k], r);
  }

  /** A task with more than 31 inputs, that is with 32, never gets past its first pop. */
  lemma {:induction false} WideTaskIsStuck(cfg: Config, states: seq<State>, labels: seq<Label>, k: nat, r: nat)
    requires Wired(cfg) && ShiftsDefined(cfg) && Run(cfg, states, labels) && k < |states|
    requires r < |cfg.ins| && |cfg.ins[r]| > EXACT_SLOTS && cfg.activations >= 1
    ensures WaitsForever(cfg, states[k], r)
  {
    if k == 0 {
      WideTaskStarts(cfg, r);
    } else {
      WideTaskIsStuck(cfg, states, labels, k - 1, r);
      WideTaskWaits(cfg, states, labels, k - 1, r);
    }
  }

  /** Any run can be continued to completion. */
  lemma {:induction false} Complete(cfg: Config, states: seq<State>, labels: seq<Label>, o: nat, z: nat, rank: seq<nat>)
    returns (states': seq<State>, labels': seq<Label>)
    requires Wired(cfg) && OneOriginator(cfg, o) && OneSink(cfg, z) && Ranks(cfg, rank) && Narrow(cfg)
    requires Run(cfg, states, labels)
    ensures Run(cfg, states', labels') && Final(states'[|labels'|])
    decreases LastRemaining(cfg, states, labels, o)
  {
    var last := states[|labels|];
    RunInv(cfg, states, labels, |labels|, o);
    if Final(last) {
      return states, labels;
    }
    var t :| 0 <= t < |last.control| && !last.control[t].pc.Done?;
    var u := SomeoneCanStep(cfg, last, o, z, rank, t);
    var l := Label(u, Env(LateEnough(cfg, last), []));
    var next := Next(cfg, last, l);
    assert Step(cfg, last, l, next);
    StepInv(cfg, last, l, next, o);
    EveryStepCounts(cfg, last, l, next);
    ExtendRun(cfg, states, labels, l, next);
    RemainingIsZeroWhenFinal(cfg, next);
    states', labels' := Complete(cfg, states + [next], labels + [l], o, z, rank);
  }

  function LateEnough(cfg: Config, s: State): (now: int)
    ensures now >= s.clock && now >= TotalNs(s.pinfo) + ALIGN_NSEC
    ensures now >= TotalNs(s.pinfo) + cfg.period * NSEC_PER_USEC
  {
    var now := if s.clock < TotalNs(s.pinfo) then TotalNs(s.pinfo) else s.clock;
    now + ALIGN_NSEC + cfg.period * NSEC_PER_USEC
  }

  ghost function LastRemaining(cfg: Config, states: seq<State>, labels: seq<Label>, o: nat): nat
    requires Wired(cfg) && OneOriginator(cfg, o) && Run(cfg, states, labels)
  {
    RunInv(cfg, states, labels, |labels|, o);
    RemainingIsZeroWhenFinal(cfg, states[|labels|]);
    Remaining(cfg, states[|labels|])
  }

  lemma ExtendRun(cfg: Config, states: seq<State>, labels: seq<Label>, l: Label, next: State)
    requires Wired(cfg) && Run(cfg, states, labels) && Step(cfg, states[|labels|], l, next)
    ensures Run(cfg, states + [next], labels + [l])
  {
  }

  ghost predicate CanComplete(cfg: Config)
    requires Wired(cfg)
  {
    exists states, labels :: Run(cfg, states, labels) && Final(states[|labels|])
  }

  /** The program can complete iff the graph has exactly one sink and no task has more than 31 inputs. The
      source accepts any number of sinks, because its sink check tests for originators, and any number of
      inputs. */
  lemma CompletesIff(cfg: Config, o: nat, rank: seq<nat>)
    requires Wired(cfg) && ShiftsDefined(cfg) && OneOriginator(cfg, o) && Ranks(cfg, rank) && cfg.activations >= 1
    ensures CanComplete(cfg) <==> (exists z: nat :: OneSink(cfg, z)) && Narrow(cfg)
  {
    if CanComplete(cfg) {
      var states, labels :| Run(cfg, states, labels) && Final(states[|labels|]);
      CompleteRunHasOneSink(cfg, states, labels, o, rank);
      forall r | 0 <= r < |cfg.ins| ensures |cfg.ins[r]| <= EXACT_SLOTS {
        if |cfg.ins[r]| > EXACT_SLOTS {
          WideTaskIsStuck(cfg, states, labels, |labels|, r);
        }
      }
    } else if (exists z: nat :: OneSink(cfg, z)) && Narrow(cfg) {
      var z: nat :| OneSink(cfg, z);
      var states, labels := Complete(cfg, [Init(cfg)], [], o, z, rank);
    }
  }

  lemma CompleteRunHasOneSink(cfg: Config, states: seq<State>, labels: seq<Label>, o: nat, rank: seq<nat>)
    requires Wired(cfg) && OneOriginator(cfg, o) && Ranks(cfg, rank) && cfg.activations >= 1
    requires Run(cfg, states, labels) && Final(states[|labels|])
    ensures exists z: nat :: OneSink(cfg, z)
  {
    RunInv(cfg, states, labels, |labels|, o);
    var z := SomeSinkExists(cfg, rank);
    forall t | 0 <= t < |cfg.outs| && t != z ensures !IsSink(cfg, t) {
      if IsSink(cfg, t) {
        CompletionForcesOneSink(cfg, states[|labels|], o, z, t);
      }
    }
    assert OneSink(cfg, z);
  }
}
