/** Why the buffers need no lock only with one sink: with two, some run lets a sender write its next message
    over the one that is being read. */
module DagRace {
  import opened Common
  import opened Messages
  import opened DagModel
  import opened DagInvariant
  import opened DagSafety
  import opened DagProgress

  /** A task reads its i-th input while the sender of that input is writing it. */
  predicate Overlap(cfg: Config, s: State, r: nat, i: nat)
    requires Wired(cfg) && Shape(cfg, s) && r < |cfg.ins| && i < |cfg.ins[r]|
  {
    var e := cfg.ins[r][i];
    s.control[r].pc == Read(i) && s.control[e.task].pc == WriteEnd(e.idx)
  }

  /** A task reads some input while a sender is between beginning its write and completing its push. */
  predicate WindowOpen(cfg: Config, s: State, r: nat, i: nat)
    requires Wired(cfg) && Shape(cfg, s) && r < |cfg.ins| && i < |cfg.ins[r]|
  {
    var e := cfg.ins[r][i];
    s.control[r].pc.Read? && InWriteWindow(s.control[e.task], e.idx)
  }

  /** In no state of any run. */
  ghost predicate NeverOverlap(cfg: Config)
    requires Wired(cfg)
  {
    forall states: seq<State>, labels: seq<Label> :: Run(cfg, states, labels) ==>
      && Shape(cfg, states[|labels|])
      && forall r: nat, i: nat :: r < |cfg.ins| && i < |cfg.ins[r]| ==> !Overlap(cfg, states[|labels|], r, i)
  }

  ghost predicate WindowsStayClosed(cfg: Config)
    requires Wired(cfg)
  {
    forall states: seq<State>, labels: seq<Label> :: Run(cfg, states, labels) ==>
      && Shape(cfg, states[|labels|])
      && forall r: nat, i: nat :: r < |cfg.ins| && i < |cfg.ins[r]| ==> !WindowOpen(cfg, states[|labels|], r, i)
  }

  /** A task that is reading an input finds the message of its own activation there. */
  predicate ReadsOwnMessage(cfg: Config, s: State, r: nat, i: nat)
    requires Wired(cfg) && Shape(cfg, s) && r < |cfg.ins| && i < |cfg.ins[r]|
  {
    && End(r, i) in s.msgs
    && s.msgs[End(r, i)] == Fit(cfg.texts(cfg.ins[r][i].task, s.control[r].iter), cfg.sizes[r][i])
  }

  /** A sink that reads a complete message, with no write going on, reads the one of its own activation. */
  ghost predicate SinkReadsExact(cfg: Config, s: State)
    requires Wired(cfg) && Shape(cfg, s)
  {
    forall r: nat, i: nat :: r < |cfg.ins| && i < |cfg.ins[r]| && IsSink(cfg, r) && s.control[r].pc == Read(i) ==>
      Overlap(cfg, s, r, i) || ReadsOwnMessage(cfg, s, r, i)
  }

  ghost predicate SinksReadExactly(cfg: Config)
    requires Wired(cfg)
  {
    forall states: seq<State>, labels: seq<Label> :: Run(cfg, states, labels) ==>
      Shape(cfg, states[|labels|]) && SinkReadsExact(cfg, states[|labels|])
  }

  // --- a schedule that holds back all sinks but one ---

  /** Sinks other than `a` have done nothing but, perhaps, pop their first inputs and read some. */
  predicate Held(cfg: Config, s: State, a: nat)
    requires Wired(cfg) && Shape(cfg, s)
  {
    forall t :: 0 <= t < |cfg.ins| && t != a && IsSink(cfg, t) ==>
      s.control[t].iter == 0 && (s.control[t].pc.PopInputs? || s.control[t].pc.Read?)
  }

  ghost predicate Setting(cfg: Config, s: State, o: nat, a: nat, rank: seq<nat>) {
    && Inv(cfg, s, o) && Ranks(cfg, rank) && Narrow(cfg) && cfg.activations >= 2
    && a < |cfg.ins| && IsSink(cfg, a) && a != o
    && Held(cfg, s, a)
  }

  /** The tasks the schedule may run: up to activation 1, sink `a` in activation 0, other sinks up to their last
      read. */
  predicate MayRun(cfg: Config, s: State, a: nat, t: nat)
    requires Wired(cfg) && Shape(cfg, s)
  {
    && t < |cfg.ins| && s.control[t].iter <= 1
    && (t == a ==> s.control[t].iter == 0)
    && (t != a && IsSink(cfg, t) ==> s.control[t].pc.PopInputs? || NotLastRead(cfg, t, s.control[t].pc))
  }

  predicate NotLastRead(cfg: Config, t: nat, pc: Pc)
    requires t < |cfg.ins|
  {
    pc.Read? && pc.i + 1 < |cfg.ins[t]|
  }

  /** A sink that waits in the middle of its reads. */
  predicate HeldReader(cfg: Config, s: State, a: nat, t: nat)
    requires Wired(cfg) && Shape(cfg, s) && t < |cfg.ins|
  {
    t != a && IsSink(cfg, t) && s.control[t].pc.Read?
  }

  /** The slot that a blocked push finds occupied belongs to a receiver that has not begun. */
  lemma BlockedPush(cfg: Config, s: State, o: nat, a: nat, rank: seq<nat>, t: nat)
    requires Setting(cfg, s, o, a, rank) && MayRun(cfg, s, a, t)
    requires s.control[t].pc.PushOut? && !Enabled(cfg, s, t)
    ensures var r := cfg.outs[t][s.control[t].pc.j].task;
            MayRun(cfg, s, a, r) && s.control[r].iter < s.control[t].iter && !HeldReader(cfg, s, a, r)
  {
    var e := cfg.outs[t][s.control[t].pc.j];
    assert SlotCounts(cfg, s, e.task, e.idx);
    assert Began(s.control[e.task]) == 0;
  }

  /** A blocked start push waits for sink `a`. */
  lemma BlockedStartPush(cfg: Config, s: State, o: nat, a: nat, rank: seq<nat>)
    requires Setting(cfg, s, o, a, rank) && MayRun(cfg, s, a, o)
    requires s.control[o].pc.StartPush? && !Enabled(cfg, s, o)
    ensures s.control[a].iter == 0 < s.control[o].iter
  {
    SinkPopsAreNatural(cfg, s, a);
  }

  lemma SinkPopsAreNatural(cfg: Config, s: State, a: nat)
    requires Wired(cfg) && Shape(cfg, s) && a < |cfg.ins| && IsSink(cfg, a)
    ensures 0 <= s.control[a].iter <= StartPops(s.control[a]) <= Sum(SinkPops(cfg, s))
  {
    SumAtLeast(SinkPops(cfg, s), a);
  }

  /** Sink `a` finds the start time that nobody else has taken. */
  lemma HeldStartPopGoes(cfg: Config, s: State, o: nat, a: nat, rank: seq<nat>)
    requires Setting(cfg, s, o, a, rank) && s.control[a] == Control(0, StartPop)
    ensures Enabled(cfg, s, a)
  {
    NoneAheadOfOriginator(cfg, s, o, rank, a);
    SumZero(SinkPops(cfg, s));
  }

  /** Whom a task waits for, as in `SomeoneCanStep`, never leads to a sink that is held back in its reads. */
  lemma {:induction false} SomeoneMayStep(cfg: Config, s: State, o: nat, a: nat, rank: seq<nat>, t: nat)
    returns (v: nat)
    requires Setting(cfg, s, o, a, rank) && MayRun(cfg, s, a, t)
    ensures MayRun(cfg, s, a, v) && s.control[v].iter <= s.control[t].iter && Enabled(cfg, s, v)
    ensures v == t || !HeldReader(cfg, s, a, v)
    decreases s.control[t].iter, rank[t]
  {
    var c := s.control[t];
    if Enabled(cfg, s, t) {
      v := t;
    } else if c.pc.PopInputs? {
      var i :| 0 <= i < |cfg.ins[t]| && s.queues[t][i].None?;
      var e := cfg.ins[t][i];
      assert SlotCounts(cfg, s, t, i);
      PushedAtMostBegan(cfg, e.task, s.control[e.task], e.idx);
      v := SomeoneMayStep(cfg, s, o, a, rank, e.task);
    } else if c.pc.PushOut? {
      BlockedPush(cfg, s, o, a, rank, t);
      v := SomeoneMayStep(cfg, s, o, a, rank, cfg.outs[t][c.pc.j].task);
    } else {
      OnlyStartPushLeft(cfg, s, o, a, rank, t);
      BlockedStartPush(cfg, s, o, a, rank);
      v := SomeoneMayStep(cfg, s, o, a, rank, a);
    }
  }

  lemma OnlyStartPushLeft(cfg: Config, s: State, o: nat, a: nat, rank: seq<nat>, t: nat)
    requires Setting(cfg, s, o, a, rank) && MayRun(cfg, s, a, t)
    requires !Enabled(cfg, s, t) && !s.control[t].pc.PopInputs? && !s.control[t].pc.PushOut?
    ensures t == o && s.control[t].pc.StartPush?
  {
    if s.control[t].pc.StartPop? {
      assert t == a;
      HeldStartPopGoes(cfg, s, o, a, rank);
    } else {
      assert IsOriginator(cfg, t);
    }
  }

  // --- one more step ---

  /** Time goes on far enough, and a write that has begun has stored nothing yet. */
  function LabelFor(cfg: Config, s: State, t: nat): Label
    requires Wired(cfg) && Shape(cfg, s) && t < |cfg.ins|
  {
    Label(t, Env(LateEnough(cfg, s), Unwritten(cfg, s, t)))
  }

  function Unwritten(cfg: Config, s: State, t: nat): seq<Byte>
    requires Wired(cfg) && Shape(cfg, s) && t < |cfg.ins|
  {
    match s.control[t].pc
    case WriteBegin(j) =>
      OutEndIsEdge(cfg, t, j);
      s.msgs[cfg.outs[t][j]]
    case _ => []
  }

  lemma StepOf(cfg: Config, s: State, o: nat, a: nat, rank: seq<nat>, v: nat) returns (next: State)
    requires Setting(cfg, s, o, a, rank) && MayRun(cfg, s, a, v) && Enabled(cfg, s, v)
    ensures Step(cfg, s, LabelFor(cfg, s, v), next) && Setting(cfg, next, o, a, rank)
    ensures next.control == s.control[v := Succ(cfg, v, s.control[v])]
    ensures next.msgs == NextMsgs(cfg, s, v, Unwritten(cfg, s, v))
    ensures 0 <= Remaining(cfg, next) < Remaining(cfg, s)
  {
    var l := LabelFor(cfg, s, v);
    next := Next(cfg, s, l);
    assert Step(cfg, s, l, next);
    StepInv(cfg, s, l, next, o);
    EveryStepCounts(cfg, s, l, next);
    RemainingIsZeroWhenFinal(cfg, next);
  }

  /** Runs that end in a state of the schedule. */
  ghost predicate RunTo(cfg: Config, states: seq<State>, labels: seq<Label>, o: nat, a: nat, rank: seq<nat>) {
    Wired(cfg) && Run(cfg, states, labels) && Setting(cfg, states[|labels|], o, a, rank)
  }

  ghost function Ahead(cfg: Config, states: seq<State>, labels: seq<Label>, o: nat, a: nat, rank: seq<nat>): nat
    requires RunTo(cfg, states, labels, o, a, rank)
  {
    RemainingIsZeroWhenFinal(cfg, states[|labels|]);
    Remaining(cfg, states[|labels|])
  }

  lemma OneMore(cfg: Config, states: seq<State>, labels: seq<Label>, o: nat, a: nat, rank: seq<nat>, v: nat)
    returns (states': seq<State>, labels': seq<Label>)
    requires RunTo(cfg, states, labels, o, a, rank)
    requires MayRun(cfg, states[|labels|], a, v) && Enabled(cfg, states[|labels|], v)
    ensures RunTo(cfg, states', labels', o, a, rank)
    ensures var s, s' := states[|labels|], states'[|labels'|];
            && s'.control == s.control[v := Succ(cfg, v, s.control[v])]
            && s'.msgs == NextMsgs(cfg, s, v, Unwritten(cfg, s, v))
    ensures Ahead(cfg, states', labels', o, a, rank) < Ahead(cfg, states, labels, o, a, rank)
  {
    var s := states[|labels|];
    var next := StepOf(cfg, s, o, a, rank, v);
    ExtendRun(cfg, states, labels, LabelFor(cfg, s, v), next);
    states', labels' := states + [next], labels + [LabelFor(cfg, s, v)];
  }

  // --- sink b pops, reads its first inputs, and stops at the i-th ---

  /** Nobody is past the beginning of activation 1. */
  predicate Early(cfg: Config, s: State)
    requires Wired(cfg) && Shape(cfg, s)
  {
    forall t :: 0 <= t < |cfg.ins| ==>
      s.control[t].iter == 0 || (s.control[t].iter == 1 && s.control[t] == Control(1, LoopHead(cfg, t, 1)))
  }

  lemma StaysEarly(cfg: Config, s: State, s': State, a: nat, v: nat)
    requires Wired(cfg) && Shape(cfg, s) && Shape(cfg, s') && Early(cfg, s) && MayRun(cfg, s, a, v)
    requires s.control[v].iter == 0 && s'.control == s.control[v := Succ(cfg, v, s.control[v])]
    ensures Early(cfg, s')
  {
  }

  /** Sink `b` has not got past its i-th read. */
  predicate UpToRead(cfg: Config, s: State, b: nat, i: nat)
    requires Wired(cfg) && Shape(cfg, s) && b < |cfg.ins|
  {
    s.control[b].pc.PopInputs? || (s.control[b].pc.Read? && s.control[b].pc.i <= i)
  }

  lemma {:induction false} ReachRead(cfg: Config, states: seq<State>, labels: seq<Label>,
                                     o: nat, a: nat, b: nat, i: nat, rank: seq<nat>)
    returns (states': seq<State>, labels': seq<Label>)
    requires RunTo(cfg, states, labels, o, a, rank) && Early(cfg, states[|labels|])
    requires b < |cfg.ins| && b != a && IsSink(cfg, b) && i < |cfg.ins[b]|
    requires UpToRead(cfg, states[|labels|], b, i)
    ensures RunTo(cfg, states', labels', o, a, rank) && Early(cfg, states'[|labels'|])
    ensures states'[|labels'|].control[b] == Control(0, Read(i))
    decreases Ahead(cfg, states, labels, o, a, rank)
  {
    var s := states[|labels|];
    if s.control[b].pc == Read(i) {
      return states, labels;
    }
    var v := SomeoneMayStep(cfg, s, o, a, rank, b);
    var ss, ls := OneMore(cfg, states, labels, o, a, rank, v);
    StaysEarly(cfg, s, ss[|ls|], a, v);
    states', labels' := ReachRead(cfg, ss, ls, o, a, b, i, rank);
  }

  // --- its sender begins to write the next message ---

  /** The sender has not begun its second write on out-edge `j`. */
  predicate BeforeSecondWrite(c: Control, j: nat) {
    WrittenOut(c, j) <= 1 && c != Control(1, WriteEnd(j))
  }

  lemma StaysBefore(cfg: Config, u: nat, c: Control, j: nat)
    requires Wired(cfg) && u < |cfg.ins| && PcOk(cfg, u, c) && !c.pc.Done? && j < |cfg.outs[u]|
    requires BeforeSecondWrite(c, j)
    ensures c.iter <= 1
    ensures BeforeSecondWrite(Succ(cfg, u, c), j) || c == Control(1, WriteBegin(j))
  {
    CountsAfterStep(cfg, u, c, j);
  }

  lemma EarlyIsBefore(cfg: Config, s: State, u: nat, j: nat)
    requires Wired(cfg) && Shape(cfg, s) && Early(cfg, s) && u < |cfg.ins|
    ensures BeforeSecondWrite(s.control[u], j)
  {
  }

  /** The race: sink `b` reads its i-th input of activation 0 while the sender writes the one of activation 1. */
  predicate Race(cfg: Config, s: State, b: nat, i: nat)
    requires Wired(cfg) && Shape(cfg, s) && b < |cfg.ins| && i < |cfg.ins[b]|
  {
    var e := cfg.ins[b][i];
    s.control[b] == Control(0, Read(i)) && s.control[e.task] == Control(1, WriteEnd(e.idx))
  }

  lemma {:induction false} ReachWrite(cfg: Config, states: seq<State>, labels: seq<Label>,
                                      o: nat, a: nat, b: nat, i: nat, rank: seq<nat>)
    returns (states': seq<State>, labels': seq<Label>)
    requires RunTo(cfg, states, labels, o, a, rank)
    requires b < |cfg.ins| && b != a && IsSink(cfg, b) && i < |cfg.ins[b]|
    requires states[|labels|].control[b] == Control(0, Read(i))
    requires BeforeSecondWrite(states[|labels|].control[cfg.ins[b][i].task], cfg.ins[b][i].idx)
    ensures RunTo(cfg, states', labels', o, a, rank) && Race(cfg, states'[|labels'|], b, i)
    decreases Ahead(cfg, states, labels, o, a, rank)
  {
    var s, e := states[|labels|], cfg.ins[b][i];
    var u, j := e.task, e.idx;
    StaysBefore(cfg, u, s.control[u], j);
    var v := SomeoneMayStep(cfg, s, o, a, rank, u);
    states', labels' := OneMore(cfg, states, labels, o, a, rank, v);
    if v != u || s.control[u] != Control(1, WriteBegin(j)) {
      states', labels' := ReachWrite(cfg, states', labels', o, a, b, i, rank);
    }
  }

  // --- and completes it ---

  /** The message of activation 1 is complete, and sink `b` is still to read that of activation 0. */
  predicate Overtaken(cfg: Config, s: State, b: nat, i: nat)
    requires Wired(cfg) && Shape(cfg, s) && b < |cfg.ins| && i < |cfg.ins[b]|
  {
    var e := cfg.ins[b][i];
    && s.control[b] == Control(0, Read(i)) && s.control[e.task] == Control(1, PushOut(e.idx))
    && End(b, i) in s.msgs && s.msgs[End(b, i)] == Fit(cfg.texts(e.task, 1), cfg.sizes[b][i])
  }

  lemma CompletesTheWrite(cfg: Config, s: State, s': State, b: nat, i: nat)
    requires Wired(cfg) && Shape(cfg, s) && Shape(cfg, s') && b < |cfg.ins| && i < |cfg.ins[b]|
    requires Race(cfg, s, b, i)
    requires var u := cfg.ins[b][i].task;
      s'.control == s.control[u := Succ(cfg, u, s.control[u])] && s'.msgs == NextMsgs(cfg, s, u, Unwritten(cfg, s, u))
    ensures Overtaken(cfg, s', b, i)
  {
    var u := cfg.ins[b][i].task;
    assert End(b, i) in Edges(cfg);
    BufferAfterStep(cfg, s, u, Unwritten(cfg, s, u), b, i);
  }

  // --- two sinks ---

  /** With other tasks around, the only task without inputs has outputs. */
  lemma {:induction false} OriginatorIsNoSink(cfg: Config, o: nat, rank: seq<nat>, t: nat)
    requires Wired(cfg) && OneOriginator(cfg, o) && Ranks(cfg, rank) && t < |cfg.ins| && t != o
    ensures !IsSink(cfg, o)
    decreases rank[t]
  {
    assert !IsOriginator(cfg, t);
    var e := cfg.ins[t][0];
    if e.task != o {
      OriginatorIsNoSink(cfg, o, rank, e.task);
    }
  }

  lemma StartOfSchedule(cfg: Config, o: nat, a: nat, rank: seq<nat>)
    requires Wired(cfg) && OneOriginator(cfg, o) && Ranks(cfg, rank) && Narrow(cfg) && cfg.activations >= 2
    requires a < |cfg.ins| && IsSink(cfg, a) && a != o && !IsSink(cfg, o)
    ensures RunTo(cfg, [Init(cfg)], [], o, a, rank) && Early(cfg, Init(cfg))
    ensures forall b: nat, i: nat :: b < |cfg.ins| && b != a && IsSink(cfg, b) ==> UpToRead(cfg, Init(cfg), b, i)
  {
    InitInv(cfg, o);
  }

  /** The circumstances of the results below, and two sinks. */
  ghost predicate TwoSinks(cfg: Config, o: nat, a: nat, b: nat, rank: seq<nat>) {
    && Wired(cfg) && OneOriginator(cfg, o) && Ranks(cfg, rank) && Narrow(cfg) && cfg.activations >= 2
    && a < |cfg.ins| && b < |cfg.ins| && a != b && IsSink(cfg, a) && IsSink(cfg, b)
  }

  /** With a second sink, every input of either sink can be written while it is being read. */
  lemma TwoSinksRace(cfg: Config, o: nat, a: nat, b: nat, i: nat, rank: seq<nat>)
    returns (states: seq<State>, labels: seq<Label>)
    requires TwoSinks(cfg, o, a, b, rank) && i < |cfg.ins[b]|
    ensures RunTo(cfg, states, labels, o, a, rank) && Race(cfg, states[|labels|], b, i)
  {
    OriginatorIsNoSink(cfg, o, rank, if a == o then b else a);
    StartOfSchedule(cfg, o, a, rank);
    states, labels := ReachRead(cfg, [Init(cfg)], [], o, a, b, i, rank);
    EarlyIsBefore(cfg, states[|labels|], cfg.ins[b][i].task, cfg.ins[b][i].idx);
    states, labels := ReachWrite(cfg, states, labels, o, a, b, i, rank);
  }

  /** And the next message can be complete before the last one is read. */
  lemma TwoSinksOvertake(cfg: Config, o: nat, a: nat, b: nat, i: nat, rank: seq<nat>)
    returns (states: seq<State>, labels: seq<Label>)
    requires TwoSinks(cfg, o, a, b, rank) && i < |cfg.ins[b]|
    ensures Run(cfg, states, labels) && Shape(cfg, states[|labels|]) && Overtaken(cfg, states[|labels|], b, i)
  {
    states, labels := TwoSinksRace(cfg, o, a, b, i, rank);
    var s, u := states[|labels|], cfg.ins[b][i].task;
    states, labels := OneMore(cfg, states, labels, o, a, rank, u);
    CompletesTheWrite(cfg, s, states[|labels|], b, i);
  }

  // --- the buffers are kept apart iff there is one sink ---

  lemma OneSinkKeepsApart(cfg: Config, o: nat, z: nat, rank: seq<nat>, states: seq<State>, labels: seq<Label>)
    requires Wired(cfg) && OneOriginator(cfg, o) && OneSink(cfg, z) && Ranks(cfg, rank) && Run(cfg, states, labels)
    ensures Shape(cfg, states[|labels|]) && SinkReadsExact(cfg, states[|labels|])
    ensures forall r: nat, i: nat :: r < |cfg.ins| && i < |cfg.ins[r]| ==> !WindowOpen(cfg, states[|labels|], r, i)
  {
    var s := states[|labels|];
    RunInv(cfg, states, labels, |labels|, o);
    forall r: nat, i: nat | r < |cfg.ins| && i < |cfg.ins[r]| && s.control[r].pc.Read?
      ensures !WindowOpen(cfg, s, r, i) && ReadsOwnMessage(cfg, s, r, i)
    {
      UnlockedReadsAreSafe(cfg, s, o, z, rank, r, i);
    }
  }

  /** A second sink, if there is not exactly one. */
  lemma SinksOtherThanOne(cfg: Config, rank: seq<nat>) returns (a: nat, b: nat)
    requires Wired(cfg) && Ranks(cfg, rank) && !exists z: nat :: OneSink(cfg, z)
    ensures a < |cfg.outs| && b < |cfg.outs| && a != b && IsSink(cfg, a) && IsSink(cfg, b)
  {
    a := SomeSinkExists(cfg, rank);
    assert !OneSink(cfg, a);
    b :| b < |cfg.outs| && b != a && IsSink(cfg, b);
  }

  /** With two activations or more, no message is ever written while it is read, and no sender even in its write
      window, iff the graph has exactly one sink. */
  lemma NeverOverlapIffOneSink(cfg: Config, o: nat, rank: seq<nat>)
    requires Wired(cfg) && OneOriginator(cfg, o) && Ranks(cfg, rank) && Narrow(cfg) && cfg.activations >= 2
    ensures NeverOverlap(cfg) <==> exists z: nat :: OneSink(cfg, z)
    ensures WindowsStayClosed(cfg) <==> exists z: nat :: OneSink(cfg, z)
  {
    if exists z: nat :: OneSink(cfg, z) {
      var z: nat :| OneSink(cfg, z);
      forall states: seq<State>, labels: seq<Label> | Run(cfg, states, labels)
        ensures Shape(cfg, states[|labels|])
        ensures forall r: nat, i: nat :: r < |cfg.ins| && i < |cfg.ins[r]| ==>
                  !WindowOpen(cfg, states[|labels|], r, i) && !Overlap(cfg, states[|labels|], r, i)
      {
        OneSinkKeepsApart(cfg, o, z, rank, states, labels);
        assert forall r: nat, i: nat :: r < |cfg.ins| && i < |cfg.ins[r]| && Overlap(cfg, states[|labels|], r, i) ==>
            WindowOpen(cfg, states[|labels|], r, i);
      }
    } else {
      var a, b := SinksOtherThanOne(cfg, rank);
      OriginatorIsNoSink(cfg, o, rank, if a == o then b else a);
      assert !IsOriginator(cfg, b);
      var states, labels := TwoSinksRace(cfg, o, a, b, 0, rank);
      assert Overlap(cfg, states[|labels|], b, 0) && WindowOpen(cfg, states[|labels|], b, 0);
    }
  }

  // --- what is read ---

  /** All the messages of an edge look the same in its buffer. */
  ghost predicate Alike(cfg: Config, r: nat, i: nat)
    requires Wired(cfg) && r < |cfg.ins| && i < |cfg.ins[r]|
  {
    var u, size := cfg.ins[r][i].task, cfg.sizes[r][i];
    forall k: nat, l: nat :: Fit(cfg.texts(u, k), size) == Fit(cfg.texts(u, l), size)
  }

  /** The first two differ. */
  predicate Differ(cfg: Config, r: nat, i: nat)
    requires Wired(cfg) && r < |cfg.ins| && i < |cfg.ins[r]|
  {
    var u, size := cfg.ins[r][i].task, cfg.sizes[r][i];
    Fit(cfg.texts(u, 0), size) != Fit(cfg.texts(u, 1), size)
  }

  /** Where all messages are alike, every complete one is the right one, whatever the number of sinks. */
  lemma AlikeReadsAreExact(cfg: Config, s: State, o: nat, r: nat, i: nat)
    requires Inv(cfg, s, o) && r < |cfg.ins| && i < |cfg.ins[r]| && Alike(cfg, r, i)
    requires s.control[r].pc == Read(i) && !Overlap(cfg, s, r, i)
    ensures ReadsOwnMessage(cfg, s, r, i)
  {
    var e := cfg.ins[r][i];
    assert End(r, i) in Edges(cfg);
    assert SlotCounts(cfg, s, r, i) && MessageCounts(cfg, s, r, i);
    WrittenBeforePushed(cfg, e.task, s.control[e.task], e.idx);
  }

  lemma WrittenBeforePushed(cfg: Config, t: nat, c: Control, j: nat)
    requires Wired(cfg) && t < |cfg.ins| && PcOk(cfg, t, c) && j < |cfg.outs[t]|
    ensures WrittenOut(c, j) >= PushedOut(c, j)
  {
  }

  lemma OvertakenIsWrong(cfg: Config, s: State, b: nat, i: nat)
    requires Wired(cfg) && Shape(cfg, s) && b < |cfg.ins| && i < |cfg.ins[b]| && IsSink(cfg, b)
    requires Overtaken(cfg, s, b, i) && Differ(cfg, b, i)
    ensures !SinkReadsExact(cfg, s)
  {
    assert !ReadsOwnMessage(cfg, s, b, i) && !Overlap(cfg, s, b, i);
  }

  predicate SomeSinkEdgeDiffers(cfg: Config)
    requires Wired(cfg)
  {
    exists r, i :: 0 <= r < |cfg.ins| && 0 <= i < |cfg.ins[r]| && IsSink(cfg, r) && Differ(cfg, r, i)
  }

  /** With two activations or more, sinks read exactly their own messages, in all states of all runs in which no
      write is going on, iff there is exactly one sink or no sink can tell two messages apart. */
  lemma SinksReadExactlyIff(cfg: Config, o: nat, rank: seq<nat>)
    requires Wired(cfg) && OneOriginator(cfg, o) && Ranks(cfg, rank) && Narrow(cfg) && cfg.activations >= 2
    requires forall r: nat, i: nat :: r < |cfg.ins| && i < |cfg.ins[r]| ==> Differ(cfg, r, i) || Alike(cfg, r, i)
    ensures SinksReadExactly(cfg) <==> (exists z: nat :: OneSink(cfg, z)) || !SomeSinkEdgeDiffers(cfg)
  {
    if exists z: nat :: OneSink(cfg, z) {
      var z: nat :| OneSink(cfg, z);
      forall states: seq<State>, labels: seq<Label> | Run(cfg, states, labels)
        ensures Shape(cfg, states[|labels|]) && SinkReadsExact(cfg, states[|labels|])
      {
        OneSinkKeepsApart(cfg, o, z, rank, states, labels);
      }
    } else if SomeSinkEdgeDiffers(cfg) {
      var b: nat, i: nat :| b < |cfg.ins| && i < |cfg.ins[b]| && IsSink(cfg, b) && Differ(cfg, b, i);
      var a := AnotherSink(cfg, rank, b);
      var states, labels := TwoSinksOvertake(cfg, o, a, b, i, rank);
      OvertakenIsWrong(cfg, states[|labels|], b, i);
    } else {
      forall states: seq<State>, labels: seq<Label> | Run(cfg, states, labels)
        ensures Shape(cfg, states[|labels|]) && SinkReadsExact(cfg, states[|labels|])
      {
        AllAlikeIsExact(cfg, states, labels, o);
      }
    }
  }

  lemma AnotherSink(cfg: Config, rank: seq<nat>, b: nat) returns (a: nat)
    requires Wired(cfg) && Ranks(cfg, rank) && b < |cfg.outs| && !exists z: nat :: OneSink(cfg, z)
    ensures a < |cfg.outs| && a != b && IsSink(cfg, a)
  {
    var c, d := SinksOtherThanOne(cfg, rank);
    a := if c == b then d else c;
  }

  lemma AllAlikeIsExact(cfg: Config, states: seq<State>, labels: seq<Label>, o: nat)
    requires Wired(cfg) && OneOriginator(cfg, o) && Run(cfg, states, labels) && !SomeSinkEdgeDiffers(cfg)
    requires forall r: nat, i: nat :: r < |cfg.ins| && i < |cfg.ins[r]| ==> Differ(cfg, r, i) || Alike(cfg, r, i)
    ensures Shape(cfg, states[|labels|]) && SinkReadsExact(cfg, states[|labels|])
  {
    var s := states[|labels|];
    RunInv(cfg, states, labels, |labels|, o);
    forall r: nat, i: nat | r < |cfg.ins| && i < |cfg.ins[r]| && IsSink(cfg, r) && s.control[r].pc == Read(i)
      ensures Overlap(cfg, s, r, i) || ReadsOwnMessage(cfg, s, r, i)
    {
      assert Alike(cfg, r, i);
      if !Overlap(cfg, s, r, i) {
        AlikeReadsAreExact(cfg, s, o, r, i);
      }
    }
  }
}
