/** What every step of the DAG protocol keeps, for any number of sinks. */
module DagInvariant {
  import opened Common
  import opened Messages
  import opened PeriodicTask
  import opened DagModel

  /** Conservation on every edge slot: completed pushes exceed completed pops by the busy bit. */
  ghost predicate SlotsCount(cfg: Config, s: State)
    requires Wired(cfg) && Shape(cfg, s)
  {
    forall r, i :: 0 <= r < |cfg.ins| && 0 <= i < |cfg.ins[r]| ==> SlotCounts(cfg, s, r, i)
  }

  predicate SlotCounts(cfg: Config, s: State, r: nat, i: nat)
    requires Wired(cfg) && Shape(cfg, s) && r < |cfg.ins| && i < |cfg.ins[r]|
  {
    var e := cfg.ins[r][i];
    PushedOut(s.control[e.task], e.idx) == Began(s.control[r]) + if s.queues[r][i].Some? then 1 else 0
  }

  /** Per task, the completed `start_time` pops (0 for a task that is not a sink). */
  function SinkPops(cfg: Config, s: State): seq<int>
    requires Wired(cfg) && Shape(cfg, s)
  {
    seq(|cfg.outs|, t requires 0 <= t < |cfg.outs| => if IsSink(cfg, t) then StartPops(s.control[t]) else 0)
  }

  /** Conservation on `start_time`. */
  predicate StartCounts(cfg: Config, s: State, o: nat)
    requires Wired(cfg) && Shape(cfg, s) && o < |cfg.ins|
  {
    Began(s.control[o]) == Sum(SinkPops(cfg, s)) + if s.start[0].Some? then 1 else 0
  }

  /** The value in the `start_time` slot is the instant of the last start push. */
  predicate StartHolds(cfg: Config, s: State, o: nat)
    requires Wired(cfg) && Shape(cfg, s) && o < |cfg.ins|
  {
    s.start[0].Some? ==>
      && Began(s.control[o]) >= 1
      && s.start[0].value == Instant(cfg.t0, cfg.period, Began(s.control[o]) - 1)
  }

  /** The originator's `next_period` is that of its current activation, and that instant has passed. */
  predicate PeriodCounts(cfg: Config, s: State, o: nat)
    requires Wired(cfg) && Shape(cfg, s) && o < |cfg.ins|
  {
    var c := s.control[o];
    if c.pc.Align? then s.pinfo == cfg.t0
    else s.pinfo == NextPeriod(cfg.t0, cfg.period, c.iter) && s.clock >= TotalNs(s.pinfo)
  }

  /** The contents of an in-edge buffer after `count` complete writes. */
  function Content(cfg: Config, r: nat, i: nat, count: nat): seq<Byte>
    requires Wired(cfg) && r < |cfg.ins| && i < |cfg.ins[r]|
  {
    var size := cfg.sizes[r][i];
    if count == 0 then InitialMessage(size) else Fit(cfg.texts(cfg.ins[r][i].task, count - 1), size)
  }

  /** Unless its sender is in the middle of a write, a buffer holds the last complete message. */
  ghost predicate MessagesCount(cfg: Config, s: State)
    requires Wired(cfg) && Shape(cfg, s)
  {
    forall r, i :: 0 <= r < |cfg.ins| && 0 <= i < |cfg.ins[r]| ==> MessageCounts(cfg, s, r, i)
  }

  predicate MessageCounts(cfg: Config, s: State, r: nat, i: nat)
    requires Wired(cfg) && Shape(cfg, s) && r < |cfg.ins| && i < |cfg.ins[r]|
  {
    assert End(r, i) in Edges(cfg);
    Holds(cfg, r, i, s.control[cfg.ins[r][i].task], s.msgs[End(r, i)])
  }

  predicate Holds(cfg: Config, r: nat, i: nat, sender: Control, msg: seq<Byte>)
    requires Wired(cfg) && r < |cfg.ins| && i < |cfg.ins[r]|
  {
    var j := cfg.ins[r][i].idx;
    sender.pc != WriteEnd(j) ==> msg == Content(cfg, r, i, WrittenOut(sender, j))
  }

  ghost predicate Inv(cfg: Config, s: State, o: nat) {
    && Wired(cfg)
    && OneOriginator(cfg, o)
    && Shape(cfg, s)
    && SlotsCount(cfg, s)
    && StartCounts(cfg, s, o)
    && StartHolds(cfg, s, o)
    && PeriodCounts(cfg, s, o)
    && MessagesCount(cfg, s)
  }

  // --- initially ---

  lemma InitInv(cfg: Config, o: nat)
    requires Wired(cfg) && OneOriginator(cfg, o)
    ensures Inv(cfg, Init(cfg), o)
  {
    var s := Init(cfg);
    InitShape(cfg);
    SumZero(SinkPops(cfg, s));
    InitMessages(cfg);
  }

  lemma InitShape(cfg: Config)
    requires Wired(cfg)
    ensures Shape(cfg, Init(cfg))
  {
  }

  lemma InitMessages(cfg: Config)
    requires Wired(cfg) && Shape(cfg, Init(cfg))
    ensures MessagesCount(cfg, Init(cfg))
  {
    var s := Init(cfg);
    forall r, i | 0 <= r < |cfg.ins| && 0 <= i < |cfg.ins[r]| ensures MessageCounts(cfg, s, r, i) {
      assert End(r, i) in Edges(cfg);
    }
  }

  // --- how one step moves the counts of its own task ---

  lemma CountsAfterStep(cfg: Config, t: nat, c: Control, j: nat)
    requires Wired(cfg) && t < |cfg.ins| && PcOk(cfg, t, c) && !c.pc.Done? && j < |cfg.outs[t]|
    ensures PushedOut(Succ(cfg, t, c), j) == PushedOut(c, j) + if c.pc == PushOut(j) then 1 else 0
    ensures WrittenOut(Succ(cfg, t, c), j) == WrittenOut(c, j) + if c.pc == WriteEnd(j) then 1 else 0
  {
  }

  lemma BeganAfterStep(cfg: Config, t: nat, c: Control)
    requires Wired(cfg) && t < |cfg.ins| && PcOk(cfg, t, c) && !c.pc.Done?
    ensures Began(Succ(cfg, t, c)) == Began(c) + if c.pc.StartPush? || c.pc.PopInputs? then 1 else 0
    ensures IsSink(cfg, t) ==>
              StartPops(Succ(cfg, t, c)) == StartPops(c) + if c.pc.StartPop? then 1 else 0
  {
  }

  // --- every step ---

  lemma StepShape(cfg: Config, s: State, l: Label, s': State)
    requires Wired(cfg) && Step(cfg, s, l, s')
    ensures Shape(cfg, s')
  {
    var t := l.task;
    ControlKeepsShape(cfg, s, t);
    QueuesKeepShape(cfg, s, t);
    MsgsKeepShape(cfg, s, t, l.env.torn);
  }

  lemma ControlKeepsShape(cfg: Config, s: State, t: nat)
    requires Wired(cfg) && Shape(cfg, s) && t < |s.control|
    ensures forall u :: 0 <= u < |s.control| ==> PcOk(cfg, u, NextControl(cfg, s, t)[u])
  {
    SuccIsOk(cfg, t, s.control[t]);
  }

  lemma QueuesKeepShape(cfg: Config, s: State, t: nat)
    requires Wired(cfg) && Shape(cfg, s) && Enabled(cfg, s, t)
    ensures |NextQueues(cfg, s, t)| == |s.queues|
    ensures forall r :: 0 <= r < |s.queues| ==> |NextQueues(cfg, s, t)[r]| == |cfg.ins[r]|
  {
  }

  lemma MsgsKeepShape(cfg: Config, s: State, t: nat, torn: seq<Byte>)
    requires Wired(cfg) && Shape(cfg, s) && t < |s.control|
    ensures NextMsgs(cfg, s, t, torn).Keys == Edges(cfg)
  {
    match s.control[t].pc {
      case WriteBegin(j) => OutEndIsEdge(cfg, t, j);
      case WriteEnd(j) => OutEndIsEdge(cfg, t, j);
      case _ =>
    }
  }

  lemma OutEndIsEdge(cfg: Config, t: nat, j: nat)
    requires Wired(cfg) && t < |cfg.outs| && j < |cfg.outs[t]|
    ensures cfg.outs[t][j] in Edges(cfg)
  {
  }

  lemma StepSlot(cfg: Config, s: State, l: Label, s': State, r: nat, i: nat)
    requires Wired(cfg) && Step(cfg, s, l, s') && Shape(cfg, s')
    requires r < |cfg.ins| && i < |cfg.ins[r]| && SlotCounts(cfg, s, r, i)
    ensures SlotCounts(cfg, s', r, i)
  {
    var e, t := cfg.ins[r][i], l.task;
    if t == e.task {
      CountsAfterStep(cfg, t, s.control[t], e.idx);
    }
    if t == r {
      BeganAfterStep(cfg, t, s.control[t]);
    }
    match s.control[t].pc {
      case PushOut(j) =>
        assert cfg.outs[t][j] == End(r, i) <==> t == e.task && j == e.idx;
      case _ =>
    }
  }

  lemma StepStart(cfg: Config, s: State, l: Label, s': State, o: nat)
    requires Wired(cfg) && OneOriginator(cfg, o) && Step(cfg, s, l, s') && Shape(cfg, s')
    requires StartCounts(cfg, s, o)
    ensures StartCounts(cfg, s', o)
  {
    OriginatorAfterStep(cfg, s, l.task, o);
    SinkPopsAfterStep(cfg, s, l, s');
  }

  lemma StepStartValue(cfg: Config, s: State, l: Label, s': State, o: nat)
    requires Wired(cfg) && OneOriginator(cfg, o) && Step(cfg, s, l, s') && Shape(cfg, s')
    requires StartHolds(cfg, s, o) && PeriodCounts(cfg, s, o)
    ensures StartHolds(cfg, s', o)
  {
    OriginatorAfterStep(cfg, s, l.task, o);
  }

  /** Only the originator's start push counts as its beginning an activation. */
  lemma OriginatorAfterStep(cfg: Config, s: State, t: nat, o: nat)
    requires Wired(cfg) && OneOriginator(cfg, o) && Shape(cfg, s) && Enabled(cfg, s, t)
    ensures s.control[t].pc.StartPush? ==> t == o
    ensures Began(NextControl(cfg, s, t)[o]) == Began(s.control[o]) + if s.control[t].pc.StartPush? then 1 else 0
  {
    BeganAfterStep(cfg, t, s.control[t]);
  }

  lemma SinkPopsAfterStep(cfg: Config, s: State, l: Label, s': State)
    requires Wired(cfg) && Step(cfg, s, l, s') && Shape(cfg, s')
    ensures Sum(SinkPops(cfg, s')) == Sum(SinkPops(cfg, s)) + if s.control[l.task].pc.StartPop? then 1 else 0
  {
    var t := l.task;
    BeganAfterStep(cfg, t, s.control[t]);
    var before, after := SinkPops(cfg, s), SinkPops(cfg, s');
    assert after == before[t := after[t]];
    SumUpdate(before, t, after[t]);
  }

  lemma StepPeriod(cfg: Config, s: State, l: Label, s': State, o: nat)
    requires Wired(cfg) && OneOriginator(cfg, o) && Step(cfg, s, l, s') && Shape(cfg, s')
    requires PeriodCounts(cfg, s, o)
    ensures PeriodCounts(cfg, s', o)
  {
  }

  lemma OneSenderPerBuffer(cfg: Config, t: nat, j: nat, r: nat, i: nat)
    requires Wired(cfg) && t < |cfg.outs| && j < |cfg.outs[t]| && r < |cfg.ins| && i < |cfg.ins[r]|
    ensures cfg.outs[t][j] == End(r, i) <==> t == cfg.ins[r][i].task && j == cfg.ins[r][i].idx
  {
  }

  /** Only its own sender ever writes a buffer, and only in its two write steps. */
  lemma BufferAfterStep(cfg: Config, s: State, t: nat, torn: seq<Byte>, r: nat, i: nat)
    requires Wired(cfg) && Shape(cfg, s) && t < |s.control|
    requires r < |cfg.ins| && i < |cfg.ins[r]| && End(r, i) in s.msgs
    ensures End(r, i) in NextMsgs(cfg, s, t, torn)
    ensures var e, c := cfg.ins[r][i], s.control[t];
            NextMsgs(cfg, s, t, torn)[End(r, i)] ==
              if t == e.task && c.pc == WriteBegin(e.idx) then torn
              else if t == e.task && c.pc == WriteEnd(e.idx) then Fit(cfg.texts(t, c.iter), cfg.sizes[r][i])
              else s.msgs[End(r, i)]
  {
    match s.control[t].pc {
      case WriteBegin(j) => OneSenderPerBuffer(cfg, t, j, r, i);
      case WriteEnd(j) => OneSenderPerBuffer(cfg, t, j, r, i);
      case _ =>
    }
  }

  lemma WriteWindow(cfg: Config, t: nat, c: Control, j: nat)
    requires Wired(cfg) && t < |cfg.ins| && PcOk(cfg, t, c) && j < |cfg.outs[t]|
    ensures Succ(cfg, t, c).pc == WriteEnd(j) <==> c.pc == WriteBegin(j)
    ensures c.pc == WriteEnd(j) ==> WrittenOut(c, j) == c.iter
  {
  }

  /** How a buffer's contents follow its sender through one step of the sender. */
  lemma HoldsAfterOwnStep(cfg: Config, r: nat, i: nat, c: Control, msg: seq<Byte>, torn: seq<Byte>)
    requires Wired(cfg) && r < |cfg.ins| && i < |cfg.ins[r]|
    requires PcOk(cfg, cfg.ins[r][i].task, c) && !c.pc.Done? && Holds(cfg, r, i, c, msg)
    ensures var e := cfg.ins[r][i];
            Holds(cfg, r, i, Succ(cfg, e.task, c),
                  if c.pc == WriteBegin(e.idx) then torn
                  else if c.pc == WriteEnd(e.idx) then Fit(cfg.texts(e.task, c.iter), cfg.sizes[r][i])
                  else msg)
  {
    var e := cfg.ins[r][i];
    CountsAfterStep(cfg, e.task, c, e.idx);
    WriteWindow(cfg, e.task, c, e.idx);
  }

  lemma BufferStaysCounted(cfg: Config, s: State, t: nat, torn: seq<Byte>, r: nat, i: nat)
    requires Wired(cfg) && Shape(cfg, s) && t < |s.control| && !s.control[t].pc.Done?
    requires r < |cfg.ins| && i < |cfg.ins[r]| && MessageCounts(cfg, s, r, i)
    ensures End(r, i) in NextMsgs(cfg, s, t, torn)
    ensures Holds(cfg, r, i, NextControl(cfg, s, t)[cfg.ins[r][i].task], NextMsgs(cfg, s, t, torn)[End(r, i)])
  {
    assert End(r, i) in Edges(cfg);
    BufferAfterStep(cfg, s, t, torn, r, i);
    if t == cfg.ins[r][i].task {
      HoldsAfterOwnStep(cfg, r, i, s.control[t], s.msgs[End(r, i)], torn);
    }
  }

  lemma StepMessage(cfg: Config, s: State, l: Label, s': State, r: nat, i: nat)
    requires Wired(cfg) && Step(cfg, s, l, s') && Shape(cfg, s')
    requires r < |cfg.ins| && i < |cfg.ins[r]| && MessageCounts(cfg, s, r, i)
    ensures MessageCounts(cfg, s', r, i)
  {
    BufferStaysCounted(cfg, s, l.task, l.env.torn, r, i);
  }

  lemma StepInv(cfg: Config, s: State, l: Label, s': State, o: nat)
    requires Inv(cfg, s, o) && Step(cfg, s, l, s')
    ensures Inv(cfg, s', o)
  {
    StepShape(cfg, s, l, s');
    StepStart(cfg, s, l, s', o);
    StepStartValue(cfg, s, l, s', o);
    StepPeriod(cfg, s, l, s', o);
    forall r, i | 0 <= r < |cfg.ins| && 0 <= i < |cfg.ins[r]|
      ensures SlotCounts(cfg, s', r, i) && MessageCounts(cfg, s', r, i)
    {
      StepSlot(cfg, s, l, s', r, i);
      StepMessage(cfg, s, l, s', r, i);
    }
  }

  lemma RunStepInv(cfg: Config, states: seq<State>, labels: seq<Label>, k: nat, o: nat)
    requires Wired(cfg) && Run(cfg, states, labels) && k < |labels| && Inv(cfg, states[k], o)
    ensures Inv(cfg, states[k + 1], o)
  {
    StepInv(cfg, states[k], labels[k], states[k + 1], o);
  }

  lemma {:induction false} RunInv(cfg: Config, states: seq<State>, labels: seq<Label>, k: nat, o: nat)
    requires Wired(cfg) && OneOriginator(cfg, o) && Run(cfg, states, labels) && k < |states|
    ensures Inv(cfg, states[k], o)
  {
    if k == 0 {
      InitInv(cfg, o);
    } else {
      RunInv(cfg, states, labels, k - 1, o);
      RunStepInv(cfg, states, labels, k - 1, o);
    }
  }
}
