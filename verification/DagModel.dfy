/** The per-task step program of src/newstuff/rtask.cpp and its interleavings: tasks of one DAG that
    share one MultiQueue per receiver, one unlocked message buffer per edge, and the one-slot
    `start_time` queue. */
module DagModel {
  import opened AtomicQueue
  import opened Messages
  import opened PeriodicTask

  /** One end of an edge: a task and a position in its edge list. */
  datatype End = End(task: nat, idx: nat)

  /** What the `DagTaskset` constructor leaves behind. `outs[s][j]` is the receiving end (queue and
      `push_idx`) of the j-th element of task s's `out_buffers`; `ins[r][i]` is the sending end of the
      i-th element of task r's `in_buffers`. */
  datatype Config = Config(
    ins: seq<seq<End>>,
    outs: seq<seq<End>>,
    sizes: seq<seq<nat>>,      // message size of each in-edge
    texts: (nat, nat) -> seq<Byte>, // what task t formats in activation k
    activations: nat,
    period: nat,               // microseconds
    t0: Timespec)              // clock reading of period_init

  predicate IsOriginator(cfg: Config, t: nat)
    requires t < |cfg.ins|
  {
    cfg.ins[t] == []
  }

  predicate IsSink(cfg: Config, t: nat)
    requires t < |cfg.outs|
  {
    cfg.outs[t] == []
  }

  /** Every edge has exactly one place in one `in_buffers` and one place in one `out_buffers`. */
  ghost predicate Wired(cfg: Config) {
    && |cfg.ins| == |cfg.outs| == |cfg.sizes| >= 1
    && Normal(cfg.t0)
    && (forall t: nat, k: nat :: NulFree(cfg.texts(t, k)))
    && (forall r :: 0 <= r < |cfg.ins| ==> |cfg.sizes[r]| == |cfg.ins[r]|)
    && (forall r, i :: 0 <= r < |cfg.ins| && 0 <= i < |cfg.ins[r]| ==>
          && cfg.sizes[r][i] >= 1
          && var e := cfg.ins[r][i];
          && e.task < |cfg.outs| && e.idx < |cfg.outs[e.task]| && cfg.outs[e.task][e.idx] == End(r, i))
    && (forall s, j :: 0 <= s < |cfg.outs| && 0 <= j < |cfg.outs[s]| ==>
          var e := cfg.outs[s][j];
          && e.task < |cfg.ins| && e.idx < |cfg.ins[e.task]| && cfg.ins[e.task][e.idx] == End(s, j))
  }

  /** `rank` orders the tasks so that every edge goes upwards. */
  predicate Ranks(cfg: Config, rank: seq<nat>) {
    && |rank| == |cfg.ins|
    && forall r, i :: 0 <= r < |cfg.ins| && 0 <= i < |cfg.ins[r]| ==>
         cfg.ins[r][i].task < |rank| && rank[cfg.ins[r][i].task] < rank[r]
  }

  predicate OneOriginator(cfg: Config, o: nat) {
    o < |cfg.ins| && IsOriginator(cfg, o) && forall t :: 0 <= t < |cfg.ins| && t != o ==> !IsOriginator(cfg, t)
  }

  predicate OneSink(cfg: Config, z: nat) {
    z < |cfg.outs| && IsSink(cfg, z) && forall t :: 0 <= t < |cfg.outs| && t != z ==> !IsSink(cfg, t)
  }

  /** No queue is too wide for its mask. */
  predicate Narrow(cfg: Config) {
    forall r :: 0 <= r < |cfg.ins| ==> |cfg.ins[r]| <= EXACT_SLOTS
  }

  /** `1 << push_idx` is defined for every edge. */
  predicate ShiftsDefined(cfg: Config) {
    forall s, j :: 0 <= s < |cfg.outs| && 0 <= j < |cfg.outs[s]| ==> cfg.outs[s][j].idx <= 31
  }

  lemma NarrowShifts(cfg: Config)
    requires Wired(cfg) && Narrow(cfg)
    ensures ShiftsDefined(cfg)
  {
  }

  // --- control flow of one task ---

  datatype Pc =
    | Align              // originator: wait_on_barrier returned, align_deadlines
    | StartPush          // originator: dag.start_time.push
    | PopInputs          // in_buffers[0]->mq.pop
    | Read(i: nat)       // read in_buffers[i]->msg, no lock held
    | Work               // do_loop_work
    | WriteBegin(j: nat) // write_to_queue on out_buffers[j]->msg starts, no lock held
    | WriteEnd(j: nat)   // ... and ends
    | PushOut(j: nat)    // out_buffers[j]->mq.push
    | StartPop           // sink: dag.start_time.pop, response time
    | PeriodWait         // originator: pinfo_sum_period_and_wait
    | Done

  /** The first step of an activation: only the originator has no inputs to pop. */
  function First(cfg: Config, t: nat): Pc
    requires t < |cfg.ins|
  {
    if IsOriginator(cfg, t) then StartPush else PopInputs
  }

  /** The loop header of `task_body` when `iter` activations are complete. */
  function LoopHead(cfg: Config, t: nat, iter: nat): Pc
    requires t < |cfg.ins|
  {
    if iter < cfg.activations then First(cfg, t) else Done
  }

  datatype Control = Control(iter: nat, pc: Pc)

  /** Where an activation goes once the pushes, or the sink's pop, are done. */
  function AfterOutputs(cfg: Config, t: nat, iter: nat): Control
    requires t < |cfg.ins|
  {
    if IsOriginator(cfg, t) then Control(iter, PeriodWait)
    else Control(iter + 1, LoopHead(cfg, t, iter + 1))
  }

  /** The step after (iter, pc) in the text of `task_body`. */
  function Succ(cfg: Config, t: nat, c: Control): Control
    requires t < |cfg.ins| == |cfg.outs|
  {
    match c.pc
    case Align => Control(c.iter, LoopHead(cfg, t, c.iter))
    case StartPush => Control(c.iter, Work)
    case PopInputs => Control(c.iter, Read(0))
    case Read(i) => Control(c.iter, if i + 1 < |cfg.ins[t]| then Read(i + 1) else Work)
    case Work => Control(c.iter, if IsSink(cfg, t) then StartPop else WriteBegin(0))
    case WriteBegin(j) => Control(c.iter, WriteEnd(j))
    case WriteEnd(j) => Control(c.iter, PushOut(j))
    case PushOut(j) =>
      if j + 1 < |cfg.outs[t]| then Control(c.iter, WriteBegin(j + 1)) else AfterOutputs(cfg, t, c.iter)
    case StartPop => AfterOutputs(cfg, t, c.iter)
    case PeriodWait => Control(c.iter + 1, LoopHead(cfg, t, c.iter + 1))
    case Done => c
  }

  /** Which (iter, pc) pairs task `t` can be at. */
  predicate PcOk(cfg: Config, t: nat, c: Control)
    requires t < |cfg.ins| == |cfg.outs|
  {
    match c.pc
    case Align => IsOriginator(cfg, t) && c.iter == 0
    case Done => c.iter == cfg.activations
    case StartPush => IsOriginator(cfg, t) && c.iter < cfg.activations
    case PeriodWait => IsOriginator(cfg, t) && c.iter < cfg.activations
    case PopInputs => !IsOriginator(cfg, t) && c.iter < cfg.activations
    case Read(i) => i < |cfg.ins[t]| && c.iter < cfg.activations
    case Work => c.iter < cfg.activations
    case StartPop => IsSink(cfg, t) && c.iter < cfg.activations
    case WriteBegin(j) => j < |cfg.outs[t]| && c.iter < cfg.activations
    case WriteEnd(j) => j < |cfg.outs[t]| && c.iter < cfg.activations
    case PushOut(j) => j < |cfg.outs[t]| && c.iter < cfg.activations
  }

  /** Activations begun: start pushes of the originator, input pops of the others. */
  function Began(c: Control): nat {
    c.iter + if c.pc.Align? || c.pc.StartPush? || c.pc.PopInputs? || c.pc.Done? then 0 else 1
  }

  /** Completed pushes on the j-th out-edge. */
  function PushedOut(c: Control, j: nat): nat {
    c.iter + match c.pc
             case WriteBegin(q) => if j < q then 1 else 0
             case WriteEnd(q) => if j < q then 1 else 0
             case PushOut(q) => if j < q then 1 else 0
             case StartPop => 1
             case PeriodWait => 1
             case _ => 0
  }

  /** Completed writes of the j-th out-edge's message. */
  function WrittenOut(c: Control, j: nat): nat {
    c.iter + match c.pc
             case WriteBegin(q) => if j < q then 1 else 0
             case WriteEnd(q) => if j < q then 1 else 0
             case PushOut(q) => if j <= q then 1 else 0
             case StartPop => 1
             case PeriodWait => 1
             case _ => 0
  }

  /** Completed pops of `start_time`, for a sink. */
  function StartPops(c: Control): nat {
    c.iter + if c.pc.PeriodWait? then 1 else 0
  }

  /** Inputs already read in the current activation. */
  function ReadSoFar(cfg: Config, t: nat, c: Control): nat
    requires t < |cfg.ins|
  {
    match c.pc
    case Align => 0
    case StartPush => 0
    case PopInputs => 0
    case Done => 0
    case Read(i) => i
    case _ => |cfg.ins[t]|
  }

  // --- shared state ---

  datatype State = State(
    control: seq<Control>,
    checksum: seq<Byte>,           // per task
    received: seq<seq<seq<Byte>>>, // history: per task, the messages it has read, in order
    queues: seq<Slots<End>>,
    msgs: map<End, seq<Byte>>,
    start: Slots<int>,
    pinfo: Timespec,
    clock: int,                // nanoseconds
    response: seq<int>)

  /** What a step takes from outside: the time at which it completes, and the bytes another thread
      would see in a message buffer while it is being written. */
  datatype Env = Env(now: int, torn: seq<Byte>)

  datatype Label = Label(task: nat, env: Env)

  function InitControl(cfg: Config, t: nat): Control
    requires t < |cfg.ins|
  {
    if IsOriginator(cfg, t) then Control(0, Align) else Control(0, LoopHead(cfg, t, 0))
  }

  function Edges(cfg: Config): set<End> {
    set r, i | 0 <= r < |cfg.ins| && 0 <= i < |cfg.ins[r]| :: End(r, i)
  }

  function Init(cfg: Config): State
    requires Wired(cfg)
  {
    var n := |cfg.ins|;
    State(
      seq(n, t requires 0 <= t < n => InitControl(cfg, t)),
      seq(n, _ => NUL),
      seq(n, _ => []),
      seq(n, r requires 0 <= r < n => Empty(|cfg.ins[r]|)),
      map e | e in Edges(cfg) :: InitialMessage(cfg.sizes[e.task][e.idx]),
      Empty(1),
      cfg.t0,
      TotalNs(cfg.t0),
      seq(cfg.activations, _ => 0))
  }

  /** The types of the state: lengths, program counters, buffers present and of the right size. */
  predicate Shape(cfg: Config, s: State)
    requires Wired(cfg)
  {
    && |s.control| == |s.checksum| == |s.received| == |s.queues| == |cfg.ins|
    && (forall t :: 0 <= t < |s.control| ==> PcOk(cfg, t, s.control[t]))
    && (forall r :: 0 <= r < |s.queues| ==> |s.queues[r]| == |cfg.ins[r]|)
    && s.msgs.Keys == Edges(cfg)
    && |s.start| == 1
    && |s.response| == cfg.activations
    && Normal(s.pinfo)
  }

  /** Whether the next step of task `t` can complete now; only queue operations ever wait, and a pop waits for
      its mask test. */
  predicate Enabled(cfg: Config, s: State, t: nat)
    requires Wired(cfg) && Shape(cfg, s)
  {
    && t < |s.control|
    && match s.control[t].pc
       case Done => false
       case StartPush => s.start[0].None?
       case PopInputs => Released(s.queues[t])
       case PushOut(j) => var e := cfg.outs[t][j]; s.queues[e.task][e.idx].None?
       case StartPop => Released(s.start)
       case _ => true
  }

  /** Time does not go back, and an absolute sleep ends no earlier than asked. */
  predicate EnvOk(cfg: Config, s: State, l: Label)
    requires Wired(cfg) && Shape(cfg, s) && l.task < |s.control|
  {
    && l.env.now >= s.clock
    && match s.control[l.task].pc
       case Align => l.env.now >= TotalNs(Advance(s.pinfo, ALIGN_NSEC))
       case PeriodWait => l.env.now >= TotalNs(Advance(s.pinfo, cfg.period * NSEC_PER_USEC))
       case _ => true
  }

  // What the next step of task `t` does to each part of the state.

  function NextControl(cfg: Config, s: State, t: nat): seq<Control>
    requires Wired(cfg) && Shape(cfg, s) && t < |s.control|
  {
    s.control[t := Succ(cfg, t, s.control[t])]
  }

  function NextChecksum(cfg: Config, s: State, t: nat): seq<Byte>
    requires Wired(cfg) && Shape(cfg, s) && t < |s.control|
  {
    match s.control[t].pc
    case Read(i) => s.checksum[t := Xor(s.checksum[t], XorAll(s.msgs[End(t, i)]))]
    case _ => s.checksum
  }

  function NextReceived(cfg: Config, s: State, t: nat): seq<seq<seq<Byte>>>
    requires Wired(cfg) && Shape(cfg, s) && t < |s.control|
  {
    match s.control[t].pc
    case Read(i) => s.received[t := s.received[t] + [s.msgs[End(t, i)]]]
    case _ => s.received
  }

  function NextQueues(cfg: Config, s: State, t: nat): seq<Slots<End>>
    requires Wired(cfg) && Shape(cfg, s) && Enabled(cfg, s, t)
  {
    match s.control[t].pc
    case PopInputs => s.queues[t := Empty(|s.queues[t]|)]
    case PushOut(j) =>
      var e := cfg.outs[t][j];
      s.queues[e.task := Push(s.queues[e.task], e.idx, e)]
    case _ => s.queues
  }

  function NextMsgs(cfg: Config, s: State, t: nat, torn: seq<Byte>): map<End, seq<Byte>>
    requires Wired(cfg) && Shape(cfg, s) && t < |s.control|
  {
    match s.control[t].pc
    case WriteBegin(j) => s.msgs[cfg.outs[t][j] := torn]
    case WriteEnd(j) =>
      var e := cfg.outs[t][j];
      s.msgs[e := Fit(cfg.texts(t, s.control[t].iter), cfg.sizes[e.task][e.idx])]
    case _ => s.msgs
  }

  function NextStart(cfg: Config, s: State, t: nat): Slots<int>
    requires Wired(cfg) && Shape(cfg, s) && Enabled(cfg, s, t)
  {
    match s.control[t].pc
    case StartPush => Push(s.start, 0, Microseconds(s.pinfo))
    case StartPop => Empty(1)
    case _ => s.start
  }

  function NextPinfo(cfg: Config, s: State, t: nat): Timespec
    requires Wired(cfg) && Shape(cfg, s) && t < |s.control|
  {
    match s.control[t].pc
    case Align => Advance(s.pinfo, ALIGN_NSEC)
    case PeriodWait => Advance(s.pinfo, cfg.period * NSEC_PER_USEC)
    case _ => s.pinfo
  }

  function NextResponse(cfg: Config, s: State, t: nat, now: int): seq<int>
    requires Wired(cfg) && Shape(cfg, s) && Enabled(cfg, s, t)
  {
    match s.control[t].pc
    case StartPop => s.response[s.control[t].iter := FloorUs(now) - Values(s.start)[0]]
    case _ => s.response
  }

  function Next(cfg: Config, s: State, l: Label): State
    requires Wired(cfg) && Shape(cfg, s) && Enabled(cfg, s, l.task)
  {
    State(
      NextControl(cfg, s, l.task),
      NextChecksum(cfg, s, l.task),
      NextReceived(cfg, s, l.task),
      NextQueues(cfg, s, l.task),
      NextMsgs(cfg, s, l.task, l.env.torn),
      NextStart(cfg, s, l.task),
      NextPinfo(cfg, s, l.task),
      l.env.now,
      NextResponse(cfg, s, l.task, l.env.now))
  }

  ghost predicate Step(cfg: Config, s: State, l: Label, s': State)
    requires Wired(cfg)
  {
    Shape(cfg, s) && Enabled(cfg, s, l.task) && EnvOk(cfg, s, l) && s' == Next(cfg, s, l)
  }

  /** A run: any interleaving of the tasks' steps from the initial state. */
  ghost predicate Run(cfg: Config, states: seq<State>, labels: seq<Label>)
    requires Wired(cfg)
  {
    && |states| == |labels| + 1
    && states[0] == Init(cfg)
    && forall k {:trigger labels[k]} :: 0 <= k < |labels| ==> Step(cfg, states[k], labels[k], states[k + 1])
  }

  predicate Final(s: State) {
    forall t :: 0 <= t < |s.control| ==> s.control[t].pc.Done?
  }

  // --- the activation loop as written ---

  /** The program counters task `t` visits from `c` on. */
  function Program(cfg: Config, t: nat, c: Control): seq<Control>
    requires Wired(cfg) && t < |cfg.ins| && PcOk(cfg, t, c)
    decreases Left(cfg, t, c)
  {
    SuccIsOk(cfg, t, c);
    if c.pc.Done? then [] else [c] + Program(cfg, t, Succ(cfg, t, c))
  }

  lemma SuccPcOk(cfg: Config, t: nat, c: Control)
    requires Wired(cfg) && t < |cfg.ins| && PcOk(cfg, t, c)
    ensures PcOk(cfg, t, Succ(cfg, t, c))
  {
  }

  /** A step inside an activation leaves one step less of it, and the last one starts the next. */
  lemma OneStepLess(cfg: Config, t: nat, c: Control)
    requires Wired(cfg) && t < |cfg.ins| && PcOk(cfg, t, c) && !c.pc.Done?
    ensures var c' := Succ(cfg, t, c);
            if c'.iter == c.iter && !c.pc.Align?
            then LaterActivations(cfg, c') == LaterActivations(cfg, c)
                 && LeftInActivation(cfg, t, c'.pc) == LeftInActivation(cfg, t, c.pc) - 1
            else LeftInActivation(cfg, t, c.pc) == 1 && c'.pc == LoopHead(cfg, t, c'.iter)
  {
  }

  /** The next step is one the task can be at, and one less is left. */
  lemma SuccIsOk(cfg: Config, t: nat, c: Control)
    requires Wired(cfg) && t < |cfg.ins| && PcOk(cfg, t, c)
    ensures PcOk(cfg, t, Succ(cfg, t, c))
    ensures !c.pc.Done? ==> Left(cfg, t, Succ(cfg, t, c)) == Left(cfg, t, c) - 1
  {
    SuccPcOk(cfg, t, c);
    if !c.pc.Done? {
      OneStepLess(cfg, t, c);
    }
  }

  /** Steps from the start of the outputs to the end of an activation. */
  function OutputSteps(cfg: Config, t: nat): nat
    requires t < |cfg.ins| == |cfg.outs|
  {
    (if IsSink(cfg, t) then 1 else 3 * |cfg.outs[t]|) + EndSteps(cfg, t)
  }

  function EndSteps(cfg: Config, t: nat): nat
    requires t < |cfg.ins|
  {
    if IsOriginator(cfg, t) then 1 else 0
  }

  /** Steps of one whole activation of task `t`. */
  function ActivationSteps(cfg: Config, t: nat): nat
    requires t < |cfg.ins| == |cfg.outs|
  {
    2 + |cfg.ins[t]| + OutputSteps(cfg, t)
  }

  /** Steps left in the current activation. */
  function LeftInActivation(cfg: Config, t: nat, pc: Pc): int
    requires t < |cfg.ins| == |cfg.outs|
  {
    match pc
    case Align => 1
    case StartPush => ActivationSteps(cfg, t)
    case PopInputs => ActivationSteps(cfg, t)
    case Read(i) => |cfg.ins[t]| - i + 1 + OutputSteps(cfg, t)
    case Work => 1 + OutputSteps(cfg, t)
    case WriteBegin(j) => 3 * (|cfg.outs[t]| - j) + EndSteps(cfg, t)
    case WriteEnd(j) => 3 * (|cfg.outs[t]| - j) - 1 + EndSteps(cfg, t)
    case PushOut(j) => 3 * (|cfg.outs[t]| - j) - 2 + EndSteps(cfg, t)
    case StartPop => 1 + EndSteps(cfg, t)
    case PeriodWait => 1
    case Done => 0
  }

  lemma LeftPositive(cfg: Config, t: nat, c: Control)
    requires Wired(cfg) && t < |cfg.ins| && PcOk(cfg, t, c)
    ensures if c.pc.Done? then LeftInActivation(cfg, t, c.pc) == 0 else LeftInActivation(cfg, t, c.pc) >= 1
  {
  }

  /** Whole activations after the current one. */
  function LaterActivations(cfg: Config, c: Control): int {
    if c.pc.Align? then cfg.activations else if c.pc.Done? then 0 else cfg.activations - c.iter - 1
  }

  /** `n` times `steps`. */
  function Times(n: nat, steps: nat): nat {
    if n == 0 then 0 else steps + Times(n - 1, steps)
  }

  /** Steps left until task `t` is done. */
  function Left(cfg: Config, t: nat, c: Control): (steps: nat)
    requires Wired(cfg) && t < |cfg.ins| && PcOk(cfg, t, c)
    ensures steps == 0 <==> c.pc.Done?
  {
    LeftPositive(cfg, t, c);
    LeftInActivation(cfg, t, c.pc) + Times(LaterActivations(cfg, c), ActivationSteps(cfg, t))
  }
}
