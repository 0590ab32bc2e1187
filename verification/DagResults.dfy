/** What the program measures and prints: response times and the messages behind the checksums,
    whatever the interleaving. */
module DagResults {
  import opened Common
  import opened Messages
  import opened PeriodicTask
  import opened DagModel
  import opened DagInvariant
  import opened DagSafety
  import opened DagProgress

  // --- response times ---

  /** The entries of `response_times` still to come are untouched. */
  predicate ResponsesCount(cfg: Config, s: State, z: nat)
    requires Wired(cfg) && Shape(cfg, s) && z < |cfg.ins|
  {
    && StartPops(s.control[z]) <= cfg.activations
    && forall k :: StartPops(s.control[z]) <= k < cfg.activations ==> s.response[k] == 0
  }

  /** The k-th `start_time` pop returns the instant of activation k, and that instant has passed. */
  lemma StartPopReturnsOwnInstant(cfg: Config, s: State, o: nat, z: nat, rank: seq<nat>)
    requires Good(cfg, s, o, z, rank) && s.control[z].pc.StartPop?
    ensures s.start[0] == Some(Instant(cfg.t0, cfg.period, s.control[z].iter))
    ensures FloorUs(s.clock) >= Instant(cfg.t0, cfg.period, s.control[z].iter)
  {
    var k := s.control[z].iter;
    StartPopNeverBlocks(cfg, s, o, z, rank);
    OnlyTheSinkPops(cfg, s, o, z);
    InstantsIncrease(cfg.t0, cfg.period, k, s.control[o].iter);
    NextPeriodTotal(cfg.t0, cfg.period, k);
    MicrosecondsIsFloor(NextPeriod(cfg.t0, cfg.period, k));
  }

  lemma InstantsIncrease(t0: Timespec, period: nat, k: nat, l: nat)
    requires k <= l
    ensures TotalNs(NextPeriod(t0, period, k)) <= TotalNs(NextPeriod(t0, period, l))
  {
    NextPeriodTotal(t0, period, k);
    NextPeriodTotal(t0, period, l);
    assert k * period <= l * period;
  }

  lemma StepResponses(cfg: Config, s: State, l: Label, s': State, z: nat)
    requires Wired(cfg) && OneSink(cfg, z) && Step(cfg, s, l, s') && Shape(cfg, s') && ResponsesCount(cfg, s, z)
    ensures ResponsesCount(cfg, s', z)
  {
    BeganAfterStep(cfg, l.task, s.control[l.task]);
    if s.control[l.task].pc.StartPop? {
      assert IsSink(cfg, l.task);
    }
  }

  // --- messages received ---

  /** The messages task `t` should receive in activation `k`, one per input. */
  function Batch(cfg: Config, t: nat, k: nat): (b: seq<seq<Byte>>)
    requires Wired(cfg) && t < |cfg.ins|
    ensures |b| == |cfg.ins[t]|
  {
    seq(|cfg.ins[t]|, i requires 0 <= i < |cfg.ins[t]| => Fit(cfg.texts(cfg.ins[t][i].task, k), cfg.sizes[t][i]))
  }

  /** What task `t` should have received in the activations before `k`. */
  function ExpectedInbox(cfg: Config, t: nat, k: nat): seq<seq<Byte>>
    requires Wired(cfg) && t < |cfg.ins|
  {
    if k == 0 then [] else ExpectedInbox(cfg, t, k - 1) + Batch(cfg, t, k - 1)
  }

  /** What task `t` has received: whole batches, then the inputs read in the current activation. */
  predicate InboxCounts(cfg: Config, s: State, t: nat)
    requires Wired(cfg) && Shape(cfg, s) && t < |cfg.ins|
  {
    InboxIs(cfg, t, s.control[t], s.received[t])
  }

  predicate InboxIs(cfg: Config, t: nat, c: Control, inbox: seq<seq<Byte>>)
    requires Wired(cfg) && t < |cfg.ins|
  {
    var done := ReadSoFar(cfg, t, c);
    done <= |cfg.ins[t]| && inbox == ExpectedInbox(cfg, t, c.iter) + Batch(cfg, t, c.iter)[..done]
  }

  lemma ReadsAfterStep(cfg: Config, t: nat, c: Control)
    requires Wired(cfg) && t < |cfg.ins| && PcOk(cfg, t, c) && !c.pc.Done?
    ensures ReadSoFar(cfg, t, c) <= |cfg.ins[t]| && ReadSoFar(cfg, t, Succ(cfg, t, c)) <= |cfg.ins[t]|
    ensures var c' := Succ(cfg, t, c);
            if c'.iter == c.iter + 1
            then ReadSoFar(cfg, t, c') == 0 && ReadSoFar(cfg, t, c) == |cfg.ins[t]|
            else c'.iter == c.iter && ReadSoFar(cfg, t, c') == ReadSoFar(cfg, t, c) + if c.pc.Read? then 1 else 0
  {
  }

  lemma NextBatch(cfg: Config, t: nat, k: nat)
    requires Wired(cfg) && t < |cfg.ins|
    ensures ExpectedInbox(cfg, t, k) + Batch(cfg, t, k)[..|cfg.ins[t]|]
              == ExpectedInbox(cfg, t, k + 1) + Batch(cfg, t, k + 1)[..0]
  {
    assert Batch(cfg, t, k)[..|cfg.ins[t]|] == Batch(cfg, t, k);
  }

  lemma NextMessage(inbox: seq<seq<Byte>>, batch: seq<seq<Byte>>, i: nat)
    requires i < |batch|
    ensures inbox + batch[..i] + [batch[i]] == inbox + batch[..i + 1]
  {
  }

  /** A read appends the next message of the batch; every other step leaves the inbox as expected. */
  lemma InboxAfterStep(cfg: Config, t: nat, c: Control, inbox: seq<seq<Byte>>)
    requires Wired(cfg) && t < |cfg.ins| && PcOk(cfg, t, c) && !c.pc.Done? && InboxIs(cfg, t, c, inbox)
    ensures InboxIs(cfg, t, Succ(cfg, t, c), if c.pc.Read? then inbox + [Batch(cfg, t, c.iter)[c.pc.i]] else inbox)
  {
    ReadsAfterStep(cfg, t, c);
    if Succ(cfg, t, c).iter == c.iter + 1 {
      NextBatch(cfg, t, c.iter);
    } else if c.pc.Read? {
      NextMessage(ExpectedInbox(cfg, t, c.iter), Batch(cfg, t, c.iter), c.pc.i);
    }
  }

  lemma StepInbox(cfg: Config, s: State, l: Label, s': State, o: nat, z: nat, rank: seq<nat>, t: nat)
    requires Good(cfg, s, o, z, rank) && t < |cfg.ins| && InboxCounts(cfg, s, t)
    requires Step(cfg, s, l, s') && Shape(cfg, s')
    ensures InboxCounts(cfg, s', t)
  {
    if t == l.task {
      InboxAfterStep(cfg, t, s.control[t], s.received[t]);
      if s.control[t].pc.Read? {
        UnlockedReadsAreSafe(cfg, s, o, z, rank, t, s.control[t].pc.i);
      }
    }
  }

  /** Every checksum is that of the messages read. */
  predicate ChecksumsMatch(cfg: Config, s: State)
    requires Wired(cfg) && Shape(cfg, s)
  {
    forall t :: 0 <= t < |cfg.ins| ==> s.checksum[t] == Checksum(s.received[t])
  }

  lemma StepChecksums(cfg: Config, s: State, l: Label, s': State)
    requires Wired(cfg) && Step(cfg, s, l, s') && Shape(cfg, s') && ChecksumsMatch(cfg, s)
    ensures ChecksumsMatch(cfg, s')
  {
    forall t: nat | t < |cfg.ins| ensures s'.checksum[t] == Checksum(s'.received[t]) {
      ChecksumAfterStep(cfg, s, l.task, t);
    }
  }

  lemma ChecksumAfterStep(cfg: Config, s: State, u: nat, t: nat)
    requires Wired(cfg) && Shape(cfg, s) && u < |cfg.ins| && t < |cfg.ins|
    requires s.checksum[t] == Checksum(s.received[t])
    ensures |NextChecksum(cfg, s, u)| == |NextReceived(cfg, s, u)| == |cfg.ins|
    ensures NextChecksum(cfg, s, u)[t] == Checksum(NextReceived(cfg, s, u)[t])
  {
    match s.control[u].pc {
      case Read(i) => ChecksumAppend(s.received[u], s.msgs[End(u, i)]);
      case _ =>
    }
  }

  // --- all of it, in every state of every run ---

  ghost predicate Accounted(cfg: Config, s: State, o: nat, z: nat, rank: seq<nat>) {
    && Good(cfg, s, o, z, rank)
    && ResponsesCount(cfg, s, z)
    && ChecksumsMatch(cfg, s)
    && forall t: nat :: t < |cfg.ins| ==> InboxCounts(cfg, s, t)
  }

  lemma InitAccounted(cfg: Config, o: nat, z: nat, rank: seq<nat>)
    requires Wired(cfg) && OneOriginator(cfg, o) && OneSink(cfg, z) && Ranks(cfg, rank)
    ensures Accounted(cfg, Init(cfg), o, z, rank)
  {
    InitInv(cfg, o);
  }

  lemma StepAccounted(cfg: Config, s: State, l: Label, s': State, o: nat, z: nat, rank: seq<nat>)
    requires Accounted(cfg, s, o, z, rank) && Step(cfg, s, l, s')
    ensures Accounted(cfg, s', o, z, rank)
  {
    StepInv(cfg, s, l, s', o);
    StepResponses(cfg, s, l, s', z);
    StepChecksums(cfg, s, l, s');
    forall t: nat | t < |cfg.ins| ensures InboxCounts(cfg, s', t) {
      StepInbox(cfg, s, l, s', o, z, rank, t);
    }
  }

  lemma RunStepAccounted(cfg: Config, states: seq<State>, labels: seq<Label>, k: nat,
                         o: nat, z: nat, rank: seq<nat>)
    requires Wired(cfg) && Run(cfg, states, labels) && k < |labels| && Accounted(cfg, states[k], o, z, rank)
    ensures Accounted(cfg, states[k + 1], o, z, rank)
  {
    StepAccounted(cfg, states[k], labels[k], states[k + 1], o, z, rank);
  }

  lemma {:induction false} RunAccounted(cfg: Config, states: seq<State>, labels: seq<Label>, k: nat,
                                        o: nat, z: nat, rank: seq<nat>)
    requires Wired(cfg) && OneOriginator(cfg, o) && OneSink(cfg, z) && Ranks(cfg, rank)
    requires Run(cfg, states, labels) && k < |states|
    ensures Accounted(cfg, states[k], o, z, rank)
  {
    if k == 0 {
      InitAccounted(cfg, o, z, rank);
    } else {
      RunAccounted(cfg, states, labels, k - 1, o, z, rank);
      RunStepAccounted(cfg, states, labels, k - 1, o, z, rank);
    }
  }

  // --- whole runs ---

  /** What holds in every state: bounded skew; nobody ahead of a task that still owes a delivery; closed write
      windows and exact contents for every buffer being read; no waiting in an edge push or in the sink's pop,
      which returns the instant of its own activation; and an empty DAG whenever the next start push can
      complete. */
  ghost predicate Safe(cfg: Config, s: State)
    requires Wired(cfg) && Shape(cfg, s)
  {
    && (forall t: nat, u: nat :: t < |cfg.ins| && u < |cfg.ins| ==> InStep(cfg, s, t, u))
    && (forall r: nat, i: nat ::
          r < |cfg.ins| && i < |cfg.ins[r]| && s.control[r].pc.Read? ==> SafeToRead(cfg, s, r, i))
    && (forall t: nat :: t < |cfg.ins| ==> NeverBlocked(cfg, s, t))
    && (forall o: nat :: o < |cfg.ins| && s.control[o].pc.StartPush? && Enabled(cfg, s, o) ==> AtRest(cfg, s, o))
  }

  predicate InStep(cfg: Config, s: State, t: nat, u: nat)
    requires Wired(cfg) && Shape(cfg, s) && t < |cfg.ins| && u < |cfg.ins|
  {
    && Began(s.control[t]) <= Began(s.control[u]) + 1
    && (!s.control[t].pc.PeriodWait? ==> Began(s.control[u]) <= s.control[t].iter + 1)
  }

  predicate NeverBlocked(cfg: Config, s: State, t: nat)
    requires Wired(cfg) && Shape(cfg, s) && t < |cfg.ins|
  {
    && (s.control[t].pc.PushOut? ==> Enabled(cfg, s, t))
    && (s.control[t].pc.StartPop? ==>
          Enabled(cfg, s, t) && s.start[0] == Some(Instant(cfg.t0, cfg.period, s.control[t].iter)))
  }

  /** Before the originator's next start push everybody else is back at the input pop and nothing is on its way. */
  ghost predicate AtRest(cfg: Config, s: State, o: nat)
    requires Wired(cfg) && Shape(cfg, s) && o < |cfg.ins|
  {
    && s.start[0].None?
    && (forall t :: 0 <= t < |cfg.ins| && t != o ==> s.control[t] == Control(s.control[o].iter, PopInputs))
    && forall r, i :: 0 <= r < |cfg.ins| && 0 <= i < |cfg.ins[r]| ==> s.queues[r][i].None?
  }

  predicate SafeToRead(cfg: Config, s: State, r: nat, i: nat)
    requires Wired(cfg) && Shape(cfg, s) && r < |cfg.ins| && i < |cfg.ins[r]|
  {
    var e, size := cfg.ins[r][i], cfg.sizes[r][i];
    && !InWriteWindow(s.control[e.task], e.idx)
    && End(r, i) in s.msgs
    && s.msgs[End(r, i)] == Fit(cfg.texts(e.task, s.control[r].iter), size)
    && WellFormed(s.msgs[End(r, i)], size)
  }

  lemma TasksInStep(cfg: Config, s: State, o: nat, z: nat, rank: seq<nat>, t: nat, u: nat)
    requires Good(cfg, s, o, z, rank) && t < |cfg.ins| && u < |cfg.ins|
    ensures InStep(cfg, s, t, u)
  {
    BoundedSkew(cfg, s, o, z, rank, t, u);
    if !s.control[t].pc.PeriodWait? {
      NobodyOvertakes(cfg, s, o, z, rank, t, u);
    }
  }

  lemma TaskNeverBlocked(cfg: Config, s: State, o: nat, z: nat, rank: seq<nat>, t: nat)
    requires Good(cfg, s, o, z, rank) && ShiftsDefined(cfg) && t < |cfg.ins|
    ensures NeverBlocked(cfg, s, t)
  {
    if s.control[t].pc.PushOut? {
      EdgePushNeverBlocks(cfg, s, o, z, rank, t);
    } else if s.control[t].pc.StartPop? {
      assert t == z;
      StartPopNeverBlocks(cfg, s, o, z, rank);
      StartPopReturnsOwnInstant(cfg, s, o, z, rank);
    }
  }

  lemma GoodIsSafe(cfg: Config, s: State, o: nat, z: nat, rank: seq<nat>)
    requires Good(cfg, s, o, z, rank) && ShiftsDefined(cfg)
    ensures Safe(cfg, s)
  {
    forall t: nat, u: nat | t < |cfg.ins| && u < |cfg.ins| ensures InStep(cfg, s, t, u) {
      TasksInStep(cfg, s, o, z, rank, t, u);
    }
    forall r: nat, i: nat | r < |cfg.ins| && i < |cfg.ins[r]| && s.control[r].pc.Read?
      ensures SafeToRead(cfg, s, r, i)
    {
      UnlockedReadsAreSafe(cfg, s, o, z, rank, r, i);
    }
    forall t: nat | t < |cfg.ins| ensures NeverBlocked(cfg, s, t) {
      TaskNeverBlocked(cfg, s, o, z, rank, t);
    }
    forall u: nat | u < |cfg.ins| && s.control[u].pc.StartPush? && Enabled(cfg, s, u) ensures AtRest(cfg, s, u) {
      assert u == o;
      StartPushMeetsAnEmptyDag(cfg, s, o, z, rank);
    }
  }

  /** Every state of every interleaving is safe. */
  lemma EveryStateIsSafe(cfg: Config, states: seq<State>, labels: seq<Label>, k: nat, o: nat, z: nat, rank: seq<nat>)
    requires Wired(cfg) && ShiftsDefined(cfg) && OneOriginator(cfg, o) && OneSink(cfg, z) && Ranks(cfg, rank)
    requires Run(cfg, states, labels) && k < |states|
    ensures Shape(cfg, states[k]) && Safe(cfg, states[k])
  {
    RunInv(cfg, states, labels, k, o);
    GoodIsSafe(cfg, states[k], o, z, rank);
  }

  lemma InboxWhenDone(cfg: Config, s: State, t: nat)
    requires Wired(cfg) && Shape(cfg, s) && t < |cfg.ins| && s.control[t].pc.Done? && InboxCounts(cfg, s, t)
    ensures s.received[t] == ExpectedInbox(cfg, t, cfg.activations)
  {
    var c := s.control[t];
    assert c.iter == cfg.activations && ReadSoFar(cfg, t, c) == 0;
  }

  /** In every complete run, in whatever order the tasks ran, each task has received exactly the messages
      of all activations, input by input: the checksum it prints does not depend on the interleaving. */
  lemma EveryCompleteRunPrintsTheSame(cfg: Config, states: seq<State>, labels: seq<Label>,
                                      o: nat, z: nat, rank: seq<nat>, t: nat)
    requires Wired(cfg) && OneOriginator(cfg, o) && OneSink(cfg, z) && Ranks(cfg, rank)
    requires Run(cfg, states, labels) && Final(states[|labels|]) && t < |cfg.ins|
    ensures |states[|labels|].received| == |cfg.ins|
    ensures states[|labels|].received[t] == ExpectedInbox(cfg, t, cfg.activations)
    ensures |states[|labels|].checksum| == |cfg.ins|
    ensures states[|labels|].checksum[t] == Checksum(ExpectedInbox(cfg, t, cfg.activations))
  {
    RunAccounted(cfg, states, labels, |labels|, o, z, rank);
    InboxWhenDone(cfg, states[|labels|], t);
  }

  /** Every complete run leaves every queue empty. */
  lemma EveryCompleteRunEndsEmpty(cfg: Config, states: seq<State>, labels: seq<Label>, o: nat, z: nat, rank: seq<nat>)
    requires Wired(cfg) && OneOriginator(cfg, o) && OneSink(cfg, z) && Ranks(cfg, rank)
    requires Run(cfg, states, labels) && Final(states[|labels|])
    ensures Shape(cfg, states[|labels|]) && states[|labels|].start[0].None?
    ensures forall r, i :: 0 <= r < |cfg.ins| && 0 <= i < |cfg.ins[r]| ==> states[|labels|].queues[r][i].None?
  {
    RunInv(cfg, states, labels, |labels|, o);
    FinalStateIsEmpty(cfg, states[|labels|], o, z, rank);
  }

  // --- response times, step by step ---

  /** Step `m` of the run is the sink's `start_time` pop of activation `k`, after which it reads the clock. */
  predicate PopsStart(states: seq<State>, labels: seq<Label>, z: nat, k: nat, m: nat) {
    && m < |labels| && m < |states| && z < |states[m].control|
    && labels[m].task == z && states[m].control[z] == Control(k, StartPop)
  }

  /** The theoretical start of activation `k`, in microseconds, from the two fields of the initial reading. */
  function StartOf(cfg: Config, k: nat): int {
    cfg.t0.sec * 1_000_000 + cfg.t0.nsec / 1_000 + 100_000 + k * cfg.period
  }

  /** What the entry written by step `m` must be: the clock reading of that step, in whole microseconds, against
      the theoretical start. */
  predicate Measures(cfg: Config, labels: seq<Label>, k: nat, m: nat, response: int)
    requires m < |labels|
  {
    response == labels[m].env.now / 1_000 - StartOf(cfg, k) >= 0
  }

  lemma PopMeasures(cfg: Config, s: State, l: Label, s': State, o: nat, z: nat, rank: seq<nat>)
    requires Good(cfg, s, o, z, rank) && Step(cfg, s, l, s') && Shape(cfg, s')
    requires l.task == z && s.control[z].pc.StartPop?
    ensures s.control[z].iter < cfg.activations
    ensures s'.response[s.control[z].iter] == l.env.now / 1_000 - StartOf(cfg, s.control[z].iter) >= 0
  {
    StartPopReturnsOwnInstant(cfg, s, o, z, rank);
    InstantsDoNotDrift(cfg.t0, cfg.period, s.control[z].iter);
  }

  lemma RunPopMeasures(cfg: Config, states: seq<State>, labels: seq<Label>, k: nat, m: nat,
                       o: nat, z: nat, rank: seq<nat>)
    requires Wired(cfg) && OneOriginator(cfg, o) && OneSink(cfg, z) && Ranks(cfg, rank)
    requires Run(cfg, states, labels) && PopsStart(states, labels, z, k, m)
    ensures Shape(cfg, states[m + 1]) && k < cfg.activations
    ensures Measures(cfg, labels, k, m, states[m + 1].response[k])
  {
    RunInv(cfg, states, labels, m, o);
    RunStepCounts(cfg, states, labels, m);
    var l := labels[m];
    PopMeasures(cfg, states[m], l, states[m + 1], o, z, rank);
  }

  /** No other step touches that entry. */
  lemma OtherStepsKeep(cfg: Config, s: State, l: Label, s': State, z: nat, k: nat)
    requires Wired(cfg) && OneSink(cfg, z) && Step(cfg, s, l, s') && Shape(cfg, s') && k < cfg.activations
    requires !(l.task == z && s.control[z] == Control(k, StartPop))
    ensures s'.response[k] == s.response[k]
  {
    BeganAfterStep(cfg, l.task, s.control[l.task]);
    if s.control[l.task].pc.StartPop? {
      assert IsSink(cfg, l.task);
    }
  }

  lemma PopsOnlyByPopping(cfg: Config, s: State, l: Label, s': State, z: nat)
    requires Wired(cfg) && OneSink(cfg, z) && Step(cfg, s, l, s') && Shape(cfg, s')
    ensures StartPops(s'.control[z]) == StartPops(s.control[z])
              + if l.task == z && s.control[z].pc.StartPop? then 1 else 0
    ensures s.control[z].pc.StartPop? ==> StartPops(s.control[z]) == s.control[z].iter
  {
    BeganAfterStep(cfg, l.task, s.control[l.task]);
  }

  /** One step of a run, as far as the sink's pops and the response times go. */
  ghost predicate Tracked(cfg: Config, states: seq<State>, labels: seq<Label>, z: nat, m: nat)
    requires m < |labels| && |states| == |labels| + 1
  {
    var s, s' := states[m], states[m + 1];
    && z < |s.control| && z < |s'.control| && |s.response| == |s'.response| == cfg.activations
    && StartPops(s'.control[z])
         == StartPops(s.control[z]) + (if labels[m].task == z && s.control[z].pc.StartPop? then 1 else 0)
    && (s.control[z].pc.StartPop? ==> StartPops(s.control[z]) == s.control[z].iter)
    && forall k: nat :: k < cfg.activations ==>
         if PopsStart(states, labels, z, k, m) then Measures(cfg, labels, k, m, s'.response[k])
         else s'.response[k] == s.response[k]
  }

  ghost predicate AllTracked(cfg: Config, states: seq<State>, labels: seq<Label>, z: nat) {
    && |states| == |labels| + 1 && z < |states[0].control| && StartPops(states[0].control[z]) == 0
    && |states[0].response| == cfg.activations
    && forall m: nat :: m < |labels| ==> Tracked(cfg, states, labels, z, m)
  }

  lemma StepTracked(cfg: Config, states: seq<State>, labels: seq<Label>, m: nat, o: nat, z: nat, rank: seq<nat>)
    requires Wired(cfg) && OneOriginator(cfg, o) && OneSink(cfg, z) && Ranks(cfg, rank)
    requires Run(cfg, states, labels) && m < |labels|
    ensures Tracked(cfg, states, labels, z, m)
  {
    RunStepCounts(cfg, states, labels, m);
    var l := labels[m];
    PopsOnlyByPopping(cfg, states[m], l, states[m + 1], z);
    forall k: nat | k < cfg.activations
      ensures if PopsStart(states, labels, z, k, m) then Measures(cfg, labels, k, m, states[m + 1].response[k])
              else states[m + 1].response[k] == states[m].response[k]
    {
      if PopsStart(states, labels, z, k, m) {
        RunPopMeasures(cfg, states, labels, k, m, o, z, rank);
      } else {
        OtherStepsKeep(cfg, states[m], l, states[m + 1], z, k);
      }
    }
  }

  lemma RunTracked(cfg: Config, states: seq<State>, labels: seq<Label>, o: nat, z: nat, rank: seq<nat>)
    requires Wired(cfg) && OneOriginator(cfg, o) && OneSink(cfg, z) && Ranks(cfg, rank) && Run(cfg, states, labels)
    ensures AllTracked(cfg, states, labels, z)
  {
    InitShape(cfg);
    forall m: nat | m < |labels| ensures Tracked(cfg, states, labels, z, m) {
      StepTracked(cfg, states, labels, m, o, z, rank);
    }
  }

  /** Every entry written so far was written by the pop of its own activation. */
  lemma {:induction false} ResponseRecorded(cfg: Config, states: seq<State>, labels: seq<Label>, n: nat, k: nat, z: nat)
    returns (m: nat)
    requires AllTracked(cfg, states, labels, z) && n <= |labels| && k < cfg.activations
    requires z < |states[n].control| && k < StartPops(states[n].control[z])
    ensures |states[n].response| == cfg.activations && m < n && PopsStart(states, labels, z, k, m)
    ensures Measures(cfg, labels, k, m, states[n].response[k])
  {
    assert Tracked(cfg, states, labels, z, n - 1);
    if PopsStart(states, labels, z, k, n - 1) {
      m := n - 1;
    } else {
      m := ResponseRecorded(cfg, states, labels, n - 1, k, z);
    }
  }

  lemma {:induction false} PopsGrow(cfg: Config, states: seq<State>, labels: seq<Label>, m: nat, n: nat, z: nat)
    requires AllTracked(cfg, states, labels, z) && m <= n <= |labels| && z < |states[m].control|
    ensures z < |states[n].control| && StartPops(states[m].control[z]) <= StartPops(states[n].control[z])
  {
    if m < n {
      PopsGrow(cfg, states, labels, m, n - 1, z);
      assert Tracked(cfg, states, labels, z, n - 1);
    }
  }

  /** No activation is popped twice. */
  lemma PopsOnce(cfg: Config, states: seq<State>, labels: seq<Label>, z: nat, k: nat, m: nat, n: nat)
    requires AllTracked(cfg, states, labels, z)
    requires PopsStart(states, labels, z, k, m) && PopsStart(states, labels, z, k, n)
    ensures m == n
  {
    if m < n {
      PopsApart(cfg, states, labels, z, k, m, n);
    } else if n < m {
      PopsApart(cfg, states, labels, z, k, n, m);
    }
  }

  lemma PopsApart(cfg: Config, states: seq<State>, labels: seq<Label>, z: nat, k: nat, m: nat, n: nat)
    requires AllTracked(cfg, states, labels, z) && m < n < |labels| && PopsStart(states, labels, z, k, m)
    ensures !PopsStart(states, labels, z, k, n)
  {
    assert Tracked(cfg, states, labels, z, m);
    PopsGrow(cfg, states, labels, m + 1, n, z);
    assert Tracked(cfg, states, labels, z, n);
  }

  /** Of every complete run: the response time of activation `k` is written by exactly one step, the sink's pop of
      that activation, and is the clock reading of that step against the theoretical start. */
  ghost predicate Timed(cfg: Config, states: seq<State>, labels: seq<Label>, z: nat, k: nat) {
    && |states| == |labels| + 1 && k < |states[|labels|].response|
    && exists m :: IsPopOf(states, labels, z, k, m) && Measures(cfg, labels, k, m, states[|labels|].response[k])
  }

  ghost predicate IsPopOf(states: seq<State>, labels: seq<Label>, z: nat, k: nat, m: nat) {
    PopsStart(states, labels, z, k, m) && forall n: nat :: PopsStart(states, labels, z, k, n) ==> n == m
  }

  /** Every complete run has written each response time exactly once: completion k measured against the
      theoretical start of activation k, which has not drifted, and never negative. */
  lemma ResponseTimesPairUp(cfg: Config, states: seq<State>, labels: seq<Label>, o: nat, z: nat, rank: seq<nat>)
    requires Wired(cfg) && OneOriginator(cfg, o) && OneSink(cfg, z) && Ranks(cfg, rank)
    requires Run(cfg, states, labels) && Final(states[|labels|])
    ensures |states[|labels|].response| == cfg.activations
    ensures forall k: nat :: k < cfg.activations ==> Timed(cfg, states, labels, z, k)
  {
    RunLength(cfg, states, labels, |labels|);
    RunTracked(cfg, states, labels, o, z, rank);
    assert states[|labels|].control[z].pc.Done?;
    TrackedIsTimed(cfg, states, labels, z);
  }

  lemma TrackedIsTimed(cfg: Config, states: seq<State>, labels: seq<Label>, z: nat)
    requires AllTracked(cfg, states, labels, z)
    requires z < |states[|labels|].control| && StartPops(states[|labels|].control[z]) == cfg.activations
    ensures forall k: nat :: k < cfg.activations ==> Timed(cfg, states, labels, z, k)
  {
    forall k: nat | k < cfg.activations ensures Timed(cfg, states, labels, z, k) {
      var m := ResponseRecorded(cfg, states, labels, |labels|, k, z);
      forall n: nat | PopsStart(states, labels, z, k, n) ensures n == m {
        PopsOnce(cfg, states, labels, z, k, m, n);
      }
      assert IsPopOf(states, labels, z, k, m);
    }
  }
}
