/** The whole program: from an adjacency matrix, through the constructor, to every run of the tasks. */
module Dag {
  import opened AtomicQueue
  import opened DagModel
  import opened DagInvariant
  import opened DagSafety
  import opened DagProgress
  import opened DagRace
  import opened DagResults
  import opened Graph
  import opened Messages
  import opened PeriodicTask
  import opened Wiring

  datatype Input = Input(adj: Matrix, names: seq<seq<Byte>>, activations: nat, period: nat, t0: Timespec)

  ghost predicate WellFormed(input: Input) {
    && |input.adj| == |input.names| >= 1 && Square(input.adj) && Acyclic(input.adj)
    && (forall s, r :: 0 <= s < |input.adj| && 0 <= r < |input.adj| ==> input.adj[s][r] >= 0)
    && Normal(input.t0)
    && forall t :: 0 <= t < |input.names| ==> NulFree(input.names[t])
  }

  function Tasks(input: Input): Config
    requires Square(input.adj) && |input.names| == |input.adj|
  {
    ConfigOf(input.adj, input.names, input.activations, input.period, input.t0)
  }

  /** What the constructor checks, twice. */
  ghost predicate Accepted(input: Input)
    requires Square(input.adj)
  {
    ExactlyOne(Originators(input.adj))
  }

  /** The inputs of task `t`: positive entries of its column, off the diagonal. */
  function Inputs(adj: Matrix, t: nat): nat
    requires Square(adj) && t < |adj|
  {
    RealInputs(adj, t, |adj|)
  }

  predicate InputsAtMost(adj: Matrix, bound: nat)
    requires Square(adj)
  {
    forall t :: 0 <= t < |adj| ==> Inputs(adj, t) <= bound
  }

  /** `push` shifts an `int` by push indices of 31 or less. */
  predicate ShiftsDefined(adj: Matrix)
    requires Square(adj)
  {
    InputsAtMost(adj, 32)
  }

  lemma InputsLength(input: Input, t: nat)
    requires Square(input.adj) && |input.names| == |input.adj| && t < |input.adj|
    ensures |Tasks(input).ins[t]| == Inputs(input.adj, t)
  {
    InLength(input.adj, |input.adj|, 0, t);
  }

  lemma NarrowIffInputs(input: Input)
    requires Square(input.adj) && |input.names| == |input.adj|
    ensures Narrow(Tasks(input)) <==> InputsAtMost(input.adj, EXACT_SLOTS)
  {
    var cfg := Tasks(input);
    forall t: nat | t < |input.adj| ensures |cfg.ins[t]| == Inputs(input.adj, t) {
      InputsLength(input, t);
    }
  }

  lemma ShiftsStayDefined(input: Input)
    requires WellFormed(input) && ShiftsDefined(input.adj)
    ensures Wired(Tasks(input)) && DagModel.ShiftsDefined(Tasks(input))
  {
    var rank := InputIsWired(input);
    var cfg := Tasks(input);
    forall s, j | 0 <= s < |cfg.outs| && 0 <= j < |cfg.outs[s]| ensures cfg.outs[s][j].idx <= 31 {
      var r := cfg.outs[s][j].task;
      InputsLength(input, r);
      assert Inputs(input.adj, r) <= 32;
    }
  }

  /** Task by task, whether the matrix gives it no outputs. */
  function Sinks(adj: Matrix): seq<bool>
    requires Square(adj)
  {
    seq(|adj|, t requires 0 <= t < |adj| => NoOutputs(adj, t))
  }

  lemma InputIsWired(input: Input) returns (rank: seq<nat>)
    requires WellFormed(input)
    ensures Wired(Tasks(input)) && Ranks(Tasks(input), rank)
  {
    rank := AcyclicHasOrder(input.adj);
    AcyclicHasNoSelfLoop(input.adj);
    ConfigIsWired(input.adj, input.names, input.activations, input.period, input.t0);
    ConfigRanks(input.adj, input.names, input.activations, input.period, input.t0, rank);
  }

  /** The queue a task pops has one slot per input, as `pop` asserts and the step model assumes. */
  lemma QueuesFit(input: Input, t: nat)
    requires WellFormed(input) && t < |input.adj|
    ensures Tasks(input).ins[t] != [] ==> |Tasks(input).ins[t]| == QueueSize(input.adj, t)
  {
    AcyclicHasNoSelfLoop(input.adj);
    if Tasks(input).ins[t] != [] {
      QueueFitsIff(input.adj, t);
    }
  }

  lemma AcceptedHasOneOriginator(input: Input) returns (o: nat)
    requires WellFormed(input) && Accepted(input)
    ensures OneOriginator(Tasks(input), o)
  {
    var originators := Originators(input.adj);
    o :| OnlyAt(originators, o);
    var cfg := Tasks(input);
    forall t: nat | t < |input.adj| ensures IsOriginator(cfg, t) <==> t == o {
      assert originators[t] <==> t == o;
    }
  }

  lemma OneSinkIffMatrix(input: Input, z: nat)
    requires WellFormed(input)
    ensures OneSink(Tasks(input), z) <==> OnlyAt(Sinks(input.adj), z)
  {
    AcyclicHasNoSelfLoop(input.adj);
    forall t: nat | t < |input.adj| ensures IsSink(Tasks(input), t) <==> Sinks(input.adj)[t] {
      EmptyListsMatchMatrix(input.adj, t);
    }
  }

  /** On every accepted acyclic input whose shifts are defined the program can complete iff exactly one task
      has no outputs and no task has more than 31 inputs. */
  lemma AcceptedCompletesIff(input: Input)
    requires WellFormed(input) && Accepted(input) && ShiftsDefined(input.adj) && input.activations >= 1
    ensures Wired(Tasks(input))
    ensures CanComplete(Tasks(input)) <==>
              ExactlyOne(Sinks(input.adj)) && InputsAtMost(input.adj, EXACT_SLOTS)
  {
    var cfg := Tasks(input);
    var rank := InputIsWired(input);
    var o := AcceptedHasOneOriginator(input);
    ShiftsStayDefined(input);
    CompletesIff(cfg, o, rank);
    NarrowIffInputs(input);
    OneSinkIffExactlyOne(input);
  }

  lemma OneSinkIffExactlyOne(input: Input)
    requires WellFormed(input)
    ensures (exists z: nat :: OneSink(Tasks(input), z)) <==> ExactlyOne(Sinks(input.adj))
  {
    forall z: nat ensures OneSink(Tasks(input), z) <==> OnlyAt(Sinks(input.adj), z) {
      OneSinkIffMatrix(input, z);
    }
  }

  /** One task feeding two others, with messages of any size. */
  predicate FanOut(adj: Matrix) {
    && Square(adj) && |adj| == 3
    && forall s, r :: 0 <= s < 3 && 0 <= r < 3 ==> (adj[s][r] >= 1 <==> s == 0 && r > 0)
  }

  lemma FanOutIsAcyclic(adj: Matrix)
    requires FanOut(adj)
    ensures Acyclic(adj)
  {
    assert Topological(adj, [0, 1, 1]);
    AcyclicIffOrdered(adj);
  }

  lemma FanOutChecks(adj: Matrix)
    requires FanOut(adj)
    ensures ExactlyOne(Originators(adj)) && !ExactlyOne(Sinks(adj))
  {
    forall t: nat | t < 3 ensures Originators(adj)[t] <==> t == 0 {
      EmptyListsMatchMatrix(adj, t);
      assert t > 0 ==> adj[0][t] >= 1;
    }
    assert OnlyAt(Originators(adj), 0);
    assert Sinks(adj)[1] && Sinks(adj)[2];
  }

  lemma FanOutShifts(adj: Matrix)
    requires FanOut(adj)
    ensures ShiftsDefined(adj)
  {
    forall t: nat | t < 3 ensures Inputs(adj, t) <= 3 {
      RealAtMostRows(adj, t, 3);
    }
  }

  lemma {:induction false} RealAtMostRows(adj: Matrix, t: nat, rows: nat)
    requires Square(adj) && t < |adj| && rows <= |adj|
    ensures RealInputs(adj, t, rows) <= rows
  {
    if rows > 0 {
      RealAtMostRows(adj, t, rows - 1);
    }
  }

  /** A fan-out is accepted, because both checks count originators, and can never complete. */
  lemma AcceptedYetStuck(input: Input)
    requires FanOut(input.adj) && |input.names| == 3 && Normal(input.t0) && input.activations >= 1
    requires forall s, r :: 0 <= s < 3 && 0 <= r < 3 ==> input.adj[s][r] >= 0
    requires forall t :: 0 <= t < |input.names| ==> NulFree(input.names[t])
    ensures WellFormed(input) && Accepted(input)
    ensures Wired(Tasks(input)) && !CanComplete(Tasks(input))
  {
    FanOutIsAcyclic(input.adj);
    FanOutChecks(input.adj);
    var rank := InputIsWired(input);
    var o := AcceptedHasOneOriginator(input);
    FanOutShifts(input.adj);
    ShiftsStayDefined(input);
    CompletesIff(Tasks(input), o, rank);
    OneSinkIffExactlyOne(input);
  }

  // --- a task with 32 inputs ---

  /** Task 0 feeds tasks 1 to `width`, which all feed the last one. */
  predicate Diamond(adj: Matrix, width: nat) {
    && Square(adj) && |adj| == width + 2
    && forall s, r :: 0 <= s < |adj| && 0 <= r < |adj| ==> (adj[s][r] >= 1 <==> DiamondEdge(s, r, width))
  }

  predicate DiamondEdge(s: nat, r: nat, width: nat) {
    (s == 0 && 1 <= r <= width) || (1 <= s <= width && r == width + 1)
  }

  lemma DiamondIsAcyclic(adj: Matrix, width: nat)
    requires Diamond(adj, width)
    ensures Acyclic(adj)
  {
    var rank: seq<nat> := seq(width + 2, t => if t == 0 then 0 else if t <= width then 1 else 2);
    assert Topological(adj, rank);
    AcyclicIffOrdered(adj);
  }

  lemma DiamondChecks(adj: Matrix, width: nat)
    requires Diamond(adj, width) && width >= 1
    ensures ExactlyOne(Originators(adj)) && ExactlyOne(Sinks(adj))
  {
    DiamondIsAcyclic(adj, width);
    AcyclicHasNoSelfLoop(adj);
    forall t: nat | t < |adj| ensures (Originators(adj)[t] <==> t == 0) && (Sinks(adj)[t] <==> t == width + 1) {
      EmptyListsMatchMatrix(adj, t);
      var sender, receiver := if t <= width then 0 else 1, if t == 0 then 1 else width + 1;
      assert t > 0 ==> adj[sender][t] >= 1;
      assert t <= width ==> adj[t][receiver] >= 1;
    }
    assert OnlyAt(Originators(adj), 0) && OnlyAt(Sinks(adj), width + 1);
  }

  lemma {:induction false} DiamondInputs(adj: Matrix, width: nat, t: nat, rows: nat)
    requires Diamond(adj, width) && t < |adj| && rows <= |adj|
    ensures RealInputs(adj, t, rows) ==
              if rows == 0 || t == 0 then 0 else if t <= width then 1
              else if rows <= width + 1 then rows - 1 else width
  {
    if rows > 0 {
      DiamondInputs(adj, width, t, rows - 1);
      assert adj[rows - 1][t] >= 1 <==> DiamondEdge(rows - 1, t, width);
    }
  }

  /** A diamond of 32 has one originator and one sink and no undefined shift, is accepted, and can never
      complete: the last task waits for a mask it cannot get. */
  lemma WideAcceptedYetStuck(input: Input)
    requires Diamond(input.adj, 32) && |input.names| == 34 && Normal(input.t0) && input.activations >= 1
    requires forall s, r :: 0 <= s < 34 && 0 <= r < 34 ==> input.adj[s][r] >= 0
    requires forall t :: 0 <= t < |input.names| ==> NulFree(input.names[t])
    ensures WellFormed(input) && Accepted(input) && ExactlyOne(Sinks(input.adj)) && ShiftsDefined(input.adj)
    ensures Wired(Tasks(input)) && !CanComplete(Tasks(input))
  {
    DiamondIsAcyclic(input.adj, 32);
    DiamondChecks(input.adj, 32);
    forall t: nat | t < 34 ensures Inputs(input.adj, t) == if t == 0 then 0 else if t <= 32 then 1 else 32 {
      DiamondInputs(input.adj, 32, t, 34);
    }
    assert Inputs(input.adj, 33) == 32;
    AcceptedCompletesIff(input);
  }

  // --- every run ---

  lemma FinalControls(cfg: Config, s: State)
    requires Wired(cfg) && Shape(cfg, s)
    ensures Final(s) ==> forall t :: 0 <= t < |cfg.ins| ==> s.control[t] == Control(cfg.activations, Done)
  {
  }

  /** On every accepted acyclic input with one sink and at most 31 inputs to a task, every run is bounded by the
      total work of the tasks and, if it cannot be extended, has completed. */
  lemma EveryMaximalRunIsComplete(input: Input, states: seq<State>, labels: seq<Label>)
    requires WellFormed(input) && Accepted(input) && ExactlyOne(Sinks(input.adj))
    requires InputsAtMost(input.adj, EXACT_SLOTS)
    requires Wired(Tasks(input)) && Run(Tasks(input), states, labels)
    ensures Shape(Tasks(input), Init(Tasks(input))) && |labels| <= Remaining(Tasks(input), Init(Tasks(input)))
    ensures Maximal(Tasks(input), states, labels) <==> Final(states[|labels|])
    ensures Final(states[|labels|]) ==>
              |states[|labels|].control| == |input.adj|
              && forall t :: 0 <= t < |input.adj| ==> states[|labels|].control[t] == Control(input.activations, Done)
  {
    RunLength(Tasks(input), states, labels, |labels|);
    FinalControls(Tasks(input), states[|labels|]);
    var rank := InputIsWired(input);
    var o := AcceptedHasOneOriginator(input);
    var z :| OnlyAt(Sinks(input.adj), z);
    OneSinkIffMatrix(input, z);
    NarrowIffInputs(input);
    EveryMaximalRunCompletes(Tasks(input), states, labels, o, z, rank);
  }

  /** The i-th input of task `r`: a positive entry of its column, with that many bytes. */
  lemma InputEdge(input: Input, r: nat, i: nat)
    requires WellFormed(input) && r < |input.adj| && i < |Tasks(input).ins[r]|
    ensures var cfg := Tasks(input); var sender := cfg.ins[r][i].task;
            && sender < |input.adj| && i < |cfg.sizes[r]| && cfg.sizes[r][i] == input.adj[sender][r] >= 1
            && forall k: nat :: cfg.texts(sender, k) == Text(input.names[sender], k)
  {
    AcyclicHasNoSelfLoop(input.adj);
    InEdgeIsWired(input.adj, r, i);
    NoLoopEdges(input.adj);
    var edges := EdgesOf(input.adj);
    assert Faithful(input.adj, |input.adj|, 0, edges, Select(edges, In, r)[i]);
  }

  /** On every accepted acyclic input with one sink and defined shifts, every state of every run is safe. */
  lemma AcceptedRunsAreSafe(input: Input, states: seq<State>, labels: seq<Label>, k: nat)
    requires WellFormed(input) && Accepted(input) && ExactlyOne(Sinks(input.adj)) && ShiftsDefined(input.adj)
    requires Wired(Tasks(input)) && Run(Tasks(input), states, labels) && k < |states|
    ensures Shape(Tasks(input), states[k]) && Safe(Tasks(input), states[k])
  {
    var rank := InputIsWired(input);
    var o := AcceptedHasOneOriginator(input);
    var z :| OnlyAt(Sinks(input.adj), z);
    OneSinkIffMatrix(input, z);
    ShiftsStayDefined(input);
    EveryStateIsSafe(Tasks(input), states, labels, k, o, z, rank);
  }

  lemma AcceptedRunsAreGood(input: Input, states: seq<State>, labels: seq<Label>, k: nat)
    returns (o: nat, z: nat, rank: seq<nat>)
    requires WellFormed(input) && Accepted(input) && ExactlyOne(Sinks(input.adj))
    requires Wired(Tasks(input)) && Run(Tasks(input), states, labels) && k < |states|
    ensures Good(Tasks(input), states[k], o, z, rank)
  {
    rank := InputIsWired(input);
    o := AcceptedHasOneOriginator(input);
    z :| OnlyAt(Sinks(input.adj), z);
    OneSinkIffMatrix(input, z);
    RunInv(Tasks(input), states, labels, k, o);
  }

  /** On every accepted acyclic input with one sink, in every state of every interleaving: a task reading
      its i-th input in activation k reads the complete message that the edge's sender wrote in its own
      activation k, in a buffer of the size the matrix says. */
  lemma EveryReadIsExact(input: Input, states: seq<State>, labels: seq<Label>, k: nat, r: nat, i: nat)
    requires WellFormed(input) && Accepted(input) && ExactlyOne(Sinks(input.adj))
    requires Wired(Tasks(input)) && Run(Tasks(input), states, labels) && k < |states|
    requires r < |input.adj| && i < |Tasks(input).ins[r]|
    requires r < |states[k].control| && states[k].control[r].pc.Read?
    ensures var sender := Tasks(input).ins[r][i].task;
            && sender < |input.adj| && input.adj[sender][r] >= 1
            && End(r, i) in states[k].msgs
            && states[k].msgs[End(r, i)] ==
                 Message(input.names[sender], states[k].control[r].iter, input.adj[sender][r])
  {
    InputEdge(input, r, i);
    var o, z, rank := AcceptedRunsAreGood(input, states, labels, k);
    UnlockedReadsAreSafe(Tasks(input), states[k], o, z, rank, r, i);
  }

  // --- what a complete run leaves behind ---

  /** The theoretical start of activation `k`, in microseconds: the first reading of the clock, 100 ms, and `k`
      periods. */
  function TheoreticalStart(input: Input, k: nat): int {
    input.t0.sec * 1_000_000 + input.t0.nsec / 1_000 + 100_000 + k * input.period
  }

  /** Step `m` is the pop of the start time in activation `k` by the task without outputs, no other step is, and
      the response time is the clock reading of that step against the theoretical start. */
  ghost predicate RespondsAt(input: Input, states: seq<State>, labels: seq<Label>, z: nat, k: nat, m: nat)
    requires |states| == |labels| + 1
  {
    && k < |states[|labels|].response| && IsPopOf(states, labels, z, k, m)
    && states[|labels|].response[k] == labels[m].env.now / 1_000 - TheoreticalStart(input, k) >= 0
  }

  ghost predicate Responds(input: Input, states: seq<State>, labels: seq<Label>, z: nat, k: nat)
    requires |states| == |labels| + 1
  {
    exists m :: RespondsAt(input, states, labels, z, k, m)
  }

  /** On every accepted acyclic input with one sink: every complete run leaves one response time for each of the
      requested activations, written once, by the sink, and measured against the theoretical start. */
  lemma AcceptedResponseTimes(input: Input, states: seq<State>, labels: seq<Label>, z: nat)
    requires WellFormed(input) && Accepted(input) && OnlyAt(Sinks(input.adj), z)
    requires Wired(Tasks(input)) && Run(Tasks(input), states, labels) && Final(states[|labels|])
    ensures |states[|labels|].response| == input.activations
    ensures forall k: nat :: k < input.activations ==> Responds(input, states, labels, z, k)
  {
    var rank := InputIsWired(input);
    var o := AcceptedHasOneOriginator(input);
    OneSinkIffMatrix(input, z);
    ResponseTimesPairUp(Tasks(input), states, labels, o, z, rank);
    forall k: nat | k < input.activations ensures Responds(input, states, labels, z, k) {
      assert Timed(Tasks(input), states, labels, z, k);
      var m :| IsPopOf(states, labels, z, k, m) && Measures(Tasks(input), labels, k, m, states[|labels|].response[k]);
      assert RespondsAt(input, states, labels, z, k, m);
    }
  }

  /** One message for each positive entry in the first `rows` rows of column `t`, as sent in activation `k`. */
  function ColumnMessages(input: Input, t: nat, k: nat, rows: nat): seq<seq<Byte>>
    requires Square(input.adj) && |input.names| == |input.adj| && t < |input.adj| && rows <= |input.adj|
  {
    if rows == 0 then []
    else
      var above, size := ColumnMessages(input, t, k, rows - 1), input.adj[rows - 1][t];
      if size >= 1 then above + [Message(input.names[rows - 1], k, size)] else above
  }

  /** The same for all activations before `k`, one after the other. */
  function Inbox(input: Input, t: nat, k: nat): seq<seq<Byte>>
    requires Square(input.adj) && |input.names| == |input.adj| && t < |input.adj|
  {
    if k == 0 then [] else Inbox(input, t, k - 1) + ColumnMessages(input, t, k - 1, |input.adj|)
  }

  lemma {:induction false} ColumnIsSenders(input: Input, t: nat, k: nat, rows: nat)
    requires WellFormed(input) && NoSelfLoop(input.adj) && t < |input.adj| && rows <= |input.adj|
    ensures var senders, messages := Senders(input.adj, t, rows), ColumnMessages(input, t, k, rows);
            |messages| == |senders| && forall i :: 0 <= i < |senders| ==>
              messages[i] == Message(input.names[senders[i]], k, input.adj[senders[i]][t])
  {
    if rows > 0 {
      ColumnIsSenders(input, t, k, rows - 1);
    }
  }

  lemma BatchIsColumn(input: Input, t: nat, k: nat)
    requires WellFormed(input) && Wired(Tasks(input)) && t < |input.adj|
    ensures Batch(Tasks(input), t, k) == ColumnMessages(input, t, k, |input.adj|)
  {
    AcyclicHasNoSelfLoop(input.adj);
    InSenders(input.adj, |input.adj|, 0, t);
    ColumnIsSenders(input, t, k, |input.adj|);
    var batch, column := Batch(Tasks(input), t, k), ColumnMessages(input, t, k, |input.adj|);
    forall i | 0 <= i < |batch| ensures batch[i] == column[i] {
      InputEdge(input, t, i);
    }
  }

  lemma {:induction false} InboxIsExpected(input: Input, t: nat, k: nat)
    requires WellFormed(input) && Wired(Tasks(input)) && t < |input.adj|
    ensures ExpectedInbox(Tasks(input), t, k) == Inbox(input, t, k)
  {
    if k > 0 {
      InboxIsExpected(input, t, k - 1);
      BatchIsColumn(input, t, k - 1);
    }
  }

  /** On the same inputs: in every complete run each task has read, in each of the requested activations, one
      message per positive entry of its column, as sent in that activation, and nothing else. Its checksum is that
      of these messages. */
  lemma AcceptedInbox(input: Input, states: seq<State>, labels: seq<Label>, t: nat)
    requires WellFormed(input) && Accepted(input) && ExactlyOne(Sinks(input.adj))
    requires Wired(Tasks(input)) && Run(Tasks(input), states, labels) && Final(states[|labels|]) && t < |input.adj|
    ensures |states[|labels|].received| == |states[|labels|].checksum| == |input.adj|
    ensures states[|labels|].received[t] == Inbox(input, t, input.activations)
    ensures states[|labels|].checksum[t] == Checksum(Inbox(input, t, input.activations))
  {
    var rank := InputIsWired(input);
    var o := AcceptedHasOneOriginator(input);
    var z :| OnlyAt(Sinks(input.adj), z);
    OneSinkIffMatrix(input, z);
    EveryCompleteRunPrintsTheSame(Tasks(input), states, labels, o, z, rank, t);
    InboxIsExpected(input, t, input.activations);
  }

  // --- what a second sink breaks ---

  /** On every accepted acyclic input with at most 31 inputs to a task and at least two activations: no task ever
      reads a message while it is being written, iff exactly one task has no outputs. Equally, no sender is ever
      even between beginning a write and completing the push while its receiver reads. */
  lemma AcceptedNeverOverlapIff(input: Input)
    requires WellFormed(input) && Accepted(input) && InputsAtMost(input.adj, EXACT_SLOTS) && input.activations >= 2
    ensures Wired(Tasks(input))
    ensures NeverOverlap(Tasks(input)) <==> ExactlyOne(Sinks(input.adj))
    ensures WindowsStayClosed(Tasks(input)) <==> ExactlyOne(Sinks(input.adj))
  {
    var rank := InputIsWired(input);
    var o := AcceptedHasOneOriginator(input);
    NarrowIffInputs(input);
    OneSinkIffExactlyOne(input);
    NeverOverlapIffOneSink(Tasks(input), o, rank);
  }

  /** The message of some edge into a task without outputs has room for an iteration number. */
  predicate RoomAtSink(input: Input)
    requires Square(input.adj) && |input.names| == |input.adj|
  {
    exists s, z :: 0 <= s < |input.adj| && 0 <= z < |input.adj| && NoOutputs(input.adj, z) && HasRoom(input, s, z)
  }

  predicate HasRoom(input: Input, s: nat, r: nat)
    requires Square(input.adj) && |input.names| == |input.adj| && s < |input.adj| && r < |input.adj|
  {
    input.adj[s][r] > |Text(input.names[s], 0)|
  }

  lemma RoomTells(input: Input, r: nat, i: nat)
    requires WellFormed(input) && Wired(Tasks(input)) && r < |input.adj| && i < |Tasks(input).ins[r]|
    ensures var sender := Tasks(input).ins[r][i].task;
            sender < |input.adj|
            && if HasRoom(input, sender, r) then Differ(Tasks(input), r, i) else Alike(Tasks(input), r, i)
    ensures Alike(Tasks(input), r, i) ==> !Differ(Tasks(input), r, i)
  {
    InputEdge(input, r, i);
    var sender := Tasks(input).ins[r][i].task;
    LookAlikeIff(input.names[sender], input.adj[sender][r]);
    if !HasRoom(input, sender, r) {
      var cfg, size := Tasks(input), input.adj[sender][r];
      forall k: nat, l: nat ensures Fit(cfg.texts(sender, k), size) == Fit(cfg.texts(sender, l), size) {
        assert Message(input.names[sender], k, size) == Message(input.names[sender], l, size);
      }
    }
  }

  lemma RoomIffDiffers(input: Input)
    requires WellFormed(input) && Wired(Tasks(input))
    ensures SomeSinkEdgeDiffers(Tasks(input)) <==> RoomAtSink(input)
  {
    var cfg := Tasks(input);
    AcyclicHasNoSelfLoop(input.adj);
    forall r: nat, i: nat | r < |cfg.ins| && i < |cfg.ins[r]| && IsSink(cfg, r) && Differ(cfg, r, i)
      ensures RoomAtSink(input)
    {
      RoomTells(input, r, i);
      EmptyListsMatchMatrix(input.adj, r);
    }
    forall s: nat, z: nat | s < |input.adj| && z < |input.adj| && NoOutputs(input.adj, z) && HasRoom(input, s, z)
      ensures SomeSinkEdgeDiffers(cfg)
    {
      var i := EdgeOfEntry(input, s, z);
      RoomTells(input, z, i);
      EmptyListsMatchMatrix(input.adj, z);
    }
  }

  /** The input of task `r` that stands for a positive entry. */
  lemma EdgeOfEntry(input: Input, s: nat, r: nat) returns (i: nat)
    requires WellFormed(input) && s < |input.adj| && r < |input.adj| && input.adj[s][r] >= 1
    ensures i < |Tasks(input).ins[r]| && Tasks(input).ins[r][i].task == s
  {
    var edges := EdgesOf(input.adj);
    AcyclicHasNoSelfLoop(input.adj);
    OneEdgePerEntry(input.adj, s, r);
    var k: nat :| EdgeFor(edges, k, s, r);
    NoLoopEdges(input.adj);
    SelectFinds(edges, In, r, k);
    i := |Select(edges[..k], In, r)|;
  }

  /** On the same inputs: tasks without outputs read exactly the messages of their own activations, whenever no
      write is going on, iff there is one such task or none of them gets a message with room for an iteration
      number. */
  lemma AcceptedSinksReadExactlyIff(input: Input)
    requires WellFormed(input) && Accepted(input) && InputsAtMost(input.adj, EXACT_SLOTS) && input.activations >= 2
    ensures Wired(Tasks(input))
    ensures SinksReadExactly(Tasks(input)) <==> ExactlyOne(Sinks(input.adj)) || !RoomAtSink(input)
  {
    var rank := InputIsWired(input);
    var o := AcceptedHasOneOriginator(input);
    var cfg := Tasks(input);
    NarrowIffInputs(input);
    OneSinkIffExactlyOne(input);
    RoomIffDiffers(input);
    forall r: nat, i: nat | r < |cfg.ins| && i < |cfg.ins[r]| ensures Differ(cfg, r, i) || Alike(cfg, r, i) {
      RoomTells(input, r, i);
    }
    SinksReadExactlyIff(cfg, o, rank);
  }
}
