/** The `DagTaskset` constructor of src/newstuff/taskset.cpp: from an adjacency matrix to queues, edges,
    push indices and per-task edge lists. */
module Wiring {
  import opened DagModel
  import opened PeriodicTask
  import opened Messages

  type Matrix = seq<seq<int>>

  predicate Square(adj: Matrix) {
    forall t :: 0 <= t < |adj| ==> |adj[t]| == |adj|
  }

  /** `struct Edge`; its queue is the one of task `to`. */
  datatype Edge = Edge(from: nat, to: nat, pushIdx: nat, size: int)

  /** Which edges a list picks out: those pushing into a task's queue, or those of its
      `in_buffers` and `out_buffers`. */
  datatype Kind = Queue | In | Out

  predicate Picks(kind: Kind, t: nat, e: Edge) {
    match kind
    case Queue => e.to == t
    case In => e.from != t && e.to == t
    case Out => e.from == t
  }

  /** The positions of the edges of one kind, in order. */
  function Select(edges: seq<Edge>, kind: Kind, t: nat): seq<nat> {
    if edges == [] then []
    else
      var last := |edges| - 1;
      Select(edges[..last], kind, t) + if Picks(kind, t, edges[last]) then [last] else []
  }

  /** The edges made before the loops reach (receiver, sender). */
  function EdgesBefore(adj: Matrix, receiver: nat, sender: nat): seq<Edge>
    requires Square(adj) && receiver <= |adj| && sender <= |adj| && (receiver == |adj| ==> sender == 0)
    decreases receiver, sender
  {
    if sender > 0 then
      var made, size := EdgesBefore(adj, receiver, sender - 1), adj[sender - 1][receiver];
      if size < 1 then made
      else made + [Edge(sender - 1, receiver, |Select(made, Queue, receiver)|, size)]
    else if receiver > 0 then EdgesBefore(adj, receiver - 1, |adj|)
    else []
  }

  function EdgesOf(adj: Matrix): seq<Edge>
    requires Square(adj)
  {
    EdgesBefore(adj, |adj|, 0)
  }

  /** `howmany_inputs`, for the first `rows` rows. */
  function NonZeroInputs(adj: Matrix, t: nat, rows: nat): nat
    requires Square(adj) && t < |adj| && rows <= |adj|
  {
    if rows == 0 then 0 else NonZeroInputs(adj, t, rows - 1) + if adj[rows - 1][t] != 0 then 1 else 0
  }

  function QueueSize(adj: Matrix, t: nat): nat
    requires Square(adj) && t < |adj|
  {
    var inputs := NonZeroInputs(adj, t, |adj|);
    if inputs < 1 then 1 else inputs
  }

  predicate OnlyAt(matches: seq<bool>, o: nat) {
    o < |matches| && forall t :: 0 <= t < |matches| ==> (matches[t] <==> t == o)
  }

  ghost predicate ExactlyOne(matches: seq<bool>) {
    exists o :: OnlyAt(matches, o)
  }

  /** Task by task, whether `is_originator` holds. */
  function Originators(adj: Matrix): seq<bool>
    requires Square(adj)
  {
    seq(|adj|, t requires 0 <= t < |adj| => |Select(EdgesOf(adj), In, t)| == 0)
  }

  class DagTaskset {
    var inQueues: seq<nat>          // number of slots of each task's queue
    var edges: seq<Edge>
    var inEdges: seq<seq<nat>>      // per task, positions in `edges`
    var outEdges: seq<seq<nat>>
    var accepted: bool              // both task_single_check calls passed

    constructor (adj: Matrix)
      requires Square(adj)
      ensures inQueues == seq(|adj|, t requires 0 <= t < |adj| => QueueSize(adj, t))
      ensures edges == EdgesOf(adj)
      ensures inEdges == seq(|adj|, t requires 0 <= t < |adj| => Select(EdgesOf(adj), In, t))
      ensures outEdges == seq(|adj|, t requires 0 <= t < |adj| => Select(EdgesOf(adj), Out, t))
      ensures accepted <==> ExactlyOne(Originators(adj))
    {
      inQueues, edges, inEdges, outEdges, accepted := [], [], [], [], false;
      new;
      inQueues := InQueues(adj);
      edges := MakeEdges(adj);
      for i := 0 to |adj|
        invariant inQueues == seq(|adj|, t requires 0 <= t < |adj| => QueueSize(adj, t)) && edges == EdgesOf(adj)
        invariant |inEdges| == |outEdges| == i
        invariant forall t :: 0 <= t < i ==> inEdges[t] == Select(edges, In, t) && outEdges[t] == Select(edges, Out, t)
      {
        var ins, outs := TaskEdges(edges, i);
        inEdges := inEdges + [ins];
        outEdges := outEdges + [outs];
      }

      // Both checks test for originators, although the second is named after the sink.
      var originators := Originators(adj);
      var one := SingleCheck(originators);
      var again := SingleCheck(originators);
      accepted := one && again;
    }
  }

  /** The loop over `in_queues`. */
  method InQueues(adj: Matrix) returns (inQueues: seq<nat>)
    requires Square(adj)
    ensures inQueues == seq(|adj|, t requires 0 <= t < |adj| => QueueSize(adj, t))
  {
    inQueues := [];
    for taskId := 0 to |adj|
      invariant |inQueues| == taskId && forall t :: 0 <= t < taskId ==> inQueues[t] == QueueSize(adj, t)
    {
      var inputsCount := HowManyInputs(adj, taskId);
      if inputsCount < 1 {
        inputsCount := 1;
      }
      inQueues := inQueues + [inputsCount];
    }
  }

  /** The two nested loops over receivers and senders. */
  method MakeEdges(adj: Matrix) returns (edges: seq<Edge>)
    requires Square(adj)
    ensures edges == EdgesOf(adj)
  {
    edges := [];
    for receiver := 0 to |adj|
      invariant edges == EdgesBefore(adj, receiver, 0)
    {
      var pushIdx := 0;
      NoEdgeYet(adj, receiver);
      for sender := 0 to |adj|
        invariant edges == EdgesBefore(adj, receiver, sender)
        invariant pushIdx == |Select(edges, Queue, receiver)|
      {
        var msgSize := adj[sender][receiver];
        if msgSize < 1 {
          continue;
        }
        ghost var made := edges;
        edges := edges + [Edge(sender, receiver, pushIdx, msgSize)];
        assert edges[..|made|] == made;
        pushIdx := pushIdx + 1;
      }
    }
  }

  method HowManyInputs(adj: Matrix, t: nat) returns (count: nat)
    requires Square(adj) && t < |adj|
    ensures count == NonZeroInputs(adj, t, |adj|)
  {
    count := 0;
    for row := 0 to |adj|
      invariant count == NonZeroInputs(adj, t, row)
    {
      if adj[row][t] != 0 {
        count := count + 1;
      }
    }
  }

  /** The loop that hands each task its edges. */
  method TaskEdges(edges: seq<Edge>, i: nat) returns (ins: seq<nat>, outs: seq<nat>)
    ensures ins == Select(edges, In, i) && outs == Select(edges, Out, i)
  {
    ins, outs := [], [];
    for k := 0 to |edges|
      invariant ins == Select(edges[..k], In, i) && outs == Select(edges[..k], Out, i)
    {
      assert edges[..k + 1][..k] == edges[..k];
      if edges[k].from == i {
        outs := outs + [k];
      } else if edges[k].to == i {
        ins := ins + [k];
      }
    }
    assert edges[..|edges|] == edges;
  }

  /** `task_single_check`: find the first match, then look for a second one. */
  method SingleCheck(matches: seq<bool>) returns (ok: bool)
    ensures ok <==> ExactlyOne(matches)
  {
    var first := 0;
    while first < |matches| && !matches[first]
      invariant first <= |matches| && forall t :: 0 <= t < first ==> !matches[t]
    {
      first := first + 1;
    }
    if first == |matches| {
      assert forall o: nat :: OnlyAt(matches, o) ==> matches[o];
      return false;
    }
    var second := first + 1;
    while second < |matches| && !matches[second]
      invariant first < second <= |matches| && forall t :: first < t < second ==> !matches[t]
    {
      second := second + 1;
    }
    ok := second == |matches|;
    assert ok ==> OnlyAt(matches, first);
    assert !ok ==> matches[first] && matches[second];
  }

  // --- the lists ---

  lemma {:induction false} SelectIsSound(edges: seq<Edge>, kind: Kind, t: nat, i: nat)
    requires i < |Select(edges, kind, t)|
    ensures var k := Select(edges, kind, t)[i];
            k < |edges| && Picks(kind, t, edges[k]) && |Select(edges[..k], kind, t)| == i
  {
    var last := |edges| - 1;
    if i < |Select(edges[..last], kind, t)| {
      SelectIsSound(edges[..last], kind, t, i);
      var k := Select(edges, kind, t)[i];
      assert edges[..last][..k] == edges[..k];
    }
  }

  lemma {:induction false} SelectFinds(edges: seq<Edge>, kind: Kind, t: nat, k: nat)
    requires k < |edges| && Picks(kind, t, edges[k])
    ensures |Select(edges[..k], kind, t)| < |Select(edges, kind, t)|
    ensures Select(edges, kind, t)[|Select(edges[..k], kind, t)|] == k
  {
    var last := |edges| - 1;
    if k < last {
      SelectFinds(edges[..last], kind, t, k);
      assert edges[..last][..k] == edges[..k];
    }
  }

  /** Without self-loops a task's `in_buffers` are all the edges into its queue. */
  lemma {:induction false} InIsQueue(edges: seq<Edge>, t: nat)
    requires forall k :: 0 <= k < |edges| ==> edges[k].from != edges[k].to
    ensures Select(edges, In, t) == Select(edges, Queue, t)
  {
    if edges != [] {
      InIsQueue(edges[..|edges| - 1], t);
    }
  }

  // --- the edges ---

  predicate Earlier(to: nat, from: nat, receiver: nat, sender: nat) {
    to < receiver || (to == receiver && from < sender)
  }

  /** The k-th edge stands for a positive entry already visited, carries its size, and has as `push_idx`
      the number of earlier edges into the same queue. */
  predicate Faithful(adj: Matrix, receiver: nat, sender: nat, edges: seq<Edge>, k: nat)
    requires Square(adj) && k < |edges|
  {
    var e := edges[k];
    && e.from < |adj| && e.to < |adj| && Earlier(e.to, e.from, receiver, sender)
    && e.size == adj[e.from][e.to] >= 1
    && e.pushIdx == |Select(edges[..k], Queue, e.to)|
  }

  /** All edges are faithful, and later edges stand for later entries. */
  ghost predicate AllFaithful(adj: Matrix, receiver: nat, sender: nat, edges: seq<Edge>)
    requires Square(adj)
  {
    && (forall k: nat :: k < |edges| ==> Faithful(adj, receiver, sender, edges, k))
    && (forall k: nat, l: nat :: k < l < |edges| ==> Earlier(edges[k].to, edges[k].from, edges[l].to, edges[l].from))
  }

  lemma AppendFaithful(adj: Matrix, receiver: nat, sender: nat, next: nat, made: seq<Edge>, e: Edge)
    requires Square(adj) && receiver < |adj| && sender < |adj| && next == sender + 1
    requires AllFaithful(adj, receiver, sender, made)
    requires e == Edge(sender, receiver, |Select(made, Queue, receiver)|, adj[sender][receiver]) && e.size >= 1
    ensures AllFaithful(adj, receiver, next, made + [e])
  {
    var edges := made + [e];
    forall k: nat | k < |edges| ensures Faithful(adj, receiver, next, edges, k) {
      if k < |made| {
        assert Faithful(adj, receiver, sender, made, k);
        assert edges[..k] == made[..k];
      } else {
        assert edges[..k] == made;
      }
    }
    forall k: nat, l: nat | k < l < |edges| ensures Earlier(edges[k].to, edges[k].from, edges[l].to, edges[l].from) {
      assert Faithful(adj, receiver, sender, made, k);
    }
  }

  lemma {:induction false} EdgesAreFaithful(adj: Matrix, receiver: nat, sender: nat)
    requires Square(adj) && receiver <= |adj| && sender <= |adj| && (receiver == |adj| ==> sender == 0)
    ensures AllFaithful(adj, receiver, sender, EdgesBefore(adj, receiver, sender))
    decreases receiver, sender
  {
    if sender > 0 {
      EdgesAreFaithful(adj, receiver, sender - 1);
      var made := EdgesBefore(adj, receiver, sender - 1);
      if adj[sender - 1][receiver] >= 1 {
        var e := Edge(sender - 1, receiver, |Select(made, Queue, receiver)|, adj[sender - 1][receiver]);
        AppendFaithful(adj, receiver, sender - 1, sender, made, e);
      } else {
        WidenFaithful(adj, receiver, sender - 1, receiver, sender, made);
      }
    } else if receiver > 0 {
      EdgesAreFaithful(adj, receiver - 1, |adj|);
      WidenFaithful(adj, receiver - 1, |adj|, receiver, 0, EdgesBefore(adj, receiver, 0));
    }
  }

  lemma WidenFaithful(adj: Matrix, receiver: nat, sender: nat, receiver': nat, sender': nat, edges: seq<Edge>)
    requires Square(adj) && AllFaithful(adj, receiver, sender, edges)
    requires Earlier(receiver, sender, receiver', sender')
    ensures AllFaithful(adj, receiver', sender', edges)
  {
    forall k: nat | k < |edges| ensures Faithful(adj, receiver', sender', edges, k) {
      assert Faithful(adj, receiver, sender, edges, k);
    }
  }

  ghost predicate HasEdge(edges: seq<Edge>, s: nat, r: nat) {
    exists k: nat :: EdgeFor(edges, k, s, r)
  }

  /** Every positive entry visited so far has its edge. */
  lemma {:induction false} EdgesAreComplete(adj: Matrix, receiver: nat, sender: nat, s: nat, r: nat)
    requires Square(adj) && receiver <= |adj| && sender <= |adj| && (receiver == |adj| ==> sender == 0)
    requires s < |adj| && r < |adj| && Earlier(r, s, receiver, sender) && adj[s][r] >= 1
    ensures HasEdge(EdgesBefore(adj, receiver, sender), s, r)
    decreases receiver, sender
  {
    var edges := EdgesBefore(adj, receiver, sender);
    if sender > 0 {
      var made := EdgesBefore(adj, receiver, sender - 1);
      if s == sender - 1 && r == receiver {
        assert EdgeFor(edges, |made|, s, r);
      } else {
        EdgesAreComplete(adj, receiver, sender - 1, s, r);
        var k: nat :| EdgeFor(made, k, s, r);
        assert EdgeFor(edges, k, s, r);
      }
    } else if receiver > 0 {
      EdgesAreComplete(adj, receiver - 1, |adj|, s, r);
    }
  }

  predicate EdgeFor(edges: seq<Edge>, k: nat, s: nat, r: nat) {
    k < |edges| && edges[k].from == s && edges[k].to == r
  }

  /** Exactly one edge per positive entry, with that entry as its message size. */
  lemma OneEdgePerEntry(adj: Matrix, s: nat, r: nat)
    requires Square(adj) && s < |adj| && r < |adj|
    ensures adj[s][r] >= 1 <==> HasEdge(EdgesOf(adj), s, r)
    ensures forall k: nat, l: nat :: EdgeFor(EdgesOf(adj), k, s, r) && EdgeFor(EdgesOf(adj), l, s, r) ==> k == l
    ensures forall k: nat :: EdgeFor(EdgesOf(adj), k, s, r) ==> EdgesOf(adj)[k].size == adj[s][r]
  {
    var edges := EdgesOf(adj);
    EdgesAreFaithful(adj, |adj|, 0);
    forall k: nat | EdgeFor(edges, k, s, r) ensures edges[k].size == adj[s][r] >= 1 {
      assert Faithful(adj, |adj|, 0, edges, k);
    }
    if adj[s][r] >= 1 {
      EdgesAreComplete(adj, |adj|, 0, s, r);
    }
  }

  lemma {:induction false} SelectNone(edges: seq<Edge>, kind: Kind, t: nat)
    requires forall k: nat :: k < |edges| ==> !Picks(kind, t, edges[k])
    ensures Select(edges, kind, t) == []
  {
    if edges != [] {
      SelectNone(edges[..|edges| - 1], kind, t);
    }
  }

  lemma NoEdgeYet(adj: Matrix, receiver: nat)
    requires Square(adj) && receiver <= |adj|
    ensures Select(EdgesBefore(adj, receiver, 0), Queue, receiver) == []
  {
    EdgesAreFaithful(adj, receiver, 0);
    var edges := EdgesBefore(adj, receiver, 0);
    forall k: nat | k < |edges| ensures edges[k].to < receiver {
      assert Faithful(adj, receiver, 0, edges, k);
    }
    SelectNone(edges, Queue, receiver);
  }

  // --- queue sizes ---

  /** Positive entries of column `t` off the diagonal, in the first `rows` rows. */
  function RealInputs(adj: Matrix, t: nat, rows: nat): nat
    requires Square(adj) && t < |adj| && rows <= |adj|
  {
    if rows == 0 then 0
    else RealInputs(adj, t, rows - 1) + if rows - 1 != t && adj[rows - 1][t] >= 1 then 1 else 0
  }

  /** The length of `in_buffers`, as a count over the matrix. */
  lemma {:induction false} InLength(adj: Matrix, receiver: nat, sender: nat, t: nat)
    requires Square(adj) && receiver <= |adj| && sender <= |adj| && (receiver == |adj| ==> sender == 0) && t < |adj|
    ensures |Select(EdgesBefore(adj, receiver, sender), In, t)| ==
              RealInputs(adj, t, if t < receiver then |adj| else if t == receiver then sender else 0)
    decreases receiver, sender
  {
    if sender > 0 {
      InLength(adj, receiver, sender - 1, t);
      var made, edges := EdgesBefore(adj, receiver, sender - 1), EdgesBefore(adj, receiver, sender);
      assert edges != made ==> edges[..|made|] == made;
    } else if receiver > 0 {
      InLength(adj, receiver - 1, |adj|, t);
    }
  }

  lemma {:induction false} RealAtMostNonZero(adj: Matrix, t: nat, rows: nat)
    requires Square(adj) && t < |adj| && rows <= |adj|
    ensures RealInputs(adj, t, rows) <= NonZeroInputs(adj, t, rows)
    ensures RealInputs(adj, t, rows) == NonZeroInputs(adj, t, rows) <==>
              forall s :: 0 <= s < rows ==> adj[s][t] >= 0 && (s == t ==> adj[s][t] == 0)
  {
    if rows > 0 {
      RealAtMostNonZero(adj, t, rows - 1);
    }
  }

  /** The senders of task `t`'s inputs, in the first `rows` rows. */
  function Senders(adj: Matrix, t: nat, rows: nat): (senders: seq<nat>)
    requires Square(adj) && t < |adj| && rows <= |adj|
    ensures forall i :: 0 <= i < |senders| ==> senders[i] < rows && adj[senders[i]][t] >= 1
  {
    if rows == 0 then []
    else Senders(adj, t, rows - 1) + if rows - 1 != t && adj[rows - 1][t] >= 1 then [rows - 1] else []
  }

  /** The i-th of a task's `in_buffers` comes from the i-th sender in its column. */
  predicate FromSenders(edges: seq<Edge>, t: nat, senders: seq<nat>) {
    var list := Select(edges, In, t);
    |list| == |senders| && forall i :: 0 <= i < |list| ==> list[i] < |edges| && edges[list[i]].from == senders[i]
  }

  lemma {:induction false} InSenders(adj: Matrix, receiver: nat, sender: nat, t: nat)
    requires Square(adj) && receiver <= |adj| && sender <= |adj| && (receiver == |adj| ==> sender == 0) && t < |adj|
    ensures FromSenders(EdgesBefore(adj, receiver, sender), t,
                        Senders(adj, t, if t < receiver then |adj| else if t == receiver then sender else 0))
    decreases receiver, sender
  {
    if sender > 0 {
      InSenders(adj, receiver, sender - 1, t);
      var made, edges := EdgesBefore(adj, receiver, sender - 1), EdgesBefore(adj, receiver, sender);
      assert edges != made ==> edges[..|made|] == made;
    } else if receiver > 0 {
      InSenders(adj, receiver - 1, |adj|, t);
    }
  }

  /** The assertion in `pop`, in terms of the matrix: a task that has inputs asks its queue for exactly as
      many elements as the queue has slots iff its column has no negative entry and no self-loop. */
  lemma QueueFitsIff(adj: Matrix, t: nat)
    requires Square(adj) && t < |adj| && Select(EdgesOf(adj), In, t) != []
    ensures |Select(EdgesOf(adj), In, t)| == QueueSize(adj, t) <==>
              forall s :: 0 <= s < |adj| ==> adj[s][t] >= 0 && (s == t ==> adj[s][t] == 0)
  {
    InLength(adj, |adj|, 0, t);
    RealAtMostNonZero(adj, t, |adj|);
  }

  /** A task whose one input has size 5, next to a negative entry in its column. */
  predicate NegativeBesideInput(adj: Matrix) {
    && Square(adj) && |adj| == 3
    && forall s, r :: 0 <= s < 3 && 0 <= r < 3 ==>
         adj[s][r] == if r == 2 then (if s == 0 then 5 else if s == 1 then -1 else 0) else 0
  }

  /** The same task, next to a self-loop. */
  predicate LoopBesideInput(adj: Matrix) {
    && Square(adj) && |adj| == 3
    && forall s, r :: 0 <= s < 3 && 0 <= r < 3 ==> adj[s][r] == if r == 2 && s != 1 then 5 else 0
  }

  /** The matrices on which the assertion in `pop` fails: one slot is waited for, and the queue has two. */
  lemma QueueDoesNotFit(adj: Matrix)
    requires NegativeBesideInput(adj) || LoopBesideInput(adj)
    ensures |Select(EdgesOf(adj), In, 2)| == 1 && QueueSize(adj, 2) == 2
  {
    InLength(adj, 3, 0, 2);
    assert RealInputs(adj, 2, 1) == 1 && NonZeroInputs(adj, 2, 1) == 1;
    assert RealInputs(adj, 2, 2) == 1 && RealInputs(adj, 2, 3) == 1;
    assert NonZeroInputs(adj, 2, 2) + NonZeroInputs(adj, 2, 3) == if adj[1][2] == 0 then 3 else 4;
  }

  lemma ThereAreSuchMatrices() returns (negative: Matrix, loop: Matrix)
    ensures NegativeBesideInput(negative) && LoopBesideInput(loop)
  {
    negative := [[0, 0, 5], [0, 0, -1], [0, 0, 0]];
    loop := [[0, 0, 5], [0, 0, 0], [0, 0, 5]];
  }

  // --- the configuration the tasks run with ---

  /** Ranks that every positive entry respects: a topological order of the graph. */
  predicate Topological(adj: Matrix, rank: seq<nat>)
    requires Square(adj)
  {
    |rank| == |adj| && forall s, r :: 0 <= s < |adj| && 0 <= r < |adj| && adj[s][r] >= 1 ==> rank[s] < rank[r]
  }

  function InEnds(edges: seq<Edge>, t: nat): seq<End> {
    var list := Select(edges, In, t);
    seq(|list|, i requires 0 <= i < |list| =>
      SelectIsSound(edges, In, t, i);
      var k := list[i];
      End(edges[k].from, |Select(edges[..k], Out, edges[k].from)|))
  }

  function OutEnds(edges: seq<Edge>, t: nat): seq<End> {
    var list := Select(edges, Out, t);
    seq(|list|, j requires 0 <= j < |list| =>
      SelectIsSound(edges, Out, t, j);
      End(edges[list[j]].to, edges[list[j]].pushIdx))
  }

  function InSizes(edges: seq<Edge>, t: nat): seq<nat> {
    var list := Select(edges, In, t);
    seq(|list|, i requires 0 <= i < |list| =>
      SelectIsSound(edges, In, t, i);
      if edges[list[i]].size < 0 then 0 else edges[list[i]].size)
  }

  /** What the tasks built from `adj` share. */
  function ConfigOf(adj: Matrix, names: seq<seq<Byte>>, activations: nat, period: nat, t0: Timespec): Config
    requires Square(adj) && |names| == |adj|
  {
    var n, edges := |adj|, EdgesOf(adj);
    Config(
      seq(n, t requires 0 <= t < n => InEnds(edges, t)),
      seq(n, t requires 0 <= t < n => OutEnds(edges, t)),
      seq(n, t requires 0 <= t < n => InSizes(edges, t)),
      (t: nat, k: nat) => if t < |names| then Text(names[t], k) else [],
      activations, period, t0)
  }

  predicate NoSelfLoop(adj: Matrix)
    requires Square(adj)
  {
    forall t :: 0 <= t < |adj| ==> adj[t][t] < 1
  }

  /** The edge behind the i-th element of a task's `in_buffers`: it has `push_idx == i`, and it is the
      element of its sender's `out_buffers` that the configuration says. */
  lemma InEdgeIsWired(adj: Matrix, r: nat, i: nat)
    requires Square(adj) && NoSelfLoop(adj) && r < |adj| && i < |Select(EdgesOf(adj), In, r)|
    ensures var edges := EdgesOf(adj); var k := Select(edges, In, r)[i];
            && k < |edges| && edges[k].to == r && edges[k].pushIdx == i && edges[k].from < |adj| && edges[k].size >= 1
            && var j := |Select(edges[..k], Out, edges[k].from)|;
               j < |Select(edges, Out, edges[k].from)| && Select(edges, Out, edges[k].from)[j] == k
  {
    var edges := EdgesOf(adj);
    var k := Select(edges, In, r)[i];
    SelectIsSound(edges, In, r, i);
    NoLoopEdges(adj);
    assert Faithful(adj, |adj|, 0, edges, k);
    InIsQueue(edges[..k], r);
    SelectFinds(edges, Out, edges[k].from, k);
  }

  lemma OutEdgeIsWired(adj: Matrix, s: nat, j: nat)
    requires Square(adj) && NoSelfLoop(adj) && s < |adj| && j < |Select(EdgesOf(adj), Out, s)|
    ensures var edges := EdgesOf(adj); var k := Select(edges, Out, s)[j];
            && k < |edges| && edges[k].from == s && edges[k].to < |adj|
            && |Select(edges[..k], Out, s)| == j
            && edges[k].pushIdx < |Select(edges, In, edges[k].to)|
            && Select(edges, In, edges[k].to)[edges[k].pushIdx] == k
  {
    var edges := EdgesOf(adj);
    var k := Select(edges, Out, s)[j];
    SelectIsSound(edges, Out, s, j);
    NoLoopEdges(adj);
    assert Faithful(adj, |adj|, 0, edges, k);
    InIsQueue(edges[..k], edges[k].to);
    SelectFinds(edges, In, edges[k].to, k);
  }

  lemma NoLoopEdges(adj: Matrix)
    requires Square(adj) && NoSelfLoop(adj)
    ensures AllFaithful(adj, |adj|, 0, EdgesOf(adj))
    ensures forall k :: 0 <= k < |EdgesOf(adj)| ==> EdgesOf(adj)[k].from != EdgesOf(adj)[k].to
  {
    EdgesAreFaithful(adj, |adj|, 0);
    forall k | 0 <= k < |EdgesOf(adj)| ensures EdgesOf(adj)[k].from != EdgesOf(adj)[k].to {
      assert Faithful(adj, |adj|, 0, EdgesOf(adj), k);
    }
  }

  /** Wiring is correct for every matrix without self-loops: each edge has one place in one
      `in_buffers`, at its push index, and one place in one `out_buffers`. */
  lemma ConfigIsWired(adj: Matrix, names: seq<seq<Byte>>, activations: nat, period: nat, t0: Timespec)
    requires Square(adj) && NoSelfLoop(adj) && |names| == |adj| >= 1 && Normal(t0)
    requires forall t :: 0 <= t < |names| ==> NulFree(names[t])
    ensures Wired(ConfigOf(adj, names, activations, period, t0))
  {
    var cfg, edges := ConfigOf(adj, names, activations, period, t0), EdgesOf(adj);
    forall r, i | 0 <= r < |cfg.ins| && 0 <= i < |cfg.ins[r]|
      ensures cfg.sizes[r][i] >= 1
      ensures var e := cfg.ins[r][i];
              e.task < |cfg.outs| && e.idx < |cfg.outs[e.task]| && cfg.outs[e.task][e.idx] == End(r, i)
    {
      InEdgeIsWired(adj, r, i);
    }
    forall s, j | 0 <= s < |cfg.outs| && 0 <= j < |cfg.outs[s]|
      ensures var e := cfg.outs[s][j];
              e.task < |cfg.ins| && e.idx < |cfg.ins[e.task]| && cfg.ins[e.task][e.idx] == End(s, j)
    {
      OutEdgeIsWired(adj, s, j);
    }
    forall t: nat, k: nat ensures NulFree(cfg.texts(t, k)) {
      if t < |names| {
        TextIsNulFree(names[t], k);
      }
    }
  }

  lemma ConfigRanks(adj: Matrix, names: seq<seq<Byte>>, activations: nat, period: nat, t0: Timespec, rank: seq<nat>)
    requires Square(adj) && NoSelfLoop(adj) && |names| == |adj| && Topological(adj, rank)
    ensures Ranks(ConfigOf(adj, names, activations, period, t0), rank)
  {
    var cfg, edges := ConfigOf(adj, names, activations, period, t0), EdgesOf(adj);
    forall r, i | 0 <= r < |cfg.ins| && 0 <= i < |cfg.ins[r]|
      ensures cfg.ins[r][i].task < |rank| && rank[cfg.ins[r][i].task] < rank[r]
    {
      InEdgeIsWired(adj, r, i);
      var k := Select(edges, In, r)[i];
      NoLoopEdges(adj);
      assert Faithful(adj, |adj|, 0, edges, k);
    }
  }

  // --- originators and sinks, in terms of the matrix ---

  predicate NoInputs(adj: Matrix, t: nat)
    requires Square(adj) && t < |adj|
  {
    forall s :: 0 <= s < |adj| ==> adj[s][t] < 1
  }

  predicate NoOutputs(adj: Matrix, t: nat)
    requires Square(adj) && t < |adj|
  {
    forall r :: 0 <= r < |adj| ==> adj[t][r] < 1
  }

  lemma EmptyListsMatchMatrix(adj: Matrix, t: nat)
    requires Square(adj) && NoSelfLoop(adj) && t < |adj|
    ensures Select(EdgesOf(adj), In, t) == [] <==> NoInputs(adj, t)
    ensures Select(EdgesOf(adj), Out, t) == [] <==> NoOutputs(adj, t)
  {
    var edges := EdgesOf(adj);
    NoLoopEdges(adj);
    forall s | 0 <= s < |adj| ensures adj[s][t] >= 1 ==> Select(edges, In, t) != [] {
      if adj[s][t] >= 1 {
        OneEdgePerEntry(adj, s, t);
        var k: nat :| EdgeFor(edges, k, s, t);
        SelectFinds(edges, In, t, k);
      }
    }
    forall r | 0 <= r < |adj| ensures adj[t][r] >= 1 ==> Select(edges, Out, t) != [] {
      if adj[t][r] >= 1 {
        OneEdgePerEntry(adj, t, r);
        var k: nat :| EdgeFor(edges, k, t, r);
        SelectFinds(edges, Out, t, k);
      }
    }
    if Select(edges, In, t) != [] {
      SelectIsSound(edges, In, t, 0);
      assert Faithful(adj, |adj|, 0, edges, Select(edges, In, t)[0]);
    }
    if Select(edges, Out, t) != [] {
      SelectIsSound(edges, Out, t, 0);
      assert Faithful(adj, |adj|, 0, edges, Select(edges, Out, t)[0]);
    }
  }
}
