/** Safety of the unlocked message buffers, for any acyclic graph with one originator and one sink.
    Everything here follows from the conservation invariants by going along the edges: counts can only
    fall from the originator to the sink, and the `start_time` slot ties the two ends together. */
module DagSafety {
  import opened Common
  import opened Messages
  import opened DagModel
  import opened DagInvariant

  ghost predicate Good(cfg: Config, s: State, o: nat, z: nat, rank: seq<nat>) {
    Inv(cfg, s, o) && OneSink(cfg, z) && Ranks(cfg, rank)
  }

  // --- along the edges ---

  lemma PushedAtMostBegan(cfg: Config, t: nat, c: Control, j: nat)
    requires Wired(cfg) && t < |cfg.ins| && PcOk(cfg, t, c) && j < |cfg.outs[t]|
    ensures c.iter <= PushedOut(c, j) <= Began(c) <= c.iter + 1
  {
  }

  /** A receiver has begun no more activations than were pushed to it, and at most one fewer. */
  lemma AlongEdge(cfg: Config, s: State, o: nat, r: nat, i: nat)
    requires Inv(cfg, s, o) && r < |cfg.ins| && i < |cfg.ins[r]|
    ensures var e := cfg.ins[r][i];
            && Began(s.control[r]) <= PushedOut(s.control[e.task], e.idx) <= Began(s.control[r]) + 1
            && PushedOut(s.control[e.task], e.idx) <= Began(s.control[e.task])
  {
    assert SlotCounts(cfg, s, r, i);
    var e := cfg.ins[r][i];
    PushedAtMostBegan(cfg, e.task, s.control[e.task], e.idx);
  }

  /** Every task is reached from the originator: none is ahead of it. */
  lemma {:induction false} NoneAheadOfOriginator(cfg: Config, s: State, o: nat, rank: seq<nat>, t: nat)
    requires Inv(cfg, s, o) && Ranks(cfg, rank) && t < |cfg.ins|
    ensures Began(s.control[t]) <= Began(s.control[o])
    decreases rank[t]
  {
    if t != o {
      assert !IsOriginator(cfg, t);
      AlongEdge(cfg, s, o, t, 0);
      NoneAheadOfOriginator(cfg, s, o, rank, cfg.ins[t][0].task);
    }
  }

  function Top(rank: seq<nat>): (m: nat)
    ensures forall t :: 0 <= t < |rank| ==> rank[t] <= m
  {
    if rank == [] then 0
    else
      var rest, x := Top(rank[..|rank| - 1]), rank[|rank| - 1];
      assert forall t :: 0 <= t < |rank| - 1 ==> rank[..|rank| - 1][t] == rank[t];
      if x > rest then x else rest
  }

  /** Every task reaches the sink: none is behind what the sink has finished. */
  lemma {:induction false} NoneBehindSink(cfg: Config, s: State, o: nat, z: nat, rank: seq<nat>, t: nat)
    requires Good(cfg, s, o, z, rank) && t < |cfg.ins|
    ensures StartPops(s.control[z]) <= Began(s.control[t])
    decreases Top(rank) - rank[t]
  {
    if t != z {
      assert !IsSink(cfg, t);
      var e := cfg.outs[t][0];
      assert cfg.ins[e.task][e.idx].task == t;
      assert rank[t] < rank[e.task];
      NoneBehindSink(cfg, s, o, z, rank, e.task);
      AlongEdge(cfg, s, o, e.task, e.idx);
    }
  }

  lemma OnlyTheSinkPops(cfg: Config, s: State, o: nat, z: nat)
    requires Inv(cfg, s, o) && OneSink(cfg, z)
    ensures Began(s.control[o]) == StartPops(s.control[z]) + if s.start[0].Some? then 1 else 0
  {
    SumSingle(SinkPops(cfg, s), z);
  }

  /** Bounded skew: whatever the depth of the graph, the activations begun by any two tasks differ by
      at most one. */
  lemma BoundedSkew(cfg: Config, s: State, o: nat, z: nat, rank: seq<nat>, t: nat, u: nat)
    requires Good(cfg, s, o, z, rank) && t < |cfg.ins| && u < |cfg.ins|
    ensures Began(s.control[t]) <= Began(s.control[u]) + 1
  {
    NoneAheadOfOriginator(cfg, s, o, rank, t);
    NoneBehindSink(cfg, s, o, z, rank, u);
    OnlyTheSinkPops(cfg, s, o, z);
  }

  /** While a task still has something to deliver in activation k, nobody has begun activation k + 1. */
  lemma NobodyOvertakes(cfg: Config, s: State, o: nat, z: nat, rank: seq<nat>, t: nat, u: nat)
    requires Good(cfg, s, o, z, rank) && t < |cfg.ins| && u < |cfg.ins|
    requires !s.control[t].pc.PeriodWait?
    ensures StartPops(s.control[z]) <= s.control[t].iter
    ensures Began(s.control[u]) <= s.control[t].iter + 1
  {
    var c := s.control[t];
    if t != z {
      assert !IsSink(cfg, t);
      var j := match c.pc case WriteBegin(q) => q case WriteEnd(q) => q case PushOut(q) => q case _ => 0;
      var e := cfg.outs[t][j];
      AlongEdge(cfg, s, o, e.task, e.idx);
      assert PushedOut(c, j) == c.iter;
      NoneBehindSink(cfg, s, o, z, rank, e.task);
    }
    NoneAheadOfOriginator(cfg, s, o, rank, u);
    OnlyTheSinkPops(cfg, s, o, z);
  }

  // --- unlocked messages ---

  /** The sender of the j-th out-edge is writing its message, or is about to, or has written it and not yet pushed. */
  predicate InWriteWindow(c: Control, j: nat) {
    c.pc == WriteBegin(j) || c.pc == WriteEnd(j) || c.pc == PushOut(j)
  }

  /** While the receiver reads, its senders have written and pushed their k-th message and no other. */
  lemma SenderHasPushedOnce(cfg: Config, s: State, o: nat, z: nat, rank: seq<nat>, r: nat, i: nat)
    requires Good(cfg, s, o, z, rank) && r < |cfg.ins| && i < |cfg.ins[r]|
    requires s.control[r].pc.Read?
    ensures var e, k := cfg.ins[r][i], s.control[r].iter;
            && !InWriteWindow(s.control[e.task], e.idx)
            && WrittenOut(s.control[e.task], e.idx) == k + 1
            && s.queues[r][i].None?
  {
    var e := cfg.ins[r][i];
    assert SlotCounts(cfg, s, r, i);
    AlongEdge(cfg, s, o, r, i);
    NobodyOvertakes(cfg, s, o, z, rank, r, e.task);
  }

  /** Unlocked message integrity. From the pop of activation k to its last read, the receiver's senders
      are outside their write windows, and every input buffer holds exactly the sender's k-th message,
      whose only NUL is its last byte. */
  lemma UnlockedReadsAreSafe(cfg: Config, s: State, o: nat, z: nat, rank: seq<nat>, r: nat, i: nat)
    requires Good(cfg, s, o, z, rank) && r < |cfg.ins| && i < |cfg.ins[r]|
    requires s.control[r].pc.Read?
    ensures End(r, i) in s.msgs
    ensures var e, k, size := cfg.ins[r][i], s.control[r].iter, cfg.sizes[r][i];
            && !InWriteWindow(s.control[e.task], e.idx)
            && s.msgs[End(r, i)] == Fit(cfg.texts(e.task, k), size)
            && WellFormed(s.msgs[End(r, i)], size)
  {
    assert End(r, i) in Edges(cfg);
    SenderHasPushedOnce(cfg, s, o, z, rank, r, i);
    assert MessageCounts(cfg, s, r, i);
    HoldsLatest(cfg, r, i, s.control[cfg.ins[r][i].task], s.msgs[End(r, i)], s.control[r].iter);
    FitIsWellFormed(cfg.texts(cfg.ins[r][i].task, s.control[r].iter), cfg.sizes[r][i]);
  }

  lemma HoldsLatest(cfg: Config, r: nat, i: nat, sender: Control, msg: seq<Byte>, k: nat)
    requires Wired(cfg) && r < |cfg.ins| && i < |cfg.ins[r]| && Holds(cfg, r, i, sender, msg)
    requires !InWriteWindow(sender, cfg.ins[r][i].idx) && WrittenOut(sender, cfg.ins[r][i].idx) == k + 1
    ensures msg == Fit(cfg.texts(cfg.ins[r][i].task, k), cfg.sizes[r][i])
  {
  }

  // --- who can block ---

  /** No push to another task ever finds its slot occupied. */
  lemma EdgePushNeverBlocks(cfg: Config, s: State, o: nat, z: nat, rank: seq<nat>, t: nat)
    requires Good(cfg, s, o, z, rank) && ShiftsDefined(cfg) && t < |cfg.ins| && s.control[t].pc.PushOut?
    ensures Enabled(cfg, s, t)
  {
    var j := s.control[t].pc.j;
    var e := cfg.outs[t][j];
    assert SlotCounts(cfg, s, e.task, e.idx);
    NoneAheadOfOriginator(cfg, s, o, rank, t);
    NoneBehindSink(cfg, s, o, z, rank, e.task);
    OnlyTheSinkPops(cfg, s, o, z);
  }

  /** The sink never waits for the start time. */
  lemma StartPopNeverBlocks(cfg: Config, s: State, o: nat, z: nat, rank: seq<nat>)
    requires Good(cfg, s, o, z, rank) && s.control[z].pc.StartPop?
    ensures Enabled(cfg, s, z)
  {
    NoneAheadOfOriginator(cfg, s, o, rank, z);
    OnlyTheSinkPops(cfg, s, o, z);
  }

  /** Global serialisation. When the originator's push of instant k can complete, the whole of activation
      k - 1 is over: every other task has consumed and read its inputs, has delivered its outputs and
      stands at its next input pop, and every slot is empty. */
  lemma StartPushMeetsAnEmptyDag(cfg: Config, s: State, o: nat, z: nat, rank: seq<nat>)
    requires Good(cfg, s, o, z, rank) && s.control[o].pc.StartPush? && Enabled(cfg, s, o)
    ensures forall t :: 0 <= t < |cfg.ins| && t != o ==> s.control[t] == Control(s.control[o].iter, PopInputs)
    ensures forall r, i :: 0 <= r < |cfg.ins| && 0 <= i < |cfg.ins[r]| ==> s.queues[r][i].None?
    ensures s.start[0].None?
  {
    var k := s.control[o].iter;
    OnlyTheSinkPops(cfg, s, o, z);
    forall t | 0 <= t < |cfg.ins| && t != o ensures s.control[t] == Control(k, PopInputs) {
      NoneAheadOfOriginator(cfg, s, o, rank, t);
      NobodyOvertakes(cfg, s, o, z, rank, t, t);
    }
    forall r, i | 0 <= r < |cfg.ins| && 0 <= i < |cfg.ins[r]| ensures s.queues[r][i].None? {
      assert SlotCounts(cfg, s, r, i);
      NoneAheadOfOriginator(cfg, s, o, rank, cfg.ins[r][i].task);
      PushedAtMostBegan(cfg, cfg.ins[r][i].task, s.control[cfg.ins[r][i].task], cfg.ins[r][i].idx);
    }
  }
}
