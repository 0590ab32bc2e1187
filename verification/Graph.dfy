/** Acyclic adjacency matrices: a graph without closed walks has a topological order. */
module Graph {
  import opened Wiring

  ghost predicate Walk(adj: Matrix, w: seq<nat>)
    requires Square(adj)
  {
    && |w| >= 1
    && (forall k :: 0 <= k < |w| ==> w[k] < |adj|)
    && forall k: nat :: k < |w| - 1 ==> Linked(adj, w, k)
  }

  /** An edge leads from position `k` of the walk to the next. */
  predicate Linked(adj: Matrix, w: seq<nat>, k: nat)
    requires Square(adj) && k + 1 < |w| && w[k] < |adj| && w[k + 1] < |adj|
  {
    adj[w[k]][w[k + 1]] >= 1
  }

  /** No walk of one or more edges returns to its start. */
  ghost predicate Acyclic(adj: Matrix)
    requires Square(adj)
  {
    forall w: seq<nat> {:trigger Walk(adj, w)} :: Walk(adj, w) && |w| >= 2 ==> w[0] != w[|w| - 1]
  }

  // --- a topological order excludes closed walks ---

  lemma {:induction false} RankGrowsAlongWalk(adj: Matrix, rank: seq<nat>, w: seq<nat>)
    requires Square(adj) && Topological(adj, rank) && Walk(adj, w)
    ensures rank[w[0]] + |w| - 1 <= rank[w[|w| - 1]]
  {
    if |w| > 1 {
      var rest := w[..|w| - 1];
      forall k: nat | k < |rest| - 1 ensures Linked(adj, rest, k) {
        assert Linked(adj, w, k);
      }
      RankGrowsAlongWalk(adj, rank, rest);
      assert Linked(adj, w, |w| - 2);
    }
  }

  // --- and an acyclic graph has one: the length of the longest walk into each task ---

  /** The longest walk into `v` of at most `f` edges. */
  function Height(adj: Matrix, v: nat, f: nat): (h: nat)
    requires Square(adj) && v < |adj|
    ensures h <= f
    decreases f, |adj| + 1
  {
    if f == 0 then 0 else HeightOver(adj, v, f, |adj|)
  }

  /** The same, when the last edge comes from one of the tasks below `k`. */
  function HeightOver(adj: Matrix, v: nat, f: nat, k: nat): (h: nat)
    requires Square(adj) && v < |adj| && f >= 1 && k <= |adj|
    ensures h <= f
    decreases f, k
  {
    if k == 0 then 0
    else
      var best := HeightOver(adj, v, f, k - 1);
      if adj[k - 1][v] >= 1 && 1 + Height(adj, k - 1, f - 1) > best then 1 + Height(adj, k - 1, f - 1) else best
  }

  lemma {:induction false} HeightOverPredecessor(adj: Matrix, v: nat, f: nat, k: nat, u: nat)
    requires Square(adj) && v < |adj| && f >= 1 && u < k <= |adj| && adj[u][v] >= 1
    ensures HeightOver(adj, v, f, k) >= 1 + Height(adj, u, f - 1)
    decreases k
  {
    if u < k - 1 {
      HeightOverPredecessor(adj, v, f, k - 1, u);
    }
  }

  /** A positive height comes from some predecessor. */
  lemma {:induction false} HeightOverComesFrom(adj: Matrix, v: nat, f: nat, k: nat) returns (u: nat)
    requires Square(adj) && v < |adj| && f >= 1 && k <= |adj| && HeightOver(adj, v, f, k) > 0
    ensures u < |adj| && adj[u][v] >= 1 && HeightOver(adj, v, f, k) == 1 + Height(adj, u, f - 1)
    decreases k
  {
    if HeightOver(adj, v, f, k) == HeightOver(adj, v, f, k - 1) {
      u := HeightOverComesFrom(adj, v, f, k - 1);
    } else {
      u := k - 1;
    }
  }

  lemma {:induction false} WalkOfHeight(adj: Matrix, v: nat, f: nat) returns (w: seq<nat>)
    requires Square(adj) && v < |adj|
    ensures Walk(adj, w) && |w| == Height(adj, v, f) + 1 && w[|w| - 1] == v
    decreases f
  {
    if Height(adj, v, f) == 0 {
      w := [v];
    } else {
      var u := HeightOverComesFrom(adj, v, f, |adj|);
      var start := WalkOfHeight(adj, u, f - 1);
      w := start + [v];
      forall k: nat | k < |w| - 1 ensures Linked(adj, w, k) {
        assert k < |start| - 1 ==> Linked(adj, start, k);
      }
    }
  }

  /** Raising the bound only helps walks that already used all of it. */
  lemma {:induction false} HeightIsStable(adj: Matrix, v: nat, f: nat)
    requires Square(adj) && v < |adj|
    ensures Height(adj, v, f) >= f || Height(adj, v, f) >= Height(adj, v, f + 1)
    decreases f
  {
    if f > 0 && Height(adj, v, f + 1) > 0 {
      var u := HeightOverComesFrom(adj, v, f + 1, |adj|);
      HeightIsStable(adj, u, f - 1);
      HeightOverPredecessor(adj, v, f, |adj|, u);
    }
  }

  function Elements(w: seq<nat>): set<nat> {
    set k | 0 <= k < |w| :: w[k]
  }

  lemma {:induction false} DistinctElements(w: seq<nat>)
    requires forall i, j :: 0 <= i < j < |w| ==> w[i] != w[j]
    ensures |Elements(w)| == |w|
  {
    if w != [] {
      var rest, last := w[..|w| - 1], w[|w| - 1];
      DistinctElements(rest);
      assert Elements(w) == Elements(rest) + {last} by {
        assert forall k :: 0 <= k < |rest| ==> rest[k] == w[k];
      }
      assert last !in Elements(rest);
    }
  }

  lemma {:induction false} BoundedSet(s: set<nat>, n: nat)
    requires forall x :: x in s ==> x < n
    ensures |s| <= n
  {
    if n > 0 {
      BoundedSet(s - {n - 1}, n - 1);
    } else {
      assert s == {};
    }
  }

  /** More positions than tasks: some task occurs twice. */
  lemma Pigeonhole(w: seq<nat>, n: nat) returns (i: nat, j: nat)
    requires |w| > n && forall k :: 0 <= k < |w| ==> w[k] < n
    ensures i < j < |w| && w[i] == w[j]
  {
    if forall a, b :: 0 <= a < b < |w| ==> w[a] != w[b] {
      DistinctElements(w);
      BoundedSet(Elements(w), n);
      assert false;
    }
    i, j :| i < j < |w| && w[i] == w[j];
  }

  lemma PartOfWalk(adj: Matrix, w: seq<nat>, i: nat, j: nat)
    requires Square(adj) && Walk(adj, w) && i <= j < |w|
    ensures Walk(adj, w[i..j + 1])
  {
    var part := w[i..j + 1];
    forall k: nat | k < |part| - 1 ensures Linked(adj, part, k) {
      assert Linked(adj, w, i + k);
    }
  }

  lemma WalksAreShort(adj: Matrix, w: seq<nat>)
    requires Square(adj) && Acyclic(adj) && Walk(adj, w)
    ensures |w| <= |adj|
  {
    if |w| > |adj| {
      var i, j := Pigeonhole(w, |adj|);
      PartOfWalk(adj, w, i, j);
    }
  }

  lemma AcyclicHasOrder(adj: Matrix) returns (rank: seq<nat>)
    requires Square(adj) && Acyclic(adj)
    ensures Topological(adj, rank)
  {
    var n := |adj|;
    rank := seq(n, v requires 0 <= v < n => Height(adj, v, n));
    forall s, r | 0 <= s < n && 0 <= r < n && adj[s][r] >= 1 ensures rank[s] < rank[r] {
      var w := WalkOfHeight(adj, s, n);
      WalksAreShort(adj, w);
      HeightIsStable(adj, s, n - 1);
      HeightOverPredecessor(adj, r, n, n, s);
    }
  }

  /** A graph is acyclic iff its tasks can be ordered so that every edge goes upwards. */
  lemma AcyclicIffOrdered(adj: Matrix)
    requires Square(adj)
    ensures Acyclic(adj) <==> exists rank :: Topological(adj, rank)
  {
    if Acyclic(adj) {
      var rank := AcyclicHasOrder(adj);
    } else if exists rank :: Topological(adj, rank) {
      var rank :| Topological(adj, rank);
      forall w: seq<nat> | Walk(adj, w) && |w| >= 2 ensures w[0] != w[|w| - 1] {
        RankGrowsAlongWalk(adj, rank, w);
      }
    }
  }

  lemma AcyclicHasNoSelfLoop(adj: Matrix)
    requires Square(adj) && Acyclic(adj)
    ensures NoSelfLoop(adj)
  {
    forall t | 0 <= t < |adj| ensures adj[t][t] < 1 {
      var w := [t, t];
      assert !Walk(adj, w);
      assert Linked(adj, w, 0) <==> adj[t][t] >= 1;
    }
  }
}
