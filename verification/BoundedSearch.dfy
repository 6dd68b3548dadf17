/** Depth-limited breadth-first search over a finite graph: invariant and exactness. */
module BoundedSearch {

  datatype Graph<V> = Graph(next: map<V, set<V>>, roots: set<V>)

  datatype Item<V> = Item(vertex: V, depth: nat)

  ghost predicate IsHop<V>(g: Graph<V>, u: V, v: V) { u in g.next && v in g.next[u] }

  /** The vertices one hop from `from`. */
  ghost function Frontier<V>(g: Graph<V>, from: set<V>): set<V> {
    set u, v | u in from && u in g.next && v in g.next[u] :: v
  }

  /** The vertices within `d` hops of the roots. */
  ghost function Reach<V>(g: Graph<V>, d: nat): set<V> {
    if d == 0 then g.roots else Reach(g, d - 1) + Frontier(g, Reach(g, d - 1))
  }

  /** `d` is the least number of hops from a root to `v`. */
  ghost predicate Shortest<V>(g: Graph<V>, v: V, d: nat) {
    v in Reach(g, d) && (d > 0 ==> v !in Reach(g, d - 1))
  }

  lemma {:induction false} ReachMonotone<V>(g: Graph<V>, c: nat, d: nat)
    requires c <= d
    ensures Reach(g, c) <= Reach(g, d)
  {
    if c < d { ReachMonotone(g, c, d - 1); }
  }

  lemma ReachHop<V>(g: Graph<V>, d: nat, u: V, v: V)
    requires u in Reach(g, d) && IsHop(g, u, v)
    ensures v in Reach(g, d + 1)
  {
    assert v in Frontier(g, Reach(g, d));
  }

  // ---------- the invariant ----------

  ghost predicate Sound<V>(g: Graph<V>, limit: nat, queue: seq<Item<V>>, depth: map<V, nat>) {
    && (forall q :: q in queue ==> q.depth <= limit && q.vertex in Reach(g, q.depth))
    && (forall v :: v in depth ==> depth[v] <= limit && Shortest(g, v, depth[v]))
  }

  /** First in, first out: depths in the queue never fall, span at most two values, and
      are no smaller than those of visited vertices. */
  ghost predicate Layered<V>(queue: seq<Item<V>>, depth: map<V, nat>) {
    && (forall i, j :: 0 <= i < j < |queue| ==> queue[i].depth <= queue[j].depth <= queue[i].depth + 1)
    && (forall q, v :: q in queue && v in depth ==> depth[v] <= q.depth)
  }

  /** `v` is visited or queued at depth at most `d`. */
  ghost predicate Covered<V>(queue: seq<Item<V>>, depth: map<V, nat>, v: V, d: nat) {
    (v in depth && depth[v] <= d) || exists q :: q in queue && q.vertex == v && q.depth <= d
  }

  /** Roots are covered, and so is every hop from a visited vertex above the limit. */
  ghost predicate Complete<V(!new)>(g: Graph<V>, limit: nat, queue: seq<Item<V>>, depth: map<V, nat>) {
    && (forall r :: r in g.roots ==> Covered(queue, depth, r, 0))
    && (forall u, v :: u in depth && depth[u] < limit && IsHop(g, u, v) ==> Covered(queue, depth, v, depth[u] + 1))
  }

  ghost predicate Invariant<V(!new)>(g: Graph<V>, limit: nat, queue: seq<Item<V>>, depth: map<V, nat>) {
    Sound(g, limit, queue, depth) && Layered(queue, depth) && Complete(g, limit, queue, depth)
  }

  /** With nothing queued above depth `d`, every vertex within `k < d` hops is visited. */
  lemma {:induction false} CloserAreVisited<V(!new)>(
      g: Graph<V>, limit: nat, queue: seq<Item<V>>, depth: map<V, nat>, d: nat, k: nat, v: V)
    requires Complete(g, limit, queue, depth)
    requires forall q :: q in queue ==> q.depth >= d
    requires k < d && k <= limit && v in Reach(g, k)
    ensures v in depth && depth[v] <= k
  {
    if k == 0 {
      assert Covered(queue, depth, v, 0);
    } else if v in Reach(g, k - 1) {
      CloserAreVisited(g, limit, queue, depth, d, k - 1, v);
    } else {
      assert v in Frontier(g, Reach(g, k - 1));
      var u :| u in Reach(g, k - 1) && u in g.next && v in g.next[u];
      assert IsHop(g, u, v);
      CloserAreVisited(g, limit, queue, depth, d, k - 1, u);
      assert Covered(queue, depth, v, depth[u] + 1);
    }
  }

  lemma Start<V(!new)>(g: Graph<V>, limit: nat, queue: seq<Item<V>>)
    requires forall q :: q in queue <==> q.depth == 0 && q.vertex in g.roots
    ensures Invariant(g, limit, queue, map[])
  {
    forall r | r in g.roots ensures Covered(queue, map[], r, 0) {
      assert Item(r, 0) in queue;
    }
    forall i, j | 0 <= i < j < |queue| ensures queue[i].depth <= queue[j].depth <= queue[i].depth + 1 {
      assert queue[i] in queue && queue[j] in queue;
    }
  }

  /** Skipping a vertex that was already visited. */
  lemma Skip<V(!new)>(g: Graph<V>, limit: nat, queue: seq<Item<V>>, depth: map<V, nat>)
    requires Invariant(g, limit, queue, depth) && queue != [] && queue[0].vertex in depth
    ensures Invariant(g, limit, queue[1..], depth)
  {
    var rest := queue[1..];
    assert queue[0] in queue && forall q :: q in rest ==> q in queue;
    forall v, d: nat | Covered(queue, depth, v, d) ensures Covered(rest, depth, v, d) {
      if !(v in depth && depth[v] <= d) {
        var q :| q in queue && q.vertex == v && q.depth <= d;
        assert q == queue[0] || q in rest;
      }
    }
  }

  lemma QueueDepths<V(!new)>(queue: seq<Item<V>>, depth: map<V, nat>)
    requires Layered(queue, depth) && queue != []
    ensures forall q :: q in queue ==> queue[0].depth <= q.depth <= queue[0].depth + 1
  {
    forall q | q in queue ensures queue[0].depth <= q.depth <= queue[0].depth + 1 {
      var i :| 0 <= i < |queue| && queue[i] == q;
    }
  }

  /** The vertex popped is labelled with its shortest distance. */
  lemma PoppedIsShortest<V(!new)>(g: Graph<V>, limit: nat, queue: seq<Item<V>>, depth: map<V, nat>)
    requires Invariant(g, limit, queue, depth) && queue != [] && queue[0].vertex !in depth
    ensures Shortest(g, queue[0].vertex, queue[0].depth)
  {
    var q := queue[0];
    assert q in queue;
    QueueDepths(queue, depth);
    if q.depth > 0 {
      assert q.vertex !in Reach(g, q.depth - 1) by {
        if q.vertex in Reach(g, q.depth - 1) {
          CloserAreVisited(g, limit, queue, depth, q.depth, q.depth - 1, q.vertex);
        }
      }
    }
  }

  /** Visiting the head: sound and layered, and nothing loses its cover. */
  lemma VisitHead<V(!new)>(g: Graph<V>, limit: nat, queue: seq<Item<V>>, depth: map<V, nat>)
    requires Invariant(g, limit, queue, depth) && queue != [] && queue[0].vertex !in depth
    ensures var q := queue[0];
            var depth' := depth[q.vertex := q.depth];
            && Sound(g, limit, queue[1..], depth') && Layered(queue[1..], depth')
            && (forall v, d: nat :: Covered(queue, depth, v, d) ==> Covered(queue[1..], depth', v, d))
            && (forall v :: v in depth' ==> depth'[v] <= q.depth)
            && (forall p :: p in queue[1..] ==> q.depth <= p.depth <= q.depth + 1)
  {
    var q, rest := queue[0], queue[1..];
    var depth' := depth[q.vertex := q.depth];
    PoppedIsShortest(g, limit, queue, depth);
    QueueDepths(queue, depth);
    assert q in queue && forall p :: p in rest ==> p in queue;
    forall v, d: nat | Covered(queue, depth, v, d) ensures Covered(rest, depth', v, d) {
      if !(v in depth && depth[v] <= d) {
        var p :| p in queue && p.vertex == v && p.depth <= d;
        assert p == q || p in rest;
      }
    }
  }

  /** Visiting a vertex at the limit. */
  lemma VisitAtLimit<V(!new)>(g: Graph<V>, limit: nat, queue: seq<Item<V>>, depth: map<V, nat>)
    requires Invariant(g, limit, queue, depth) && queue != [] && queue[0].vertex !in depth
    requires queue[0].depth >= limit
    ensures Invariant(g, limit, queue[1..], depth[queue[0].vertex := queue[0].depth])
  {
    VisitHead(g, limit, queue, depth);
    var depth' := depth[queue[0].vertex := queue[0].depth];
    forall u, v | u in depth' && depth'[u] < limit && IsHop(g, u, v)
      ensures Covered(queue[1..], depth', v, depth'[u] + 1)
    {
      assert Covered(queue, depth, v, depth[u] + 1);
    }
  }

  /** Visiting a vertex and enqueueing (in any order, with repetitions) its unvisited hops. */
  lemma Expand<V(!new)>(g: Graph<V>, limit: nat, queue: seq<Item<V>>, depth: map<V, nat>, pushed: seq<Item<V>>)
    requires Invariant(g, limit, queue, depth) && queue != [] && queue[0].vertex !in depth
    requires queue[0].depth < limit
    requires var q := queue[0];
             forall p :: p in pushed <==>
               p.depth == q.depth + 1 && IsHop(g, q.vertex, p.vertex) && p.vertex !in depth[q.vertex := q.depth]
    ensures Invariant(g, limit, queue[1..] + pushed, depth[queue[0].vertex := queue[0].depth])
  {
    var q, rest := queue[0], queue[1..];
    var depth' := depth[q.vertex := q.depth];
    VisitHead(g, limit, queue, depth);
    assert q in queue;
    forall p | p in pushed ensures p.vertex in Reach(g, p.depth) { ReachHop(g, q.depth, q.vertex, p.vertex); }
    LayeredConcat(q, rest, pushed, depth');
    ExpandComplete(g, limit, queue, depth, pushed);
  }

  lemma LayeredConcat<V(!new)>(q: Item<V>, rest: seq<Item<V>>, pushed: seq<Item<V>>, depth: map<V, nat>)
    requires Layered(rest, depth)
    requires forall p :: p in rest ==> q.depth <= p.depth <= q.depth + 1
    requires forall p :: p in pushed ==> p.depth == q.depth + 1
    requires forall v :: v in depth ==> depth[v] <= q.depth
    ensures Layered(rest + pushed, depth)
  {
    var next := rest + pushed;
    forall i, j | 0 <= i < j < |next| ensures next[i].depth <= next[j].depth <= next[i].depth + 1 {
      assert if i < |rest| then next[i] == rest[i] && rest[i] in rest else next[i] in pushed;
      assert if j < |rest| then next[j] == rest[j] && rest[j] in rest else next[j] in pushed;
    }
  }

  lemma ExpandComplete<V(!new)>(g: Graph<V>, limit: nat, queue: seq<Item<V>>, depth: map<V, nat>, pushed: seq<Item<V>>)
    requires Complete(g, limit, queue, depth) && queue != [] && queue[0].vertex !in depth
    requires var q := queue[0];
             forall p :: p in pushed <==>
               p.depth == q.depth + 1 && IsHop(g, q.vertex, p.vertex) && p.vertex !in depth[q.vertex := q.depth]
    requires var depth' := depth[queue[0].vertex := queue[0].depth];
             && (forall v, d: nat :: Covered(queue, depth, v, d) ==> Covered(queue[1..], depth', v, d))
             && (forall v :: v in depth' ==> depth'[v] <= queue[0].depth)
    ensures Complete(g, limit, queue[1..] + pushed, depth[queue[0].vertex := queue[0].depth])
  {
    var q, rest := queue[0], queue[1..];
    var depth', next := depth[q.vertex := q.depth], rest + pushed;
    forall v, d: nat | Covered(queue, depth, v, d) ensures Covered(next, depth', v, d) {
      assert Covered(rest, depth', v, d);
    }
    forall u, v | u in depth' && depth'[u] < limit && IsHop(g, u, v)
      ensures Covered(next, depth', v, depth'[u] + 1)
    {
      if u == q.vertex {
        if v !in depth' { assert Item(v, q.depth + 1) in pushed; }
      } else {
        assert Covered(queue, depth, v, depth[u] + 1);
      }
    }
  }

  /** Vertices are visited closest first: whatever is nearer than a visited vertex, or than
      the head of the queue, is visited too. */
  lemma ClosestFirst<V(!new)>(g: Graph<V>, limit: nat, queue: seq<Item<V>>, depth: map<V, nat>, d: nat, k: nat, w: V)
    requires Invariant(g, limit, queue, depth) && w in Reach(g, k) && k < d
    requires (exists v :: v in depth && depth[v] == d) || (queue != [] && queue[0].depth == d)
    ensures w in depth
  {
    assert queue != [] ==> queue[0] in queue;
    if queue != [] { QueueDepths(queue, depth); }
    CloserAreVisited(g, limit, queue, depth, d, k, w);
  }

  /** When the queue runs empty the visited vertices are exactly those within the limit. */
  lemma Exhausted<V(!new)>(g: Graph<V>, limit: nat, depth: map<V, nat>)
    requires Invariant(g, limit, [], depth)
    ensures depth.Keys == Reach(g, limit)
  {
    forall v | v in Reach(g, limit) ensures v in depth {
      CloserAreVisited(g, limit, [], depth, limit + 1, limit, v);
    }
    forall v | v in depth ensures v in Reach(g, limit) {
      ReachMonotone(g, depth[v], limit);
    }
  }
}
