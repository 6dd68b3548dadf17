/** The bounded breadth-first search behind the audit correlation graph. */
module AuditGraph {
  import opened Text
  import opened BoundedSearch

  type Id = Text

  /** The fields of an audit record that the traversal reads. */
  datatype Rec = Rec(id: Id, parentId: Option<Id>, correlationId: Option<Text>, organizationId: Option<Text>)

  datatype Direction = UP | DOWN | BOTH

  datatype Relationship = PARENT | CHILD | CORRELATION

  datatype Edge = Edge(fromNode: Id, toNode: Id, relationship: Relationship)

  datatype Node = Node(record: Rec, depth: nat)

  datatype MissingReason = RETENTION_EXPIRED | CROSS_TENANT_BLOCKED | DEPTH_LIMIT_REACHED

  datatype Missing = Missing(source: Id, target: Id, reason: MissingReason)

  /** What the table answers to one tenant: rows by id, and the capped `findMany` lists. */
  datatype GraphDb = GraphDb(
    records: map<Id, Rec>, children: map<Id, seq<Rec>>, correlated: map<Id, seq<Rec>>,
    byCorrelation: map<Text, seq<Rec>>)

  /** JavaScript truthiness of an optional string. */
  predicate Present(o: Option<Text>) { o.Some? && o.value != [] }

  function ListOf(lists: map<Id, seq<Rec>>, id: Id): seq<Rec> { if id in lists then lists[id] else [] }

  predicate Holds(db: GraphDb, org: Text, r: Rec) {
    r.id in db.records && db.records[r.id] == r && r.organizationId == Some(org)
  }

  /** The lists hold this tenant's rows, with the parent or correlation asked for. */
  ghost predicate Answers(db: GraphDb, org: Text) {
    && (forall id :: id in db.records ==> db.records[id].id == id)
    && (forall id, c :: id in db.children && c in db.children[id] ==> Holds(db, org, c) && c.parentId == Some(id))
    && (forall id, c :: id in db.correlated && c in db.correlated[id] ==>
          Holds(db, org, c) && c.id != id && id in db.records && c.correlationId == db.records[id].correlationId)
    && (forall k, c :: k in db.byCorrelation && c in db.byCorrelation[k] ==> Holds(db, org, c) && c.correlationId == Some(k))
  }

  /** One traversal: the table, the tenant, the direction, the depth limit and the starting rows. */
  datatype Search = Search(db: GraphDb, org: Text, direction: Direction, maxDepth: nat, roots: seq<Rec>)

  ghost predicate ValidSearch(s: Search) {
    Answers(s.db, s.org) && forall r :: r in s.roots ==> Holds(s.db, s.org, r)
  }

  // ---------- neighbours ----------

  /** The row's parent, when it exists and belongs to the tenant. */
  function ParentOf(s: Search, r: Rec): seq<Rec> {
    if s.direction != DOWN && Present(r.parentId) && r.parentId.value in s.db.records
       && s.db.records[r.parentId.value].organizationId == Some(s.org)
    then [s.db.records[r.parentId.value]] else []
  }

  function ChildrenOf(s: Search, r: Rec): seq<Rec> { if s.direction != UP then ListOf(s.db.children, r.id) else [] }

  function CorrelatedOf(s: Search, r: Rec): seq<Rec> {
    if Present(r.correlationId) then ListOf(s.db.correlated, r.id) else []
  }

  function Related(s: Search, r: Rec, relationship: Relationship): seq<Rec> {
    match relationship
    case PARENT => ParentOf(s, r)
    case CHILD => ChildrenOf(s, r)
    case CORRELATION => CorrelatedOf(s, r)
  }

  function Neighbours(s: Search, r: Rec): seq<Rec> { ParentOf(s, r) + ChildrenOf(s, r) + CorrelatedOf(s, r) }

  /** The graph the traversal explores. */
  ghost function Hops(s: Search): Graph<Id> {
    Graph(map u | u in s.db.records :: (set r | r in Neighbours(s, s.db.records[u]) :: r.id),
          set r | r in s.roots :: r.id)
  }

  lemma NeighboursHold(s: Search, r: Rec)
    requires ValidSearch(s)
    ensures forall n :: n in Neighbours(s, r) ==> Holds(s.db, s.org, n)
  {
    forall n | n in Neighbours(s, r) ensures Holds(s.db, s.org, n) {
      assert n in ParentOf(s, r) || n in ChildrenOf(s, r) || n in CorrelatedOf(s, r);
    }
  }

  /** `g` is that graph, said without naming it. */
  ghost predicate Models(g: Graph<Id>, s: Search) {
    && (forall v :: v in g.roots <==> exists r :: r in s.roots && r.id == v)
    && (forall u, v :: u in s.db.records ==>
          (IsHop(g, u, v) <==> exists r :: r in Neighbours(s, s.db.records[u]) && r.id == v))
  }

  lemma HopsModel(s: Search)
    ensures Models(Hops(s), s)
  {
  }

  // ---------- edges ----------

  /** `e` states a relation that the table holds. */
  ghost predicate Justified(s: Search, e: Edge) {
    e.fromNode in s.db.records
    && exists r :: r in Related(s, s.db.records[e.fromNode], e.relationship) && r.id == e.toNode
  }

  /** What an edge says of the two rows it joins. */
  ghost predicate Tells(s: Search, e: Edge) {
    && e.fromNode in s.db.records && e.toNode in s.db.records
    && s.db.records[e.toNode].organizationId == Some(s.org)
    && var a, b := s.db.records[e.fromNode], s.db.records[e.toNode];
       match e.relationship
       case PARENT => s.direction != DOWN && a.parentId == Some(e.toNode) && e.toNode != []
       case CHILD => s.direction != UP && b.parentId == Some(e.fromNode)
       case CORRELATION => e.fromNode != e.toNode && Present(a.correlationId) && a.correlationId == b.correlationId
  }

  /** An edge is justified only if the relation it names holds between its rows, and exactly then
      when no list is cut short. */
  lemma EdgesAreRelations(s: Search, e: Edge)
    requires ValidSearch(s)
    ensures Justified(s, e) ==> Tells(s, e)
    ensures Uncut(s.db, s.org) && Tells(s, e) ==> Justified(s, e)
  {
    if Justified(s, e) {
      var r :| r in Related(s, s.db.records[e.fromNode], e.relationship) && r.id == e.toNode;
    }
    if Uncut(s.db, s.org) && Tells(s, e) {
      assert s.db.records[e.toNode] in Related(s, s.db.records[e.fromNode], e.relationship);
    }
  }

  predicate Joined(edges: seq<Edge>, a: Id, b: Id) {
    exists e :: e in edges && ((e.fromNode == a && e.toNode == b) || (e.fromNode == b && e.toNode == a))
  }

  function EdgesTo(r: Rec, rs: seq<Rec>, relationship: Relationship): seq<Edge> {
    if rs == [] then [] else [Edge(r.id, rs[0].id, relationship)] + EdgesTo(r, rs[1..], relationship)
  }

  /** Correlated rows get an edge unless the two are joined already. */
  function JoinCorrelated(edges: seq<Edge>, r: Rec, rs: seq<Rec>): seq<Edge>
    decreases rs
  {
    if rs == [] then edges
    else
      JoinCorrelated(if Joined(edges, r.id, rs[0].id) then edges else edges + [Edge(r.id, rs[0].id, CORRELATION)],
                     r, rs[1..])
  }

  function WithEdgesOf(s: Search, edges: seq<Edge>, r: Rec): seq<Edge> {
    JoinCorrelated(edges + EdgesTo(r, ParentOf(s, r), PARENT) + EdgesTo(r, ChildrenOf(s, r), CHILD), r, CorrelatedOf(s, r))
  }

  lemma {:induction false} EdgesToElements(r: Rec, rs: seq<Rec>, relationship: Relationship)
    ensures forall e :: e in EdgesTo(r, rs, relationship) <==>
              e.fromNode == r.id && e.relationship == relationship && exists x :: x in rs && x.id == e.toNode
  {
    if rs != [] {
      EdgesToElements(r, rs[1..], relationship);
      assert rs == [rs[0]] + rs[1..];
    }
  }

  lemma {:induction false} JoinCorrelatedElements(edges: seq<Edge>, r: Rec, rs: seq<Rec>)
    ensures edges <= JoinCorrelated(edges, r, rs)
    ensures forall e :: e in JoinCorrelated(edges, r, rs) ==>
              e in edges || (e.fromNode == r.id && e.relationship == CORRELATION && exists x :: x in rs && x.id == e.toNode)
    ensures forall x :: x in rs ==> Joined(JoinCorrelated(edges, r, rs), r.id, x.id)
    decreases rs
  {
    if rs != [] {
      var more := if Joined(edges, r.id, rs[0].id) then edges else edges + [Edge(r.id, rs[0].id, CORRELATION)];
      JoinCorrelatedElements(more, r, rs[1..]);
      assert rs == [rs[0]] + rs[1..];
      assert Joined(more, r.id, rs[0].id) by {
        if !Joined(edges, r.id, rs[0].id) { assert Edge(r.id, rs[0].id, CORRELATION) in more; }
      }
      JoinedGrows(more, JoinCorrelated(more, r, rs[1..]), r.id, rs[0].id);
    }
  }

  lemma JoinedGrows(edges: seq<Edge>, more: seq<Edge>, a: Id, b: Id)
    requires edges <= more && Joined(edges, a, b)
    ensures Joined(more, a, b)
  {
    var e :| e in edges && ((e.fromNode == a && e.toNode == b) || (e.fromNode == b && e.toNode == a));
    assert e in more;
  }

  ghost predicate Expanded(s: Search, depth: map<Id, nat>, u: Id) { u in depth && depth[u] < s.maxDepth }

  /** Edges leave expanded rows only, and each states a held relation. */
  ghost predicate EdgesSound(s: Search, edges: seq<Edge>, depth: map<Id, nat>) {
    forall e :: e in edges ==> Expanded(s, depth, e.fromNode) && Justified(s, e)
  }

  /** Every parent and child relation of an expanded row has its edge. */
  ghost predicate EdgesOfTree(s: Search, edges: seq<Edge>, depth: map<Id, nat>) {
    forall e: Edge :: e.relationship != CORRELATION && Expanded(s, depth, e.fromNode) && Justified(s, e) ==> e in edges
  }

  /** Every correlated row of an expanded row is joined to it by some edge. */
  ghost predicate EdgesOfCorrelation(s: Search, edges: seq<Edge>, depth: map<Id, nat>) {
    forall u, r :: Expanded(s, depth, u) && u in s.db.records && r in CorrelatedOf(s, s.db.records[u]) ==>
      Joined(edges, u, r.id)
  }

  ghost predicate EdgesExact(s: Search, edges: seq<Edge>, depth: map<Id, nat>) {
    EdgesSound(s, edges, depth) && EdgesOfTree(s, edges, depth) && EdgesOfCorrelation(s, edges, depth)
  }

  /** What expanding one row adds. */
  lemma NewEdges(s: Search, edges: seq<Edge>, r: Rec)
    requires Holds(s.db, s.org, r)
    ensures var all := WithEdgesOf(s, edges, r);
            && edges <= all
            && (forall e :: e in all ==> e in edges || (e.fromNode == r.id && Justified(s, e)))
            && (forall e: Edge :: e.fromNode == r.id && e.relationship != CORRELATION && Justified(s, e) ==> e in all)
            && (forall x :: x in CorrelatedOf(s, r) ==> Joined(all, r.id, x.id))
  {
    var up, down := EdgesTo(r, ParentOf(s, r), PARENT), EdgesTo(r, ChildrenOf(s, r), CHILD);
    var before := edges + up + down;
    var all := WithEdgesOf(s, edges, r);
    EdgesToElements(r, ParentOf(s, r), PARENT);
    EdgesToElements(r, ChildrenOf(s, r), CHILD);
    JoinCorrelatedElements(before, r, CorrelatedOf(s, r));
    assert edges <= before;
    assert forall e :: e in before <==> e in edges || e in up || e in down;
    assert forall e :: e in before ==> e in all;
    forall e | e in all ensures e in edges || (e.fromNode == r.id && Justified(s, e)) {
      if e in up || e in down {
        assert e.fromNode == r.id && exists x :: x in Related(s, r, e.relationship) && x.id == e.toNode;
      }
    }
  }

  lemma EdgesExpand(s: Search, edges: seq<Edge>, depth: map<Id, nat>, r: Rec, d: nat)
    requires EdgesExact(s, edges, depth) && Holds(s.db, s.org, r) && r.id !in depth && d < s.maxDepth
    ensures EdgesExact(s, WithEdgesOf(s, edges, r), depth[r.id := d])
  {
    var all, depth' := WithEdgesOf(s, edges, r), depth[r.id := d];
    NewEdges(s, edges, r);
    assert forall u :: Expanded(s, depth', u) <==> u == r.id || Expanded(s, depth, u);
    assert forall e :: e in edges ==> e in all;
    forall u, x | Expanded(s, depth', u) && u in s.db.records && x in CorrelatedOf(s, s.db.records[u])
      ensures Joined(all, u, x.id)
    {
      if u != r.id {
        assert Joined(edges, u, x.id);
        JoinedGrows(edges, all, u, x.id);
      }
    }
  }

  lemma EdgesAtLimit(s: Search, edges: seq<Edge>, depth: map<Id, nat>, v: Id, d: nat)
    requires EdgesExact(s, edges, depth) && v !in depth && d >= s.maxDepth
    ensures EdgesExact(s, edges, depth[v := d])
  {
    assert forall u :: Expanded(s, depth[v := d], u) <==> Expanded(s, depth, u);
  }

  /** An edge leaves an expanded row by a hop of the graph. */
  lemma EdgeIsHop(g: Graph<Id>, s: Search, e: Edge)
    requires Models(g, s) && Justified(s, e)
    ensures IsHop(g, e.fromNode, e.toNode)
  {
    var rec := s.db.records[e.fromNode];
    var r :| r in Related(s, rec, e.relationship) && r.id == e.toNode;
    assert r in Neighbours(s, rec);
  }

  // ---------- missing links ----------

  function MissingOf(s: Search, r: Rec): seq<Missing> {
    if s.direction == DOWN || !Present(r.parentId) then []
    else if r.parentId.value !in s.db.records then [Missing(r.id, r.parentId.value, RETENTION_EXPIRED)]
    else if s.db.records[r.parentId.value].organizationId != Some(s.org) then
      [Missing(r.id, r.parentId.value, CROSS_TENANT_BLOCKED)]
    else []
  }

  function MissingAtLimit(r: Rec, visited: set<Id>): seq<Missing> {
    if Present(r.parentId) && r.parentId.value !in visited then [Missing(r.id, r.parentId.value, DEPTH_LIMIT_REACHED)] else []
  }

  /** The source's parent was sought and not found, or found in another tenant. */
  ghost predicate Lost(s: Search, m: Missing) {
    && m.source in s.db.records && s.direction != DOWN && m.target != []
    && s.db.records[m.source].parentId == Some(m.target)
    && match m.reason
       case RETENTION_EXPIRED => m.target !in s.db.records
       case CROSS_TENANT_BLOCKED => m.target in s.db.records && s.db.records[m.target].organizationId != Some(s.org)
       case DEPTH_LIMIT_REACHED => false
  }

  /** Lost and blocked parents of expanded rows are reported exactly; a parent beyond the depth
      limit is reported for rows at the limit, at least when it is not returned. */
  ghost predicate MissingExact(s: Search, missing: seq<Missing>, depth: map<Id, nat>) {
    && (forall m: Missing :: m.reason != DEPTH_LIMIT_REACHED ==>
          (m in missing <==> Expanded(s, depth, m.source) && Lost(s, m)))
    && (forall m :: m in missing && m.reason == DEPTH_LIMIT_REACHED ==>
          && m.source in depth && depth[m.source] >= s.maxDepth && m.source in s.db.records
          && s.db.records[m.source].parentId == Some(m.target))
    && (forall v :: v in depth && depth[v] >= s.maxDepth && v in s.db.records ==>
          Present(s.db.records[v].parentId) && s.db.records[v].parentId.value !in depth ==>
          Missing(v, s.db.records[v].parentId.value, DEPTH_LIMIT_REACHED) in missing)
  }

  lemma MissingExpand(s: Search, missing: seq<Missing>, depth: map<Id, nat>, r: Rec, d: nat)
    requires MissingExact(s, missing, depth) && Holds(s.db, s.org, r) && r.id !in depth && d < s.maxDepth
    ensures MissingExact(s, missing + MissingOf(s, r), depth[r.id := d])
  {
    assert forall m :: m in MissingOf(s, r) <==> m.source == r.id && Lost(s, m);
    assert forall m :: m in missing + MissingOf(s, r) <==> m in missing || m in MissingOf(s, r);
  }

  lemma MissingLimit(s: Search, missing: seq<Missing>, depth: map<Id, nat>, r: Rec, d: nat)
    requires MissingExact(s, missing, depth) && Holds(s.db, s.org, r) && r.id !in depth && d >= s.maxDepth
    ensures MissingExact(s, missing + MissingAtLimit(r, depth.Keys + {r.id}), depth[r.id := d])
  {
    var more := MissingAtLimit(r, depth.Keys + {r.id});
    assert forall m :: m in missing + more <==> m in missing || m in more;
    assert forall u :: Expanded(s, depth[r.id := d], u) <==> Expanded(s, depth, u);
  }

  // ---------- the traversal ----------

  /** Rows to enqueue: those not visited yet, in order. */
  function Pushes(visited: set<Id>, rs: seq<Rec>, depth: nat): seq<Item<Id>> {
    if rs == [] then []
    else if rs[0].id in visited then Pushes(visited, rs[1..], depth)
    else [Item(rs[0].id, depth)] + Pushes(visited, rs[1..], depth)
  }

  lemma {:induction false} PushesElements(visited: set<Id>, rs: seq<Rec>, depth: nat)
    ensures forall q :: q in Pushes(visited, rs, depth) <==>
              q.depth == depth && q.vertex !in visited && exists r :: r in rs && r.id == q.vertex
  {
    if rs != [] {
      PushesElements(visited, rs[1..], depth);
      assert rs == [rs[0]] + rs[1..];
    }
  }

  lemma {:induction false} PushesConcat(visited: set<Id>, a: seq<Rec>, b: seq<Rec>, depth: nat)
    ensures Pushes(visited, a + b, depth) == Pushes(visited, a, depth) + Pushes(visited, b, depth)
  {
    if a == [] {
      assert a + b == b;
    } else {
      var rest := a[1..] + b;
      assert (a + b)[1..] == rest && (a + b)[0] == a[0];
      PushesConcat(visited, a[1..], b, depth);
      var p, q := Pushes(visited, a[1..], depth), Pushes(visited, b, depth);
      if a[0].id in visited {
        calc { Pushes(visited, a + b, depth); Pushes(visited, rest, depth); p + q; }
      } else {
        var x := [Item(a[0].id, depth)];
        calc { Pushes(visited, a + b, depth); x + Pushes(visited, rest, depth); x + (p + q); (x + p) + q; }
      }
    }
  }

  /** The ids among `rs` that were visited before. */
  function SeenAmong(rs: seq<Rec>, visited: set<Id>): set<Id> {
    if rs == [] then {}
    else if rs[0].id in visited then {rs[0].id} + SeenAmong(rs[1..], visited)
    else SeenAmong(rs[1..], visited)
  }

  lemma {:induction false} SeenAmongVisited(rs: seq<Rec>, visited: set<Id>)
    ensures SeenAmong(rs, visited) <= visited
  {
    if rs != [] { SeenAmongVisited(rs[1..], visited); }
  }

  /** Steps 1 to 3 of the loop body: parent, children, correlated rows. */
  method ExpandRecord(
      s: Search, record: Rec, depth: nat, visited: set<Id>,
      edges0: seq<Edge>, missing0: seq<Missing>, cycles0: set<Id>)
      returns (pushed: seq<Item<Id>>, edges: seq<Edge>, missing: seq<Missing>, cycles: set<Id>)
    ensures pushed == Pushes(visited, Neighbours(s, record), depth + 1)
    ensures edges == WithEdgesOf(s, edges0, record)
    ensures missing == missing0 + MissingOf(s, record)
    ensures cycles == cycles0 + SeenAmong(ParentOf(s, record), visited) + SeenAmong(ChildrenOf(s, record), visited)
  {
    pushed, edges, missing, cycles := [], edges0, missing0, cycles0;
    if s.direction == UP || s.direction == BOTH {
      if Present(record.parentId) {
        if record.parentId.value !in s.db.records {
          missing := missing + [Missing(record.id, record.parentId.value, RETENTION_EXPIRED)];
        } else if s.db.records[record.parentId.value].organizationId != Some(s.org) {
          missing := missing + [Missing(record.id, record.parentId.value, CROSS_TENANT_BLOCKED)];
        } else {
          var parent := s.db.records[record.parentId.value];
          edges := edges + [Edge(record.id, parent.id, PARENT)];
          if parent.id in visited {
            cycles := cycles + {parent.id};
          } else {
            pushed := pushed + [Item(parent.id, depth + 1)];
          }
        }
      }
    }
    assert pushed == Pushes(visited, ParentOf(s, record), depth + 1);
    assert edges == edges0 + EdgesTo(record, ParentOf(s, record), PARENT);
    assert missing == missing0 + MissingOf(s, record);
    assert cycles == cycles0 + SeenAmong(ParentOf(s, record), visited);

    if s.direction == DOWN || s.direction == BOTH {
      pushed, edges, cycles := ExpandChildren(record, ListOf(s.db.children, record.id), depth, visited, pushed, edges, cycles);
    }
    assert pushed == Pushes(visited, ParentOf(s, record), depth + 1) + Pushes(visited, ChildrenOf(s, record), depth + 1);
    assert edges == edges0 + EdgesTo(record, ParentOf(s, record), PARENT) + EdgesTo(record, ChildrenOf(s, record), CHILD);

    if Present(record.correlationId) {
      pushed, edges := ExpandCorrelated(record, ListOf(s.db.correlated, record.id), depth, visited, pushed, edges);
    }
    PushesConcat(visited, ParentOf(s, record), ChildrenOf(s, record), depth + 1);
    PushesConcat(visited, ParentOf(s, record) + ChildrenOf(s, record), CorrelatedOf(s, record), depth + 1);
  }

  method ExpandChildren(
      record: Rec, children: seq<Rec>, depth: nat, visited: set<Id>,
      pushed0: seq<Item<Id>>, edges0: seq<Edge>, cycles0: set<Id>)
      returns (pushed: seq<Item<Id>>, edges: seq<Edge>, cycles: set<Id>)
    ensures pushed == pushed0 + Pushes(visited, children, depth + 1)
    ensures edges == edges0 + EdgesTo(record, children, CHILD)
    ensures cycles == cycles0 + SeenAmong(children, visited)
  {
    pushed, edges, cycles := pushed0, edges0, cycles0;
    for i := 0 to |children|
      invariant pushed + Pushes(visited, children[i..], depth + 1) == pushed0 + Pushes(visited, children, depth + 1)
      invariant edges + EdgesTo(record, children[i..], CHILD) == edges0 + EdgesTo(record, children, CHILD)
      invariant cycles + SeenAmong(children[i..], visited) == cycles0 + SeenAmong(children, visited)
    {
      var child := children[i];
      assert children[i..][0] == child && children[i..][1..] == children[i + 1..];
      edges := edges + [Edge(record.id, child.id, CHILD)];
      if child.id in visited {
        cycles := cycles + {child.id};
      } else {
        pushed := pushed + [Item(child.id, depth + 1)];
      }
    }
    assert children[|children|..] == [];
  }

  method ExpandCorrelated(
      record: Rec, correlated: seq<Rec>, depth: nat, visited: set<Id>, pushed0: seq<Item<Id>>, edges0: seq<Edge>)
      returns (pushed: seq<Item<Id>>, edges: seq<Edge>)
    ensures pushed == pushed0 + Pushes(visited, correlated, depth + 1)
    ensures edges == JoinCorrelated(edges0, record, correlated)
  {
    pushed, edges := pushed0, edges0;
    for i := 0 to |correlated|
      invariant pushed + Pushes(visited, correlated[i..], depth + 1) == pushed0 + Pushes(visited, correlated, depth + 1)
      invariant JoinCorrelated(edges, record, correlated[i..]) == JoinCorrelated(edges0, record, correlated)
    {
      var corr := correlated[i];
      assert correlated[i..][0] == corr && correlated[i..][1..] == correlated[i + 1..];
      if !Joined(edges, record.id, corr.id) {
        edges := edges + [Edge(record.id, corr.id, CORRELATION)];
      }
      if corr.id !in visited {
        pushed := pushed + [Item(corr.id, depth + 1)];
      }
    }
    assert correlated[|correlated|..] == [];
  }

  // ---------- what is returned ----------

  ghost predicate VisitedOk(g: Graph<Id>, s: Search, depth: map<Id, nat>) {
    forall v :: v in depth ==>
      && v in s.db.records && s.db.records[v].organizationId == Some(s.org)
      && depth[v] <= s.maxDepth && Shortest(g, v, depth[v])
  }

  /** Nothing nearer than a returned row is left out. */
  ghost predicate NearestFirst(g: Graph<Id>, depth: map<Id, nat>) {
    forall v, k: nat, w :: v in depth && k < depth[v] && w in Reach(g, k) ==> w in depth
  }

  /** The whole neighbourhood: its rows, its edges and the links that lead out of it. */
  ghost predicate WholeNeighbourhood(g: Graph<Id>, s: Search, depth: map<Id, nat>, edges: seq<Edge>, missing: seq<Missing>) {
    && depth.Keys == Reach(g, s.maxDepth)
    && EdgesExact(s, edges, depth) && MissingExact(s, missing, depth)
    && (forall e :: e in edges ==> e.fromNode in depth && e.toNode in depth)
  }

  ghost predicate QueueOk(s: Search, queue: seq<Item<Id>>) {
    forall q :: q in queue ==> q.vertex in s.db.records && s.db.records[q.vertex].organizationId == Some(s.org)
  }

  ghost predicate LoopInv(g: Graph<Id>, s: Search, queue: seq<Item<Id>>, depth: map<Id, nat>, edges: seq<Edge>, missing: seq<Missing>) {
    && RowsInv(g, s, queue, depth)
    && EdgesExact(s, edges, depth) && MissingExact(s, missing, depth)
  }

  lemma LoopStart(g: Graph<Id>, s: Search, queue: seq<Item<Id>>)
    requires ValidSearch(s) && Models(g, s)
    requires |queue| == |s.roots| && forall i :: 0 <= i < |queue| ==> queue[i] == Item(s.roots[i].id, 0)
    ensures LoopInv(g, s, queue, map[], [], [])
  {
    forall q ensures q in queue <==> q.depth == 0 && q.vertex in g.roots {
      if q in queue {
        var i :| 0 <= i < |queue| && queue[i] == q;
        assert s.roots[i] in s.roots;
      }
      if q.depth == 0 && q.vertex in g.roots {
        var r :| r in s.roots && r.id == q.vertex;
        var i :| 0 <= i < |s.roots| && s.roots[i] == r;
        assert queue[i] == q;
      }
    }
    Start(g, s.maxDepth, queue);
  }

  lemma LoopSkip(g: Graph<Id>, s: Search, queue: seq<Item<Id>>, depth: map<Id, nat>, edges: seq<Edge>, missing: seq<Missing>)
    requires LoopInv(g, s, queue, depth, edges, missing) && queue != [] && queue[0].vertex in depth
    ensures LoopInv(g, s, queue[1..], depth, edges, missing)
  {
    Skip(g, s.maxDepth, queue, depth);
    assert forall q :: q in queue[1..] ==> q in queue;
  }

  lemma VisitKeepsOk(g: Graph<Id>, s: Search, queue: seq<Item<Id>>, depth: map<Id, nat>)
    requires Invariant(g, s.maxDepth, queue, depth) && QueueOk(s, queue) && VisitedOk(g, s, depth)
    requires queue != [] && queue[0].vertex !in depth
    ensures QueueOk(s, queue[1..]) && VisitedOk(g, s, depth[queue[0].vertex := queue[0].depth])
  {
    VisitHead(g, s.maxDepth, queue, depth);
    assert queue[0] in queue && forall q :: q in queue[1..] ==> q in queue;
  }

  lemma LoopLimit(
      g: Graph<Id>, s: Search, queue: seq<Item<Id>>, depth: map<Id, nat>, edges: seq<Edge>, missing: seq<Missing>,
      depth': map<Id, nat>, missing': seq<Missing>)
    requires ValidSearch(s) && Models(g, s) && LoopInv(g, s, queue, depth, edges, missing)
    requires queue != [] && queue[0].vertex !in depth && queue[0].depth >= s.maxDepth
    requires queue[0].vertex in s.db.records && depth' == depth[queue[0].vertex := queue[0].depth]
    requires missing' == missing + MissingAtLimit(s.db.records[queue[0].vertex], depth'.Keys)
    ensures LoopInv(g, s, queue[1..], depth', edges, missing')
  {
    var q := queue[0];
    assert q in queue;
    RowsLimit(g, s, queue, depth);
    EdgesAtLimit(s, edges, depth, q.vertex, q.depth);
    assert depth'.Keys == depth.Keys + {q.vertex};
    MissingLimit(s, missing, depth, s.db.records[q.vertex], q.depth);
  }

  lemma PushedAreHops(g: Graph<Id>, s: Search, q: Item<Id>, rec: Rec, visited: set<Id>)
    requires ValidSearch(s) && Models(g, s) && q.vertex in s.db.records && rec == s.db.records[q.vertex]
    ensures HopsPushed(g, s, q, visited, Pushes(visited, Neighbours(s, rec), q.depth + 1))
  {
    PushesElements(visited, Neighbours(s, rec), q.depth + 1);
    NeighboursHold(s, rec);
  }

  /** The part of the loop invariant about rows. */
  ghost predicate RowsInv(g: Graph<Id>, s: Search, queue: seq<Item<Id>>, depth: map<Id, nat>) {
    Invariant(g, s.maxDepth, queue, depth) && QueueOk(s, queue) && VisitedOk(g, s, depth)
  }

  /** `pushed` holds, in some order, the unvisited hops of the head of the queue. */
  ghost predicate HopsPushed(g: Graph<Id>, s: Search, q: Item<Id>, visited: set<Id>, pushed: seq<Item<Id>>) {
    && (forall p :: p in pushed <==> p.depth == q.depth + 1 && IsHop(g, q.vertex, p.vertex) && p.vertex !in visited)
    && QueueOk(s, pushed)
  }

  lemma RowsExpand(g: Graph<Id>, s: Search, queue: seq<Item<Id>>, depth: map<Id, nat>, pushed: seq<Item<Id>>, depth': map<Id, nat>)
    requires RowsInv(g, s, queue, depth)
    requires queue != [] && queue[0].vertex !in depth && queue[0].depth < s.maxDepth
    requires depth' == depth[queue[0].vertex := queue[0].depth]
    requires HopsPushed(g, s, queue[0], depth'.Keys, pushed)
    ensures RowsInv(g, s, queue[1..] + pushed, depth')
  {
    Expand(g, s.maxDepth, queue, depth, pushed);
    VisitKeepsOk(g, s, queue, depth);
    assert forall p :: p in queue[1..] + pushed ==> p in queue[1..] || p in pushed;
  }

  lemma RowsLimit(g: Graph<Id>, s: Search, queue: seq<Item<Id>>, depth: map<Id, nat>)
    requires RowsInv(g, s, queue, depth)
    requires queue != [] && queue[0].vertex !in depth && queue[0].depth >= s.maxDepth
    ensures RowsInv(g, s, queue[1..], depth[queue[0].vertex := queue[0].depth])
  {
    VisitAtLimit(g, s.maxDepth, queue, depth);
    VisitKeepsOk(g, s, queue, depth);
  }

  /** What holds when the node limit stops the search at the head of the queue. */
  lemma LoopBreak(g: Graph<Id>, s: Search, queue: seq<Item<Id>>, depth: map<Id, nat>, edges: seq<Edge>, missing: seq<Missing>)
    requires LoopInv(g, s, queue, depth, edges, missing) && queue != [] && queue[0].vertex !in depth
    ensures var depth' := depth[queue[0].vertex := queue[0].depth];
            VisitedOk(g, s, depth') && NearestFirst(g, depth') && EdgesSound(s, edges, depth')
  {
    var depth' := depth[queue[0].vertex := queue[0].depth];
    VisitKeepsOk(g, s, queue, depth);
    forall v, k: nat, w | v in depth' && k < depth'[v] && w in Reach(g, k) ensures w in depth' {
      ClosestFirst(g, s.maxDepth, queue, depth, depth'[v], k, w);
    }
    assert forall u :: Expanded(s, depth, u) ==> Expanded(s, depth', u);
  }

  lemma LoopDone(g: Graph<Id>, s: Search, depth: map<Id, nat>, edges: seq<Edge>, missing: seq<Missing>)
    requires ValidSearch(s) && Models(g, s) && LoopInv(g, s, [], depth, edges, missing)
    ensures NearestFirst(g, depth) && WholeNeighbourhood(g, s, depth, edges, missing)
  {
    forall v, k: nat, w | v in depth && k < depth[v] && w in Reach(g, k) ensures w in depth {
      ClosestFirst(g, s.maxDepth, [], depth, depth[v], k, w);
    }
    Exhausted(g, s.maxDepth, depth);
    forall e | e in edges ensures e.fromNode in depth && e.toNode in depth {
      EdgeIsHop(g, s, e);
      assert Covered([], depth, e.toNode, depth[e.fromNode] + 1);
    }
  }

  /** The loop's variables. */
  datatype State = State(
    queue: seq<Item<Id>>, depth: map<Id, nat>, edges: seq<Edge>, missing: seq<Missing>, cycles: set<Id>)

  ghost predicate StateOk(g: Graph<Id>, s: Search, limit: nat, st: State) {
    LoopInv(g, s, st.queue, st.depth, st.edges, st.missing) && |st.depth| < limit && st.cycles <= st.depth.Keys
  }

  /** What a search stopped by the node limit still guarantees. */
  ghost predicate StoppedOk(g: Graph<Id>, s: Search, st: State) {
    && VisitedOk(g, s, st.depth) && NearestFirst(g, st.depth) && EdgesSound(s, st.edges, st.depth)
    && st.cycles <= st.depth.Keys
  }

  /** Every hop of a row of `inner` above the depth limit leads to a row of `depth`. */
  ghost predicate HopsInside(g: Graph<Id>, s: Search, inner: map<Id, nat>, depth: map<Id, nat>) {
    forall u, v :: Expanded(s, inner, u) && IsHop(g, u, v) ==> v in depth
  }

  /** The search stopped at the last row before expanding it: it is a farthest one, all the others
      have their edges and missing links, and their hops too when nothing else was queued. */
  ghost predicate CutAt(
      g: Graph<Id>, s: Search, depth: map<Id, nat>, edges: seq<Edge>, missing: seq<Missing>, last: Id, queued: bool)
  {
    && last in depth && (forall v :: v in depth ==> depth[v] <= depth[last])
    && EdgesExact(s, edges, depth - {last}) && MissingExact(s, missing, depth - {last})
    && (!queued ==> HopsInside(g, s, depth - {last}, depth))
  }

  ghost predicate CutOk(g: Graph<Id>, s: Search, st: State) {
    st.queue != [] && CutAt(g, s, st.depth, st.edges, st.missing, st.queue[0].vertex, |st.queue| > 1)
  }

  lemma StopIsCut(g: Graph<Id>, s: Search, limit: nat, st: State)
    requires StateOk(g, s, limit, st) && st.queue != [] && st.queue[0].vertex !in st.depth
    ensures CutOk(g, s, st.(depth := st.depth[st.queue[0].vertex := st.queue[0].depth]))
  {
    var q := st.queue[0];
    var depth := st.depth[q.vertex := q.depth];
    assert depth - {q.vertex} == st.depth && q in st.queue;
    if |st.queue| == 1 { LastQueued(g, s, st.queue, st.depth, depth); }
  }

  lemma LastQueued(g: Graph<Id>, s: Search, queue: seq<Item<Id>>, inner: map<Id, nat>, depth: map<Id, nat>)
    requires Complete(g, s.maxDepth, queue, inner) && |queue| == 1 && depth == inner[queue[0].vertex := queue[0].depth]
    ensures HopsInside(g, s, inner, depth)
  {
    forall u, v | Expanded(s, inner, u) && IsHop(g, u, v) ensures v in depth {
      assert Covered(queue, inner, v, inner[u] + 1);
    }
  }

  /** One turn of the loop; the flag says that the node limit stopped it. */
  function TurnOf(s: Search, limit: nat, st: State): (State, bool)
    requires st.queue != [] && st.queue[0].vertex in s.db.records
  {
    var q, rest := st.queue[0], st.queue[1..];
    var rec := s.db.records[q.vertex];
    if q.vertex in st.depth then (st.(queue := rest, cycles := st.cycles + {q.vertex}), false)
    else
      var depth := st.depth[q.vertex := q.depth];
      if |depth| >= limit then (st.(depth := depth), true)
      else if q.depth >= s.maxDepth then
        (st.(queue := rest, depth := depth, missing := st.missing + MissingAtLimit(rec, depth.Keys)), false)
      else (ExpandedState(s, st, rec, depth), false)
  }

  /** The state after the head of the queue, `rec`, has been visited and expanded. */
  function ExpandedState(s: Search, st: State, rec: Rec, depth: map<Id, nat>): State
    requires st.queue != []
  {
    State(st.queue[1..] + Pushes(depth.Keys, Neighbours(s, rec), st.queue[0].depth + 1), depth,
          WithEdgesOf(s, st.edges, rec), st.missing + MissingOf(s, rec),
          st.cycles + SeenAmong(ParentOf(s, rec), depth.Keys) + SeenAmong(ChildrenOf(s, rec), depth.Keys))
  }

  method Turn(s: Search, limit: nat, st: State) returns (st': State, stop: bool)
    requires st.queue != [] && st.queue[0].vertex in s.db.records
    ensures (st', stop) == TurnOf(s, limit, st)
  {
    var current, rest := st.queue[0], st.queue[1..];
    var record := s.db.records[current.vertex];
    if current.vertex in st.depth {
      return st.(queue := rest, cycles := st.cycles + {current.vertex}), false;
    }
    var depth := st.depth[current.vertex := current.depth];
    if |depth| >= limit {
      return st.(depth := depth), true;
    }
    if current.depth >= s.maxDepth {
      return st.(queue := rest, depth := depth, missing := st.missing + MissingAtLimit(record, depth.Keys)), false;
    }
    st' := ExpandHead(s, st, record, depth);
    stop := false;
  }

  method ExpandHead(s: Search, st: State, record: Rec, depth: map<Id, nat>) returns (st': State)
    requires st.queue != []
    ensures st' == ExpandedState(s, st, record, depth)
  {
    var pushed, edges, missing, cycles := ExpandRecord(
      s, record, st.queue[0].depth, depth.Keys, st.edges, st.missing, st.cycles);
    st' := State(st.queue[1..] + pushed, depth, edges, missing, cycles);
  }

  lemma StateSkip(g: Graph<Id>, s: Search, limit: nat, st: State)
    requires StateOk(g, s, limit, st) && st.queue != [] && st.queue[0].vertex in st.depth
    ensures StateOk(g, s, limit, st.(queue := st.queue[1..], cycles := st.cycles + {st.queue[0].vertex}))
  {
    LoopSkip(g, s, st.queue, st.depth, st.edges, st.missing);
  }

  lemma StateLimit(g: Graph<Id>, s: Search, limit: nat, st: State, depth: map<Id, nat>)
    requires ValidSearch(s) && Models(g, s) && StateOk(g, s, limit, st)
    requires st.queue != [] && st.queue[0].vertex !in st.depth && st.queue[0].vertex in s.db.records
    requires st.queue[0].depth >= s.maxDepth
    requires depth == st.depth[st.queue[0].vertex := st.queue[0].depth] && |depth| < limit
    ensures StateOk(g, s, limit, st.(queue := st.queue[1..], depth := depth,
                      missing := st.missing + MissingAtLimit(s.db.records[st.queue[0].vertex], depth.Keys)))
  {
    var missing := st.missing + MissingAtLimit(s.db.records[st.queue[0].vertex], depth.Keys);
    LoopLimit(g, s, st.queue, st.depth, st.edges, st.missing, depth, missing);
  }

  lemma StateExpand(g: Graph<Id>, s: Search, limit: nat, st: State, depth: map<Id, nat>)
    requires ValidSearch(s) && Models(g, s) && StateOk(g, s, limit, st)
    requires st.queue != [] && st.queue[0].vertex !in st.depth && st.queue[0].vertex in s.db.records
    requires st.queue[0].depth < s.maxDepth
    requires depth == st.depth[st.queue[0].vertex := st.queue[0].depth] && |depth| < limit
    ensures StateOk(g, s, limit, ExpandedState(s, st, s.db.records[st.queue[0].vertex], depth))
  {
    var rec := s.db.records[st.queue[0].vertex];
    LoopExpands(g, s, st, rec, depth);
    CyclesVisited(s, st, rec, depth);
  }

  lemma RowsExpanded(g: Graph<Id>, s: Search, st: State, rec: Rec, depth: map<Id, nat>)
    requires ValidSearch(s) && Models(g, s) && RowsInv(g, s, st.queue, st.depth)
    requires st.queue != [] && st.queue[0].vertex !in st.depth && st.queue[0].vertex in s.db.records
    requires st.queue[0].depth < s.maxDepth && rec == s.db.records[st.queue[0].vertex]
    requires depth == st.depth[st.queue[0].vertex := st.queue[0].depth]
    ensures RowsInv(g, s, ExpandedState(s, st, rec, depth).queue, depth)
  {
    PushedAreHops(g, s, st.queue[0], rec, depth.Keys);
    RowsExpand(g, s, st.queue, st.depth, Pushes(depth.Keys, Neighbours(s, rec), st.queue[0].depth + 1), depth);
  }

  lemma LoopExpands(g: Graph<Id>, s: Search, st: State, rec: Rec, depth: map<Id, nat>)
    requires ValidSearch(s) && Models(g, s) && LoopInv(g, s, st.queue, st.depth, st.edges, st.missing)
    requires st.queue != [] && st.queue[0].vertex !in st.depth && st.queue[0].vertex in s.db.records
    requires st.queue[0].depth < s.maxDepth && rec == s.db.records[st.queue[0].vertex]
    requires depth == st.depth[st.queue[0].vertex := st.queue[0].depth]
    ensures var st' := ExpandedState(s, st, rec, depth); LoopInv(g, s, st'.queue, st'.depth, st'.edges, st'.missing)
  {
    RowsExpanded(g, s, st, rec, depth);
    EdgesExpand(s, st.edges, st.depth, rec, st.queue[0].depth);
    MissingExpand(s, st.missing, st.depth, rec, st.queue[0].depth);
  }

  lemma CyclesVisited(s: Search, st: State, rec: Rec, depth: map<Id, nat>)
    requires st.queue != [] && st.cycles <= st.depth.Keys <= depth.Keys
    ensures ExpandedState(s, st, rec, depth).cycles <= depth.Keys
  {
    SeenAmongVisited(ParentOf(s, rec), depth.Keys);
    SeenAmongVisited(ChildrenOf(s, rec), depth.Keys);
  }

  lemma StopAtHead(g: Graph<Id>, s: Search, limit: nat, st: State)
    requires StateOk(g, s, limit, st) && st.queue != [] && st.queue[0].vertex !in st.depth
    ensures StoppedOk(g, s, st.(depth := st.depth[st.queue[0].vertex := st.queue[0].depth]))
  {
    LoopBreak(g, s, st.queue, st.depth, st.edges, st.missing);
  }

  lemma StopWhenEmpty(g: Graph<Id>, s: Search, limit: nat, st: State)
    requires ValidSearch(s) && Models(g, s) && StateOk(g, s, limit, st) && st.queue == []
    ensures StoppedOk(g, s, st) && WholeNeighbourhood(g, s, st.depth, st.edges, st.missing)
  {
    LoopDone(g, s, st.depth, st.edges, st.missing);
  }

  ghost predicate AfterTurn(g: Graph<Id>, s: Search, limit: nat, st: State, stop: bool) {
    if stop then StoppedOk(g, s, st) && CutOk(g, s, st) && |st.depth| == limit else StateOk(g, s, limit, st)
  }

  /** Every turn keeps the loop's invariant, or stops at the node limit. */
  lemma TurnKeeps(g: Graph<Id>, s: Search, limit: nat, st: State)
    requires ValidSearch(s) && Models(g, s) && StateOk(g, s, limit, st)
    requires st.queue != [] && st.queue[0].vertex in s.db.records
    ensures AfterTurn(g, s, limit, TurnOf(s, limit, st).0, TurnOf(s, limit, st).1)
  {
    var q := st.queue[0];
    var depth := st.depth[q.vertex := q.depth];
    if q.vertex in st.depth {
      StateSkip(g, s, limit, st);
    } else {
      VisitShrinks(s, st, q.vertex, q.depth);
      if |depth| >= limit {
        StopAtHead(g, s, limit, st);
        StopIsCut(g, s, limit, st);
      } else if q.depth >= s.maxDepth {
        StateLimit(g, s, limit, st, depth);
      } else {
        StateExpand(g, s, limit, st, depth);
      }
    }
  }

  /** The rows still to visit. */
  ghost function Unvisited(s: Search, st: State): set<Id> { s.db.records.Keys - st.depth.Keys }

  lemma VisitShrinks(s: Search, st: State, v: Id, d: nat)
    requires v in s.db.records && v !in st.depth
    ensures |st.depth[v := d]| == |st.depth| + 1
    ensures s.db.records.Keys - st.depth[v := d].Keys < Unvisited(s, st)
  {
    var depth := st.depth[v := d];
    assert depth.Keys == st.depth.Keys + {v};
    assert v in Unvisited(s, st) && v !in s.db.records.Keys - depth.Keys;
  }

  /** A turn that does not stop visits one more row, or drops a queue entry. */
  lemma TurnProgresses(s: Search, limit: nat, st: State)
    requires st.queue != [] && st.queue[0].vertex in s.db.records && !TurnOf(s, limit, st).1
    ensures var st' := TurnOf(s, limit, st).0;
            Unvisited(s, st') < Unvisited(s, st) || (st'.depth == st.depth && |st'.queue| < |st.queue|)
  {
    var q := st.queue[0];
    if q.vertex !in st.depth { VisitShrinks(s, st, q.vertex, q.depth); }
  }

  predicate InRecords(s: Search, queue: seq<Item<Id>>) { forall i :: 0 <= i < |queue| ==> queue[i].vertex in s.db.records }

  lemma {:induction false} PushesInRecords(s: Search, visited: set<Id>, rs: seq<Rec>, depth: nat)
    requires forall r :: r in rs ==> r.id in s.db.records
    ensures InRecords(s, Pushes(visited, rs, depth))
  {
    if rs != [] {
      assert rs[0] in rs;
      PushesInRecords(s, visited, rs[1..], depth);
    }
  }

  lemma QueueGrows(s: Search, a: seq<Item<Id>>, b: seq<Item<Id>>)
    requires InRecords(s, a) && InRecords(s, b)
    ensures InRecords(s, a + b)
  {
  }

  lemma ExpandedQueue(s: Search, st: State, rec: Rec, depth: map<Id, nat>)
    requires ValidSearch(s) && st.queue != [] && InRecords(s, st.queue)
    ensures InRecords(s, ExpandedState(s, st, rec, depth).queue)
  {
    NeighboursHold(s, rec);
    PushesInRecords(s, depth.Keys, Neighbours(s, rec), st.queue[0].depth + 1);
    QueueGrows(s, st.queue[1..], Pushes(depth.Keys, Neighbours(s, rec), st.queue[0].depth + 1));
  }

  lemma TurnQueue(s: Search, limit: nat, st: State)
    requires ValidSearch(s) && st.queue != [] && InRecords(s, st.queue)
    ensures InRecords(s, TurnOf(s, limit, st).0.queue)
  {
    var q := st.queue[0];
    ExpandedQueue(s, st, s.db.records[q.vertex], st.depth[q.vertex := q.depth]);
  }

  /** Where the loop ends, started from a state. */
  ghost function EndOf(s: Search, limit: nat, st: State, stop: bool): (State, bool)
    requires ValidSearch(s) && InRecords(s, st.queue)
    decreases !stop, Unvisited(s, st), |st.queue|
  {
    if stop || st.queue == [] then (st, stop)
    else
      var (st', stop') := TurnOf(s, limit, st);
      TurnQueue(s, limit, st);
      if stop' then (st', true)
      else
        TurnProgresses(s, limit, st);
        EndOf(s, limit, st', false)
  }

  ghost predicate EndOk(g: Graph<Id>, s: Search, limit: nat, st: State, stop: bool) {
    && |st.depth| <= limit && StoppedOk(g, s, st) && (stop <==> |st.depth| == limit)
    && if stop then CutOk(g, s, st) else WholeNeighbourhood(g, s, st.depth, st.edges, st.missing)
  }

  lemma {:induction false} EndIsOk(g: Graph<Id>, s: Search, limit: nat, st: State)
    requires ValidSearch(s) && Models(g, s) && StateOk(g, s, limit, st) && InRecords(s, st.queue)
    ensures EndOk(g, s, limit, EndOf(s, limit, st, false).0, EndOf(s, limit, st, false).1)
    decreases Unvisited(s, st), |st.queue|
  {
    if st.queue == [] {
      StopWhenEmpty(g, s, limit, st);
    } else {
      TurnKeeps(g, s, limit, st);
      if !TurnOf(s, limit, st).1 {
        TurnQueue(s, limit, st);
        TurnProgresses(s, limit, st);
        EndIsOk(g, s, limit, TurnOf(s, limit, st).0);
      }
    }
  }

  /** MAIN: the search loop. It terminates; it returns at most `limit` rows, all of the tenant,
      each labelled with its shortest distance, nearest first; and when fewer than `limit`
      are returned, they are the whole neighbourhood with exactly its edges. */
  method Traverse(s: Search, limit: nat, ghost g: Graph<Id>)
      returns (st: State, hasMore: bool, nextCursor: Option<Id>)
    requires ValidSearch(s) && Models(g, s) && limit >= 1
    ensures |st.depth| <= limit && StoppedOk(g, s, st)
    ensures |st.depth| < limit ==>
              WholeNeighbourhood(g, s, st.depth, st.edges, st.missing) && !hasMore && nextCursor == None
    ensures |st.depth| == limit ==>
              && CutOk(g, s, st) && (hasMore <==> |st.queue| > 1)
              && nextCursor == if hasMore then Some(st.queue[0].vertex) else None
  {
    var stop;
    st, stop := Loop(s, limit);
    hasMore := stop && |st.queue| > 1;
    nextCursor := if hasMore then Some(st.queue[0].vertex) else None;
    StartIsOk(g, s, limit);
    EndIsOk(g, s, limit, StartOf(s));
  }

  /** The queue of roots and nothing visited. */
  function StartOf(s: Search): State {
    State(seq(|s.roots|, i requires 0 <= i < |s.roots| => Item(s.roots[i].id, 0)), map[], [], [], {})
  }

  lemma StartInRecords(s: Search)
    requires ValidSearch(s)
    ensures InRecords(s, StartOf(s).queue)
  {
    forall i | 0 <= i < |s.roots|
      ensures s.roots[i].id in s.db.records
    {
      assert s.roots[i] in s.roots;
    }
  }

  lemma StartIsOk(g: Graph<Id>, s: Search, limit: nat)
    requires ValidSearch(s) && Models(g, s) && limit >= 1
    ensures StateOk(g, s, limit, StartOf(s)) && InRecords(s, StartOf(s).queue)
  {
    StartInRecords(s);
    LoopStart(g, s, StartOf(s).queue);
  }

  method Loop(s: Search, limit: nat) returns (st: State, stop: bool)
    requires ValidSearch(s)
    ensures InRecords(s, StartOf(s).queue)
    ensures (st, stop) == EndOf(s, limit, StartOf(s), false)
  {
    StartInRecords(s);
    st, stop := StartOf(s), false;
    while |st.queue| > 0 && !stop
      invariant InRecords(s, st.queue)
      invariant EndOf(s, limit, st, stop) == EndOf(s, limit, StartOf(s), false)
      decreases !stop, Unvisited(s, st), |st.queue|
    {
      TurnQueue(s, limit, st);
      if !TurnOf(s, limit, st).1 { TurnProgresses(s, limit, st); }
      st, stop := Turn(s, limit, st);
    }
  }

  // ---------- deduplicating edges ----------

  function RelationshipText(r: Relationship): Text {
    match r
    case PARENT => Ascii("PARENT")
    case CHILD => Ascii("CHILD")
    case CORRELATION => Ascii("CORRELATION")
  }

  const ARROW := 62

  /** `${from}->${to}:${relationship}` */
  function EdgeKey(e: Edge): Text {
    e.fromNode + [45, ARROW] + e.toNode + [58] + RelationshipText(e.relationship)
  }

  /** The first edge of every key not in `seen`. */
  function FirstByKey(edges: seq<Edge>, seen: set<Text>, key: Edge -> Text): seq<Edge> {
    if edges == [] then []
    else if key(edges[0]) in seen then FirstByKey(edges[1..], seen, key)
    else [edges[0]] + FirstByKey(edges[1..], seen + {key(edges[0])}, key)
  }

  method DeduplicateEdges(edges: seq<Edge>, key: Edge -> Text) returns (result: seq<Edge>)
    ensures result == FirstByKey(edges, {}, key)
  {
    var seen: set<Text> := {};
    result := [];
    for i := 0 to |edges|
      invariant result + FirstByKey(edges[i..], seen, key) == FirstByKey(edges, {}, key)
    {
      var edge := edges[i];
      assert edges[i..][0] == edge && edges[i..][1..] == edges[i + 1..];
      if key(edge) !in seen {
        var rest := FirstByKey(edges[i + 1..], seen + {key(edge)}, key);
        assert result + ([edge] + rest) == (result + [edge]) + rest;
        seen := seen + {key(edge)};
        result := result + [edge];
      }
    }
    assert edges[|edges|..] == [];
  }

  ghost predicate HasKey(edges: seq<Edge>, k: Text, key: Edge -> Text) {
    exists f :: f in edges && key(f) == k
  }

  /** One edge is kept per key: kept edges come from the list, and none is lost. */
  lemma {:induction false} FirstByKeyElements(edges: seq<Edge>, seen: set<Text>, key: Edge -> Text)
    ensures forall e :: e in FirstByKey(edges, seen, key) ==> e in edges && key(e) !in seen
    ensures forall e :: e in edges && key(e) !in seen ==> HasKey(FirstByKey(edges, seen, key), key(e), key)
  {
    if edges != [] {
      var rest := edges[1..];
      var seen' := if key(edges[0]) in seen then seen else seen + {key(edges[0])};
      FirstByKeyElements(rest, seen', key);
      var kept, tail := FirstByKey(edges, seen, key), FirstByKey(rest, seen', key);
      forall e | e in edges && key(e) !in seen ensures HasKey(kept, key(e), key) {
        if key(e) == key(edges[0]) {
          assert edges[0] in kept;
        } else {
          assert e in rest && HasKey(tail, key(e), key);
          var f :| f in tail && key(f) == key(e);
          assert f in kept;
        }
      }
    }
  }

  /** Keys do not repeat. */
  lemma {:induction false} FirstByKeyDistinct(edges: seq<Edge>, seen: set<Text>, key: Edge -> Text)
    ensures forall i, j :: 0 <= i < j < |FirstByKey(edges, seen, key)| ==>
              key(FirstByKey(edges, seen, key)[i]) != key(FirstByKey(edges, seen, key)[j])
  {
    if edges != [] {
      var seen' := if key(edges[0]) in seen then seen else seen + {key(edges[0])};
      FirstByKeyDistinct(edges[1..], seen', key);
      FirstByKeyElements(edges[1..], seen', key);
      var tail := FirstByKey(edges[1..], seen', key);
      assert forall j :: 0 <= j < |tail| ==> tail[j] in tail;
    }
  }

  lemma SuffixDetermines(a: Text, r: Relationship, b: Text, q: Relationship)
    requires a + [58] + RelationshipText(r) == b + [58] + RelationshipText(q)
    ensures a == b && r == q
  {
    var t, u := a + [58] + RelationshipText(r), b + [58] + RelationshipText(q);
    var m, n := RelationshipText(r), RelationshipText(q);
    assert t[|t| - 1] == m[|m| - 1] && u[|u| - 1] == n[|n| - 1];
    assert r == q;
    assert a == t[..|t| - |m| - 1] && b == u[..|u| - |n| - 1];
  }

  function EdgeTail(e: Edge): Text { e.toNode + [58] + RelationshipText(e.relationship) }

  lemma EdgeKeyParts(e: Edge)
    ensures EdgeKey(e) == (e.fromNode + [45]) + [ARROW] + EdgeTail(e)
  {
  }

  /** Keys tell edges apart when node ids contain no `>`. */
  lemma EdgeKeyInjective(e: Edge, f: Edge)
    requires ARROW !in e.fromNode && ARROW !in f.fromNode && EdgeKey(e) == EdgeKey(f)
    ensures e == f
  {
    var x, y := e.fromNode + [45], f.fromNode + [45];
    EdgeKeyParts(e);
    EdgeKeyParts(f);
    SplitAt(x, EdgeTail(e), y, EdgeTail(f), ARROW);
    assert e.fromNode == x[..|x| - 1] && f.fromNode == y[..|y| - 1];
    SuffixDetermines(e.toNode, e.relationship, f.toNode, f.relationship);
  }

  ghost predicate KeysDistinguish(edges: seq<Edge>, key: Edge -> Text) {
    forall e, f :: e in edges && f in edges && key(e) == key(f) ==> e == f
  }

  lemma DeduplicationKeepsEdges(edges: seq<Edge>, key: Edge -> Text)
    requires KeysDistinguish(edges, key)
    ensures forall e :: e in FirstByKey(edges, {}, key) <==> e in edges
  {
    FirstByKeyElements(edges, {}, key);
    forall e | e in edges ensures e in FirstByKey(edges, {}, key) {
      assert HasKey(FirstByKey(edges, {}, key), key(e), key);
      var f :| f in FirstByKey(edges, {}, key) && key(f) == key(e);
    }
  }

  lemma ArrowFreeKeysDistinguish(edges: seq<Edge>)
    requires forall e :: e in edges ==> ARROW !in e.fromNode
    ensures KeysDistinguish(edges, EdgeKey)
  {
    forall e, f | e in edges && f in edges && EdgeKey(e) == EdgeKey(f) ensures e == f { EdgeKeyInjective(e, f); }
  }

  // ---------- the query ----------

  datatype Query = Query(
    organizationId: Text, rootId: Option<Id>, correlationId: Option<Text>,
    maxDepth: Option<int>, limit: Option<int>, direction: Option<Direction>)

  datatype Response =
    | BadRequest
    | NotFound
    | Found(nodes: map<Id, Node>, edges: seq<Edge>, missing: seq<Missing>, cycles: set<Id>,
            hasMore: bool, nextCursor: Option<Id>)

  /** `Math.min(Math.max(x ?? default, 1), most)` */
  function Clamp(x: Option<int>, default: int, most: int): (n: nat)
    requires 1 <= default <= most
    ensures 1 <= n <= most
    ensures x.None? ==> n == default
    ensures x.Some? && 1 <= x.value <= most ==> n == x.value
    ensures x.Some? && x.value < 1 ==> n == 1
    ensures x.Some? && x.value > most ==> n == most
  {
    var v := if x.Some? then x.value else default;
    if v < 1 then 1 else if v > most then most else v
  }

  function LimitOf(q: Query): nat { Clamp(q.limit, 50, 100) }

  function RootsOf(db: GraphDb, q: Query): seq<Rec> {
    if Present(q.rootId) then (if q.rootId.value in db.records then [db.records[q.rootId.value]] else [])
    else if Present(q.correlationId) then
      var all := ListOf(db.byCorrelation, q.correlationId.value);
      if |all| <= LimitOf(q) then all else all[..LimitOf(q)]
    else []
  }

  function SearchOf(db: GraphDb, q: Query): Search {
    Search(db, q.organizationId, if q.direction.Some? then q.direction.value else BOTH, Clamp(q.maxDepth, 3, 10), RootsOf(db, q))
  }

  /** `n` is the number of `1..most` nearest to the one asked for, or the default. */
  ghost predicate Nearest(n: int, asked: Option<int>, default: int, most: int) {
    && 1 <= n <= most
    && match asked
       case None => n == default
       case Some(x) => forall m :: 1 <= m <= most ==> Apart(n, x) <= Apart(m, x)
  }

  function Apart(a: int, b: int): nat { if a < b then b - a else a - b }

  /** The search and the node limit are those the query asks for. */
  ghost predicate Asked(s: Search, limit: nat, db: GraphDb, q: Query) {
    && s.db == db && s.org == q.organizationId
    && (match q.direction case None => s.direction == BOTH case Some(d) => s.direction == d)
    && Nearest(s.maxDepth, q.maxDepth, 3, 10) && Nearest(limit, q.limit, 50, 100)
  }

  /** `v` is where the query starts: its root, or one of the first rows of its correlation. */
  ghost predicate StartsAt(db: GraphDb, q: Query, limit: nat, v: Id) {
    if Present(q.rootId) then v == q.rootId.value
    else Present(q.correlationId) && exists i ::
      0 <= i < limit && i < |ListOf(db.byCorrelation, q.correlationId.value)|
      && ListOf(db.byCorrelation, q.correlationId.value)[i].id == v
  }

  ghost function DepthsOf(nodes: map<Id, Node>): map<Id, nat> { map v | v in nodes :: nodes[v].depth }

  ghost predicate ArrowFree(r: Response)
    requires r.Found?
  {
    forall v :: v in r.nodes ==> ARROW !in v
  }

  /** What a graph that reached its node limit guarantees, all but for its last row. */
  ghost predicate CutShort(s: Search, r: Response, last: Id)
    requires r.Found?
  {
    var depth := DepthsOf(r.nodes);
    && last in depth && (forall v :: v in depth ==> depth[v] <= depth[last])
    && MissingExact(s, r.missing, depth - {last}) && (ArrowFree(r) ==> EdgesExact(s, r.edges, depth - {last}))
    && (r.hasMore ==> r.nextCursor == Some(last))
    && (!r.hasMore ==> r.nextCursor == None && HopsInside(Hops(s), s, depth - {last}, depth))
  }

  /** What a returned graph guarantees. */
  ghost predicate ResponseOk(s: Search, limit: nat, r: Response)
    requires r.Found?
  {
    var depth := DepthsOf(r.nodes);
    && |r.nodes| <= limit
    && (forall v :: v in r.nodes ==> v in s.db.records && r.nodes[v].record == s.db.records[v])
    && VisitedOk(Hops(s), s, depth) && NearestFirst(Hops(s), depth)
    && EdgesSound(s, r.edges, depth) && (forall e :: e in r.edges ==> Tells(s, e))
    && (|r.nodes| < limit ==> Whole(s, r)) && (|r.nodes| == limit ==> exists last :: CutShort(s, r, last))
  }

  /** What a graph below its node limit guarantees: it is the whole neighbourhood. */
  ghost predicate Whole(s: Search, r: Response)
    requires r.Found?
  {
    var depth := DepthsOf(r.nodes);
    && r.nodes.Keys == Reach(Hops(s), s.maxDepth) && MissingExact(s, r.missing, depth)
    && !r.hasMore && r.nextCursor == None
    && (forall e :: e in r.edges ==> e.fromNode in r.nodes && e.toNode in r.nodes)
    && (ArrowFree(r) ==> EdgesExact(s, r.edges, depth))
  }

  lemma EdgesTransfer(s: Search, edges: seq<Edge>, kept: seq<Edge>, depth: map<Id, nat>)
    requires EdgesExact(s, edges, depth) && forall e :: e in kept <==> e in edges
    ensures EdgesExact(s, kept, depth)
  {
    forall u, r | Expanded(s, depth, u) && u in s.db.records && r in CorrelatedOf(s, s.db.records[u])
      ensures Joined(kept, u, r.id)
    {
      assert Joined(edges, u, r.id);
      var e :| e in edges && ((e.fromNode == u && e.toNode == r.id) || (e.fromNode == r.id && e.toNode == u));
      assert e in kept;
    }
  }

  /** What the response takes over from the loop's last state. */
  ghost predicate Renders(s: Search, st: State, r: Response) {
    && r.Found? && r.nodes.Keys == st.depth.Keys && r.missing == st.missing
    && r.edges == FirstByKey(st.edges, {}, EdgeKey)
    && forall v :: v in st.depth ==> v in s.db.records && r.nodes[v] == Node(s.db.records[v], st.depth[v])
  }

  lemma RendersDepths(s: Search, st: State, r: Response)
    requires Renders(s, st, r)
    ensures DepthsOf(r.nodes) == st.depth && |r.nodes| == |st.depth|
  {
    assert |r.nodes| == |r.nodes.Keys| == |st.depth.Keys| == |st.depth|;
  }

  lemma RenderedEdges(s: Search, st: State, r: Response, depth: map<Id, nat>)
    requires Renders(s, st, r) && ArrowFree(r) && EdgesExact(s, st.edges, depth) && depth.Keys <= st.depth.Keys
    ensures EdgesExact(s, r.edges, depth)
  {
    assert forall e :: e in st.edges ==> e.fromNode in r.nodes;
    ArrowFreeKeysDistinguish(st.edges);
    DeduplicationKeepsEdges(st.edges, EdgeKey);
    EdgesTransfer(s, st.edges, r.edges, depth);
  }

  lemma RendersWhole(s: Search, st: State, r: Response)
    requires Renders(s, st, r) && WholeNeighbourhood(Hops(s), s, st.depth, st.edges, st.missing)
    requires !r.hasMore && r.nextCursor == None
    ensures Whole(s, r)
  {
    RendersDepths(s, st, r);
    FirstByKeyElements(st.edges, {}, EdgeKey);
    if ArrowFree(r) { RenderedEdges(s, st, r, st.depth); }
  }

  lemma RendersCut(s: Search, st: State, r: Response)
    requires Renders(s, st, r) && CutOk(Hops(s), s, st) && (r.hasMore <==> |st.queue| > 1)
    requires r.nextCursor == if r.hasMore then Some(st.queue[0].vertex) else None
    ensures CutShort(s, r, st.queue[0].vertex)
  {
    RendersDepths(s, st, r);
    if ArrowFree(r) { RenderedEdges(s, st, r, st.depth - {st.queue[0].vertex}); }
  }

  lemma RespondOk(s: Search, limit: nat, st: State, r: Response)
    requires ValidSearch(s) && |st.depth| <= limit && StoppedOk(Hops(s), s, st) && Renders(s, st, r)
    requires |st.depth| < limit ==> Whole(s, r)
    requires |st.depth| == limit ==> exists last :: CutShort(s, r, last)
    ensures ResponseOk(s, limit, r)
  {
    RendersDepths(s, st, r);
    FirstByKeyElements(st.edges, {}, EdgeKey);
    forall e | e in r.edges ensures Tells(s, e) { EdgesAreRelations(s, e); }
  }

  /** A row of depth 0 is a root. */
  lemma ZeroIsRoot(g: Graph<Id>, v: Id, d: nat)
    requires Shortest(g, v, d)
    ensures d == 0 <==> v in g.roots
  {
    if d > 0 { ReachMonotone(g, 0, d - 1); }
  }

  /** No root is left out while there are no more of them than rows. */
  lemma RootsAreVisited(g: Graph<Id>, depth: map<Id, nat>, v: Id)
    requires forall u :: u in depth ==> Shortest(g, u, depth[u])
    requires NearestFirst(g, depth) && |g.roots| <= |depth.Keys| && v in g.roots
    ensures v in depth
  {
    if u :| u in depth && depth[u] > 0 {
      assert v in Reach(g, 0);
    } else {
      forall u | u in depth.Keys ensures u in g.roots { ZeroIsRoot(g, u, depth[u]); }
      SameSize(depth.Keys, g.roots);
    }
  }

  lemma SameSize(a: set<Id>, b: set<Id>)
    requires a <= b && |b| <= |a|
    ensures a == b
  {
    assert b == a + (b - a);
    assert b - a == {};
  }

  /** The rows at depth 0 are the roots, when there are no more of them than the limit allows. */
  lemma RootsAreReturned(s: Search, limit: nat, r: Response, v: Id)
    requires r.Found? && ResponseOk(s, limit, r) && |Hops(s).roots| <= limit
    ensures v in r.nodes && r.nodes[v].depth == 0 <==> v in Hops(s).roots
  {
    var g, depth := Hops(s), DepthsOf(r.nodes);
    assert depth.Keys == r.nodes.Keys && |r.nodes.Keys| == |r.nodes|;
    if v in g.roots {
      if |r.nodes| < limit { ReachMonotone(g, 0, s.maxDepth); } else { RootsAreVisited(g, depth, v); }
    }
    if v in r.nodes { ZeroIsRoot(g, v, depth[v]); }
  }

  lemma SearchOfIsValid(db: GraphDb, q: Query)
    requires Answers(db, q.organizationId)
    requires Present(q.rootId) && q.rootId.value in db.records ==>
               db.records[q.rootId.value].organizationId == Some(q.organizationId)
    ensures ValidSearch(SearchOf(db, q)) && Asked(SearchOf(db, q), LimitOf(q), db, q)
  {
    var s := SearchOf(db, q);
    forall x | x in s.roots ensures Holds(s.db, s.org, x) {
      assert Present(q.rootId) || x in ListOf(db.byCorrelation, q.correlationId.value);
    }
  }

  lemma {:induction false} FewIds(rs: seq<Rec>)
    ensures |set x | x in rs :: x.id| <= |rs|
  {
    if rs != [] {
      FewIds(rs[1..]);
      assert rs == [rs[0]] + rs[1..];
      assert (set x | x in rs :: x.id) == {rs[0].id} + (set x | x in rs[1..] :: x.id);
    } else {
      assert (set x | x in rs :: x.id) == {};
    }
  }

  /** The search starts where the query says, within the limit. */
  lemma RootsAreAsked(db: GraphDb, q: Query)
    requires Answers(db, q.organizationId) && (Present(q.rootId) ==> q.rootId.value in db.records)
    ensures |Hops(SearchOf(db, q)).roots| <= LimitOf(q)
    ensures forall v :: v in Hops(SearchOf(db, q)).roots <==> StartsAt(db, q, LimitOf(q), v)
  {
    var roots := RootsOf(db, q);
    FewIds(roots);
    forall v ensures v in Hops(SearchOf(db, q)).roots <==> StartsAt(db, q, LimitOf(q), v) {
      if i :| 0 <= i < |roots| && roots[i].id == v { assert roots[i] in roots; }
    }
  }

  /** The search behind an accepted query. */
  method AnswerQuery(s: Search, limit: nat) returns (r: Response)
    requires ValidSearch(s) && limit >= 1
    ensures r.Found? && ResponseOk(s, limit, r)
  {
    HopsModel(s);
    var st, hasMore, nextCursor := Traverse(s, limit, Hops(s));
    var edges := DeduplicateEdges(st.edges, EdgeKey);
    var nodes := map v | v in st.depth.Keys && v in s.db.records :: Node(s.db.records[v], st.depth[v]);
    r := Found(nodes, edges, st.missing, st.cycles, hasMore, nextCursor);
    assert nodes.Keys == st.depth.Keys;
    if |st.depth| < limit { RendersWhole(s, st, r); } else { RendersCut(s, st, r); }
    RespondOk(s, limit, st, r);
  }

  /** MAIN: the query as a whole, with its refusals. */
  method BuildCorrelationGraph(db: GraphDb, q: Query) returns (r: Response)
    requires Answers(db, q.organizationId)
    ensures r.BadRequest? <==>
              || q.organizationId == [] || (!Present(q.rootId) && !Present(q.correlationId))
              || (Present(q.rootId) && q.rootId.value in db.records
                  && db.records[q.rootId.value].organizationId != Some(q.organizationId))
    ensures r.NotFound? <==> q.organizationId != [] && Present(q.rootId) && q.rootId.value !in db.records
    ensures r.Found? ==>
              && Asked(SearchOf(db, q), LimitOf(q), db, q) && ResponseOk(SearchOf(db, q), LimitOf(q), r)
              && forall v :: v in r.nodes && r.nodes[v].depth == 0 <==> StartsAt(db, q, LimitOf(q), v)
  {
    if q.organizationId == [] || (!Present(q.rootId) && !Present(q.correlationId)) { return BadRequest; }
    if Present(q.rootId) {
      if q.rootId.value !in db.records { return NotFound; }
      if db.records[q.rootId.value].organizationId != Some(q.organizationId) { return BadRequest; }
    }
    SearchOfIsValid(db, q);
    r := AnswerQuery(SearchOf(db, q), LimitOf(q));
    RootsAreAsked(db, q);
    forall v { RootsAreReturned(SearchOf(db, q), LimitOf(q), r, v); }
  }

  // ---------- hops are the table's relations while no list is cut short ----------

  /** Every list is complete: no row has more children or correlated rows than the cap. */
  ghost predicate Uncut(db: GraphDb, org: Text) {
    && (forall id, r :: Holds(db, org, r) && r.parentId == Some(id) ==> r in ListOf(db.children, id))
    && (forall id, r :: id in db.records && Holds(db, org, r) && r.id != id ==>
          r.correlationId.Some? && r.correlationId == db.records[id].correlationId ==> r in ListOf(db.correlated, id))
  }

  lemma HopsAreRelations(s: Search, u: Id, v: Id)
    requires ValidSearch(s) && Uncut(s.db, s.org) && u in s.db.records && Present(Some(u))
    ensures IsHop(Hops(s), u, v) <==>
              && v in s.db.records && s.db.records[v].organizationId == Some(s.org)
              && (|| (s.direction != DOWN && Present(Some(v)) && s.db.records[u].parentId == Some(v))
                  || (s.direction != UP && s.db.records[v].parentId == Some(u))
                  || (u != v && Present(s.db.records[u].correlationId)
                      && s.db.records[u].correlationId == s.db.records[v].correlationId))
  {
    HopIsEdge(s, u, v);
    EdgesAreRelations(s, Edge(u, v, PARENT));
    EdgesAreRelations(s, Edge(u, v, CHILD));
    EdgesAreRelations(s, Edge(u, v, CORRELATION));
  }

  lemma HopIsEdge(s: Search, u: Id, v: Id)
    requires u in s.db.records
    ensures IsHop(Hops(s), u, v) <==>
              Justified(s, Edge(u, v, PARENT)) || Justified(s, Edge(u, v, CHILD)) || Justified(s, Edge(u, v, CORRELATION))
  {
    var rec := s.db.records[u];
    HopsModel(s);
    assert forall r :: r in Neighbours(s, rec) <==>
      r in Related(s, rec, PARENT) || r in Related(s, rec, CHILD) || r in Related(s, rec, CORRELATION);
  }
}
