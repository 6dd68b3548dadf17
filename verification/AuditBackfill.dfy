/** The batched backfill that numbers and hashes rows older than the chain. */
module AuditBackfill {
  import opened Sorting
  import opened Text
  import opened AuditChain
  import opened AuditVerification
  import opened AuditStore

  /** A row still waiting for its place in the SYSTEM chain. */
  predicate Waiting(r: Row) { r.chainKey == SYSTEM_CHAIN_KEY && r.sequence <= 0 }

  function WaitingRows(table: seq<Row>): seq<Row> {
    if table == [] then []
    else (if Waiting(table[0]) then [table[0]] else []) + WaitingRows(table[1..])
  }

  /** `orderBy: [{ createdAt: "asc" }, { id: "asc" }]` */
  predicate Older(a: Row, b: Row) {
    a.createdAt < b.createdAt || (a.createdAt == b.createdAt && LexLess(a.id, b.id))
  }

  function Queue(table: seq<Row>): seq<Row> { Sort(WaitingRows(table), Older) }

  /** `row` placed at `sequence` after a row with hash `prevHash`. */
  function Placed(row: Row, sequence: int, prevHash: Option<Text>, h: Hasher): Row {
    var r := row.(sequence := sequence, hashVersion := CURRENT_HASH_VERSION, prevHash := prevHash);
    r.(hash := h(prevHash, InputOf(r, SYSTEM_CHAIN_KEY), CURRENT_HASH_VERSION).hash)
  }

  /** All of `rows`, placed one after the other after the given position. */
  function PlaceAll(rows: seq<Row>, after: Cursor, h: Hasher): (placed: seq<Row>)
    ensures |placed| == |rows|
  {
    if rows == [] then []
    else
      var first := Placed(rows[0], after.lastSequence + 1, after.lastHash, h);
      [first] + PlaceAll(rows[1..], Cursor(first.sequence, Some(first.hash)), h)
  }

  /** `update({ where: { id } })` */
  function UpdateRow(table: seq<Row>, row: Row): (updated: seq<Row>)
    ensures |updated| == |table|
  {
    if table == [] then [] else [if table[0].id == row.id then row else table[0]] + UpdateRow(table[1..], row)
  }

  /** The table after updates with the first `k` of `rows`. */
  function UpdateFirst(table: seq<Row>, rows: seq<Row>, k: nat): seq<Row>
    requires k <= |rows|
  {
    if k == 0 then table else UpdateRow(UpdateFirst(table, rows, k - 1), rows[k - 1])
  }

  /** What a backfill leaves behind. */
  function Backfilled(db: ChainDb, h: Hasher): ChainDb {
    var placed := PlaceAll(Queue(db.rows), CursorOf(db, SYSTEM_CHAIN_KEY), h);
    if placed == [] then db
    else
      var last := placed[|placed| - 1];
      ChainDb(UpdateFirst(db.rows, placed, |placed|), db.cursors[SYSTEM_CHAIN_KEY := Cursor(last.sequence, Some(last.hash))])
  }

  ghost predicate UniqueIds(table: seq<Row>) {
    forall i, j :: 0 <= i < j < |table| ==> table[i].id != table[j].id
  }

  // ---------- the queue ----------

  lemma OlderIsStrict()
    ensures StrictOrder(Older)
  {
    LexIsStrictOrder();
    forall x, y, z | Older(x, y) && Older(y, z) ensures Older(x, z) {
      if x.createdAt == y.createdAt == z.createdAt { LexTransitive(x.id, y.id, z.id); }
    }
  }

  lemma {:induction false} WaitingElements(table: seq<Row>)
    ensures forall r :: r in WaitingRows(table) <==> r in table && Waiting(r)
  {
    if table != [] {
      WaitingElements(table[1..]);
      assert table == [table[0]] + table[1..];
    }
  }

  lemma {:induction false} WaitingComparable(table: seq<Row>)
    requires UniqueIds(table)
    ensures Comparable(WaitingRows(table), Older)
  {
    if table != [] {
      WaitingComparable(table[1..]);
      WaitingElements(table[1..]);
      var rest := WaitingRows(table[1..]);
      forall j | 0 <= j < |rest| ensures Older(table[0], rest[j]) || Older(rest[j], table[0]) {
        assert rest[j] in table[1..];
        LexTotal(table[0].id, rest[j].id);
      }
    }
  }

  lemma QueueSorted(table: seq<Row>)
    requires UniqueIds(table)
    ensures SortedBy(Queue(table), Older)
    ensures forall r :: r in Queue(table) <==> r in table && Waiting(r)
  {
    OlderIsStrict();
    WaitingComparable(table);
    SortSorted(WaitingRows(table), Older);
    SortElements(WaitingRows(table), Older);
    WaitingElements(table);
  }

  lemma QueueUnique(table: seq<Row>, q: seq<Row>)
    requires UniqueIds(table) && SortedBy(q, Older)
    requires forall r :: r in q <==> r in table && Waiting(r)
    ensures Queue(table) == q
  {
    OlderIsStrict();
    QueueSorted(table);
    SortedUnique(Queue(table), q, Older);
  }

  // ---------- placing rows ----------

  function PositionBefore(placed: seq<Row>, after: Cursor, k: nat): Cursor
    requires k <= |placed|
  {
    if k == 0 then after else Cursor(placed[k - 1].sequence, Some(placed[k - 1].hash))
  }

  lemma {:induction false} PlaceAllAt(rows: seq<Row>, after: Cursor, h: Hasher, k: nat)
    requires k < |rows|
    ensures var placed := PlaceAll(rows, after, h);
            var before := PositionBefore(placed, after, k);
            && placed[k] == Placed(rows[k], before.lastSequence + 1, before.lastHash, h)
            && placed[k].sequence == after.lastSequence + 1 + k
  {
    if k > 0 {
      var first := Placed(rows[0], after.lastSequence + 1, after.lastHash, h);
      PlaceAllAt(rows[1..], Cursor(first.sequence, Some(first.hash)), h, k - 1);
    }
  }

  /** Placed rows form a segment that continues from the given position. */
  lemma PlacedIsSegment(rows: seq<Row>, after: Cursor, h: Hasher)
    requires forall i :: 0 <= i < |rows| ==> rows[i].chainKey == SYSTEM_CHAIN_KEY
    ensures Segment(PlaceAll(rows, after, h), SYSTEM_CHAIN_KEY, h)
  {
    var placed := PlaceAll(rows, after, h);
    forall k | 0 <= k < |placed|
      ensures placed[k].chainKey == SYSTEM_CHAIN_KEY && HashOk(placed[k], h)
      ensures k > 0 ==> FollowsAt(placed, k)
    {
      PlaceAllAt(rows, after, h, k);
      var before := PositionBefore(placed, after, k);
      PlacedHashes(rows[k], before.lastSequence + 1, before.lastHash, h);
    }
  }

  lemma PlacedHashes(row: Row, sequence: int, prevHash: Option<Text>, h: Hasher)
    requires row.chainKey == SYSTEM_CHAIN_KEY
    ensures HashOk(Placed(row, sequence, prevHash, h), h)
  {
    var r := row.(sequence := sequence, hashVersion := CURRENT_HASH_VERSION, prevHash := prevHash);
    assert InputOf(Placed(row, sequence, prevHash, h), SYSTEM_CHAIN_KEY) == InputOf(r, SYSTEM_CHAIN_KEY);
  }

  // ---------- updating rows ----------

  lemma {:induction false} UpdateRowAt(table: seq<Row>, row: Row, i: nat)
    requires i < |table|
    ensures UpdateRow(table, row)[i] == if table[i].id == row.id then row else table[i]
  {
    if i > 0 { UpdateRowAt(table[1..], row, i - 1); }
  }

  // ---------- what the table looks like part way through ----------

  /** The first `k` of the queue are placed in the table, the rest still wait. */
  ghost predicate Progress(was: seq<Row>, now: seq<Row>, queue: seq<Row>, placed: seq<Row>, k: nat) {
    && |now| == |was| && k <= |queue| == |placed|
    && (forall i :: 0 <= i < |was| ==> now[i].id == was[i].id)
    && (forall r :: r in now && Waiting(r) <==> r in queue[k..])
    && (forall r :: r in now && !Waiting(r) <==> (r in was && !Waiting(r)) || r in placed[..k])
  }

  lemma ProgressUnique(was: seq<Row>, now: seq<Row>, queue: seq<Row>, placed: seq<Row>, k: nat)
    requires UniqueIds(was) && Progress(was, now, queue, placed, k)
    ensures UniqueIds(now)
  {
    forall i, j | 0 <= i < j < |now| ensures now[i].id != now[j].id {
      assert now[i].id == was[i].id && now[j].id == was[j].id;
    }
  }

  lemma ProgressQueue(was: seq<Row>, now: seq<Row>, queue: seq<Row>, placed: seq<Row>, k: nat)
    requires UniqueIds(was) && SortedBy(queue, Older) && Progress(was, now, queue, placed, k)
    ensures Queue(now) == queue[k..]
  {
    ProgressUnique(was, now, queue, placed, k);
    QueueUnique(now, queue[k..]);
  }

  lemma {:induction false} UpdatedElements(table: seq<Row>, row: Row, r: Row)
    requires UniqueIds(table)
    requires exists i :: 0 <= i < |table| && table[i].id == row.id
    ensures r in UpdateRow(table, row) <==> r == row || (r in table && r.id != row.id)
  {
    var updated := UpdateRow(table, row);
    var at :| 0 <= at < |table| && table[at].id == row.id;
    UpdateRowAt(table, row, at);
    if r in updated {
      var i :| 0 <= i < |updated| && updated[i] == r;
      UpdateRowAt(table, row, i);
    }
    if r in table && r.id != row.id {
      var i :| 0 <= i < |table| && table[i] == r;
      UpdateRowAt(table, row, i);
      assert updated[i] == r;
    }
    assert updated[at] == row;
  }

  /** Updating by id replaces the row that waited and nothing else. */
  lemma ReplacesWaiting(table: seq<Row>, waiting: Row, row: Row)
    requires UniqueIds(table) && waiting in table && waiting.id == row.id
    ensures forall r :: r in UpdateRow(table, row) <==> r == row || (r in table && r != waiting)
  {
    var at :| 0 <= at < |table| && table[at] == waiting;
    forall r ensures r in UpdateRow(table, row) <==> r == row || (r in table && r != waiting) {
      UpdatedElements(table, row, r);
      if r in table && r.id == row.id {
        var i :| 0 <= i < |table| && table[i] == r;
        assert i == at;
      }
    }
  }

  lemma QueueSplit(queue: seq<Row>, k: nat)
    requires SortedBy(queue, Older) && k < |queue|
    ensures forall r :: r in queue[k..] <==> r == queue[k] || r in queue[k + 1..]
    ensures queue[k] !in queue[k + 1..]
  {
    assert queue[k..] == [queue[k]] + queue[k + 1..];
    OlderIsStrict();
    var rest := queue[k + 1..];
    forall j | 0 <= j < |rest| ensures rest[j] != queue[k] {
      assert Older(queue[k], queue[k + 1 + j]);
    }
  }

  lemma ProgressStep(was: seq<Row>, now: seq<Row>, queue: seq<Row>, placed: seq<Row>, k: nat)
    requires UniqueIds(was) && SortedBy(queue, Older) && Progress(was, now, queue, placed, k) && k < |queue|
    requires placed[k].id == queue[k].id && placed[k].sequence > 0
    ensures Progress(was, UpdateRow(now, placed[k]), queue, placed, k + 1)
  {
    var row, next := placed[k], UpdateRow(now, placed[k]);
    QueueSplit(queue, k);
    ProgressUnique(was, now, queue, placed, k);
    ReplacesWaiting(now, queue[k], row);
    forall i | 0 <= i < |was| ensures next[i].id == was[i].id { UpdateRowAt(now, row, i); }
    assert placed[..k + 1] == placed[..k] + [row];
    assert forall r :: r in placed[..k + 1] <==> r in placed[..k] || r == row;
    assert Waiting(queue[k]) && !Waiting(row);
  }

  lemma ProgressStart(table: seq<Row>, placed: seq<Row>)
    requires UniqueIds(table) && |placed| == |Queue(table)|
    ensures Progress(table, table, Queue(table), placed, 0)
  {
    QueueSorted(table);
    assert Queue(table)[0..] == Queue(table) && placed[..0] == [];
  }

  lemma {:induction false} UpdateProgress(was: seq<Row>, start: Cursor, h: Hasher, k: nat)
    requires UniqueIds(was) && start.lastSequence >= 0 && k <= |Queue(was)|
    ensures var placed := PlaceAll(Queue(was), start, h);
            Progress(was, UpdateFirst(was, placed, k), Queue(was), placed, k)
  {
    var queue, placed := Queue(was), PlaceAll(Queue(was), start, h);
    if k == 0 {
      ProgressStart(was, placed);
    } else {
      UpdateProgress(was, start, h, k - 1);
      QueueSorted(was);
      PlaceAllAt(queue, start, h, k - 1);
      ProgressStep(was, UpdateFirst(was, placed, k - 1), queue, placed, k - 1);
    }
  }

  /** Row `k` of `placed` is row `k` of the queue, placed after row `k - 1`. */
  ghost predicate PlacedAt(placed: seq<Row>, queue: seq<Row>, start: Cursor, h: Hasher, k: nat)
    requires k < |placed| == |queue|
  {
    var before := PositionBefore(placed, start, k);
    placed[k] == Placed(queue[k], before.lastSequence + 1, before.lastHash, h)
  }

  ghost predicate PlacedFrom(placed: seq<Row>, queue: seq<Row>, start: Cursor, h: Hasher) {
    |placed| == |queue| && forall k :: 0 <= k < |placed| ==> PlacedAt(placed, queue, start, h, k)
  }

  lemma PlaceAllIsPlacedFrom(queue: seq<Row>, start: Cursor, h: Hasher)
    ensures PlacedFrom(PlaceAll(queue, start, h), queue, start, h)
  {
    forall k | 0 <= k < |queue| ensures PlacedAt(PlaceAll(queue, start, h), queue, start, h, k) {
      PlaceAllAt(queue, start, h, k);
    }
  }

  /** After the first `k` updates the table's queue is the rest of the original queue. */
  ghost predicate QueueAt(was: seq<Row>, queue: seq<Row>, placed: seq<Row>, k: nat)
    requires k <= |queue| == |placed|
  {
    Queue(UpdateFirst(was, placed, k)) == queue[k..]
  }

  lemma QueueShrinks(was: seq<Row>, start: Cursor, h: Hasher)
    requires UniqueIds(was) && start.lastSequence >= 0
    ensures var queue := Queue(was);
            forall k :: 0 <= k <= |queue| ==> QueueAt(was, queue, PlaceAll(queue, start, h), k)
  {
    var queue := Queue(was);
    var placed := PlaceAll(queue, start, h);
    QueueSorted(was);
    forall k | 0 <= k <= |queue| ensures QueueAt(was, queue, placed, k) {
      UpdateProgress(was, start, h, k);
      ProgressQueue(was, UpdateFirst(was, placed, k), queue, placed, k);
    }
  }

  /** One batch: `rows` are the next rows of the queue. */
  method BackfillBatch(
      db: AuditDb, rows: seq<Row>, from: Cursor, h: Hasher,
      ghost was: seq<Row>, ghost queue: seq<Row>, ghost placed: seq<Row>, ghost start: Cursor, ghost done: nat)
      returns (at: Cursor)
    requires done + |rows| <= |queue| && forall i :: 0 <= i < |rows| ==> rows[i] == queue[done + i]
    requires PlacedFrom(placed, queue, start, h)
    requires db.rows == UpdateFirst(was, placed, done) && from == PositionBefore(placed, start, done)
    modifies db`rows
    ensures db.rows == UpdateFirst(was, placed, done + |rows|)
    ensures at == PositionBefore(placed, start, done + |rows|)
  {
    var sequence, prevHash := from.lastSequence, from.lastHash;
    for i := 0 to |rows|
      invariant db.rows == UpdateFirst(was, placed, done + i)
      invariant Cursor(sequence, prevHash) == PositionBefore(placed, start, done + i)
    {
      sequence := sequence + 1;
      var row := Placed(rows[i], sequence, prevHash, h);
      assert PlacedAt(placed, queue, start, h, done + i);
      db.rows := UpdateRow(db.rows, row);
      prevHash := Some(row.hash);
    }
    at := Cursor(sequence, prevHash);
  }

  /** A batch read after the first `k` updates holds the next rows of the queue. */
  lemma NextBatch(was: seq<Row>, table: seq<Row>, queue: seq<Row>, placed: seq<Row>, k: nat, rows: seq<Row>, batchSize: nat)
    requires k <= |queue| == |placed| && QueueAt(was, queue, placed, k) && table == UpdateFirst(was, placed, k)
    requires rows == Take(Queue(table), batchSize)
    ensures k + |rows| <= |queue| && |rows| <= batchSize && forall i :: 0 <= i < |rows| ==> rows[i] == queue[k + i]
    ensures |rows| < batchSize ==> k + |rows| == |queue|
  {
  }

  /** The loop over batches. */
  method BackfillBatches(
      db: AuditDb, batchSize: nat, start: Cursor, h: Hasher,
      ghost queue: seq<Row>, ghost placed: seq<Row>)
      returns (processed: nat, at: Cursor)
    requires batchSize >= 1 && PlacedFrom(placed, queue, start, h)
    requires forall k :: 0 <= k <= |queue| ==> QueueAt(db.rows, queue, placed, k)
    modifies db`rows
    ensures processed == |queue| && db.rows == UpdateFirst(old(db.rows), placed, |queue|)
    ensures at == PositionBefore(placed, start, |queue|)
  {
    ghost var was := db.rows;
    at, processed := start, 0;
    while true
      invariant processed <= |queue| && db.rows == UpdateFirst(was, placed, processed)
      invariant at == PositionBefore(placed, start, processed)
      decreases |queue| - processed
    {
      assert QueueAt(was, queue, placed, processed);
      var rows := Take(Queue(db.rows), batchSize);
      NextBatch(was, db.rows, queue, placed, processed, rows, batchSize);
      if |rows| == 0 { break; }
      at := BackfillBatch(db, rows, at, h, was, queue, placed, start, processed);
      processed := processed + |rows|;
      if |rows| < batchSize { break; }
    }
  }

  /** The script: read the cursor, number waiting rows batch by batch, move the cursor. */
  method BackfillSystemChain(db: AuditDb, batchSize: nat, h: Hasher) returns (processed: nat)
    requires batchSize >= 1 && UniqueIds(db.rows) && CursorOf(db.State(), SYSTEM_CHAIN_KEY).lastSequence >= 0
    modifies db
    ensures db.State() == Backfilled(old(db.State()), h)
    ensures processed == |Queue(old(db.rows))|
  {
    var start := CursorOf(db.State(), SYSTEM_CHAIN_KEY);
    ghost var queue := Queue(db.rows);
    PlaceAllIsPlacedFrom(queue, start, h);
    QueueShrinks(db.rows, start, h);
    var at;
    processed, at := BackfillBatches(db, batchSize, start, h, queue, PlaceAll(queue, start, h));
    if processed > 0 {
      db.cursors := db.cursors[SYSTEM_CHAIN_KEY := at];
    }
  }

  // ---------- what the backfill achieves ----------

  /** The rows already numbered, in order. */
  function Numbered(table: seq<Row>): seq<Row> { Sort(Matching(table, SYSTEM_CHAIN_KEY, Some(0)), BySequence) }

  /** The existing SYSTEM chain verifies and its cursor is at its end. */
  ghost predicate ReadyToBackfill(db: ChainDb, h: Hasher) {
    var rows, cursor := Numbered(db.rows), CursorOf(db, SYSTEM_CHAIN_KEY);
    && UniqueIds(db.rows) && UniqueSequences(db.rows)
    && Segment(rows, SYSTEM_CHAIN_KEY, h)
    && cursor.lastSequence >= 0
    && (rows != [] ==> cursor == Cursor(rows[|rows| - 1].sequence, Some(rows[|rows| - 1].hash)))
  }

  lemma BackfilledProgress(db: ChainDb, h: Hasher)
    requires UniqueIds(db.rows) && CursorOf(db, SYSTEM_CHAIN_KEY).lastSequence >= 0
    ensures var placed := PlaceAll(Queue(db.rows), CursorOf(db, SYSTEM_CHAIN_KEY), h);
            Progress(db.rows, Backfilled(db, h).rows, Queue(db.rows), placed, |placed|)
  {
    var placed := PlaceAll(Queue(db.rows), CursorOf(db, SYSTEM_CHAIN_KEY), h);
    UpdateProgress(db.rows, CursorOf(db, SYSTEM_CHAIN_KEY), h, |placed|);
    assert placed[..|placed|] == placed;
  }

  lemma SegmentJoin(a: seq<Row>, b: seq<Row>, chainKey: Text, h: Hasher)
    requires Segment(a, chainKey, h) && Segment(b, chainKey, h)
    requires a != [] && b != [] ==> Follows(a[|a| - 1], b[0])
    ensures Segment(a + b, chainKey, h)
  {
    var all := a + b;
    forall i | 0 < i < |all| ensures FollowsAt(all, i) {
      if i < |a| {
        assert FollowsAt(a, i);
      } else if i > |a| {
        assert FollowsAt(b, i - |a|);
      }
    }
  }

  lemma NumberedElements(table: seq<Row>)
    ensures forall r :: r in Numbered(table) <==> r in table && r.chainKey == SYSTEM_CHAIN_KEY && !Waiting(r)
  {
    MatchingElements(table, SYSTEM_CHAIN_KEY, Some(0));
    SortElements(Matching(table, SYSTEM_CHAIN_KEY, Some(0)), BySequence);
  }

  /** Placing rows after the end of a chain extends it. */
  lemma JoinPlaced(rows: seq<Row>, queue: seq<Row>, start: Cursor, h: Hasher)
    requires Segment(rows, SYSTEM_CHAIN_KEY, h)
    requires forall i :: 0 <= i < |queue| ==> queue[i].chainKey == SYSTEM_CHAIN_KEY
    requires rows != [] ==> start == Cursor(rows[|rows| - 1].sequence, Some(rows[|rows| - 1].hash))
    ensures Segment(rows + PlaceAll(queue, start, h), SYSTEM_CHAIN_KEY, h)
  {
    var placed := PlaceAll(queue, start, h);
    PlacedIsSegment(queue, start, h);
    if queue != [] {
      PlaceAllAt(queue, start, h, 0);
      assert PositionBefore(placed, start, 0) == start;
    }
    SegmentJoin(rows, placed, SYSTEM_CHAIN_KEY, h);
  }

  lemma QueueIsSystem(table: seq<Row>)
    requires UniqueIds(table)
    ensures forall i :: 0 <= i < |Queue(table)| ==> Queue(table)[i].chainKey == SYSTEM_CHAIN_KEY
  {
    QueueSorted(table);
    assert forall i :: 0 <= i < |Queue(table)| ==> Queue(table)[i] in Queue(table);
  }

  lemma ExtendedChain(db: ChainDb, h: Hasher)
    requires ReadyToBackfill(db, h)
    ensures var placed := PlaceAll(Queue(db.rows), CursorOf(db, SYSTEM_CHAIN_KEY), h);
            Segment(Numbered(db.rows) + placed, SYSTEM_CHAIN_KEY, h)
  {
    QueueIsSystem(db.rows);
    JoinPlaced(Numbered(db.rows), Queue(db.rows), CursorOf(db, SYSTEM_CHAIN_KEY), h);
  }

  lemma {:induction false} MatchingDistinct(table: seq<Row>, chainKey: Text)
    requires UniqueIds(table)
    ensures UniqueIds(Matching(table, chainKey, None))
  {
    if table != [] {
      MatchingDistinct(table[1..], chainKey);
      MatchingElements(table[1..], chainKey, None);
      var rest := Matching(table[1..], chainKey, None);
      forall j | 0 <= j < |rest| ensures rest[j].id != table[0].id {
        assert rest[j] in table[1..];
      }
    }
  }

  /** A table whose chain rows are exactly those of a strictly sorted list reads back as that list. */
  lemma ChainRowsAre(table: seq<Row>, chainKey: Text, rows: seq<Row>)
    requires UniqueIds(table) && SortedBy(rows, BySequence)
    requires forall r :: r in rows <==> r in table && r.chainKey == chainKey
    ensures ChainRows(table, chainKey) == rows
  {
    var m := Matching(table, chainKey, None);
    MatchingElements(table, chainKey, None);
    MatchingDistinct(table, chainKey);
    BySequenceIsStrict();
    forall i, j | 0 <= i < j < |m| ensures BySequence(m[i], m[j]) || BySequence(m[j], m[i]) {
      assert m[i] in rows && m[j] in rows;
      var a :| 0 <= a < |rows| && rows[a] == m[i];
      var b :| 0 <= b < |rows| && rows[b] == m[j];
      assert a != b;
      assert if a < b then BySequence(rows[a], rows[b]) else BySequence(rows[b], rows[a]);
    }
    SortElements(m, BySequence);
    SortSorted(m, BySequence);
    SortedUnique(Sort(m, BySequence), rows, BySequence);
  }

  lemma BackfilledElements(db: ChainDb, h: Hasher)
    requires UniqueIds(db.rows) && CursorOf(db, SYSTEM_CHAIN_KEY).lastSequence >= 0
    ensures var after, placed := Backfilled(db, h), PlaceAll(Queue(db.rows), CursorOf(db, SYSTEM_CHAIN_KEY), h);
            && UniqueIds(after.rows) && Queue(after.rows) == []
            && forall r :: r in after.rows <==> (r in db.rows && !Waiting(r)) || r in placed
  {
    var after, queue := Backfilled(db, h), Queue(db.rows);
    var placed := PlaceAll(queue, CursorOf(db, SYSTEM_CHAIN_KEY), h);
    BackfilledProgress(db, h);
    QueueSorted(db.rows);
    ProgressUnique(db.rows, after.rows, queue, placed, |placed|);
    ProgressQueue(db.rows, after.rows, queue, placed, |placed|);
    assert queue[|placed|..] == [] && placed[..|placed|] == placed;
  }

  lemma BackfilledRows(db: ChainDb, h: Hasher)
    requires ReadyToBackfill(db, h)
    ensures var rows := Numbered(db.rows) + PlaceAll(Queue(db.rows), CursorOf(db, SYSTEM_CHAIN_KEY), h);
            ChainRows(Backfilled(db, h).rows, SYSTEM_CHAIN_KEY) == rows && Segment(rows, SYSTEM_CHAIN_KEY, h)
  {
    var placed := PlaceAll(Queue(db.rows), CursorOf(db, SYSTEM_CHAIN_KEY), h);
    var rows := Numbered(db.rows) + placed;
    BackfilledElements(db, h);
    NumberedElements(db.rows);
    ExtendedChain(db, h);
    SegmentSorted(rows, SYSTEM_CHAIN_KEY, h);
    forall r | r in placed ensures r.chainKey == SYSTEM_CHAIN_KEY {
      assert r in rows;
    }
    ChainRowsAre(Backfilled(db, h).rows, SYSTEM_CHAIN_KEY, rows);
  }

  /** Two rows of a sorted list with one sequence are one row. */
  lemma SortedBySequence(rows: seq<Row>, a: Row, b: Row)
    requires SortedBy(rows, BySequence) && a in rows && b in rows && a.sequence == b.sequence
    ensures a == b
  {
    var i :| 0 <= i < |rows| && rows[i] == a;
    var j :| 0 <= j < |rows| && rows[j] == b;
    OnePlacePerSequence(rows, i, j);
  }

  lemma OnePlacePerSequence(rows: seq<Row>, i: nat, j: nat)
    requires SortedBy(rows, BySequence) && i < |rows| && j < |rows| && rows[i].sequence == rows[j].sequence
    ensures i == j
  {
  }

  lemma SameSequenceSameRow(table: seq<Row>, a: Row, b: Row)
    requires UniqueSequences(table) && a in table && b in table && a.chainKey == b.chainKey && a.sequence == b.sequence
    ensures a == b
  {
    var i :| 0 <= i < |table| && table[i] == a;
    var j :| 0 <= j < |table| && table[j] == b;
  }

  /** The backfilled table keeps at most one row per chain and sequence, as the paged verifier needs. */
  lemma BackfilledSequences(db: ChainDb, h: Hasher)
    requires ReadyToBackfill(db, h)
    ensures UniqueSequences(Backfilled(db, h).rows)
  {
    var table := Backfilled(db, h).rows;
    BackfilledElements(db, h);
    BackfilledRows(db, h);
    var rows := ChainRows(table, SYSTEM_CHAIN_KEY);
    SegmentSorted(rows, SYSTEM_CHAIN_KEY, h);
    MatchingElements(table, SYSTEM_CHAIN_KEY, None);
    SortElements(Matching(table, SYSTEM_CHAIN_KEY, None), BySequence);
    forall i, j | 0 <= i < j < |table| && table[i].chainKey == table[j].chainKey
      ensures table[i].sequence != table[j].sequence
    {
      var a, b := table[i], table[j];
      assert a in table && b in table && a.id != b.id;
      if a.sequence == b.sequence {
        if a.chainKey == SYSTEM_CHAIN_KEY {
          SortedBySequence(rows, a, b);
        } else {
          OtherChainsUntouched(db, h, a);
          OtherChainsUntouched(db, h, b);
          SameSequenceSameRow(db.rows, a, b);
        }
      }
    }
  }

  /** MAIN: the backfill appends every waiting row, oldest first, to the existing chain; the
      result verifies, the cursor is at its end, and nothing waits any more. */
  lemma BackfillExtendsChain(db: ChainDb, h: Hasher)
    requires ReadyToBackfill(db, h)
    ensures var after := Backfilled(db, h);
            var start := CursorOf(db, SYSTEM_CHAIN_KEY);
            var placed := PlaceAll(Queue(db.rows), start, h);
            var rows := ChainRows(after.rows, SYSTEM_CHAIN_KEY);
            && rows == Numbered(db.rows) + placed && PlacedFrom(placed, Queue(db.rows), start, h)
            && (forall k :: 0 <= k < |placed| ==> placed[k].sequence == start.lastSequence + 1 + k)
            && OnePass(rows, SYSTEM_CHAIN_KEY, h).Returns? && OnePass(rows, SYSTEM_CHAIN_KEY, h).report.ok
            && CursorOf(after, SYSTEM_CHAIN_KEY) == PositionBefore(placed, start, |placed|)
            && Queue(after.rows) == [] && UniqueSequences(after.rows)
  {
    BackfilledSequences(db, h);
    var start, queue := CursorOf(db, SYSTEM_CHAIN_KEY), Queue(db.rows);
    var placed := PlaceAll(queue, start, h);
    assert Queue(Backfilled(db, h).rows) == [] by { BackfilledElements(db, h); }
    BackfilledRows(db, h);
    PlaceAllIsPlacedFrom(queue, start, h);
    forall k | 0 <= k < |placed| ensures placed[k].sequence == start.lastSequence + 1 + k { PlaceAllAt(queue, start, h, k); }
    SegmentIsOk(Numbered(db.rows) + placed, h);
  }

  lemma SegmentIsOk(rows: seq<Row>, h: Hasher)
    requires Segment(rows, SYSTEM_CHAIN_KEY, h)
    ensures OnePass(rows, SYSTEM_CHAIN_KEY, h).Returns? && OnePass(rows, SYSTEM_CHAIN_KEY, h).report.ok
  {
    OkMeansSegment(rows, SYSTEM_CHAIN_KEY, h);
  }

  /** The columns of a row that a place in the chain does not concern. */
  function Described(row: Row): Row { row.(sequence := 0, hashVersion := 0, prevHash := None, hash := []) }

  lemma SameIdSameRow(rows: seq<Row>, i: nat, r: Row)
    requires UniqueIds(rows) && i < |rows| && r in rows && r.id == rows[i].id
    ensures rows[i] == r
  {
    var j :| 0 <= j < |rows| && rows[j] == r;
  }

  /** Where the row at `i` ended up in the queue, when it waited. */
  lemma PlaceOf(db: ChainDb, h: Hasher, i: nat) returns (k: nat)
    requires UniqueIds(db.rows) && CursorOf(db, SYSTEM_CHAIN_KEY).lastSequence >= 0
    requires i < |db.rows| && Waiting(db.rows[i])
    ensures |Backfilled(db, h).rows| == |db.rows| && k < |Queue(db.rows)| && Queue(db.rows)[k] == db.rows[i]
    ensures Backfilled(db, h).rows[i] == PlaceAll(Queue(db.rows), CursorOf(db, SYSTEM_CHAIN_KEY), h)[k]
  {
    var queue, start := Queue(db.rows), CursorOf(db, SYSTEM_CHAIN_KEY);
    assert db.rows[i] in queue by { QueueSorted(db.rows); }
    k :| 0 <= k < |queue| && queue[k] == db.rows[i];
    PlacedIsThere(db, h, k, PlaceAll(queue, start, h)[k]);
    assert Backfilled(db, h).rows[i].id == db.rows[i].id by { BackfilledProgress(db, h); }
    SameIdSameRow(Backfilled(db, h).rows, i, PlaceAll(queue, start, h)[k]);
  }

  lemma PlacedIsThere(db: ChainDb, h: Hasher, k: nat, row: Row)
    requires UniqueIds(db.rows) && CursorOf(db, SYSTEM_CHAIN_KEY).lastSequence >= 0 && k < |Queue(db.rows)|
    requires row == PlaceAll(Queue(db.rows), CursorOf(db, SYSTEM_CHAIN_KEY), h)[k]
    ensures row in Backfilled(db, h).rows && UniqueIds(Backfilled(db, h).rows)
    ensures row.id == Queue(db.rows)[k].id && |Backfilled(db, h).rows| == |db.rows|
  {
    PlaceAllAt(Queue(db.rows), CursorOf(db, SYSTEM_CHAIN_KEY), h, k);
    BackfilledElements(db, h);
    BackfilledProgress(db, h);
  }

  /** Row `i` keeps what it says; only a waiting one gets a place. */
  lemma RecordKept(db: ChainDb, h: Hasher, i: nat)
    requires UniqueIds(db.rows) && CursorOf(db, SYSTEM_CHAIN_KEY).lastSequence >= 0 && i < |db.rows|
    ensures var rows := Backfilled(db, h).rows;
            && |rows| == |db.rows| && Described(rows[i]) == Described(db.rows[i])
            && if db.rows[i].chainKey == SYSTEM_CHAIN_KEY && db.rows[i].sequence <= 0 then rows[i].sequence > 0
               else rows[i] == db.rows[i]
  {
    BackfilledProgress(db, h);
    if Waiting(db.rows[i]) {
      var k := PlaceOf(db, h, i);
      PlaceAllAt(Queue(db.rows), CursorOf(db, SYSTEM_CHAIN_KEY), h, k);
    } else {
      BackfilledElements(db, h);
      SameIdSameRow(Backfilled(db, h).rows, i, db.rows[i]);
    }
  }

  /** MAIN: no row is lost, doubled or rewritten in what it says; exactly the system rows without a
      place get one, and of two of them the older, or the one with the smaller id, comes first. */
  lemma BackfillKeepsRecords(db: ChainDb, h: Hasher)
    requires UniqueIds(db.rows) && CursorOf(db, SYSTEM_CHAIN_KEY).lastSequence >= 0
    ensures var was, rows := db.rows, Backfilled(db, h).rows;
            && |rows| == |was|
            && (forall i :: 0 <= i < |was| ==> Described(rows[i]) == Described(was[i]))
            && (forall i :: 0 <= i < |was| ==>
                  if was[i].chainKey == SYSTEM_CHAIN_KEY && was[i].sequence <= 0 then rows[i].sequence > 0 else rows[i] == was[i])
            && (forall i, j :: 0 <= i < |was| && 0 <= j < |was| && Waiting(was[i]) && Waiting(was[j])
                  && (was[i].createdAt < was[j].createdAt || (was[i].createdAt == was[j].createdAt && LexLess(was[i].id, was[j].id)))
                  ==> rows[i].sequence < rows[j].sequence)
  {
    BackfilledProgress(db, h);
    var was, rows := db.rows, Backfilled(db, h).rows;
    forall i | 0 <= i < |was|
      ensures Described(rows[i]) == Described(was[i])
      ensures if was[i].chainKey == SYSTEM_CHAIN_KEY && was[i].sequence <= 0 then rows[i].sequence > 0 else rows[i] == was[i]
    {
      RecordKept(db, h, i);
    }
    forall i, j | 0 <= i < |was| && 0 <= j < |was| && Waiting(was[i]) && Waiting(was[j]) && Older(was[i], was[j])
      ensures rows[i].sequence < rows[j].sequence
    {
      OlderComesFirst(db, h, i, j);
    }
  }

  lemma OlderComesFirst(db: ChainDb, h: Hasher, i: nat, j: nat)
    requires UniqueIds(db.rows) && CursorOf(db, SYSTEM_CHAIN_KEY).lastSequence >= 0
    requires i < |db.rows| && j < |db.rows| && Waiting(db.rows[i]) && Waiting(db.rows[j]) && Older(db.rows[i], db.rows[j])
    ensures |Backfilled(db, h).rows| == |db.rows|
    ensures Backfilled(db, h).rows[i].sequence < Backfilled(db, h).rows[j].sequence
  {
    var queue, start := Queue(db.rows), CursorOf(db, SYSTEM_CHAIN_KEY);
    var k := PlaceOf(db, h, i);
    var l := PlaceOf(db, h, j);
    PlaceAllAt(queue, start, h, k);
    PlaceAllAt(queue, start, h, l);
    QueueSorted(db.rows);
    OlderIsEarlier(queue, k, l);
  }

  lemma OlderIsEarlier(queue: seq<Row>, k: nat, l: nat)
    requires SortedBy(queue, Older) && k < |queue| && l < |queue| && Older(queue[k], queue[l])
    ensures k < l
  {
    OlderIsStrict();
  }

  /** Rows of other chains are left alone. */
  lemma OtherChainsUntouched(db: ChainDb, h: Hasher, r: Row)
    requires ReadyToBackfill(db, h) && r.chainKey != SYSTEM_CHAIN_KEY
    ensures r in Backfilled(db, h).rows <==> r in db.rows
  {
    BackfilledElements(db, h);
    BackfilledRows(db, h);
    var placed := PlaceAll(Queue(db.rows), CursorOf(db, SYSTEM_CHAIN_KEY), h);
    forall x | x in placed ensures x.chainKey == SYSTEM_CHAIN_KEY {
      assert x in Numbered(db.rows) + placed;
    }
  }

  /** A second run finds nothing to do. */
  lemma BackfillIsIdempotent(db: ChainDb, h: Hasher)
    requires ReadyToBackfill(db, h)
    ensures Queue(Backfilled(db, h).rows) == [] && Backfilled(Backfilled(db, h), h) == Backfilled(db, h)
  {
    BackfillExtendsChain(db, h);
  }
}
