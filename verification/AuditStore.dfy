/** Appending to hash chains, retention, and what every interleaving of the two leaves behind. */
module AuditStore {
  import opened Sorting
  import opened Text
  import opened Json
  import opened Canonical
  import opened AuditChain
  import opened AuditVerification

  /** One `AuditChainCursor` row. */
  datatype Cursor = Cursor(lastSequence: int, lastHash: Option<Text>)

  /** What a caller passes to `auditLog.create`. `stored` is the metadata as the JSON column
      hands it back: reordered keys, undefined properties gone, dates as strings. */
  datatype NewRecord = NewRecord(
    id: Text, organizationId: Option<Text>, actorType: Text, actorId: Option<Text>, action: Text,
    resourceType: Text, resourceId: Option<Text>, metadata: Js, stored: Js, createdAt: int,
    correlationId: Option<Text>, parentId: Option<Text>)

  ghost predicate StoredAs(v: Js, w: Js, iso: Iso) {
    WellFormed(v) && WellFormed(w) && Equivalent(Plain(v, iso), w, iso)
  }

  ghost predicate ValidRecord(r: NewRecord, iso: Iso) {
    StoredAs(MetadataOrNull(r.metadata), r.stored, iso)
  }

  datatype ChainDb = ChainDb(rows: seq<Row>, cursors: map<Text, Cursor>)

  function CursorOf(db: ChainDb, chainKey: Text): Cursor {
    if chainKey in db.cursors then db.cursors[chainKey] else Cursor(0, None)
  }

  /** The row written at the end of the chain, hashed over the metadata as given. */
  function NextRow(db: ChainDb, r: NewRecord, h: Hasher): Row {
    var chainKey := ResolveChainKey(r.organizationId);
    var cursor := CursorOf(db, chainKey);
    var input := HashInput(chainKey, cursor.lastSequence + 1, CURRENT_HASH_VERSION, r.actorType, r.actorId,
                           r.action, r.resourceType, r.resourceId, MetadataOrNull(r.metadata), r.createdAt);
    Row(r.id, chainKey, cursor.lastSequence + 1, CURRENT_HASH_VERSION, cursor.lastHash,
        h(cursor.lastHash, input, CURRENT_HASH_VERSION).hash, r.actorType, r.actorId, r.action,
        r.resourceType, r.resourceId, r.stored, r.createdAt, r.organizationId, r.correlationId, r.parentId)
  }

  /** The row holds what the caller passed, column by column, in the chain it was addressed to. */
  ghost predicate Carries(row: Row, r: NewRecord) {
    && row.chainKey == ResolveChainKey(r.organizationId) && row.hashVersion == CURRENT_HASH_VERSION
    && row.id == r.id && row.organizationId == r.organizationId
    && row.actorType == r.actorType && row.actorId == r.actorId && row.action == r.action
    && row.resourceType == r.resourceType && row.resourceId == r.resourceId
    && row.metadata == r.stored && row.createdAt == r.createdAt
    && row.correlationId == r.correlationId && row.parentId == r.parentId
  }

  /** Writing `row` at the end of its chain and moving that chain's cursor onto it. */
  function WriteRow(db: ChainDb, row: Row): ChainDb {
    ChainDb(db.rows + [row], db.cursors[row.chainKey := Cursor(row.sequence, Some(row.hash))])
  }

  function Append(db: ChainDb, r: NewRecord, h: Hasher): ChainDb {
    WriteRow(db, NextRow(db, r, h))
  }

  /** Retention: delete the rows of one chain numbered below `bound`. */
  function DropBelow(rows: seq<Row>, chainKey: Text, bound: int): seq<Row> {
    if rows == [] then []
    else if rows[0].chainKey == chainKey && rows[0].sequence < bound then DropBelow(rows[1..], chainKey, bound)
    else [rows[0]] + DropBelow(rows[1..], chainKey, bound)
  }

  /** The tables, changed in place. The row lock on the cursor makes each append one step. */
  class AuditDb {
    var rows: seq<Row>
    var cursors: map<Text, Cursor>

    function State(): ChainDb
      reads this
    {
      ChainDb(rows, cursors)
    }

    constructor ()
      ensures State() == ChainDb([], map[])
    {
      rows, cursors := [], map[];
    }

    method AppendAuditLog(r: NewRecord, h: Hasher) returns (created: Row)
      modifies this
      ensures State() == Append(old(State()), r, h)
      ensures created == NextRow(old(State()), r, h)
      ensures Carries(created, r) && rows == old(rows) + [created]
      ensures created.sequence == old(CursorOf(State(), created.chainKey)).lastSequence + 1
      ensures created.prevHash == old(CursorOf(State(), created.chainKey)).lastHash
    {
      var chainKey := ResolveChainKey(r.organizationId);
      if chainKey !in cursors {
        cursors := cursors[chainKey := Cursor(0, None)];
      }
      var cursor := cursors[chainKey];
      var sequence := cursor.lastSequence + 1;
      var prevHash := cursor.lastHash;
      var metadata := MetadataOrNull(r.metadata);
      var hash := h(
        prevHash,
        HashInput(chainKey, sequence, CURRENT_HASH_VERSION, r.actorType, r.actorId, r.action,
                  r.resourceType, r.resourceId, metadata, r.createdAt),
        CURRENT_HASH_VERSION).hash;
      created := Row(r.id, chainKey, sequence, CURRENT_HASH_VERSION, prevHash, hash, r.actorType, r.actorId,
                     r.action, r.resourceType, r.resourceId, r.stored, r.createdAt,
                     r.organizationId, r.correlationId, r.parentId);
      rows := rows + [created];
      cursors := cursors[chainKey := Cursor(sequence, Some(hash))];
    }
  }

  // ---------- runs ----------

  datatype Op = Create(record: NewRecord) | Retain(chainKey: Text, bound: int)

  function Apply(db: ChainDb, op: Op, h: Hasher): ChainDb {
    match op
    case Create(r) => Append(db, r, h)
    case Retain(chainKey, bound) => db.(rows := DropBelow(db.rows, chainKey, bound))
  }

  /** The tables after any interleaving of appends to any chains and retention runs. */
  function Run(ops: seq<Op>, h: Hasher): ChainDb {
    if ops == [] then ChainDb([], map[]) else Apply(Run(ops[..|ops| - 1], h), ops[|ops| - 1], h)
  }

  function Creates(ops: seq<Op>): seq<Op> {
    if ops == [] then []
    else
      var front := Creates(ops[..|ops| - 1]);
      if ops[|ops| - 1].Create? then front + [ops[|ops| - 1]] else front
  }

  /** The records that callers addressed to a chain, in order. */
  function Addressed(ops: seq<Op>, chainKey: Text): seq<NewRecord> {
    if ops == [] then []
    else
      var last := ops[|ops| - 1];
      Addressed(ops[..|ops| - 1], chainKey)
      + if last.Create? && ResolveChainKey(last.record.organizationId) == chainKey then [last.record] else []
  }

  /** How many records the run wrote to a chain. */
  function Written(ops: seq<Op>, chainKey: Text): nat { |Addressed(ops, chainKey)| }

  ghost predicate ValidOps(ops: seq<Op>, iso: Iso) {
    forall i :: 0 <= i < |ops| && ops[i].Create? ==> ValidRecord(ops[i].record, iso)
  }

  /** What the chain needs of its hash: digests, and no view of anything but a record's content. */
  ghost predicate Genuine(h: Hasher, iso: Iso) {
    && (forall p, r, v :: h(p, r, v).Hash? ==> IsDigest(h(p, r, v).hash))
    && (forall p, a: HashInput, b: HashInput, v ::
          WellFormed(a.metadata) && WellFormed(b.metadata) && SameRecord(a, b, iso) ==> h(p, a, v) == h(p, b, v))
  }

  /** `computeAuditHash` is such a hash. */
  lemma AuditHashIsGenuine(h: Hasher, rt: Runtime)
    requires IsAuditHash(h, rt) && forall x :: IsDigest(rt.sha(x))
    ensures Genuine(h, rt.iso)
  {
    forall p, a: HashInput, b: HashInput, v
      | WellFormed(a.metadata) && WellFormed(b.metadata) && SameRecord(a, b, rt.iso)
      ensures h(p, a, v) == h(p, b, v)
    {
      SameRecordSameText(a.(hashVersion := v), b.(hashVersion := v), rt.iso);
    }
  }

  function ChainOf(db: ChainDb, chainKey: Text): seq<Row> { Matching(db.rows, chainKey, None) }

  lemma {:induction false} MatchingAppend(rows: seq<Row>, row: Row, chainKey: Text)
    ensures Matching(rows + [row], chainKey, None) ==
              Matching(rows, chainKey, None) + if row.chainKey == chainKey then [row] else []
  {
    if rows != [] {
      MatchingAppend(rows[1..], row, chainKey);
      assert (rows + [row])[1..] == rows[1..] + [row];
    }
  }

  lemma {:induction false} MatchingDrop(rows: seq<Row>, dropped: Text, bound: int, chainKey: Text)
    ensures Matching(DropBelow(rows, dropped, bound), chainKey, None) ==
              if chainKey == dropped then DropBelow(Matching(rows, chainKey, None), dropped, bound)
              else Matching(rows, chainKey, None)
  {
    if rows != [] {
      MatchingDrop(rows[1..], dropped, bound, chainKey);
      var rest := DropBelow(rows[1..], dropped, bound);
      assert ([rows[0]] + rest)[1..] == rest;
    }
  }

  // ---------- the hash survives storage ----------

  lemma PlainWellFormed(v: Js, iso: Iso)
    requires WellFormed(v)
    ensures WellFormed(Plain(v, iso))
    decreases v, 1
  {
    match v
    case Arr(items) => PlainItemsWellFormed(items, iso);
    case Obj(es) => PlainEntriesWellFormed(es, iso);
    case _ =>
  }

  lemma {:induction false} PlainItemsWellFormed(items: seq<Js>, iso: Iso)
    requires forall x :: x in items ==> WellFormed(x)
    ensures forall x :: x in PlainItems(items, iso) ==> WellFormed(x)
    decreases items, 0
  {
    if items != [] {
      PlainWellFormed(items[0], iso);
      PlainItemsWellFormed(items[1..], iso);
    }
  }

  ghost predicate ListsKey(es: seq<Entry>, k: Text) { exists d :: d in es && d.key == k }

  lemma ListsMore(es: seq<Entry>, k: Text)
    requires es != [] && (es[0].key == k || ListsKey(es[1..], k))
    ensures ListsKey(es, k)
  {
    if es[0].key == k {
      assert es[0] in es;
    } else {
      var d :| d in es[1..] && d.key == k;
      assert d in es;
    }
  }

  lemma {:induction false} PlainEntriesWellFormed(es: seq<Entry>, iso: Iso)
    requires DistinctKeys(es) && forall e :: e in es ==> WellFormed(e.value)
    ensures DistinctKeys(PlainEntries(es, iso))
    ensures forall e :: e in PlainEntries(es, iso) ==> WellFormed(e.value) && ListsKey(es, e.key)
    decreases es, 0
  {
    if es != [] {
      PlainEntriesWellFormed(es[1..], iso);
      var ps := PlainEntries(es[1..], iso);
      assert es[0] in es;
      forall e | e in ps ensures e.key != es[0].key && ListsKey(es, e.key) {
        var d :| d in es[1..] && d.key == e.key;
        ListsMore(es, e.key);
      }
      if !es[0].value.Undefined? {
        PlainWellFormed(es[0].value, iso);
        ListsMore(es, es[0].key);
        ConsDistinct(Entry(es[0].key, Plain(es[0].value, iso)), ps);
      }
    }
  }

  lemma ConsDistinct(e: Entry, es: seq<Entry>)
    requires DistinctKeys(es) && forall d :: d in es ==> d.key != e.key
    ensures DistinctKeys([e] + es)
  {
  }

  lemma StoredContent(v: Js, w: Js, iso: Iso)
    requires StoredAs(v, w, iso) && !v.Undefined?
    ensures Content(v, iso) == Content(w, iso) && !w.Undefined?
  {
    PlainWellFormed(v, iso);
    NormalKeepsContent(v, iso);
    NormalKeepsContent(Plain(v, iso), iso);
    NormalOfPlain(v, iso);
    EquivalentContent(Plain(v, iso), w, iso);
  }

  /** A row read back from storage rehashes to the hash computed before it was stored. */
  lemma AppendedRowHashes(db: ChainDb, r: NewRecord, h: Hasher, iso: Iso)
    requires ValidRecord(r, iso) && Genuine(h, iso)
    ensures HashOk(NextRow(db, r, h), h)
    ensures WellFormed(r.stored)
  {
    var row := NextRow(db, r, h);
    var written := InputOf(row, row.chainKey).(metadata := MetadataOrNull(r.metadata));
    StoredContent(MetadataOrNull(r.metadata), r.stored, iso);
    assert SameRecord(written, InputOf(row, row.chainKey), iso);
  }

  // ---------- appends alone ----------

  /** One chain and its cursor, after `n` appends. */
  ghost predicate ChainOk(db: ChainDb, chainKey: Text, n: nat, h: Hasher) {
    var rows := ChainOf(db, chainKey);
    && FullChain(rows, chainKey, h) && |rows| == n && LinksAndMetadataOk(rows)
    && CursorOf(db, chainKey) == (if n == 0 then Cursor(0, None) else Cursor(n, Some(rows[n - 1].hash)))
    && (n > 0 ==> rows[n - 1].sequence == n)
  }

  lemma ChainExtend(rows: seq<Row>, row: Row, chainKey: Text, h: Hasher)
    requires FullChain(rows, chainKey, h) && LinksAndMetadataOk(rows)
    requires row.chainKey == chainKey && HashOk(row, h) && IsLink(row.prevHash) && WellFormed(row.metadata)
    requires if rows == [] then row.sequence == 1 && row.prevHash == None else Follows(rows[|rows| - 1], row)
    ensures FullChain(rows + [row], chainKey, h) && LinksAndMetadataOk(rows + [row])
  {
    var all := rows + [row];
    forall i | 0 < i < |all| ensures FollowsAt(all, i) {
      if i < |rows| { assert FollowsAt(rows, i); }
    }
  }

  lemma DigestOf(row: Row, h: Hasher, iso: Iso)
    requires HashOk(row, h) && Genuine(h, iso)
    ensures IsDigest(row.hash)
  {
  }

  lemma WriteKeepsChain(db: ChainDb, row: Row, chainKey: Text, n: nat, h: Hasher, iso: Iso)
    requires ChainOk(db, chainKey, n, h) && Genuine(h, iso)
    requires HashOk(row, h) && WellFormed(row.metadata)
    requires var cursor := CursorOf(db, row.chainKey);
             row.sequence == cursor.lastSequence + 1 && row.prevHash == cursor.lastHash
    ensures ChainOk(WriteRow(db, row), chainKey, if row.chainKey == chainKey then n + 1 else n, h)
  {
    var rows := ChainOf(db, chainKey);
    MatchingAppend(db.rows, row, chainKey);
    if row.chainKey == chainKey {
      if n > 0 { DigestOf(rows[n - 1], h, iso); }
      ChainExtend(rows, row, chainKey, h);
      assert ChainOf(WriteRow(db, row), chainKey) == rows + [row];
    } else {
      assert ChainOf(WriteRow(db, row), chainKey) == rows;
    }
  }

  lemma AppendKeepsChain(db: ChainDb, r: NewRecord, chainKey: Text, n: nat, h: Hasher, iso: Iso)
    requires ChainOk(db, chainKey, n, h) && ValidRecord(r, iso) && Genuine(h, iso)
    ensures ChainOk(Append(db, r, h), chainKey,
                    if ResolveChainKey(r.organizationId) == chainKey then n + 1 else n, h)
  {
    AppendedRowHashes(db, r, h, iso);
    WriteKeepsChain(db, NextRow(db, r, h), chainKey, n, h, iso);
  }

  ghost predicate AllCarry(rows: seq<Row>, records: seq<NewRecord>) {
    |rows| == |records| && forall k :: 0 <= k < |rows| ==> Carries(rows[k], records[k])
  }

  /** Row k of a chain holds what the caller of the k-th append to that chain passed. */
  lemma {:induction false} RowsCarryRecords(ops: seq<Op>, chainKey: Text, h: Hasher)
    requires forall i :: 0 <= i < |ops| ==> ops[i].Create?
    ensures AllCarry(ChainOf(Run(ops, h), chainKey), Addressed(ops, chainKey))
  {
    if ops != [] {
      var front, last := ops[..|ops| - 1], ops[|ops| - 1];
      RowsCarryRecords(front, chainKey, h);
      MatchingAppend(Run(front, h).rows, NextRow(Run(front, h), last.record, h), chainKey);
    }
  }

  /** No organization id of its own: absent, empty, or literally the name of the system chain. */
  predicate OnSystemChain(organizationId: Option<Text>) {
    organizationId == None || organizationId == Some([]) || organizationId == Some(SYSTEM_CHAIN_KEY)
  }

  /** Two organizations share a chain exactly when they are the same or neither has an id of its own;
      so an append changes another organization's rows or position exactly in that case. */
  lemma ChainsAreSeparate(db: ChainDb, r: NewRecord, organizationId: Option<Text>, h: Hasher)
    ensures var chainKey := ResolveChainKey(organizationId);
            var shared := r.organizationId == organizationId || (OnSystemChain(r.organizationId) && OnSystemChain(organizationId));
            var after := Append(db, r, h);
            && (ResolveChainKey(r.organizationId) == chainKey <==> shared)
            && (ChainOf(after, chainKey) == ChainOf(db, chainKey) <==> !shared)
            && (!shared ==> CursorOf(after, chainKey) == CursorOf(db, chainKey))
  {
    MatchingAppend(db.rows, NextRow(db, r, h), ResolveChainKey(organizationId));
  }

  /** Any interleaving of appends to any number of chains numbers each chain 1..n and
      leaves its cursor at the number and hash of row n. */
  lemma {:induction false} AppendsBuildChains(ops: seq<Op>, chainKey: Text, h: Hasher, iso: Iso)
    requires ValidOps(ops, iso) && Genuine(h, iso) && forall i :: 0 <= i < |ops| ==> ops[i].Create?
    ensures ChainOk(Run(ops, h), chainKey, Written(ops, chainKey), h)
  {
    if ops != [] {
      AppendsBuildChains(ops[..|ops| - 1], chainKey, h, iso);
      AppendKeepsChain(Run(ops[..|ops| - 1], h), ops[|ops| - 1].record, chainKey,
                       Written(ops[..|ops| - 1], chainKey), h, iso);
    }
  }

  // ---------- retention only cuts prefixes ----------

  ghost predicate IsSuffix(tail: seq<Row>, rows: seq<Row>) {
    |tail| <= |rows| && tail == rows[|rows| - |tail|..]
  }

  lemma {:induction false} DropBelowIsSuffix(rows: seq<Row>, chainKey: Text, bound: int)
    requires forall i :: 0 <= i < |rows| ==> rows[i].chainKey == chainKey
    requires SortedBy(rows, BySequence)
    ensures IsSuffix(DropBelow(rows, chainKey, bound), rows)
  {
    if rows == [] || rows[0].sequence >= bound {
      NothingBelow(rows, chainKey, bound);
    } else {
      DropBelowIsSuffix(rows[1..], chainKey, bound);
      var d := |rows| - |DropBelow(rows[1..], chainKey, bound)|;
      assert rows[1..][d - 1..] == rows[d..];
    }
  }

  lemma {:induction false} NothingBelow(rows: seq<Row>, chainKey: Text, bound: int)
    requires forall i :: 0 <= i < |rows| ==> rows[i].sequence >= bound
    ensures DropBelow(rows, chainKey, bound) == rows
  {
    if rows != [] { NothingBelow(rows[1..], chainKey, bound); }
  }

  /** Retention deletes exactly the rows of its chain below its bound. */
  lemma {:induction false} RetentionDropsExactly(rows: seq<Row>, chainKey: Text, bound: int, r: Row)
    ensures r in DropBelow(rows, chainKey, bound) <==> r in rows && !(r.chainKey == chainKey && r.sequence < bound)
  {
    if rows != [] {
      RetentionDropsExactly(rows[1..], chainKey, bound, r);
      assert rows == [rows[0]] + rows[1..];
    }
  }

  lemma SegmentSorted(rows: seq<Row>, chainKey: Text, h: Hasher)
    requires Segment(rows, chainKey, h)
    ensures SortedBy(rows, BySequence)
  {
    forall i, j | 0 <= i < j < |rows| ensures BySequence(rows[i], rows[j]) {
      SegmentNumbering(rows, chainKey, h, i);
      SegmentNumbering(rows, chainKey, h, j);
    }
  }

  lemma SegmentSuffix(tail: seq<Row>, rows: seq<Row>, chainKey: Text, h: Hasher)
    requires Segment(rows, chainKey, h) && IsSuffix(tail, rows)
    ensures Segment(tail, chainKey, h)
  {
    var d := |rows| - |tail|;
    assert forall i :: 0 <= i < |tail| ==> tail[i] == rows[d + i];
    forall i | 0 < i < |tail| ensures FollowsAt(tail, i) {
      assert FollowsAt(rows, d + i);
    }
  }

  lemma {:induction false} WrittenByCreates(ops: seq<Op>, chainKey: Text)
    ensures Addressed(Creates(ops), chainKey) == Addressed(ops, chainKey)
    ensures forall i :: 0 <= i < |Creates(ops)| ==> Creates(ops)[i].Create? && Creates(ops)[i] in ops
  {
    if ops != [] {
      var front := ops[..|ops| - 1];
      WrittenByCreates(front, chainKey);
      var cs := Creates(ops);
      if ops[|ops| - 1].Create? {
        assert cs[..|cs| - 1] == Creates(front);
      }
    }
  }

  /** Everything a run wrote to a chain, whether or not it was later removed. */
  function History(ops: seq<Op>, chainKey: Text, h: Hasher): seq<Row> {
    ChainOf(Run(Creates(ops), h), chainKey)
  }

  lemma HistoryCarriesRecords(ops: seq<Op>, chainKey: Text, h: Hasher)
    ensures AllCarry(History(ops, chainKey, h), Addressed(ops, chainKey))
  {
    WrittenByCreates(ops, chainKey);
    RowsCarryRecords(Creates(ops), chainKey, h);
  }

  lemma HistoryIsChain(ops: seq<Op>, chainKey: Text, h: Hasher, iso: Iso)
    requires ValidOps(ops, iso) && Genuine(h, iso)
    ensures ChainOk(Run(Creates(ops), h), chainKey, Written(ops, chainKey), h)
  {
    WrittenByCreates(ops, chainKey);
    AppendsBuildChains(Creates(ops), chainKey, h, iso);
  }

  /** With retention interleaved anywhere, what remains of a chain is a suffix of what was
      written to it, and the cursor is untouched. */
  lemma {:induction false} RetentionLeavesSuffix(ops: seq<Op>, chainKey: Text, h: Hasher, iso: Iso)
    requires ValidOps(ops, iso) && Genuine(h, iso)
    ensures Run(ops, h).cursors == Run(Creates(ops), h).cursors
    ensures IsSuffix(ChainOf(Run(ops, h), chainKey), History(ops, chainKey, h))
  {
    if ops != [] {
      var front, last := ops[..|ops| - 1], ops[|ops| - 1];
      RetentionLeavesSuffix(front, chainKey, h, iso);
      if last.Create? {
        var cs := Creates(ops);
        assert cs[..|cs| - 1] == Creates(front) && cs[|cs| - 1] == last;
        CreateKeepsSuffix(Run(front, h), Run(Creates(front), h), last.record, chainKey, h);
      } else {
        assert Segment(History(front, chainKey, h), chainKey, h) by { HistoryIsChain(front, chainKey, h, iso); }
        RetainKeepsSuffix(Run(front, h), Run(Creates(front), h), last.chainKey, last.bound, chainKey, h);
      }
    }
  }

  lemma CreateKeepsSuffix(db: ChainDb, full: ChainDb, r: NewRecord, chainKey: Text, h: Hasher)
    requires db.cursors == full.cursors && IsSuffix(ChainOf(db, chainKey), ChainOf(full, chainKey))
    ensures Append(db, r, h).cursors == Append(full, r, h).cursors
    ensures IsSuffix(ChainOf(Append(db, r, h), chainKey), ChainOf(Append(full, r, h), chainKey))
  {
    var row := NextRow(db, r, h);
    MatchingAppend(db.rows, row, chainKey);
    MatchingAppend(full.rows, row, chainKey);
  }

  lemma RetainKeepsSuffix(db: ChainDb, full: ChainDb, dropped: Text, bound: int, chainKey: Text, h: Hasher)
    requires Segment(ChainOf(full, chainKey), chainKey, h)
    requires IsSuffix(ChainOf(db, chainKey), ChainOf(full, chainKey))
    ensures IsSuffix(ChainOf(db.(rows := DropBelow(db.rows, dropped, bound)), chainKey), ChainOf(full, chainKey))
  {
    MatchingDrop(db.rows, dropped, bound, chainKey);
    var rows := ChainOf(db, chainKey);
    SegmentSuffix(rows, ChainOf(full, chainKey), chainKey, h);
    SegmentSorted(rows, chainKey, h);
    DropBelowIsSuffix(rows, chainKey, bound);
  }

  // ---------- the verifier on reachable tables ----------

  lemma {:induction false} SortedChainsAreUnique(table: seq<Row>)
    requires forall chainKey :: SortedBy(Matching(table, chainKey, None), BySequence)
    ensures UniqueSequences(table)
  {
    if table != [] {
      forall chainKey ensures SortedBy(Matching(table[1..], chainKey, None), BySequence) {
        var m, all := Matching(table[1..], chainKey, None), Matching(table, chainKey, None);
        assert SortedBy(all, BySequence);
        assert all == m || all[1..] == m;
      }
      SortedChainsAreUnique(table[1..]);
      forall j | 0 < j < |table| && table[0].chainKey == table[j].chainKey
        ensures table[0].sequence != table[j].sequence
      {
        var chainKey := table[0].chainKey;
        var all, m := Matching(table, chainKey, None), Matching(table[1..], chainKey, None);
        MatchingElements(table[1..], chainKey, None);
        assert table[1..][j - 1] in m;
        var i :| 0 <= i < |m| && m[i] == table[j];
        assert all[0] == table[0] && all[i + 1] == table[j];
        assert SortedBy(all, BySequence);
      }
    }
  }

  lemma RemainingIsSegment(ops: seq<Op>, chainKey: Text, h: Hasher, iso: Iso)
    requires ValidOps(ops, iso) && Genuine(h, iso)
    ensures Segment(ChainOf(Run(ops, h), chainKey), chainKey, h)
  {
    RetentionLeavesSuffix(ops, chainKey, h, iso);
    HistoryIsChain(ops, chainKey, h, iso);
    SegmentSuffix(ChainOf(Run(ops, h), chainKey), History(ops, chainKey, h), chainKey, h);
  }

  lemma RunIsOrdered(ops: seq<Op>, chainKey: Text, h: Hasher, iso: Iso)
    requires ValidOps(ops, iso) && Genuine(h, iso)
    ensures UniqueSequences(Run(ops, h).rows)
    ensures ChainRows(Run(ops, h).rows, chainKey) == ChainOf(Run(ops, h), chainKey)
  {
    var db := Run(ops, h);
    forall k ensures SortedBy(Matching(db.rows, k, None), BySequence) {
      RemainingIsSegment(ops, k, h, iso);
      SegmentSorted(ChainOf(db, k), k, h);
    }
    SortedChainsAreUnique(db.rows);
    BySequenceIsStrict();
    SortOfSorted(ChainOf(db, chainKey), BySequence);
  }

  lemma SuffixNumbers(rows: seq<Row>, full: seq<Row>, chainKey: Text, h: Hasher)
    requires Segment(full, chainKey, h) && IsSuffix(rows, full)
    requires full != [] ==> full[0].sequence == 1
    ensures forall i :: 0 <= i < |rows| ==> rows[i].sequence == |full| - |rows| + i + 1
  {
    forall i | 0 <= i < |rows| ensures rows[i].sequence == |full| - |rows| + i + 1 {
      assert rows[i] == full[|full| - |rows| + i];
      SegmentNumbering(full, chainKey, h, |full| - |rows| + i);
    }
  }

  lemma RemainingNumbers(ops: seq<Op>, chainKey: Text, h: Hasher, iso: Iso)
    requires ValidOps(ops, iso) && Genuine(h, iso)
    ensures var rows, n := ChainOf(Run(ops, h), chainKey), Written(ops, chainKey);
            && |rows| <= n && CursorOf(Run(ops, h), chainKey).lastSequence == n
            && forall i :: 0 <= i < |rows| ==> rows[i].sequence == n - |rows| + i + 1
  {
    RetentionLeavesSuffix(ops, chainKey, h, iso);
    HistoryIsChain(ops, chainKey, h, iso);
    SuffixNumbers(ChainOf(Run(ops, h), chainKey), History(ops, chainKey, h), chainKey, h);
  }

  /** MAIN: after any run of appends and retention, every chain verifies: all its remaining
      rows are checked, numbered up to the count written, and the retention flag is set
      exactly when rows were removed and some remain. */
  lemma RunVerifies(ops: seq<Op>, chainKey: Text, h: Hasher, iso: Iso)
    requires ValidOps(ops, iso) && Genuine(h, iso)
    ensures UniqueSequences(Run(ops, h).rows)
    ensures var rows := ChainRows(Run(ops, h).rows, chainKey);
            var n := Written(ops, chainKey);
            && |rows| <= n && CursorOf(Run(ops, h), chainKey).lastSequence == n
            && (forall i :: 0 <= i < |rows| ==> rows[i].sequence == n - |rows| + i + 1)
            && var o := OnePass(rows, chainKey, h);
            && o.Returns? && o.report.ok && o.report.recordsChecked == |rows|
            && (o.report.retentionTruncated <==> 0 < |rows| < n)
  {
    RunIsOrdered(ops, chainKey, h, iso);
    RemainingIsSegment(ops, chainKey, h, iso);
    RemainingNumbers(ops, chainKey, h, iso);
    MatchingElements(Run(ops, h).rows, chainKey, None);
    OkMeansSegment(ChainOf(Run(ops, h), chainKey), chainKey, h);
  }

  /** MAIN, end to end: take any run, and any table with unique sequences that the verifier
      accepts for a chain and whose newest row carries the newest hash ever written to it.
      Then that table holds the last records that callers addressed to the chain, in every hashed
      column and numbered as they were written, up to a first link written as `GENESIS` and own
      `__proto__` keys in metadata, each exactly. */
  lemma AcceptedTableIsHistory(
      ops: seq<Op>, table: seq<Row>, chainKey: Text, texts: set<Text>, h: Hasher, rt: Runtime)
    requires IsAuditHash(h, rt) && Digests(rt.sha) && IsoInjective(rt.iso)
    requires ValidOps(ops, rt.iso) && UniqueSequences(table)
    requires var o := OnePass(ChainRows(table, chainKey), chainKey, h); o.Returns? && o.report.ok
    requires MetadataOk(ChainRows(table, chainKey))
    requires CollisionFree(rt.sha, texts)
    requires HashedIn(ChainRows(table, chainKey), texts, rt.iso)
    requires HashedIn(History(ops, chainKey, h), texts, rt.iso)
    requires var rows := ChainRows(table, chainKey);
             rows != [] && CursorOf(Run(ops, h), chainKey).lastHash == Some(rows[|rows| - 1].hash)
    ensures var rows, full := ChainRows(table, chainKey), History(ops, chainKey, h);
            && TellsLast(rows, Addressed(ops, chainKey), rt.iso) && IsHashedSuffix(rows, full, rt.iso)
            && (IsContentSuffix(rows, full, rt.iso) <==> rows[0].prevHash != Some(GENESIS))
            && MeaningsPinned(rows, full, rt.iso)
  {
    var rows, full := ChainRows(table, chainKey), History(ops, chainKey, h);
    assert && Segment(rows, chainKey, h) && FullChain(full, chainKey, h) && LinksAndMetadataOk(full)
           && full != [] && full[|full| - 1].hash == rows[|rows| - 1].hash by {
      AuditHashIsGenuine(h, rt);
      AcceptedIsSegment(table, chainKey, h);
      HistoryEnds(ops, chainKey, h, rt.iso);
    }
    TamperEvidence(full, rows, chainKey, texts, h, rt);
    HistoryCarriesRecords(ops, chainKey, h);
    AddressedAreValid(ops, chainKey, rt.iso);
    HashedTellsLast(rows, full, Addressed(ops, chainKey), chainKey, h, rt.iso);
  }

  /** The row tells what the caller passed as record `n` of its chain, metadata up to content. */
  ghost predicate Tells(row: Row, r: NewRecord, n: nat, iso: Iso) {
    && row.sequence == n && row.hashVersion == CURRENT_HASH_VERSION
    && row.chainKey == ResolveChainKey(r.organizationId)
    && row.actorType == r.actorType && row.actorId == r.actorId && row.action == r.action
    && row.resourceType == r.resourceType && row.resourceId == r.resourceId && row.createdAt == r.createdAt
    && Content(MetadataOrNull(row.metadata), iso) == Content(MetadataOrNull(r.metadata), iso)
  }

  /** The rows tell the last of the records, in order. */
  ghost predicate TellsLast(rows: seq<Row>, records: seq<NewRecord>, iso: Iso) {
    && |rows| <= |records|
    && forall i :: 0 <= i < |rows| ==>
         Tells(rows[i], records[|records| - |rows| + i], |records| - |rows| + i + 1, iso)
  }

  lemma CarriedIsTold(row: Row, original: Row, r: NewRecord, n: nat, iso: Iso)
    requires SameHashed(row, original, iso) && Carries(original, r) && ValidRecord(r, iso) && original.sequence == n
    ensures Tells(row, r, n, iso)
  {
    StoredContent(MetadataOrNull(r.metadata), r.stored, iso);
    SameRecordIff(row, original, iso);
    var x, y := InputOf(row, row.chainKey).(metadata := Null), InputOf(original, original.chainKey).(metadata := Null);
    assert x == y;
    assert x.actorType == y.actorType && x.actorId == y.actorId && x.action == y.action && x.createdAt == y.createdAt;
  }

  lemma HashedTellsLast(
      rows: seq<Row>, full: seq<Row>, records: seq<NewRecord>, chainKey: Text, h: Hasher, iso: Iso)
    requires IsHashedSuffix(rows, full, iso) && AllCarry(full, records) && FullChain(full, chainKey, h)
    requires forall r :: r in records ==> ValidRecord(r, iso)
    ensures TellsLast(rows, records, iso)
  {
    var d := |full| - |rows|;
    forall i | 0 <= i < |rows| ensures Tells(rows[i], records[d + i], d + i + 1, iso) {
      SegmentNumbering(full, chainKey, h, d + i);
      CarriedIsTold(rows[i], full[d + i], records[d + i], d + i + 1, iso);
    }
  }

  lemma {:induction false} AddressedAreValid(ops: seq<Op>, chainKey: Text, iso: Iso)
    requires ValidOps(ops, iso)
    ensures forall r :: r in Addressed(ops, chainKey) ==> ValidRecord(r, iso)
  {
    if ops != [] { AddressedAreValid(ops[..|ops| - 1], chainKey, iso); }
  }

  lemma AcceptedIsSegment(table: seq<Row>, chainKey: Text, h: Hasher)
    requires UniqueSequences(table)
    requires var o := OnePass(ChainRows(table, chainKey), chainKey, h); o.Returns? && o.report.ok
    ensures Segment(ChainRows(table, chainKey), chainKey, h)
  {
    ChainRowsSorted(table, chainKey);
    OkMeansSegment(ChainRows(table, chainKey), chainKey, h);
  }

  ghost predicate EndsAt(full: seq<Row>, cursor: Cursor, chainKey: Text, h: Hasher) {
    && FullChain(full, chainKey, h) && LinksAndMetadataOk(full) && full != []
    && cursor.lastHash == Some(full[|full| - 1].hash)
  }

  lemma ChainEnds(db: ChainDb, chainKey: Text, n: nat, h: Hasher)
    requires ChainOk(db, chainKey, n, h) && CursorOf(db, chainKey).lastHash.Some?
    ensures EndsAt(ChainOf(db, chainKey), CursorOf(db, chainKey), chainKey, h)
  {
  }

  lemma HistoryEnds(ops: seq<Op>, chainKey: Text, h: Hasher, iso: Iso)
    requires ValidOps(ops, iso) && Genuine(h, iso) && CursorOf(Run(ops, h), chainKey).lastHash.Some?
    ensures EndsAt(History(ops, chainKey, h), CursorOf(Run(ops, h), chainKey), chainKey, h)
  {
    RetentionLeavesSuffix(ops, chainKey, h, iso);
    HistoryIsChain(ops, chainKey, h, iso);
    ChainEnds(Run(Creates(ops), h), chainKey, Written(ops, chainKey), h);
  }
}
