/** The paged walk that verifies one audit chain, against a one-pass specification. */
module AuditVerification {
  import opened Sorting
  import opened Text
  import opened AuditChain

  datatype Reason = HASH_MISMATCH | PREV_HASH_MISMATCH | SEQUENCE_GAP

  datatype Break = Break(recordId: Text, sequence: int, reason: Reason)

  datatype Report = Report(
    chainKey: Text, ok: bool, recordsChecked: nat, firstSequence: Option<int>, lastSequence: Option<int>,
    retentionTruncated: bool, broken: Option<Break>)

  /** A report, or the error `computeAuditHash` raises on an unknown hash version. */
  datatype Outcome = Returns(report: Report) | Throws(version: int)

  // ---------- the table, as the queries see it ----------

  predicate BySequence(a: Row, b: Row) { a.sequence < b.sequence }

  lemma BySequenceIsStrict()
    ensures StrictOrder(BySequence)
  {
  }

  /** `where: { chainKey, sequence > after }` */
  function Matching(table: seq<Row>, chainKey: Text, after: Option<int>): seq<Row> {
    if table == [] then []
    else
      var rest := Matching(table[1..], chainKey, after);
      if table[0].chainKey == chainKey && (after.Some? ==> table[0].sequence > after.value) then [table[0]] + rest
      else rest
  }

  /** The rows of one chain, oldest first. */
  function ChainRows(table: seq<Row>, chainKey: Text): seq<Row> {
    Sort(Matching(table, chainKey, None), BySequence)
  }

  function Take<T>(s: seq<T>, n: nat): seq<T> { if |s| <= n then s else s[..n] }

  /** One page: `findMany` with a cursor, ordered by sequence. */
  function Page(table: seq<Row>, chainKey: Text, after: Option<int>, size: nat): seq<Row> {
    Take(Sort(Matching(table, chainKey, after), BySequence), size)
  }

  /** The unique index on (chainKey, sequence). */
  ghost predicate UniqueSequences(table: seq<Row>) {
    forall i, j :: 0 <= i < j < |table| && table[i].chainKey == table[j].chainKey ==>
      table[i].sequence != table[j].sequence
  }

  lemma {:induction false} MatchingElements(table: seq<Row>, chainKey: Text, after: Option<int>)
    ensures forall r :: r in Matching(table, chainKey, after) <==>
              r in table && r.chainKey == chainKey && (after.Some? ==> r.sequence > after.value)
  {
    if table != [] {
      MatchingElements(table[1..], chainKey, after);
      assert table == [table[0]] + table[1..];
    }
  }

  lemma {:induction false} MatchingComparable(table: seq<Row>, chainKey: Text, after: Option<int>)
    requires UniqueSequences(table)
    ensures Comparable(Matching(table, chainKey, after), BySequence)
  {
    if table != [] {
      MatchingComparable(table[1..], chainKey, after);
      MatchingElements(table[1..], chainKey, after);
      var rest := Matching(table[1..], chainKey, after);
      if table[0].chainKey == chainKey {
        forall j | 0 <= j < |rest| ensures rest[j].sequence != table[0].sequence {
          assert rest[j] in table[1..];
        }
      }
    }
  }

  lemma ChainRowsSorted(table: seq<Row>, chainKey: Text)
    requires UniqueSequences(table)
    ensures SortedBy(ChainRows(table, chainKey), BySequence)
    ensures forall r :: r in ChainRows(table, chainKey) <==> r in table && r.chainKey == chainKey
  {
    BySequenceIsStrict();
    MatchingComparable(table, chainKey, None);
    SortSorted(Matching(table, chainKey, None), BySequence);
    SortElements(Matching(table, chainKey, None), BySequence);
    MatchingElements(table, chainKey, None);
  }

  /** Asking for rows after the `done`-th gives the rest of the chain, in order. */
  lemma PageIsSlice(table: seq<Row>, chainKey: Text, done: nat)
    requires UniqueSequences(table) && done <= |ChainRows(table, chainKey)|
    ensures var rows := ChainRows(table, chainKey);
            var after := if done == 0 then None else Some(rows[done - 1].sequence);
            Sort(Matching(table, chainKey, after), BySequence) == rows[done..]
  {
    var rows := ChainRows(table, chainKey);
    ChainRowsSorted(table, chainKey);
    if done > 0 {
      var after := Some(rows[done - 1].sequence);
      var m := Matching(table, chainKey, after);
      BySequenceIsStrict();
      MatchingComparable(table, chainKey, after);
      SortSorted(m, BySequence);
      SortElements(m, BySequence);
      MatchingElements(table, chainKey, after);
      forall r ensures r in m <==> r in rows[done..] {
        LaterRows(rows, done, r);
      }
      SortedUnique(Sort(m, BySequence), rows[done..], BySequence);
    }
  }

  lemma LaterRows(rows: seq<Row>, done: nat, r: Row)
    requires SortedBy(rows, BySequence) && 0 < done <= |rows|
    ensures r in rows[done..] <==> r in rows && r.sequence > rows[done - 1].sequence
  {
    if r in rows[done..] {
      var i :| 0 <= i < |rows[done..]| && rows[done..][i] == r;
      assert rows[done + i] == r;
    }
    if r in rows && r.sequence > rows[done - 1].sequence {
      var i :| 0 <= i < |rows| && rows[i] == r;
      assert rows[done..][i - done] == r;
    }
  }

  // ---------- one pass over the rows ----------

  datatype Fault = BadVersion(version: int) | Bad(reason: Reason)

  /** What is wrong with `row` after `previous`: an unknown version, else the hash,
      else the link, else the numbering. */
  function FaultOf(previous: Option<Row>, row: Row, chainKey: Text, h: Hasher): Option<Fault> {
    match h(row.prevHash, InputOf(row, chainKey), row.hashVersion)
    case Unsupported(version) => Some(BadVersion(version))
    case Hash(hash) =>
      if hash != row.hash then Some(Bad(HASH_MISMATCH))
      else if previous.None? then None
      else if row.prevHash != Some(previous.value.hash) then Some(Bad(PREV_HASH_MISMATCH))
      else if row.sequence != previous.value.sequence + 1 then Some(Bad(SEQUENCE_GAP))
      else None
  }

  function FaultAt(rows: seq<Row>, i: nat, chainKey: Text, h: Hasher): Option<Fault>
    requires i < |rows|
  {
    FaultOf(if i == 0 then None else Some(rows[i - 1]), rows[i], chainKey, h)
  }

  /** The lowest position at or after `i` holding a fault; `|rows|` when there is none. */
  function FirstFault(rows: seq<Row>, i: nat, chainKey: Text, h: Hasher): (k: nat)
    requires i <= |rows|
    ensures i <= k <= |rows|
    ensures forall j :: i <= j < k ==> FaultAt(rows, j, chainKey, h) == None
    ensures k < |rows| ==> FaultAt(rows, k, chainKey, h).Some?
    decreases |rows| - i
  {
    if i == |rows| || FaultAt(rows, i, chainKey, h).Some? then i else FirstFault(rows, i + 1, chainKey, h)
  }

  /** What one pass over all rows in sequence order reports. */
  function OnePass(rows: seq<Row>, chainKey: Text, h: Hasher): Outcome {
    var k := FirstFault(rows, 0, chainKey, h);
    var truncated := rows != [] && rows[0].sequence > 1;
    var first := if rows == [] then None else Some(rows[0].sequence);
    if k == |rows| then
      var last := if rows == [] then None else Some(rows[|rows| - 1].sequence);
      Returns(Report(chainKey, true, |rows|, first, last, truncated, None))
    else
      match FaultAt(rows, k, chainKey, h).value
      case BadVersion(version) => Throws(version)
      case Bad(reason) =>
        Returns(Report(chainKey, false, k + 1, first, Some(rows[k].sequence), truncated,
                       Some(Break(rows[k].id, rows[k].sequence, reason))))
  }

  /** No fault among the first `n` rows. */
  ghost predicate Clean(rows: seq<Row>, n: nat, chainKey: Text, h: Hasher)
    requires n <= |rows|
  {
    forall j :: 0 <= j < n ==> FaultAt(rows, j, chainKey, h) == None
  }

  lemma OnePassFault(rows: seq<Row>, n: nat, chainKey: Text, h: Hasher)
    requires n < |rows| && Clean(rows, n, chainKey, h) && FaultAt(rows, n, chainKey, h).Some?
    ensures OnePass(rows, chainKey, h) ==
              match FaultAt(rows, n, chainKey, h).value
              case BadVersion(version) => Throws(version)
              case Bad(reason) =>
                Returns(Report(chainKey, false, n + 1, Some(rows[0].sequence), Some(rows[n].sequence),
                               rows[0].sequence > 1, Some(Break(rows[n].id, rows[n].sequence, reason))))
  {
    assert FirstFault(rows, 0, chainKey, h) == n;
  }

  // ---------- the walk ----------

  /** The walk's variables. */
  datatype Walk = Walk(
    previousHash: Option<Text>, previousSequence: Option<int>, recordsChecked: nat,
    firstSequence: Option<int>, lastSequence: Option<int>, retentionTruncated: bool)

  datatype Step = Continue(walk: Walk) | Stop(outcome: Outcome)

  function BreakAt(walk: Walk, record: Row, chainKey: Text, reason: Reason): Step {
    Stop(Returns(Report(chainKey, false, walk.recordsChecked + 1, walk.firstSequence, Some(record.sequence),
                        walk.retentionTruncated, Some(Break(record.id, record.sequence, reason)))))
  }

  function Enter(walk: Walk, record: Row): Walk {
    if walk.firstSequence.Some? then walk
    else walk.(firstSequence := Some(record.sequence),
               retentionTruncated := walk.retentionTruncated || record.sequence > 1)
  }

  /** The body of the loop over one page. */
  function Visit(before: Walk, record: Row, chainKey: Text, h: Hasher): Step {
    var walk := Enter(before, record);
    match h(record.prevHash, InputOf(record, chainKey), record.hashVersion)
    case Unsupported(version) => Stop(Throws(version))
    case Hash(recomputed) =>
      if recomputed != record.hash then BreakAt(walk, record, chainKey, HASH_MISMATCH)
      else if (walk.previousHash.Some? || walk.previousSequence.Some?) && record.prevHash != walk.previousHash then
        BreakAt(walk, record, chainKey, PREV_HASH_MISMATCH)
      else if walk.previousSequence.Some? && record.sequence != walk.previousSequence.value + 1 then
        BreakAt(walk, record, chainKey, SEQUENCE_GAP)
      else
        Continue(Walk(Some(record.hash), Some(record.sequence), walk.recordsChecked + 1,
                      walk.firstSequence, Some(record.sequence), walk.retentionTruncated))
  }

  /** The walk's variables after the first `n` rows. */
  function WalkAfter(rows: seq<Row>, n: nat): Walk
    requires n <= |rows|
  {
    if n == 0 then Walk(None, None, 0, None, None, false)
    else Walk(Some(rows[n - 1].hash), Some(rows[n - 1].sequence), n, Some(rows[0].sequence),
              Some(rows[n - 1].sequence), rows[0].sequence > 1)
  }

  lemma VisitFollowsOnePass(rows: seq<Row>, n: nat, chainKey: Text, h: Hasher)
    requires n < |rows| && Clean(rows, n, chainKey, h)
    ensures match Visit(WalkAfter(rows, n), rows[n], chainKey, h)
            case Continue(walk) => walk == WalkAfter(rows, n + 1) && Clean(rows, n + 1, chainKey, h)
            case Stop(outcome) => outcome == OnePass(rows, chainKey, h)
  {
    var fault := FaultAt(rows, n, chainKey, h);
    if fault.Some? { OnePassFault(rows, n, chainKey, h); }
  }

  /** The loop over one page, which starts at row `done` of the chain `rows`. */
  method WalkPage(page: seq<Row>, start: Walk, chainKey: Text, h: Hasher, ghost rows: seq<Row>, ghost done: nat)
      returns (step: Step)
    requires done + |page| <= |rows| && start == WalkAfter(rows, done) && Clean(rows, done, chainKey, h)
    requires forall i :: 0 <= i < |page| ==> page[i] == rows[done + i]
    ensures match step
            case Continue(walk) => walk == WalkAfter(rows, done + |page|) && Clean(rows, done + |page|, chainKey, h)
            case Stop(outcome) => outcome == OnePass(rows, chainKey, h)
  {
    var walk := start;
    for i := 0 to |page|
      invariant walk == WalkAfter(rows, done + i) && Clean(rows, done + i, chainKey, h)
    {
      step := Visit(walk, page[i], chainKey, h);
      VisitFollowsOnePass(rows, done + i, chainKey, h);
      if step.Stop? { return; }
      walk := step.walk;
    }
    step := Continue(walk);
  }

  lemma OnePassClean(rows: seq<Row>, chainKey: Text, h: Hasher)
    requires Clean(rows, |rows|, chainKey, h)
    ensures var walk := WalkAfter(rows, |rows|);
            OnePass(rows, chainKey, h) ==
              Returns(Report(chainKey, true, |rows|, walk.firstSequence, walk.lastSequence, walk.retentionTruncated, None))
  {
    assert FirstFault(rows, 0, chainKey, h) == |rows|;
  }

  lemma TakeRest(rows: seq<Row>, done: nat, size: nat, page: seq<Row>)
    requires done <= |rows| && page == Take(rows[done..], size)
    ensures |page| == (if |rows| - done <= size then |rows| - done else size)
    ensures forall i :: 0 <= i < |page| ==> page[i] == rows[done + i]
  {
  }

  lemma PageRows(table: seq<Row>, chainKey: Text, done: nat, size: nat)
    requires UniqueSequences(table) && done <= |ChainRows(table, chainKey)|
    ensures var rows := ChainRows(table, chainKey);
            var page := Page(table, chainKey, WalkAfter(rows, done).lastSequence, size);
            && |page| == (if |rows| - done <= size then |rows| - done else size)
            && forall i :: 0 <= i < |page| ==> page[i] == rows[done + i]
  {
    var rows := ChainRows(table, chainKey);
    var after := WalkAfter(rows, done).lastSequence;
    assert after == if done == 0 then None else Some(rows[done - 1].sequence);
    PageIsSlice(table, chainKey, done);
    TakeRest(rows, done, size, Page(table, chainKey, after, size));
  }

  // ---------- what a report means ----------

  /** A walk reports ok exactly when the rows form a segment of a chain; the flag says
      exactly that the oldest remaining row is not the first. */
  lemma OkMeansSegment(rows: seq<Row>, chainKey: Text, h: Hasher)
    requires forall r :: r in rows ==> r.chainKey == chainKey
    ensures var o := OnePass(rows, chainKey, h);
            && (o.Returns? && o.report.ok <==> Segment(rows, chainKey, h))
            && (o.Returns? ==> (o.report.retentionTruncated <==> rows != [] && rows[0].sequence > 1))
            && (o.Returns? && o.report.ok ==> o.report.recordsChecked == |rows|)
  {
    var k := FirstFault(rows, 0, chainKey, h);
    assert forall i :: 0 <= i < |rows| ==> rows[i] in rows;
    if k == |rows| { CleanIsSegment(rows, k, chainKey, h); assert rows[..k] == rows; }
    if Segment(rows, chainKey, h) {
      forall i | 0 <= i < |rows| ensures FaultAt(rows, i, chainKey, h) == None {
        assert HashOk(rows[i], h);
        assert i > 0 ==> FollowsAt(rows, i);
      }
    }
  }

  /** The version of the row's hash is one that `computeAuditHash` knows. */
  ghost predicate Supported(row: Row, h: Hasher) {
    h(row.prevHash, InputOf(row, row.chainKey), row.hashVersion).Hash?
  }

  /** What a reason says of row `k`, given that the rows before it are in order. */
  ghost predicate Justified(reason: Reason, rows: seq<Row>, k: nat, h: Hasher)
    requires k < |rows|
  {
    match reason
    case HASH_MISMATCH => Supported(rows[k], h) && !HashOk(rows[k], h)
    case PREV_HASH_MISMATCH => HashOk(rows[k], h) && k > 0 && rows[k].prevHash != Some(rows[k - 1].hash)
    case SEQUENCE_GAP =>
      && HashOk(rows[k], h) && k > 0 && rows[k].prevHash == Some(rows[k - 1].hash)
      && rows[k].sequence != rows[k - 1].sequence + 1
  }

  /** The rows before `k` form a segment and row `k` is of a version nobody can hash. */
  ghost predicate Unreadable(rows: seq<Row>, k: nat, version: int, chainKey: Text, h: Hasher) {
    && k < |rows| && Segment(rows[..k], chainKey, h)
    && h(rows[k].prevHash, InputOf(rows[k], rows[k].chainKey), rows[k].hashVersion) == Unsupported(version)
  }

  /** A verdict of ok on all rows, or a break at the last row checked. */
  ghost predicate Reported(r: Report, rows: seq<Row>, chainKey: Text, h: Hasher) {
    var n := r.recordsChecked;
    && n <= |rows| && r.chainKey == chainKey
    && r.firstSequence == (if rows == [] then None else Some(rows[0].sequence))
    && r.lastSequence == (if n == 0 then None else Some(rows[n - 1].sequence))
    && (r.retentionTruncated <==> rows != [] && rows[0].sequence > 1)
    && if r.ok then n == |rows| && r.broken == None && Segment(rows, chainKey, h)
       else && n > 0 && Segment(rows[..n - 1], chainKey, h) && r.broken.Some?
            && r.broken.value.recordId == rows[n - 1].id && r.broken.value.sequence == rows[n - 1].sequence
            && Justified(r.broken.value.reason, rows, n - 1, h)
  }

  /** What an outcome claims about the rows of a chain, said of hashes, links and numbers alone. */
  ghost predicate Explains(o: Outcome, rows: seq<Row>, chainKey: Text, h: Hasher) {
    match o
    case Throws(version) => exists k :: Unreadable(rows, k, version, chainKey, h)
    case Returns(report) => Reported(report, rows, chainKey, h)
  }

  lemma CleanIsSegment(rows: seq<Row>, n: nat, chainKey: Text, h: Hasher)
    requires n <= |rows| && Clean(rows, n, chainKey, h) && forall r :: r in rows ==> r.chainKey == chainKey
    ensures Segment(rows[..n], chainKey, h)
  {
    forall i | 0 <= i < n ensures rows[i].chainKey == chainKey && HashOk(rows[i], h) && (i > 0 ==> FollowsAt(rows[..n], i)) {
      assert rows[i] in rows && FaultAt(rows, i, chainKey, h) == None;
    }
  }

  /** The pass tells the truth: an ok is a segment, and a break names the first bad row and what is
      wrong with it. */
  lemma OnePassExplains(rows: seq<Row>, chainKey: Text, h: Hasher)
    requires forall r :: r in rows ==> r.chainKey == chainKey
    ensures Explains(OnePass(rows, chainKey, h), rows, chainKey, h)
  {
    var k := FirstFault(rows, 0, chainKey, h);
    CleanIsSegment(rows, k, chainKey, h);
    if k == |rows| {
      assert rows[..k] == rows;
    } else {
      assert rows[k] in rows;
      match FaultAt(rows, k, chainKey, h).value
      case BadVersion(version) => assert Unreadable(rows, k, version, chainKey, h);
      case Bad(reason) => assert Justified(reason, rows, k, h);
    }
  }

  lemma ChainPassExplains(table: seq<Row>, chainKey: Text, h: Hasher)
    requires UniqueSequences(table)
    ensures Explains(OnePass(ChainRows(table, chainKey), chainKey, h), ChainRows(table, chainKey), chainKey, h)
  {
    ChainRowsSorted(table, chainKey);
    OnePassExplains(ChainRows(table, chainKey), chainKey, h);
  }

  /** Row `k` ends every segment that starts at the first row. */
  ghost predicate StopsAt(rows: seq<Row>, k: nat, chainKey: Text, h: Hasher) {
    k < |rows| && Segment(rows[..k], chainKey, h) && !(HashOk(rows[k], h) && (k > 0 ==> FollowsAt(rows, k)))
  }

  lemma StopsOnce(rows: seq<Row>, j: nat, k: nat, chainKey: Text, h: Hasher)
    requires StopsAt(rows, j, chainKey, h) && k <= |rows| && Segment(rows[..k], chainKey, h)
    ensures k <= j
  {
    assert j < k ==> rows[..k][j] == rows[j] && (j > 0 ==> FollowsAt(rows[..k], j));
  }

  /** No other verdict does: two that explain the same rows are equal. */
  lemma VerdictIsUnique(a: Outcome, b: Outcome, rows: seq<Row>, chainKey: Text, h: Hasher)
    requires Explains(a, rows, chainKey, h) && Explains(b, rows, chainKey, h)
    ensures a == b
  {
    var j := WalkEnd(a, rows, chainKey, h);
    var k := WalkEnd(b, rows, chainKey, h);
    if j < |rows| { StopsOnce(rows, j, k, chainKey, h); }
    if k < |rows| { StopsOnce(rows, k, j, chainKey, h); }
    assert j == k;
  }

  /** Where the walk that reached `o` ended. */
  lemma WalkEnd(o: Outcome, rows: seq<Row>, chainKey: Text, h: Hasher) returns (k: nat)
    requires Explains(o, rows, chainKey, h)
    ensures k <= |rows| && Segment(rows[..k], chainKey, h) && (k < |rows| ==> StopsAt(rows, k, chainKey, h))
    ensures o.Returns? ==> k == if o.report.ok then |rows| else o.report.recordsChecked - 1
    ensures o.Throws? ==> Unreadable(rows, k, o.version, chainKey, h)
  {
    if o.Throws? {
      k :| Unreadable(rows, k, o.version, chainKey, h);
    } else if o.report.ok {
      k := |rows|;
      assert rows[..k] == rows;
    } else {
      k := o.report.recordsChecked - 1;
    }
  }

  /** MAIN: the paged walk returns what one pass returns, for every page size. */
  method VerifyChain(table: seq<Row>, organizationId: Option<Text>, pageSize: nat, h: Hasher)
      returns (outcome: Outcome)
    requires UniqueSequences(table) && pageSize >= 1
    ensures var chainKey := ResolveChainKey(organizationId);
            && outcome == OnePass(ChainRows(table, chainKey), chainKey, h)
            && Explains(outcome, ChainRows(table, chainKey), chainKey, h)
  {
    var chainKey := ResolveChainKey(organizationId);
    var cursor: Option<int> := None;
    var walk := Walk(None, None, 0, None, None, false);
    ghost var rows := ChainRows(table, chainKey);
    ChainPassExplains(table, chainKey, h);
    while true
      invariant walk.recordsChecked <= |rows| && walk == WalkAfter(rows, walk.recordsChecked)
      invariant Clean(rows, walk.recordsChecked, chainKey, h)
      invariant cursor == walk.lastSequence
      decreases |rows| - walk.recordsChecked
    {
      ghost var done := walk.recordsChecked;
      var page := Page(table, chainKey, cursor, pageSize);
      PageRows(table, chainKey, done, pageSize);
      if |page| == 0 { break; }
      var step := WalkPage(page, walk, chainKey, h, rows, done);
      if step.Stop? { return step.outcome; }
      walk := step.walk;
      cursor := Some(page[|page| - 1].sequence);
      if |page| < pageSize { break; }
    }
    OnePassClean(rows, chainKey, h);
    outcome := Returns(Report(chainKey, true, walk.recordsChecked, walk.firstSequence, walk.lastSequence,
                              walk.retentionTruncated, None));
  }
}
