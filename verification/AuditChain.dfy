/** The hash chain of audit records: canonical records, hashes, segments, tamper evidence. */
module AuditChain {
  import Sorting
  import opened Text
  import opened Json
  import opened Canonical

  /** The runtime's SHA-256 (hexadecimal digest of a text) and `toISOString`. */
  datatype Runtime = Runtime(sha: Text -> Text, iso: Iso)

  const CURRENT_HASH_VERSION := 1
  const SYSTEM_CHAIN_KEY: Text := Ascii("SYSTEM")
  const GENESIS: Text := Ascii("GENESIS")
  const BAR := 124

  function ResolveChainKey(organizationId: Option<Text>): Text {
    if organizationId.Some? && |organizationId.value| > 0 then organizationId.value else SYSTEM_CHAIN_KEY
  }

  datatype HashInput = HashInput(
    chainKey: Text, sequence: int, hashVersion: int, actorType: Text, actorId: Option<Text>,
    action: Text, resourceType: Text, resourceId: Option<Text>, metadata: Js, createdAt: int)

  function OrNull(o: Option<Text>): Js { if o.Some? then Str(o.value) else Null }

  /** `metadata ?? null` */
  function MetadataOrNull(v: Js): Js { if v.Undefined? then Null else v }

  const CHAIN_KEY := Ascii("chainKey")
  const SEQUENCE := Ascii("sequence")
  const HASH_VERSION := Ascii("hashVersion")
  const ACTOR_TYPE := Ascii("actorType")
  const ACTOR_ID := Ascii("actorId")
  const ACTION := Ascii("action")
  const RESOURCE_TYPE := Ascii("resourceType")
  const RESOURCE_ID := Ascii("resourceId")
  const METADATA := Ascii("metadata")
  const CREATED_AT := Ascii("createdAt")

  function RecordEntries(r: HashInput, iso: Iso): seq<Entry> {
    [ Entry(CHAIN_KEY, Str(r.chainKey)),
      Entry(SEQUENCE, Str(Integer(r.sequence))),
      Entry(HASH_VERSION, Num(Integer(r.hashVersion))),
      Entry(ACTOR_TYPE, Str(r.actorType)),
      Entry(ACTOR_ID, OrNull(r.actorId)),
      Entry(ACTION, Str(r.action)),
      Entry(RESOURCE_TYPE, Str(r.resourceType)),
      Entry(RESOURCE_ID, OrNull(r.resourceId)),
      Entry(METADATA, MetadataOrNull(r.metadata)),
      Entry(CREATED_AT, Str(iso(r.createdAt))) ]
  }

  function BuildCanonicalRecord(r: HashInput, iso: Iso): Text {
    CanonicalStringify(Obj(RecordEntries(r, iso)), iso).value
  }

  function LinkedText(prevHash: Option<Text>, r: HashInput, iso: Iso): Text {
    LinkOf(prevHash) + [BAR] + BuildCanonicalRecord(r, iso)
  }

  datatype HashResult = Hash(hash: Text) | Unsupported(version: int)

  function ComputeAuditHash(prevHash: Option<Text>, r: HashInput, hashVersion: int, rt: Runtime): HashResult {
    if hashVersion == 1 then Hash(rt.sha(LinkedText(prevHash, r.(hashVersion := hashVersion), rt.iso)))
    else Unsupported(hashVersion)
  }

  /** A hash function in the place of `computeAuditHash`; it supports the current version. */
  type Hasher = h: (Option<Text>, HashInput, int) -> HashResult
    | forall p, r :: h(p, r, CURRENT_HASH_VERSION).Hash?
    witness (p: Option<Text>, r: HashInput, v: int) => Hash([])

  /** `h` is `computeAuditHash` over this runtime. */
  ghost predicate IsAuditHash(h: Hasher, rt: Runtime) {
    forall p, r, v :: h(p, r, v) == ComputeAuditHash(p, r, v, rt)
  }

  /** `computeAuditHash` itself: it hashes version 1 and no other. */
  function AuditHasher(rt: Runtime): (h: Hasher)
    ensures IsAuditHash(h, rt)
    ensures forall p, r, v :: h(p, r, v) == if v == 1 then Hash(rt.sha(LinkedText(p, r.(hashVersion := v), rt.iso))) else Unsupported(v)
  {
    (p: Option<Text>, r: HashInput, v: int) => ComputeAuditHash(p, r, v, rt)
  }

  // ---------- the canonical record determines the record ----------

  /** The same audit record: every hashed field agrees, metadata up to its content. */
  ghost predicate SameRecord(a: HashInput, b: HashInput, iso: Iso) {
    && a.(metadata := Null) == b.(metadata := Null)
    && Content(MetadataOrNull(a.metadata), iso) == Content(MetadataOrNull(b.metadata), iso)
  }

  lemma IntegerIsNumberToken(n: int)
    ensures IsNumberToken(Integer(n))
  {
    DecimalRoundTrip(if n < 0 then -n else n);
  }

  lemma RecordWellFormed(r: HashInput, iso: Iso)
    requires WellFormed(r.metadata)
    ensures WellFormed(Obj(RecordEntries(r, iso)))
  {
    IntegerIsNumberToken(r.hashVersion);
    var es := RecordEntries(r, iso);
    assert CHAIN_KEY[0] == 'c' as int && SEQUENCE[0] == 's' as int && METADATA[0] == 'm' as int;
    assert ACTOR_TYPE[0] == 'a' as int && CREATED_AT[0] == 'c' as int;
    assert DistinctKeys(es);
    forall e | e in es ensures WellFormed(e.value) {}
  }

  lemma FieldAt(es: seq<Entry>, iso: Iso, i: nat)
    requires DistinctKeys(es) && i < |es| && Visible(es[i], {PROTO})
    ensures es[i].key in Fields(es, {PROTO}, iso)
    ensures Fields(es, {PROTO}, iso)[es[i].key] == Content(es[i].value, iso)
  {
    FieldsSound(es, {PROTO}, iso);
    assert es[i] in es;
  }

  lemma RecordVisible(r: HashInput, iso: Iso)
    ensures forall e :: e in RecordEntries(r, iso) ==> Visible(e, {PROTO})
  {
    assert PROTO[0] == '_' as int;
    forall e | e in RecordEntries(r, iso) ensures Visible(e, {PROTO}) {
      assert e.key[0] != '_' as int;
    }
  }

  /** `k` is a field of the record with this meaning. */
  ghost predicate HasField(m: Meaning, k: Text, value: Meaning) { m.MObj? && k in m.fields && m.fields[k] == value }

  function TextOrNull(o: Option<Text>): Meaning { if o.Some? then MStr(o.value) else MNull }

  /** What the record means as JSON: each field under its name, and no others. */
  ghost predicate NamesFields(m: Meaning, r: HashInput, iso: Iso) {
    && m.MObj? && |m.fields.Keys| == 10
    && HasField(m, CHAIN_KEY, MStr(r.chainKey)) && HasField(m, SEQUENCE, MStr(Integer(r.sequence)))
    && HasField(m, HASH_VERSION, MNum(Integer(r.hashVersion))) && HasField(m, ACTOR_TYPE, MStr(r.actorType))
    && HasField(m, ACTOR_ID, TextOrNull(r.actorId)) && HasField(m, ACTION, MStr(r.action))
    && HasField(m, RESOURCE_TYPE, MStr(r.resourceType)) && HasField(m, RESOURCE_ID, TextOrNull(r.resourceId))
    && HasField(m, METADATA, Content(MetadataOrNull(r.metadata), iso)) && HasField(m, CREATED_AT, MStr(iso(r.createdAt)))
  }

  /** The text that is hashed is JSON that names every field of the record, and no others. */
  lemma RecordNamesFields(r: HashInput, iso: Iso)
    requires WellFormed(r.metadata)
    ensures var p := ParseValue(BuildCanonicalRecord(r, iso));
            p.Done? && p.rest == [] && NamesFields(MeaningOf(p.value, {}, iso), r, iso)
  {
    var v := Obj(RecordEntries(r, iso));
    RecordWellFormed(r, iso);
    CanonicalParses(v, iso);
    NormalKeepsContent(v, iso);
    ContentNamesFields(r, iso);
  }

  lemma ContentNamesFields(r: HashInput, iso: Iso)
    requires WellFormed(r.metadata)
    ensures NamesFields(Content(Obj(RecordEntries(r, iso)), iso), r, iso)
  {
    var es := RecordEntries(r, iso);
    RecordWellFormed(r, iso);
    RecordVisible(r, iso);
    FieldCount(es, iso);
    forall i | 0 <= i < |es|
      ensures es[i].key in Fields(es, {PROTO}, iso) && Fields(es, {PROTO}, iso)[es[i].key] == Content(es[i].value, iso)
    {
      assert es[i] in es;
      FieldAt(es, iso, i);
    }
    var m := Content(Obj(es), iso);
    EntriesNameFields(m, es, r, iso);
  }

  lemma EntriesNameFields(m: Meaning, es: seq<Entry>, r: HashInput, iso: Iso)
    requires es == RecordEntries(r, iso) && m.MObj? && |m.fields.Keys| == |es|
    requires forall i :: 0 <= i < |es| ==> HasField(m, es[i].key, Content(es[i].value, iso))
    ensures NamesFields(m, r, iso)
  {
    assert HasField(m, es[0].key, Content(es[0].value, iso)) && HasField(m, es[1].key, Content(es[1].value, iso));
    assert HasField(m, es[2].key, Content(es[2].value, iso)) && HasField(m, es[3].key, Content(es[3].value, iso));
    assert HasField(m, es[4].key, Content(es[4].value, iso)) && HasField(m, es[5].key, Content(es[5].value, iso));
    assert HasField(m, es[6].key, Content(es[6].value, iso)) && HasField(m, es[7].key, Content(es[7].value, iso));
    assert HasField(m, es[8].key, Content(es[8].value, iso)) && HasField(m, es[9].key, Content(es[9].value, iso));
  }

  /** The first key is not among the later ones. */
  lemma HeadKeyIsNew(es: seq<Entry>)
    requires DistinctKeys(es) && es != []
    ensures !Listed(es[1..], es[0].key, {PROTO})
  {
    forall e | e in es[1..] ensures e.key != es[0].key {
      var i :| 0 <= i < |es[1..]| && es[1..][i] == e;
      assert es[i + 1] == e;
    }
  }

  /** An object has as many fields as visible entries. */
  lemma {:induction false} FieldCount(es: seq<Entry>, iso: Iso)
    requires DistinctKeys(es) && forall e :: e in es ==> Visible(e, {PROTO})
    ensures |Fields(es, {PROTO}, iso).Keys| == |es|
  {
    if es != [] {
      var rest := Fields(es[1..], {PROTO}, iso);
      FieldCount(es[1..], iso);
      HeadKeyIsNew(es);
      FieldsSound(es[1..], {PROTO}, iso);
      assert Visible(es[0], {PROTO});
      assert Fields(es, {PROTO}, iso).Keys == rest.Keys + {es[0].key};
    }
  }

  lemma RecordSameKeys(a: HashInput, b: HashInput, iso: Iso)
    ensures SameKeys(RecordEntries(a, iso), RecordEntries(b, iso))
  {
  }

  ghost predicate SameKeys(x: seq<Entry>, y: seq<Entry>) {
    |x| == |y| && forall i :: 0 <= i < |x| ==> x[i].key == y[i].key
  }

  ghost predicate SameValues(x: seq<Entry>, y: seq<Entry>, iso: Iso) {
    |x| == |y| && forall i :: 0 <= i < |x| ==> Content(x[i].value, iso) == Content(y[i].value, iso)
  }

  lemma SameTextSameValues(x: seq<Entry>, y: seq<Entry>, iso: Iso)
    requires SameKeys(x, y) && WellFormed(Obj(x)) && WellFormed(Obj(y))
    requires forall e :: e in x ==> Visible(e, {PROTO})
    requires forall e :: e in y ==> Visible(e, {PROTO})
    requires CanonicalStringify(Obj(x), iso).value == CanonicalStringify(Obj(y), iso).value
    ensures SameValues(x, y, iso)
  {
    CanonicalTextIdentifiesContent(Obj(x), Obj(y), iso);
    forall i | 0 <= i < |x| ensures Content(x[i].value, iso) == Content(y[i].value, iso) {
      assert x[i] in x && y[i] in y;
      FieldAt(x, iso, i);
      FieldAt(y, iso, i);
    }
  }

  lemma RecordValuesEqual(a: HashInput, b: HashInput, iso: Iso)
    requires WellFormed(a.metadata) && WellFormed(b.metadata)
    requires BuildCanonicalRecord(a, iso) == BuildCanonicalRecord(b, iso)
    ensures SameValues(RecordEntries(a, iso), RecordEntries(b, iso), iso)
  {
    RecordWellFormed(a, iso);
    RecordWellFormed(b, iso);
    RecordVisible(a, iso);
    RecordVisible(b, iso);
    RecordSameKeys(a, b, iso);
    SameTextSameValues(RecordEntries(a, iso), RecordEntries(b, iso), iso);
  }

  /** `toISOString` tells different instants apart. */
  ghost predicate IsoInjective(iso: Iso) {
    forall s: int, t: int :: iso(s) == iso(t) ==> s == t
  }

  lemma CanonicalRecordDeterminesRecord(a: HashInput, b: HashInput, iso: Iso)
    requires WellFormed(a.metadata) && WellFormed(b.metadata) && IsoInjective(iso)
    ensures BuildCanonicalRecord(a, iso) == BuildCanonicalRecord(b, iso) <==> SameRecord(a, b, iso)
  {
    if BuildCanonicalRecord(a, iso) == BuildCanonicalRecord(b, iso) {
      RecordValuesEqual(a, b, iso);
      SameContentSameRecord(a, b, iso);
    }
    if SameRecord(a, b, iso) {
      SameRecordSameText(a, b, iso);
    }
  }

  lemma SameContentSameRecord(a: HashInput, b: HashInput, iso: Iso)
    requires IsoInjective(iso)
    requires SameValues(RecordEntries(a, iso), RecordEntries(b, iso), iso)
    ensures SameRecord(a, b, iso)
  {
    var x, y := RecordEntries(a, iso), RecordEntries(b, iso);
    assert Content(x[0].value, iso) == Content(y[0].value, iso);
    assert Content(x[1].value, iso) == Content(y[1].value, iso);
    IntegerInjective(a.sequence, b.sequence);
    assert Content(x[2].value, iso) == Content(y[2].value, iso);
    IntegerInjective(a.hashVersion, b.hashVersion);
    assert Content(x[3].value, iso) == Content(y[3].value, iso);
    assert Content(x[4].value, iso) == Content(y[4].value, iso);
    assert Content(x[5].value, iso) == Content(y[5].value, iso);
    assert Content(x[6].value, iso) == Content(y[6].value, iso);
    assert Content(x[7].value, iso) == Content(y[7].value, iso);
    assert Content(x[8].value, iso) == Content(y[8].value, iso);
    assert Content(x[9].value, iso) == Content(y[9].value, iso);
  }

  lemma RecordSameValues(a: HashInput, b: HashInput, iso: Iso)
    requires SameRecord(a, b, iso)
    ensures SameValues(RecordEntries(a, iso), RecordEntries(b, iso), iso)
  {
  }

  lemma SameValuesSameText(x: seq<Entry>, y: seq<Entry>, iso: Iso)
    requires SameKeys(x, y) && WellFormed(Obj(x)) && WellFormed(Obj(y)) && SameValues(x, y, iso)
    requires forall e :: e in x ==> Visible(e, {PROTO})
    requires forall e :: e in y ==> Visible(e, {PROTO})
    ensures CanonicalStringify(Obj(x), iso) == CanonicalStringify(Obj(y), iso)
  {
    SameFieldsByPosition(x, y, iso);
    CanonicalTextIdentifiesContent(Obj(x), Obj(y), iso);
  }

  lemma {:induction false} SameFieldsByPosition(x: seq<Entry>, y: seq<Entry>, iso: Iso)
    requires SameKeys(x, y) && SameValues(x, y, iso)
    requires forall e :: e in x ==> Visible(e, {PROTO})
    requires forall e :: e in y ==> Visible(e, {PROTO})
    ensures Fields(x, {PROTO}, iso) == Fields(y, {PROTO}, iso)
  {
    if x != [] {
      SameFieldsByPosition(x[1..], y[1..], iso);
      assert x[0] in x && y[0] in y;
      assert Content(x[0].value, iso) == Content(y[0].value, iso);
    }
  }

  lemma SameRecordSameText(a: HashInput, b: HashInput, iso: Iso)
    requires WellFormed(a.metadata) && WellFormed(b.metadata) && SameRecord(a, b, iso)
    ensures BuildCanonicalRecord(a, iso) == BuildCanonicalRecord(b, iso)
  {
    RecordWellFormed(a, iso);
    RecordWellFormed(b, iso);
    RecordVisible(a, iso);
    RecordVisible(b, iso);
    RecordSameKeys(a, b, iso);
    RecordSameValues(a, b, iso);
    SameValuesSameText(RecordEntries(a, iso), RecordEntries(b, iso), iso);
  }

  // ---------- the linked text determines the link and the record ----------

  /** A `prevHash` the chain itself can write: absent, or a digest. */
  ghost predicate IsLink(prevHash: Option<Text>) { prevHash.Some? ==> IsDigest(prevHash.value) }

  /** `prevHash ?? "GENESIS"` */
  function LinkOf(prevHash: Option<Text>): Text { if prevHash.Some? then prevHash.value else GENESIS }

  lemma RecordKeysAreLetters(r: HashInput, iso: Iso)
    ensures forall e :: e in RecordEntries(r, iso) ==> e.key != [] && 97 <= e.key[0] <= 122
  {
    assert CHAIN_KEY[0] == 'c' as int && SEQUENCE[0] == 's' as int && METADATA[0] == 'm' as int;
    assert HASH_VERSION[0] == 'h' as int && ACTION[0] == 'a' as int && RESOURCE_ID[0] == 'r' as int;
  }

  /** An object text whose first key starts with a letter. */
  ghost predicate OpensWithKey(t: Text) { |t| > 2 && t[0] == 123 && t[1] == 34 && 97 <= t[2] <= 122 }

  lemma ObjectOpens(es: seq<Entry>, iso: Iso)
    requires es != [] && !es[0].value.Undefined? && es[0].key != [] && 97 <= es[0].key[0] <= 122
    ensures OpensWithKey(PrintTo(Obj(es), [], iso))
  {
    var key, rest := es[0].key, [58] + PrintTo(es[0].value, EntriesTo(es[1..], false, [125] + [], iso), iso);
    assert EscapeTo(key, rest) == [key[0]] + EscapeTo(key[1..], rest);
    assert QuoteTo(key, rest) == [34, key[0]] + EscapeTo(key[1..], rest);
  }

  ghost predicate LetterKeys(es: seq<Entry>) {
    forall e :: e in es ==> Visible(e, {PROTO}) && e.key != [] && 97 <= e.key[0] <= 122
  }

  lemma FirstIsLetter(es: seq<Entry>, built: seq<Entry>, iso: Iso)
    requires es != [] && LetterKeys(es)
    requires forall e :: e in built <==> e.key != PROTO && NormalisedFrom(es, e, iso)
    ensures built != [] && !built[0].value.Undefined? && built[0].key != [] && 97 <= built[0].key[0] <= 122
  {
    var e := Entry(es[0].key, Normal(es[0].value, iso));
    assert es[0] in es;
    assert NormalisedFrom(es, e, iso) && e in built;
    assert built[0] in built;
    var d :| d in es && !d.value.Undefined? && built[0] == Entry(d.key, Normal(d.value, iso));
  }

  lemma BuiltFirst(es: seq<Entry>, iso: Iso)
    requires DistinctKeys(es) && es != [] && LetterKeys(es)
    ensures var built := AssignAll(Sorting.Sort(NormalEntries(es, iso), KeyLess));
            built != [] && !built[0].value.Undefined? && built[0].key != [] && 97 <= built[0].key[0] <= 122
  {
    NormalEntriesElements(es, iso);
    BuiltElements(NormalEntries(es, iso));
    FirstIsLetter(es, AssignAll(Sorting.Sort(NormalEntries(es, iso), KeyLess)), iso);
  }

  lemma ObjectReads(es: seq<Entry>, iso: Iso)
    requires WellFormed(Obj(es)) && es != [] && LetterKeys(es)
    ensures var t := CanonicalStringify(Obj(es), iso).value; Lexes(t, Outside) && OpensWithKey(t)
  {
    CanonicalTextIsNormalText(Obj(es), iso);
    NormalKeepsContent(Obj(es), iso);
    PrintLexes(Normal(Obj(es), iso), [], iso);
    BuiltFirst(es, iso);
    ObjectOpens(AssignAll(Sorting.Sort(NormalEntries(es, iso), KeyLess)), iso);
  }

  /** The canonical record reads as JSON throughout, and starts with a brace and a key. */
  lemma RecordReads(r: HashInput, iso: Iso)
    requires WellFormed(r.metadata)
    ensures Lexes(BuildCanonicalRecord(r, iso), Outside) && OpensWithKey(BuildCanonicalRecord(r, iso))
  {
    RecordWellFormed(r, iso);
    RecordVisible(r, iso);
    RecordKeysAreLetters(r, iso);
    ObjectReads(RecordEntries(r, iso), iso);
  }

  lemma OpeningIsOutside(t: Text)
    requires OpensWithKey(t)
    ensures !Lexes(t, Inside)
  {
    var u := t[1..];
    assert u[0] == 34 && u[1..][0] == t[2];
    assert !Lexes(u, Inside);
  }

  /** A bar inside a record stands in a string, where no record can begin. */
  lemma BarSplits(p: Text, a: Text, q: Text, b: Text)
    requires p + [BAR] + a == q + [BAR] + b && |p| <= |q|
    requires Lexes(a, Outside) && OpensWithKey(b)
    ensures p == q && a == b
  {
    var t := p + [BAR] + a;
    assert p == t[..|p|] && a == t[|p| + 1..] && q == t[..|q|] && b == t[|q| + 1..];
    if |p| < |q| {
      var z := q[|p| + 1..];
      assert t[|q|] == BAR;
      assert a == z + [BAR] + b;
      OpeningIsOutside(b);
      ForeignIsInside(z, BAR, b, Outside);
    }
  }

  /** Two linked texts are equal exactly for the same link, absent counting as `GENESIS`, and the
      same record: whatever characters the links contain. */
  lemma LinkedTextInjective(p: Option<Text>, a: HashInput, q: Option<Text>, b: HashInput, iso: Iso)
    requires WellFormed(a.metadata) && WellFormed(b.metadata) && IsoInjective(iso)
    ensures LinkedText(p, a, iso) == LinkedText(q, b, iso) <==> LinkOf(p) == LinkOf(q) && SameRecord(a, b, iso)
  {
    RecordReads(a, iso);
    RecordReads(b, iso);
    CanonicalRecordDeterminesRecord(a, b, iso);
    var x, y := BuildCanonicalRecord(a, iso), BuildCanonicalRecord(b, iso);
    if LinkedText(p, a, iso) == LinkedText(q, b, iso) {
      if |LinkOf(p)| <= |LinkOf(q)| { BarSplits(LinkOf(p), x, LinkOf(q), y); } else { BarSplits(LinkOf(q), y, LinkOf(p), x); }
    }
  }

  // ---------- rows and chains ----------

  /** One `AuditLog` row. The last three columns and the id are not hashed. */
  datatype Row = Row(
    id: Text, chainKey: Text, sequence: int, hashVersion: int, prevHash: Option<Text>, hash: Text,
    actorType: Text, actorId: Option<Text>, action: Text, resourceType: Text, resourceId: Option<Text>,
    metadata: Js, createdAt: int,
    organizationId: Option<Text>, correlationId: Option<Text>, parentId: Option<Text>)

  function InputOf(row: Row, chainKey: Text): HashInput {
    HashInput(chainKey, row.sequence, row.hashVersion, row.actorType, row.actorId, row.action,
              row.resourceType, row.resourceId, row.metadata, row.createdAt)
  }

  ghost predicate HashOk(row: Row, h: Hasher) {
    h(row.prevHash, InputOf(row, row.chainKey), row.hashVersion) == Hash(row.hash)
  }

  /** `b` directly follows `a`. */
  ghost predicate Follows(a: Row, b: Row) {
    b.prevHash == Some(a.hash) && b.sequence == a.sequence + 1
  }

  ghost predicate FollowsAt(rows: seq<Row>, i: nat)
    requires 0 < i < |rows|
  {
    Follows(rows[i - 1], rows[i])
  }

  /** Consecutive rows of one chain, each hashing correctly and linked to the one before. */
  ghost predicate Segment(rows: seq<Row>, chainKey: Text, h: Hasher) {
    && (forall i :: 0 <= i < |rows| ==> rows[i].chainKey == chainKey && HashOk(rows[i], h))
    && (forall i :: 0 < i < |rows| ==> FollowsAt(rows, i))
  }

  /** A whole chain: a segment that starts at sequence 1 with no predecessor. */
  ghost predicate FullChain(rows: seq<Row>, chainKey: Text, h: Hasher) {
    Segment(rows, chainKey, h) && (rows != [] ==> rows[0].sequence == 1 && rows[0].prevHash == None)
  }

  lemma {:induction false} SegmentNumbering(rows: seq<Row>, chainKey: Text, h: Hasher, i: nat)
    requires Segment(rows, chainKey, h) && i < |rows|
    ensures rows[i].sequence == rows[0].sequence + i
  {
    if i > 0 { assert FollowsAt(rows, i); SegmentNumbering(rows, chainKey, h, i - 1); }
  }

  // ---------- tamper evidence ----------

  function RowText(row: Row, iso: Iso): Text { LinkedText(row.prevHash, InputOf(row, row.chainKey), iso) }

  /** What is hashed for a row: its link, a bar, and JSON that names each hashed column of the row. */
  lemma HashedTextNamesColumns(row: Row, iso: Iso)
    requires WellFormed(row.metadata)
    ensures var link := LinkOf(row.prevHash);
            && link + [BAR] <= RowText(row, iso)
            && var p := ParseValue(RowText(row, iso)[|link| + 1..]);
            && p.Done? && p.rest == [] && var m := MeaningOf(p.value, {}, iso);
            && m.MObj? && |m.fields.Keys| == 10
            && HasField(m, CHAIN_KEY, MStr(row.chainKey)) && HasField(m, SEQUENCE, MStr(Integer(row.sequence)))
            && HasField(m, HASH_VERSION, MNum(Integer(row.hashVersion))) && HasField(m, ACTOR_TYPE, MStr(row.actorType))
            && HasField(m, ACTOR_ID, TextOrNull(row.actorId)) && HasField(m, ACTION, MStr(row.action))
            && HasField(m, RESOURCE_TYPE, MStr(row.resourceType)) && HasField(m, RESOURCE_ID, TextOrNull(row.resourceId))
            && HasField(m, METADATA, Content(MetadataOrNull(row.metadata), iso)) && HasField(m, CREATED_AT, MStr(iso(row.createdAt)))
  {
    var r := InputOf(row, row.chainKey);
    RecordNamesFields(r, iso);
    assert RowText(row, iso)[|LinkOf(row.prevHash)| + 1..] == BuildCanonicalRecord(r, iso);
  }

  /** `texts` holds every text hashed to check `rows`. */
  ghost predicate HashedIn(rows: seq<Row>, texts: set<Text>, iso: Iso) {
    forall i :: 0 <= i < |rows| ==> RowText(rows[i], iso) in texts
  }

  ghost predicate CollisionFree(sha: Text -> Text, texts: set<Text>) {
    forall x, y :: x in texts && y in texts && sha(x) == sha(y) ==> x == y
  }

  /** The same hash over the same link text and the same record. */
  ghost predicate SameHashed(a: Row, b: Row, iso: Iso) {
    && LinkOf(a.prevHash) == LinkOf(b.prevHash) && a.hash == b.hash
    && SameRecord(InputOf(a, a.chainKey), InputOf(b, b.chainKey), iso)
  }

  ghost predicate SameRow(a: Row, b: Row, iso: Iso) { SameHashed(a, b, iso) && a.prevHash == b.prevHash }

  /** Row for row the last `|tail|` rows of `rows`, up to how an absent link is written. */
  ghost predicate IsHashedSuffix(tail: seq<Row>, rows: seq<Row>, iso: Iso) {
    |tail| <= |rows| && forall i :: 0 <= i < |tail| ==> SameHashed(tail[i], rows[|rows| - |tail| + i], iso)
  }

  /** Row for row the last `|tail|` rows of `rows`. */
  ghost predicate IsContentSuffix(tail: seq<Row>, rows: seq<Row>, iso: Iso) {
    |tail| <= |rows| && forall i :: 0 <= i < |tail| ==> SameRow(tail[i], rows[|rows| - |tail| + i], iso)
  }

  ghost predicate MetadataOk(rows: seq<Row>) {
    forall i :: 0 <= i < |rows| ==> WellFormed(rows[i].metadata)
  }

  ghost predicate LinksAndMetadataOk(rows: seq<Row>) {
    MetadataOk(rows) && forall i :: 0 <= i < |rows| ==> IsLink(rows[i].prevHash)
  }

  /** SHA-256 yields digests. */
  ghost predicate Digests(sha: Text -> Text) { forall x :: IsDigest(sha(x)) }

  lemma EqualHashEqualRow(a: Row, b: Row, texts: set<Text>, h: Hasher, rt: Runtime)
    requires HashOk(a, h) && HashOk(b, h) && a.hash == b.hash
    requires WellFormed(a.metadata) && WellFormed(b.metadata)
    requires IsAuditHash(h, rt) && IsoInjective(rt.iso) && CollisionFree(rt.sha, texts)
    requires RowText(a, rt.iso) in texts && RowText(b, rt.iso) in texts
    ensures SameHashed(a, b, rt.iso)
  {
    LinkedTextInjective(a.prevHash, InputOf(a, a.chainKey), b.prevHash, InputOf(b, b.chainKey), rt.iso);
  }

  ghost predicate Linked(rows: seq<Row>) {
    forall i :: 0 < i < |rows| ==> FollowsAt(rows, i)
  }

  lemma LinkedFront(rows: seq<Row>)
    requires rows != [] && Linked(rows)
    ensures Linked(rows[..|rows| - 1])
  {
    var front := rows[..|rows| - 1];
    forall i | 0 < i < |front| ensures FollowsAt(front, i) {
      assert FollowsAt(rows, i);
    }
  }

  /** Equal hashes only on equal rows: no collision between the two tables. */
  ghost predicate HashesBind(a: seq<Row>, b: seq<Row>, iso: Iso) {
    forall i, j :: 0 <= i < |a| && 0 <= j < |b| && a[i].hash == b[j].hash ==> SameHashed(a[i], b[j], iso)
  }

  ghost predicate NoGenesisHash(rows: seq<Row>) { forall i :: 0 <= i < |rows| ==> rows[i].hash != GENESIS }

  lemma {:induction false} LinksForceSuffix(original: seq<Row>, altered: seq<Row>, iso: Iso)
    requires Linked(original) && Linked(altered) && HashesBind(altered, original, iso) && NoGenesisHash(altered)
    requires original != [] && original[0].prevHash == None
    requires altered != [] && altered[|altered| - 1].hash == original[|original| - 1].hash
    ensures IsHashedSuffix(altered, original, iso)
    decreases |altered|
  {
    var m, n := |altered|, |original|;
    assert SameHashed(altered[m - 1], original[n - 1], iso);
    if m > 1 {
      assert FollowsAt(altered, m - 1);
      assert n > 1;
      assert FollowsAt(original, n - 1);
      LinkedFront(original);
      LinkedFront(altered);
      LinksForceSuffix(original[..n - 1], altered[..m - 1], iso);
    }
    SuffixExtend(altered, original, iso);
  }

  lemma SuffixExtend(tail: seq<Row>, rows: seq<Row>, iso: Iso)
    requires tail != [] && rows != []
    requires IsHashedSuffix(tail[..|tail| - 1], rows[..|rows| - 1], iso)
    requires SameHashed(tail[|tail| - 1], rows[|rows| - 1], iso)
    ensures IsHashedSuffix(tail, rows, iso)
  {
    var m, n := |tail|, |rows|;
    forall i | 0 <= i < m ensures SameHashed(tail[i], rows[n - m + i], iso) {
      if i < m - 1 {
        assert tail[..m - 1][i] == tail[i] && rows[..n - 1][n - m + i] == rows[n - m + i];
        assert SameHashed(tail[..m - 1][i], rows[..n - 1][(n - 1) - (m - 1) + i], iso);
      }
    }
  }

  lemma HashesAreDigests(rows: seq<Row>, chainKey: Text, h: Hasher, rt: Runtime)
    requires Segment(rows, chainKey, h) && IsAuditHash(h, rt) && Digests(rt.sha)
    ensures forall i :: 0 <= i < |rows| ==> IsDigest(rows[i].hash)
    ensures NoGenesisHash(rows)
  {
    forall i | 0 <= i < |rows| ensures IsDigest(rows[i].hash) {
      assert HashOk(rows[i], h);
    }
  }

  /** The links agree as stored exactly when the first one is not the literal `GENESIS`. */
  lemma LinksAgree(original: seq<Row>, altered: seq<Row>, iso: Iso)
    requires LinksAndMetadataOk(original) && Linked(altered) && NoGenesisHash(altered) && altered != []
    requires IsHashedSuffix(altered, original, iso)
    ensures IsContentSuffix(altered, original, iso) <==> altered[0].prevHash != Some(GENESIS)
  {
    var m, n := |altered|, |original|;
    assert SameHashed(altered[0], original[n - m], iso) && IsLink(original[n - m].prevHash);
    if altered[0].prevHash != Some(GENESIS) {
      forall i | 0 <= i < m ensures SameRow(altered[i], original[n - m + i], iso) {
        assert SameHashed(altered[i], original[n - m + i], iso) && IsLink(original[n - m + i].prevHash);
        if i > 0 { assert FollowsAt(altered, i); }
      }
    } else {
      assert !SameRow(altered[0], original[n - m], iso);
    }
  }

  // ---------- what the hash does not see ----------

  /** Everything the stored metadata means, own `__proto__` keys included. */
  ghost function FullMeaning(row: Row, iso: Iso): Meaning { MeaningOf(MetadataOrNull(row.metadata), {}, iso) }

  ghost predicate NoProtoKey(row: Row) { ProtoFree(MetadataOrNull(row.metadata)) }

  /** A row that hashes like an original without `__proto__` keys means the same exactly when it has none either. */
  ghost predicate MeaningPinned(a: Row, original: Row, iso: Iso) {
    NoProtoKey(original) ==> (FullMeaning(a, iso) == FullMeaning(original, iso) <==> NoProtoKey(a))
  }

  ghost predicate MeaningsPinned(tail: seq<Row>, rows: seq<Row>, iso: Iso)
    requires |tail| <= |rows|
  {
    forall i :: 0 <= i < |tail| ==> MeaningPinned(tail[i], rows[|rows| - |tail| + i], iso)
  }

  lemma SameHashedPins(a: Row, original: Row, iso: Iso)
    requires SameHashed(a, original, iso) && WellFormed(a.metadata) && WellFormed(original.metadata)
    ensures MeaningPinned(a, original, iso)
  {
    ProtoFreeIff(MetadataOrNull(a.metadata), iso);
    ProtoFreeIff(MetadataOrNull(original.metadata), iso);
  }

  // ---------- what the hash sees ----------

  /** The row with its metadata and its unhashed columns blanked. */
  function Hashed(row: Row): Row {
    row.(id := [], organizationId := None, correlationId := None, parentId := None, metadata := Null)
  }

  ghost predicate SameMetadata(a: Row, b: Row, iso: Iso) {
    Content(MetadataOrNull(a.metadata), iso) == Content(MetadataOrNull(b.metadata), iso)
  }

  /** Being the same row: every column agrees but the id, the organization, the correlation and the
      parent, and metadata agrees as far as the canonical text shows it. */
  lemma SameRowIff(a: Row, b: Row, iso: Iso)
    ensures SameRow(a, b, iso) <==> Hashed(a) == Hashed(b) && SameMetadata(a, b, iso)
  {
  }

  /** Two rows that each hash correctly have the same hash exactly when their links read the same,
      their other hashed columns agree, and their metadata does up to content. */
  lemma EqualHashIff(a: Row, b: Row, texts: set<Text>, h: Hasher, rt: Runtime)
    requires HashOk(a, h) && HashOk(b, h) && WellFormed(a.metadata) && WellFormed(b.metadata)
    requires IsAuditHash(h, rt) && IsoInjective(rt.iso) && CollisionFree(rt.sha, texts)
    requires RowText(a, rt.iso) in texts && RowText(b, rt.iso) in texts
    ensures a.hash == b.hash <==>
              && LinkOf(a.prevHash) == LinkOf(b.prevHash) && SameMetadata(a, b, rt.iso)
              && Hashed(a).(prevHash := None, hash := []) == Hashed(b).(prevHash := None, hash := [])
  {
    var x, y := InputOf(a, a.chainKey), InputOf(b, b.chainKey);
    LinkedTextInjective(a.prevHash, x, b.prevHash, y, rt.iso);
    assert a.hash == rt.sha(RowText(a, rt.iso)) && b.hash == rt.sha(RowText(b, rt.iso));
    SameRecordIff(a, b, rt.iso);
  }

  lemma SameRecordIff(a: Row, b: Row, iso: Iso)
    ensures SameRecord(InputOf(a, a.chainKey), InputOf(b, b.chainKey), iso) <==>
              SameMetadata(a, b, iso) && Hashed(a).(prevHash := None, hash := []) == Hashed(b).(prevHash := None, hash := [])
  {
  }

  /** The same rows under other ids, organizations, correlations and parents. */
  ghost predicate Relabelled(rows': seq<Row>, rows: seq<Row>) {
    |rows'| == |rows| && forall i :: 0 <= i < |rows| ==> RelabelledRow(rows'[i], rows[i])
  }

  ghost predicate RelabelledRow(a: Row, b: Row) { Hashed(a) == Hashed(b) && a.metadata == b.metadata }

  /** Relabelling any rows of any chain, swapping ids included, leaves a chain that verifies, with
      every hash and every metadata as it was. */
  lemma RelabelledRowsEscape(rows': seq<Row>, rows: seq<Row>, chainKey: Text, h: Hasher, iso: Iso)
    requires Segment(rows, chainKey, h) && Relabelled(rows', rows)
    ensures Segment(rows', chainKey, h) && IsContentSuffix(rows', rows, iso)
    ensures forall i :: 0 <= i < |rows| ==> FullMeaning(rows'[i], iso) == FullMeaning(rows[i], iso)
  {
    forall i | 0 <= i < |rows'|
      ensures rows'[i].chainKey == chainKey && HashOk(rows'[i], h) && SameRow(rows'[i], rows[i], iso)
      ensures i > 0 ==> FollowsAt(rows', i)
    {
      assert RelabelledRow(rows'[i], rows[i]) && HashOk(rows[i], h);
      RelabelledIsSame(rows'[i], rows[i], h, iso);
      if i > 0 {
        assert RelabelledRow(rows'[i - 1], rows[i - 1]) && FollowsAt(rows, i);
        RelabelledIsSame(rows'[i - 1], rows[i - 1], h, iso);
      }
    }
  }

  lemma RelabelledIsSame(a: Row, b: Row, h: Hasher, iso: Iso)
    requires RelabelledRow(a, b)
    ensures SameRow(a, b, iso) && (HashOk(b, h) ==> HashOk(a, h))
    ensures a.chainKey == b.chainKey && a.prevHash == b.prevHash && a.hash == b.hash && a.sequence == b.sequence
  {
    var x, y := Hashed(a), Hashed(b);
    assert x.chainKey == y.chainKey && x.sequence == y.sequence && x.prevHash == y.prevHash && x.hash == y.hash;
    assert InputOf(a, a.chainKey) == InputOf(b, b.chainKey) by {
      assert x.actorType == y.actorType && x.actorId == y.actorId && x.action == y.action;
      assert x.resourceType == y.resourceType && x.resourceId == y.resourceId && x.createdAt == y.createdAt;
      assert x.hashVersion == y.hashVersion;
    }
    assert x.hashVersion == y.hashVersion;
    SameRowIff(a, b, iso);
  }

  /** MAIN: a table that verifies and ends in the original's newest hash is a suffix of the original
      chain: not longer, and every hashed column of every row the same, metadata as far as the
      canonical text shows it. What a hash does not see is listed exactly: the id, organization,
      correlation and parent of a row (`SameRowIff`, `RelabelledRowsEscape`), whether the first link
      is absent or the literal `GENESIS`, and own `__proto__` keys in metadata. The only
      cryptographic assumptions are that SHA-256 yields digests and that the texts hashed here do
      not collide. */
  lemma TamperEvidence(
      original: seq<Row>, altered: seq<Row>, chainKey: Text, texts: set<Text>, h: Hasher, rt: Runtime)
    requires FullChain(original, chainKey, h) && Segment(altered, chainKey, h)
    requires LinksAndMetadataOk(original) && MetadataOk(altered)
    requires IsAuditHash(h, rt) && IsoInjective(rt.iso) && Digests(rt.sha) && CollisionFree(rt.sha, texts)
    requires HashedIn(original, texts, rt.iso) && HashedIn(altered, texts, rt.iso)
    requires original != [] && altered != []
    requires altered[|altered| - 1].hash == original[|original| - 1].hash
    ensures IsHashedSuffix(altered, original, rt.iso)
    ensures IsContentSuffix(altered, original, rt.iso) <==> altered[0].prevHash != Some(GENESIS)
    ensures MeaningsPinned(altered, original, rt.iso)
  {
    forall i, j | 0 <= i < |altered| && 0 <= j < |original| && altered[i].hash == original[j].hash
      ensures SameHashed(altered[i], original[j], rt.iso)
    {
      EqualHashEqualRow(altered[i], original[j], texts, h, rt);
    }
    HashesAreDigests(altered, chainKey, h, rt);
    LinksForceSuffix(original, altered, rt.iso);
    LinksAgree(original, altered, rt.iso);
    forall i | 0 <= i < |altered|
      ensures MeaningPinned(altered[i], original[|original| - |altered| + i], rt.iso)
    {
      SameHashedPins(altered[i], original[|original| - |altered| + i], rt.iso);
    }
  }

  /** Metadata with an own `__proto__` key planted in it. */
  function Planted(row: Row, x: Js): Row
    requires row.metadata.Obj?
  {
    row.(metadata := Obj(row.metadata.entries + [Entry(PROTO, x)]))
  }

  ghost predicate Plantable(row: Row, x: Js) {
    && row.metadata.Obj? && WellFormed(row.metadata) && ProtoFree(row.metadata)
    && (forall e :: e in row.metadata.entries ==> e.key != PROTO)
    && WellFormed(x) && !x.Undefined?
  }

  lemma PlantedIsWellFormed(row: Row, x: Js)
    requires Plantable(row, x)
    ensures WellFormed(Planted(row, x).metadata) && !ProtoFree(Planted(row, x).metadata)
  {
    var es := row.metadata.entries;
    var all := es + [Entry(PROTO, x)];
    forall i, j | 0 <= i < j < |all| ensures all[i].key != all[j].key {
      if j == |es| { assert es[i] in es; }
    }
    assert all[|es|] in all;
  }

  lemma PlantedIsSameHashed(row: Row, x: Js, h: Hasher, rt: Runtime)
    requires HashOk(row, h) && IsAuditHash(h, rt) && Plantable(row, x)
    ensures HashOk(Planted(row, x), h) && SameRow(Planted(row, x), row, rt.iso)
    ensures FullMeaning(Planted(row, x), rt.iso) != FullMeaning(row, rt.iso)
  {
    var forged := Planted(row, x);
    PlantedIsWellFormed(row, x);
    HiddenField(row.metadata.entries, Entry(PROTO, x), rt.iso);
    SameRecordSameText(InputOf(forged, row.chainKey), InputOf(row, row.chainKey), rt.iso);
    SameTextSameHash(row, forged, h, rt);
    SameHashedPins(forged, row, rt.iso);
  }

  lemma SameTextSameHash(row: Row, forged: Row, h: Hasher, rt: Runtime)
    requires HashOk(row, h) && IsAuditHash(h, rt) && forged == row.(metadata := forged.metadata)
    requires BuildCanonicalRecord(InputOf(forged, row.chainKey), rt.iso) == BuildCanonicalRecord(InputOf(row, row.chainKey), rt.iso)
    ensures HashOk(forged, h)
  {
  }

  /** Exchanging one row for another that hashes alike. */
  lemma ExchangeRow(rows: seq<Row>, i: nat, row: Row, chainKey: Text, h: Hasher, iso: Iso)
    requires Segment(rows, chainKey, h) && i < |rows| && HashOk(row, h) && SameRow(row, rows[i], iso)
    ensures Segment(rows[i := row], chainKey, h) && IsContentSuffix(rows[i := row], rows, iso)
  {
    var forged := rows[i := row];
    forall j | 0 < j < |forged| ensures FollowsAt(forged, j) {
      assert FollowsAt(rows, j);
    }
  }

  /** The whole family that escapes: planting any `__proto__` key in any row of any chain whose
      metadata is an object without one leaves a chain that verifies, with every hash as it was and
      another meaning. */
  lemma PlantedKeyEscapes(rows: seq<Row>, i: nat, x: Js, chainKey: Text, h: Hasher, rt: Runtime)
    requires Segment(rows, chainKey, h) && IsAuditHash(h, rt) && i < |rows| && Plantable(rows[i], x)
    ensures var forged := rows[i := Planted(rows[i], x)];
            && Segment(forged, chainKey, h) && WellFormed(forged[i].metadata)
            && (forall j :: 0 <= j < |rows| ==> forged[j].hash == rows[j].hash)
            && IsContentSuffix(forged, rows, rt.iso)
            && FullMeaning(forged[i], rt.iso) != FullMeaning(rows[i], rt.iso)
  {
    assert HashOk(rows[i], h);
    PlantedIsWellFormed(rows[i], x);
    PlantedIsSameHashed(rows[i], x, h, rt);
    ExchangeRow(rows, i, Planted(rows[i], x), chainKey, h, rt.iso);
  }

  /** A literal `GENESIS` link hashes like an absent one. */
  lemma GenesisLinkIsAmbiguous(row: Row, chainKey: Text, h: Hasher, rt: Runtime)
    requires IsAuditHash(h, rt)
    requires FullChain([row], chainKey, h)
    ensures var forged := row.(prevHash := Some(GENESIS));
            Segment([forged], chainKey, h) && forged.hash == row.hash && !SameRow(forged, row, rt.iso)
  {
    var forged := row.(prevHash := Some(GENESIS));
    assert [row][0] == row;
    assert RowText(forged, rt.iso) == RowText(row, rt.iso);
  }
}
