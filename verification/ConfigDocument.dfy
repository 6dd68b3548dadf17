/** Signed snapshot documents: building, verifying, and what a valid signature pins down. */
module ConfigDocument {
  import opened Sorting
  import opened Text
  import opened Json
  import opened ConfigSnapshot
  import ConfigPartition
  import Canonical

  // ---------- canonicalize ----------

  /** Sorting the keys throws on a number that is not finite. */
  predicate HasNonFinite(v: Js) {
    match v
    case NonFinite(_) => true
    case Arr(items) => exists x :: x in items && HasNonFinite(x)
    case Obj(es) => exists e :: e in es && HasNonFinite(e.value)
    case _ => false
  }

  /** A Date has no own keys. */
  function SortObject(v: Js): Js
    decreases v, 1
  {
    match v
    case Arr(items) => Arr(SortObjects(items))
    case Obj(es) => Obj(AssignAll(Sort(SortProperties(es), KeyLess)))
    case Date(_) => Obj([])
    case _ => v
  }

  function SortObjects(items: seq<Js>): seq<Js>
    decreases items, 0
  {
    if items == [] then [] else [SortObject(items[0])] + SortObjects(items[1..])
  }

  function SortProperties(es: seq<Entry>): seq<Entry>
    decreases es, 0
  {
    if es == [] then [] else [Entry(es[0].key, SortObject(es[0].value))] + SortProperties(es[1..])
  }

  /** None: it throws, or there is no text. */
  function Canonicalize(v: Js, iso: Iso): Option<Text> {
    if v.Undefined? || HasNonFinite(v) then None else Some(PrintTo(SortObject(v), [], iso))
  }

  /** What `JSON.parse` returns. */
  ghost predicate Parsed(v: Js) {
    match v
    case Undefined => false
    case NonFinite(_) => false
    case Date(_) => false
    case Num(token) => IsNumberToken(token)
    case Arr(items) => forall x :: x in items ==> Parsed(x)
    case Obj(es) => DistinctKeys(es) && forall e :: e in es ==> Parsed(e.value)
    case _ => true
  }

  lemma {:induction false} ParsedSorts(v: Js, iso: Iso)
    requires Parsed(v)
    ensures SortObject(v) == SortKeysDeep(v, iso) && WellFormed(v) && !HasNonFinite(v) && !v.Undefined?
    decreases v, 1
  {
    match v
    case Arr(items) => ParsedItemsSort(items, iso);
    case Obj(es) => ParsedEntriesSort(es, iso);
    case _ =>
  }

  lemma {:induction false} ParsedItemsSort(items: seq<Js>, iso: Iso)
    requires forall x :: x in items ==> Parsed(x)
    ensures SortObjects(items) == SortItems(items, iso)
    ensures forall x :: x in items ==> WellFormed(x) && !HasNonFinite(x)
    decreases items, 0
  {
    if items != [] {
      assert items[0] in items;
      ParsedSorts(items[0], iso);
      ParsedItemsSort(items[1..], iso);
    }
  }

  lemma {:induction false} ParsedEntriesSort(es: seq<Entry>, iso: Iso)
    requires forall e :: e in es ==> Parsed(e.value)
    ensures SortProperties(es) == SortEntries(es, iso)
    ensures forall e :: e in es ==> WellFormed(e.value) && !HasNonFinite(e.value)
    decreases es, 0
  {
    if es != [] {
      assert es[0] in es;
      ParsedSorts(es[0].value, iso);
      ParsedEntriesSort(es[1..], iso);
    }
  }

  /** On parsed values the two canonical forms of the system agree, so equal text is equal content. */
  lemma SameTextSameContent(v: Js, w: Js, iso: Iso)
    requires Parsed(v) && Parsed(w)
    ensures Canonicalize(v, iso) == CanonicalStringify(v, iso)
    ensures Canonicalize(v, iso) == Canonicalize(w, iso) <==> Canonical.Content(v, iso) == Canonical.Content(w, iso)
  {
    ParsedSorts(v, iso);
    ParsedSorts(w, iso);
    Canonical.CanonicalTextIdentifiesContent(v, w, iso);
  }

  // ---------- documents ----------

  datatype Signature = Signature(alg: Text, keyId: Text, value: Text)

  datatype Document = Document(
    schema: Text, environment: Text, entries: seq<Entry>, excluded: seq<Excluded>,
    capturedAt: Text, contentHash: Text, signature: Option<Signature>)

  datatype Crypto = Crypto(sha: Text -> Text, hmac: (Text, Text) -> Text)

  datatype Key = Key(keyId: Text, secret: Text)

  const SCHEMA: Text := Ascii("earnproof.config-snapshot.v1")
  const ALGORITHM: Text := Ascii("HMAC-SHA256")
  const HASH_PREFIX: Text := Ascii("sha256:")

  const K_SCHEMA: Text := Ascii("schema")
  const K_ENVIRONMENT: Text := Ascii("environment")
  const K_ENTRIES: Text := Ascii("entries")
  const K_EXCLUDED: Text := Ascii("excluded")
  const K_CAPTURED_AT: Text := Ascii("capturedAt")
  const K_CONTENT_HASH: Text := Ascii("contentHash")
  const K_PATH: Text := Ascii("path")
  const K_REASON: Text := Ascii("reason")

  function ReasonText(r: Reason): Text { if r.SecretName? then Ascii("secret_name") else Ascii("secret_value") }

  function ExcludedJs(x: Excluded): Js { Obj([Entry(K_PATH, Str(x.path)), Entry(K_REASON, Str(ReasonText(x.reason)))]) }

  function ExcludedList(xs: seq<Excluded>): seq<Js> {
    if xs == [] then [] else [ExcludedJs(xs[0])] + ExcludedList(xs[1..])
  }

  function ContentJs(d: Document): Js {
    Obj([Entry(K_SCHEMA, Str(d.schema)), Entry(K_ENVIRONMENT, Str(d.environment)),
         Entry(K_ENTRIES, Obj(d.entries)), Entry(K_EXCLUDED, Arr(ExcludedList(d.excluded)))])
  }

  function PayloadJs(d: Document): Js {
    Obj([Entry(K_SCHEMA, Str(d.schema)), Entry(K_ENVIRONMENT, Str(d.environment)),
         Entry(K_CAPTURED_AT, Str(d.capturedAt)), Entry(K_CONTENT_HASH, Str(d.contentHash))])
  }

  function ContentHashOf(crypto: Crypto, iso: Iso, d: Document): Option<Text> {
    var text := Canonicalize(ContentJs(d), iso);
    if text.None? then None else Some(HASH_PREFIX + crypto.sha(text.value))
  }

  function SignatureValue(crypto: Crypto, iso: Iso, key: Key, d: Document): Option<Text> {
    var text := Canonicalize(PayloadJs(d), iso);
    if text.None? then None else Some(crypto.hmac(key.secret, text.value))
  }

  /** None: building throws. */
  function BuildSnapshot(policy: Policy, crypto: Crypto, key: Key, config: Js, environment: Text, capturedAt: int): Option<Document> {
    var flat := Flatten(policy, config);
    var content := Document(SCHEMA, environment, flat.entries, flat.excluded, policy.iso(capturedAt), [], None);
    var hash := ContentHashOf(crypto, policy.iso, content);
    if hash.None? then None
    else
      var unsigned := content.(contentHash := hash.value);
      var value := SignatureValue(crypto, policy.iso, key, unsigned);
      if value.None? then None
      else Some(unsigned.(signature := Some(Signature(ALGORITHM, key.keyId, value.value))))
  }

  datatype Verdict = Valid | SchemaUnsupported | ContentHashMismatch | SignatureInvalid | SecretPresent | Throws

  predicate SecretEntry(policy: Policy, e: Entry) { policy.secretPath(e.key) || HoldsSecret(policy, e.value) }

  function VerifyDocument(policy: Policy, crypto: Crypto, key: Key, d: Document): Verdict {
    if d.schema != SCHEMA || d.signature.None? || d.signature.value.alg != ALGORITHM then SchemaUnsupported
    else
      var hash, value := ContentHashOf(crypto, policy.iso, d), SignatureValue(crypto, policy.iso, key, d);
      if hash.None? then Throws
      else if hash.value != d.contentHash then ContentHashMismatch
      else if d.signature.value.keyId != key.keyId || value != Some(d.signature.value.value) then SignatureInvalid
      else if exists e :: e in d.entries && SecretEntry(policy, e) then SecretPresent
      else Valid
  }

  method VerifySnapshot(policy: Policy, crypto: Crypto, key: Key, d: Document) returns (v: Verdict)
    ensures v == VerifyDocument(policy, crypto, key, d)
    ensures var known := d.schema == SCHEMA && d.signature.Some? && d.signature.value.alg == ALGORITHM;
            var hash := ContentHashOf(crypto, policy.iso, d);
            var hashed := known && hash == Some(d.contentHash);
            var signed := && hashed && d.signature.value.keyId == key.keyId
                          && SignatureValue(crypto, policy.iso, key, d) == Some(d.signature.value.value);
            var public := forall e :: e in d.entries ==> !policy.secretPath(e.key) && !HoldsSecret(policy, e.value);
            && (v == SchemaUnsupported <==> !known) && (v == Throws <==> known && hash.None?)
            && (v == ContentHashMismatch <==> known && hash.Some? && !hashed) && (v == SignatureInvalid <==> hashed && !signed)
            && (v == SecretPresent <==> signed && !public) && (v == Valid <==> signed && public)
  {
    if d.schema != SCHEMA || d.signature.None? || d.signature.value.alg != ALGORITHM {
      return SchemaUnsupported;
    }
    var hash := ContentHashOf(crypto, policy.iso, d);
    if hash.None? {
      return Throws;
    }
    if hash.value != d.contentHash {
      return ContentHashMismatch;
    }
    var expected := SignatureValue(crypto, policy.iso, key, d);
    if d.signature.value.keyId != key.keyId || expected != Some(d.signature.value.value) {
      return SignatureInvalid;
    }
    for i := 0 to |d.entries|
      invariant forall k :: 0 <= k < i ==> !SecretEntry(policy, d.entries[k])
    {
      if SecretEntry(policy, d.entries[i]) {
        assert d.entries[i] in d.entries;
        return SecretPresent;
      }
    }
    v := Valid;
  }

  // ---------- building then verifying ----------

  lemma {:induction false} KeptIsPublic(policy: Policy, v: Js, path: Text, e: Emission)
    requires e in Emit(policy, v, path) && e.Kept?
    ensures e.path == [] || !policy.secretPath(e.path)
    ensures !HoldsSecret(policy, e.value)
    decreases v
  {
    if (path == [] || !policy.secretPath(path)) && !IsSetting(v) {
      var i := ConfigPartition.EmittedByChild(policy, v, path, 0, e);
      KeptIsPublic(policy, ChildAt(v, i), PathAt(v, path, i), e);
    }
  }

  lemma SettingIsFinite(v: Js, iso: Iso)
    requires IsSetting(v)
    ensures !HasNonFinite(Normalise(v, iso))
  {
    if v.Arr? {
      var normal := NormaliseAll(v.items, iso);
      forall x | x in normal
        ensures !HasNonFinite(x)
      {
        var i :| 0 <= i < |normal| && normal[i] == x;
        assert v.items[i] in v.items;
      }
    }
  }

  /** Normalising a scalar keeps its JSON meaning, except that a number that is not finite, which
      JSON would turn into null, becomes its name. */
  lemma ScalarKeepsMeaning(v: Js, iso: Iso)
    requires IsScalar(v) && WellFormed(v)
    ensures Parsed(NormaliseScalar(v, iso)) && IsScalar(NormaliseScalar(v, iso))
    ensures Canonical.Content(NormaliseScalar(v, iso), iso)
      == if v.NonFinite? then Canonical.MStr(v.name) else Canonical.Content(v, iso)
  {
  }

  lemma {:induction false} ListKeepsMeaning(items: seq<Js>, iso: Iso)
    requires forall x :: x in items ==> IsScalar(x) && WellFormed(x) && !x.NonFinite?
    ensures Canonical.MeaningOfItems(NormaliseAll(items, iso), {PROTO}, iso) == Canonical.MeaningOfItems(items, {PROTO}, iso)
  {
    if items != [] {
      ScalarKeepsMeaning(items[0], iso);
      ListKeepsMeaning(items[1..], iso);
      assert NormaliseAll(items, iso)[1..] == NormaliseAll(items[1..], iso);
    }
  }

  /** A recorded setting is plain JSON data, and means what the configured value means. */
  lemma SettingKeepsMeaning(v: Js, iso: Iso)
    requires IsSetting(v) && WellFormed(v)
    ensures Parsed(Normalise(v, iso)) && IsSetting(Normalise(v, iso))
    ensures !HasNonFinite(v) ==> Canonical.Content(Normalise(v, iso), iso) == Canonical.Content(v, iso)
  {
    if v.Arr? {
      var normal := NormaliseAll(v.items, iso);
      forall x | x in normal
        ensures Parsed(x) && IsScalar(x)
      {
        var i :| 0 <= i < |normal| && normal[i] == x;
        assert v.items[i] in v.items;
        ScalarKeepsMeaning(v.items[i], iso);
      }
      if !HasNonFinite(v) { ListKeepsMeaning(v.items, iso); }
    } else {
      ScalarKeepsMeaning(v, iso);
    }
  }

  /** What an entry of a flattened configuration is: finite, and public under a non-empty path. */
  lemma EntryIsSound(policy: Policy, config: Js, e: Entry)
    requires e in Flatten(policy, config).entries
    ensures !HasNonFinite(e.value)
    ensures Lookup(Flatten(policy, config).entries, e.key) == Some(e.value)
    ensures SecretEntry(policy, e) <==> e.key == [] && policy.secretPath([])
  {
    var es := Emit(policy, config, []);
    FlattenContents(policy, config, e.key, Excluded(e.key, SecretName));
    LookupMember(Flatten(policy, config).entries, e.key, e.value);
    var place := ConfigPartition.EntriesAreSettings(policy, config, e.key, e.value);
    SettingIsFinite(ConfigPartition.At(config, place).value, policy.iso);
    ConfigPartition.LastKeptEmitted(es, e.key);
    KeptIsPublic(policy, config, [], Kept(e.key, e.value));
  }

  lemma {:induction false} ExcludedIsFinite(xs: seq<Excluded>)
    ensures !HasNonFinite(Arr(ExcludedList(xs)))
  {
    if xs != [] {
      ExcludedIsFinite(xs[1..]);
      assert !HasNonFinite(ExcludedJs(xs[0]));
      forall x | x in ExcludedList(xs)
        ensures !HasNonFinite(x)
      {
        if x in ExcludedList(xs[1..]) { assert !HasNonFinite(x); }
      }
    }
  }

  lemma ObjectIsFinite(es: seq<Entry>)
    requires forall e :: e in es ==> !HasNonFinite(e.value)
    ensures !HasNonFinite(Obj(es))
  {
  }

  lemma FlatIsFinite(policy: Policy, config: Js, d: Document)
    requires d.entries == Flatten(policy, config).entries
    ensures Canonicalize(ContentJs(d), policy.iso).Some?
  {
    forall e | e in d.entries
      ensures !HasNonFinite(e.value)
    {
      EntryIsSound(policy, config, e);
    }
    ObjectIsFinite(d.entries);
    ExcludedIsFinite(d.excluded);
    ObjectIsFinite(ContentJs(d).entries);
  }

  /** Hashing a document throws exactly when an entry holds a number that is not finite. */
  lemma HashThrowsIff(crypto: Crypto, iso: Iso, d: Document)
    ensures ContentHashOf(crypto, iso, d).None? <==> exists e :: e in d.entries && HasNonFinite(e.value)
  {
    ExcludedIsFinite(d.excluded);
    var es := ContentJs(d).entries;
    if forall e :: e in d.entries ==> !HasNonFinite(e.value) {
      ObjectIsFinite(d.entries);
      ObjectIsFinite(es);
    } else {
      assert HasNonFinite(Obj(d.entries)) && es[2] in es;
    }
  }

  lemma PayloadIsFinite(d: Document, iso: Iso)
    ensures Canonicalize(PayloadJs(d), iso).Some?
  {
    ObjectIsFinite(PayloadJs(d).entries);
  }

  ghost predicate SecretAtRoot(policy: Policy, flat: Collected) { policy.secretPath([]) && Lookup(flat.entries, []).Some? }

  lemma SecretEntryIff(policy: Policy, config: Js)
    ensures (exists e :: e in Flatten(policy, config).entries && SecretEntry(policy, e))
      <==> SecretAtRoot(policy, Flatten(policy, config))
  {
    var flat := Flatten(policy, config);
    forall e | e in flat.entries
      ensures SecretEntry(policy, e) <==> e.key == [] && policy.secretPath([])
      ensures Lookup(flat.entries, e.key).Some?
    {
      EntryIsSound(policy, config, e);
    }
    if SecretAtRoot(policy, flat) {
      var value := Lookup(flat.entries, []).value;
      FlattenContents(policy, config, [], Excluded([], SecretName));
      LookupMember(flat.entries, [], value);
      assert Entry([], value) in flat.entries;
    }
  }

  /** The hash is SHA-256 of the content, and the signature HMAC of the payload under the key's secret. */
  ghost predicate Sealed(crypto: Crypto, key: Key, d: Document, content: Option<Text>, payload: Option<Text>) {
    && content.Some? && d.contentHash == HASH_PREFIX + crypto.sha(content.value)
    && payload.Some? && d.signature.Some? && d.signature.value.value == crypto.hmac(key.secret, payload.value)
  }

  lemma BuiltDocument(policy: Policy, crypto: Crypto, key: Key, config: Js, environment: Text, capturedAt: int)
    ensures BuildSnapshot(policy, crypto, key, config, environment, capturedAt).Some?
    ensures var d := BuildSnapshot(policy, crypto, key, config, environment, capturedAt).value;
            && d.entries == Flatten(policy, config).entries && d.excluded == Flatten(policy, config).excluded
            && d.schema == SCHEMA && d.environment == environment && d.capturedAt == policy.iso(capturedAt)
            && ContentHashOf(crypto, policy.iso, d) == Some(d.contentHash)
            && d.signature.Some? && d.signature.value.alg == ALGORITHM && d.signature.value.keyId == key.keyId
            && SignatureValue(crypto, policy.iso, key, d) == Some(d.signature.value.value)
            && Sealed(crypto, key, d, Canonicalize(ContentJs(d), policy.iso), Canonicalize(PayloadJs(d), policy.iso))
  {
    var flat := Flatten(policy, config);
    var content := Document(SCHEMA, environment, flat.entries, flat.excluded, policy.iso(capturedAt), [], None);
    FlatIsFinite(policy, config, content);
    PayloadIsFinite(content.(contentHash := ContentHashOf(crypto, policy.iso, content).value), policy.iso);
  }

  /** Building never throws, and what was built verifies, for every configuration: the one exception
      is a policy that calls the empty path secret, whose check flattening skips at that path. */
  lemma BuildThenVerify(policy: Policy, crypto: Crypto, key: Key, config: Js, environment: Text, capturedAt: int)
    ensures BuildSnapshot(policy, crypto, key, config, environment, capturedAt).Some?
    ensures VerifyDocument(policy, crypto, key, BuildSnapshot(policy, crypto, key, config, environment, capturedAt).value)
      == if SecretAtRoot(policy, Flatten(policy, config)) then SecretPresent else Valid
  {
    BuiltDocument(policy, crypto, key, config, environment, capturedAt);
    SecretEntryIff(policy, config);
  }

  // ---------- what a valid signature pins down ----------

  lemma FieldIs(es: seq<Entry>, i: nat, iso: Iso)
    requires DistinctKeys(es) && i < |es| && es[i].key != PROTO && !es[i].value.Undefined?
    ensures es[i].key in Canonical.Fields(es, {PROTO}, iso)
    ensures Canonical.Fields(es, {PROTO}, iso)[es[i].key] == Canonical.Content(es[i].value, iso)
  {
    Canonical.FieldHolds(es, es[i], {PROTO}, iso);
  }

  /** Two objects with the same content agree on a key they list at the same position. */
  lemma SameFieldContent(es: seq<Entry>, fs: seq<Entry>, i: nat, iso: Iso)
    requires DistinctKeys(es) && DistinctKeys(fs) && i < |es| && i < |fs|
    requires es[i].key == fs[i].key != PROTO && !es[i].value.Undefined? && !fs[i].value.Undefined?
    requires Canonical.Content(Obj(es), iso) == Canonical.Content(Obj(fs), iso)
    ensures Canonical.Content(es[i].value, iso) == Canonical.Content(fs[i].value, iso)
  {
    FieldIs(es, i, iso);
    FieldIs(fs, i, iso);
  }

  lemma KeysDiffer()
    ensures |K_SCHEMA| == 6 && |K_ENVIRONMENT| == 11 && |K_ENTRIES| == 7 && |K_EXCLUDED| == 8
    ensures |K_CAPTURED_AT| == 10 && |K_CONTENT_HASH| == 11 && K_CONTENT_HASH != K_ENVIRONMENT
    ensures |K_PATH| == 4 && |K_REASON| == 6 && |PROTO| == 9
  {
    assert K_CONTENT_HASH[0] != K_ENVIRONMENT[0];
  }

  lemma {:induction false} ExcludedParsed(xs: seq<Excluded>)
    ensures Parsed(Arr(ExcludedList(xs)))
  {
    if xs != [] {
      ExcludedParsed(xs[1..]);
      KeysDiffer();
      assert Parsed(ExcludedJs(xs[0]));
    }
  }

  lemma ExcludedInjective(x: Excluded, y: Excluded, iso: Iso)
    requires Canonical.Content(ExcludedJs(x), iso) == Canonical.Content(ExcludedJs(y), iso)
    ensures x == y
  {
    KeysDiffer();
    SameFieldContent(ExcludedJs(x).entries, ExcludedJs(y).entries, 0, iso);
    SameFieldContent(ExcludedJs(x).entries, ExcludedJs(y).entries, 1, iso);
    assert |ReasonText(SecretName)| == 11 && |ReasonText(SecretValue)| == 12;
  }

  lemma {:induction false} ExcludedListInjective(xs: seq<Excluded>, ys: seq<Excluded>, iso: Iso)
    requires Canonical.MeaningOfItems(ExcludedList(xs), {PROTO}, iso) == Canonical.MeaningOfItems(ExcludedList(ys), {PROTO}, iso)
    ensures xs == ys
    decreases |xs|
  {
    var a, b := Canonical.MeaningOfItems(ExcludedList(xs), {PROTO}, iso), Canonical.MeaningOfItems(ExcludedList(ys), {PROTO}, iso);
    if xs != [] && ys != [] {
      assert ExcludedList(xs)[1..] == ExcludedList(xs[1..]) && ExcludedList(ys)[1..] == ExcludedList(ys[1..]);
      assert a[0] == b[0] && a[1..] == b[1..];
      ExcludedInjective(xs[0], ys[0], iso);
      ExcludedListInjective(xs[1..], ys[1..], iso);
      assert xs == [xs[0]] + xs[1..] && ys == [ys[0]] + ys[1..];
    }
  }

  lemma FourParsed(a: Entry, b: Entry, c: Entry, d: Entry)
    requires a.key != b.key && a.key != c.key && a.key != d.key && b.key != c.key && b.key != d.key && c.key != d.key
    requires Parsed(a.value) && Parsed(b.value) && Parsed(c.value) && Parsed(d.value)
    ensures Parsed(Obj([a, b, c, d]))
  {
  }

  lemma ContentParsed(d: Document)
    requires Parsed(Obj(d.entries))
    ensures Parsed(ContentJs(d)) && Parsed(PayloadJs(d))
  {
    KeysDiffer();
    ExcludedParsed(d.excluded);
    var x, y := ContentJs(d).entries, PayloadJs(d).entries;
    FourParsed(x[0], x[1], x[2], x[3]);
    FourParsed(y[0], y[1], y[2], y[3]);
  }

  lemma ContentPins(a: Document, b: Document, iso: Iso)
    requires Canonical.Content(ContentJs(a), iso) == Canonical.Content(ContentJs(b), iso)
    ensures a.environment == b.environment && a.excluded == b.excluded
    ensures Canonical.Content(Obj(a.entries), iso) == Canonical.Content(Obj(b.entries), iso)
  {
    KeysDiffer();
    var x, y := ContentJs(a).entries, ContentJs(b).entries;
    SameFieldContent(x, y, 1, iso);
    SameFieldContent(x, y, 2, iso);
    SameFieldContent(x, y, 3, iso);
    ExcludedListInjective(a.excluded, b.excluded, iso);
  }

  lemma PayloadPins(a: Document, b: Document, iso: Iso)
    requires Canonical.Content(PayloadJs(a), iso) == Canonical.Content(PayloadJs(b), iso)
    ensures a.capturedAt == b.capturedAt && a.contentHash == b.contentHash
  {
    KeysDiffer();
    var x, y := PayloadJs(a).entries, PayloadJs(b).entries;
    SameFieldContent(x, y, 2, iso);
    SameFieldContent(x, y, 3, iso);
  }

  /** The two hash functions do not collide on the texts of these two documents. */
  ghost predicate NoCollision(crypto: Crypto, iso: Iso, key: Key, a: Document, b: Document) {
    && (ContentHashOf(crypto, iso, a) == ContentHashOf(crypto, iso, b) ==>
          Canonicalize(ContentJs(a), iso) == Canonicalize(ContentJs(b), iso))
    && (SignatureValue(crypto, iso, key, a) == SignatureValue(crypto, iso, key, b) ==>
          Canonicalize(PayloadJs(a), iso) == Canonicalize(PayloadJs(b), iso))
  }

  /** Everything the entries mean, own `__proto__` keys included. */
  ghost function FullEntries(d: Document, iso: Iso): Canonical.Meaning { Canonical.MeaningOf(Obj(d.entries), {}, iso) }

  ghost predicate NoProtoKey(d: Document) { Canonical.ProtoFree(Obj(d.entries)) }

  /** Two documents that verify under one key with the same signature agree on the environment, the
      capture time, every exclusion and every entry, but for own `__proto__` keys: if one has none,
      the entries mean the same exactly when the other has none either. */
  lemma SignaturePinsDocument(policy: Policy, crypto: Crypto, key: Key, a: Document, b: Document)
    requires VerifyDocument(policy, crypto, key, a) == Valid && VerifyDocument(policy, crypto, key, b) == Valid
    requires a.signature == b.signature && NoCollision(crypto, policy.iso, key, a, b)
    requires Parsed(Obj(a.entries)) && Parsed(Obj(b.entries))
    ensures a.environment == b.environment && a.capturedAt == b.capturedAt && a.excluded == b.excluded
    ensures Canonical.Content(Obj(a.entries), policy.iso) == Canonical.Content(Obj(b.entries), policy.iso)
    ensures NoProtoKey(a) ==> (FullEntries(b, policy.iso) == FullEntries(a, policy.iso) <==> NoProtoKey(b))
  {
    var iso := policy.iso;
    SamePayload(crypto, iso, key, a, b);
    ContentParsed(a);
    ContentParsed(b);
    SameTextSameContent(ContentJs(a), ContentJs(b), iso);
    ContentPins(a, b, iso);
    EntriesPin(a, b, iso);
  }

  lemma SamePayload(crypto: Crypto, iso: Iso, key: Key, a: Document, b: Document)
    requires SignatureValue(crypto, iso, key, a) == SignatureValue(crypto, iso, key, b) && NoCollision(crypto, iso, key, a, b)
    requires Parsed(Obj(a.entries)) && Parsed(Obj(b.entries))
    ensures a.capturedAt == b.capturedAt && a.contentHash == b.contentHash
  {
    ContentParsed(a);
    ContentParsed(b);
    SameTextSameContent(PayloadJs(a), PayloadJs(b), iso);
    PayloadPins(a, b, iso);
  }

  lemma EntriesPin(a: Document, b: Document, iso: Iso)
    requires Parsed(Obj(a.entries)) && Parsed(Obj(b.entries))
    requires Canonical.Content(Obj(a.entries), iso) == Canonical.Content(Obj(b.entries), iso)
    ensures NoProtoKey(a) ==> (FullEntries(b, iso) == FullEntries(a, iso) <==> NoProtoKey(b))
  {
    ParsedSorts(Obj(a.entries), iso);
    ParsedSorts(Obj(b.entries), iso);
    Canonical.ProtoFreeIff(Obj(a.entries), iso);
    Canonical.ProtoFreeIff(Obj(b.entries), iso);
  }

  // ---------- the entries a signature does not see ----------

  function Planted(d: Document, x: Js): Document { d.(entries := d.entries + [Entry(PROTO, x)]) }

  ghost predicate Plantable(policy: Policy, d: Document, x: Js) {
    Parsed(Obj(d.entries)) && NoProtoKey(d) && Parsed(x) && !SecretEntry(policy, Entry(PROTO, x))
  }

  lemma PlantedParses(policy: Policy, d: Document, x: Js)
    requires Plantable(policy, d, x)
    ensures Parsed(Obj(Planted(d, x).entries)) && !NoProtoKey(Planted(d, x))
  {
    var es, all := d.entries, Planted(d, x).entries;
    forall i, j | 0 <= i < j < |all| ensures all[i].key != all[j].key {
      if j == |es| { assert es[i] in es && Parsed(es[i].value); }
    }
    assert all[|es|] in all;
  }

  lemma PlantedContent(d: Document, x: Js, iso: Iso)
    ensures Canonical.Content(Obj(Planted(d, x).entries), iso) == Canonical.Content(Obj(d.entries), iso)
    ensures Canonical.Content(ContentJs(Planted(d, x)), iso) == Canonical.Content(ContentJs(d), iso)
  {
    Canonical.HiddenField(d.entries, Entry(PROTO, x), iso);
    SameContentEntries(d, Planted(d, x), iso);
  }

  lemma SameContentEntries(d: Document, e: Document, iso: Iso)
    requires e == d.(entries := e.entries)
    requires Canonical.Content(Obj(e.entries), iso) == Canonical.Content(Obj(d.entries), iso)
    ensures Canonical.Content(ContentJs(e), iso) == Canonical.Content(ContentJs(d), iso)
  {
    var x := ContentJs(e).entries;
    ThirdOfFour(x[0], x[1], x[2], ContentJs(d).entries[2], x[3], iso);
  }

  lemma ThirdOfFour(a: Entry, b: Entry, c: Entry, c': Entry, d: Entry, iso: Iso)
    requires c.key == c'.key && c.value.Obj? && c'.value.Obj? && Canonical.Content(c.value, iso) == Canonical.Content(c'.value, iso)
    ensures Canonical.Content(Obj([a, b, c, d]), iso) == Canonical.Content(Obj([a, b, c', d]), iso)
  {
    Canonical.SameContentAfter(c, c', [d], iso);
    OneMore(b, [c] + [d], [c'] + [d], iso);
    OneMore(a, [b] + ([c] + [d]), [b] + ([c'] + [d]), iso);
    assert [a] + ([b] + ([c] + [d])) == [a, b, c, d] && [a] + ([b] + ([c'] + [d])) == [a, b, c', d];
  }

  lemma OneMore(a: Entry, es: seq<Entry>, fs: seq<Entry>, iso: Iso)
    requires Canonical.Content(Obj(es), iso) == Canonical.Content(Obj(fs), iso)
    ensures Canonical.Content(Obj([a] + es), iso) == Canonical.Content(Obj([a] + fs), iso)
  {
    Canonical.SameRestAfter(a, es, fs, iso);
  }

  /** The whole family that escapes: planting any `__proto__` entry that is not itself secret-looking
      in a document that verifies leaves one that verifies with the same signature and other entries. */
  lemma PlantedEntryEscapes(policy: Policy, crypto: Crypto, key: Key, d: Document, x: Js)
    requires VerifyDocument(policy, crypto, key, d) == Valid && Plantable(policy, d, x)
    ensures VerifyDocument(policy, crypto, key, Planted(d, x)) == Valid
    ensures Planted(d, x).signature == d.signature && Parsed(Obj(Planted(d, x).entries))
    ensures NoCollision(crypto, policy.iso, key, d, Planted(d, x))
    ensures FullEntries(Planted(d, x), policy.iso) != FullEntries(d, policy.iso)
  {
    PlantedParses(policy, d, x);
    PlantedText(policy, d, x);
    SameTextsVerify(policy, crypto, key, d, Planted(d, x));
    EntriesPin(d, Planted(d, x), policy.iso);
  }

  lemma PlantedText(policy: Policy, d: Document, x: Js)
    requires Plantable(policy, d, x)
    ensures Canonicalize(ContentJs(Planted(d, x)), policy.iso) == Canonicalize(ContentJs(d), policy.iso)
    ensures Canonical.Content(Obj(Planted(d, x).entries), policy.iso) == Canonical.Content(Obj(d.entries), policy.iso)
  {
    PlantedParses(policy, d, x);
    PlantedContent(d, x, policy.iso);
    ContentParsed(d);
    ContentParsed(Planted(d, x));
    SameTextSameContent(ContentJs(Planted(d, x)), ContentJs(d), policy.iso);
  }

  lemma SameTextsVerify(policy: Policy, crypto: Crypto, key: Key, d: Document, e: Document)
    requires VerifyDocument(policy, crypto, key, d) == Valid && e == d.(entries := e.entries)
    requires Canonicalize(ContentJs(e), policy.iso) == Canonicalize(ContentJs(d), policy.iso)
    requires forall k :: k in e.entries ==> k in d.entries || !SecretEntry(policy, k)
    ensures VerifyDocument(policy, crypto, key, e) == Valid && NoCollision(crypto, policy.iso, key, d, e)
  {
    assert PayloadJs(e) == PayloadJs(d);
    assert ContentHashOf(crypto, policy.iso, e) == ContentHashOf(crypto, policy.iso, d);
    assert SignatureValue(crypto, policy.iso, key, e) == SignatureValue(crypto, policy.iso, key, d);
  }
}
