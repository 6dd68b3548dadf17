/**
 The canonical text identifies a value's content: two values get the same text
 exactly when they mean the same JSON, up to own keys named `__proto__`.
 */
module Canonical {
  import opened Sorting
  import opened Text
  import opened Json

  // ---------- what a value means ----------

  /** A JSON value with objects as maps: key order is not part of the meaning. */
  datatype Meaning =
    | MNull
    | MBool(b: bool)
    | MNum(token: Text)
    | MStr(s: Text)
    | MArr(items: seq<Meaning>)
    | MObj(fields: map<Text, Meaning>)

  /** The JSON meaning of `v`, leaving out own keys in `hidden`. */
  ghost function MeaningOf(v: Js, hidden: set<Text>, iso: Iso): Meaning
    decreases v, 1
  {
    match v
    case Bool(b) => MBool(b)
    case Num(token) => MNum(token)
    case Str(s) => MStr(s)
    case Date(ms) => MStr(iso(ms))
    case Arr(items) => MArr(MeaningOfItems(items, hidden, iso))
    case Obj(es) => MObj(Fields(es, hidden, iso))
    case _ => MNull
  }

  ghost function MeaningOfItems(items: seq<Js>, hidden: set<Text>, iso: Iso): seq<Meaning>
    decreases items, 0
  {
    if items == [] then [] else [MeaningOf(items[0], hidden, iso)] + MeaningOfItems(items[1..], hidden, iso)
  }

  ghost function Fields(es: seq<Entry>, hidden: set<Text>, iso: Iso): map<Text, Meaning>
    decreases es, 0
  {
    if es == [] then map[]
    else
      var rest := Fields(es[1..], hidden, iso);
      if es[0].value.Undefined? || es[0].key in hidden then rest
      else rest[es[0].key := MeaningOf(es[0].value, hidden, iso)]
  }

  /** The meaning `canonicalStringify` can see. */
  ghost function Content(v: Js, iso: Iso): Meaning { MeaningOf(v, {PROTO}, iso) }

  ghost predicate Visible(e: Entry, hidden: set<Text>) { !e.value.Undefined? && e.key !in hidden }

  ghost predicate Listed(es: seq<Entry>, k: Text, hidden: set<Text>) { exists e :: e in es && e.key == k && Visible(e, hidden) }

  lemma ListedTail(es: seq<Entry>, k: Text, hidden: set<Text>)
    requires es != [] && (Listed(es[1..], k, hidden) || (es[0].key == k && Visible(es[0], hidden)))
    ensures Listed(es, k, hidden)
  {
    if Listed(es[1..], k, hidden) {
      var e :| e in es[1..] && e.key == k && Visible(e, hidden);
      assert e in es;
    } else {
      assert es[0] in es;
    }
  }

  lemma {:induction false} FieldHolds(es: seq<Entry>, e: Entry, hidden: set<Text>, iso: Iso)
    requires DistinctKeys(es) && e in es && Visible(e, hidden)
    ensures e.key in Fields(es, hidden, iso) && Fields(es, hidden, iso)[e.key] == MeaningOf(e.value, hidden, iso)
  {
    if e != es[0] {
      var i :| 0 < i < |es| && es[i] == e;
      assert es[1..][i - 1] == e;
      FieldHolds(es[1..], e, hidden, iso);
    }
  }

  lemma {:induction false} FieldIsListed(es: seq<Entry>, k: Text, hidden: set<Text>, iso: Iso)
    requires k in Fields(es, hidden, iso)
    ensures Listed(es, k, hidden)
  {
    if k in Fields(es[1..], hidden, iso) {
      FieldIsListed(es[1..], k, hidden, iso);
    }
    ListedTail(es, k, hidden);
  }

  lemma FieldsSound(es: seq<Entry>, hidden: set<Text>, iso: Iso)
    requires DistinctKeys(es)
    ensures forall e :: e in es && Visible(e, hidden) ==>
              e.key in Fields(es, hidden, iso) && Fields(es, hidden, iso)[e.key] == MeaningOf(e.value, hidden, iso)
    ensures forall k :: k in Fields(es, hidden, iso) ==> Listed(es, k, hidden)
  {
    forall e | e in es && Visible(e, hidden)
      ensures e.key in Fields(es, hidden, iso) && Fields(es, hidden, iso)[e.key] == MeaningOf(e.value, hidden, iso)
    {
      FieldHolds(es, e, hidden, iso);
    }
    forall k | k in Fields(es, hidden, iso)
      ensures Listed(es, k, hidden)
    {
      FieldIsListed(es, k, hidden, iso);
    }
  }

  // ---------- normal forms ----------

  /** `sortKeysDeep` followed by the trip through JSON text, defined directly. */
  function Normal(v: Js, iso: Iso): Js
    decreases v, 1
  {
    match v
    case Undefined => Null
    case NonFinite(_) => Null
    case Date(ms) => Str(iso(ms))
    case Arr(items) => Arr(NormalItems(items, iso))
    case Obj(es) => Obj(AssignAll(Sort(NormalEntries(es, iso), KeyLess)))
    case _ => v
  }

  function NormalItems(items: seq<Js>, iso: Iso): seq<Js>
    decreases items, 0
  {
    if items == [] then [] else [Normal(items[0], iso)] + NormalItems(items[1..], iso)
  }

  function NormalEntries(es: seq<Entry>, iso: Iso): seq<Entry>
    decreases es, 0
  {
    if es == [] then []
    else if es[0].value.Undefined? then NormalEntries(es[1..], iso)
    else [Entry(es[0].key, Normal(es[0].value, iso))] + NormalEntries(es[1..], iso)
  }

  function PlainEntry(e: Entry, iso: Iso): Entry { Entry(e.key, Plain(e.value, iso)) }

  ghost predicate AllDefined(es: seq<Entry>) { forall e :: e in es ==> !e.value.Undefined? }

  lemma {:induction false} PlainInsert(x: Entry, es: seq<Entry>, lt: (Entry, Entry) -> bool, iso: Iso)
    requires AllDefined([x] + es)
    requires forall a, b :: lt(PlainEntry(a, iso), PlainEntry(b, iso)) == lt(a, b)
    ensures PlainEntries(Insert(x, es, lt), iso) == Insert(PlainEntry(x, iso), PlainEntries(es, iso), lt)
  {
    assert x in [x] + es && forall e :: e in es ==> e in [x] + es;
    var ps := PlainEntries(es, iso);
    assert es != [] ==> es[0] in es && ps[0] == PlainEntry(es[0], iso);
    if es == [] || !lt(es[0], x) {
      assert ([x] + es)[1..] == es;
      assert PlainEntries([x] + es, iso) == [PlainEntry(x, iso)] + ps;
    } else {
      PlainInsert(x, es[1..], lt, iso);
      var t := Insert(x, es, lt);
      assert t[0] == es[0] && t[1..] == Insert(x, es[1..], lt);
      assert PlainEntries(es, iso)[1..] == PlainEntries(es[1..], iso);
    }
  }

  lemma {:induction false} PlainSort(es: seq<Entry>, lt: (Entry, Entry) -> bool, iso: Iso)
    requires AllDefined(es)
    requires forall a, b :: lt(PlainEntry(a, iso), PlainEntry(b, iso)) == lt(a, b)
    ensures PlainEntries(Sort(es, lt), iso) == Sort(PlainEntries(es, iso), lt)
  {
    if es != [] {
      PlainSort(es[1..], lt, iso);
      SortElements(es[1..], lt);
      var rest := Sort(es[1..], lt);
      forall e | e in [es[0]] + rest ensures !e.value.Undefined? {
        assert e == es[0] || e in es[1..];
      }
      PlainInsert(es[0], rest, lt, iso);
      var p := PlainEntries(es, iso);
      assert p[0] == PlainEntry(es[0], iso) && p[1..] == PlainEntries(es[1..], iso);
    }
  }

  lemma {:induction false} PlainSelect(es: seq<Entry>, p: Text -> bool, iso: Iso)
    requires AllDefined(es)
    ensures PlainEntries(Select(es, p), iso) == Select(PlainEntries(es, iso), p)
  {
    if es != [] {
      PlainSelect(es[1..], p, iso);
      var q := PlainEntries(es, iso);
      assert es[0] in es;
      assert q[0] == PlainEntry(es[0], iso) && q[1..] == PlainEntries(es[1..], iso);
      assert ([es[0]] + Select(es[1..], p))[1..] == Select(es[1..], p);
    }
  }

  function PlainHead(e: Entry, iso: Iso): seq<Entry> { if e.value.Undefined? then [] else [PlainEntry(e, iso)] }

  lemma PlainCons(e: Entry, rest: seq<Entry>, iso: Iso)
    ensures PlainEntries([e] + rest, iso) == PlainHead(e, iso) + PlainEntries(rest, iso)
  {
    assert ([e] + rest)[1..] == rest;
  }

  lemma {:induction false} PlainConcat(a: seq<Entry>, b: seq<Entry>, iso: Iso)
    ensures PlainEntries(a + b, iso) == PlainEntries(a, iso) + PlainEntries(b, iso)
  {
    if a == [] {
      assert a + b == b;
    } else {
      var e, rest := a[0], a[1..];
      calc {
        PlainEntries(a + b, iso);
        { assert a + b == [e] + (rest + b); }
        PlainEntries([e] + (rest + b), iso);
        { PlainCons(e, rest + b, iso); }
        PlainHead(e, iso) + PlainEntries(rest + b, iso);
        { PlainConcat(rest, b, iso); }
        PlainHead(e, iso) + (PlainEntries(rest, iso) + PlainEntries(b, iso));
        (PlainHead(e, iso) + PlainEntries(rest, iso)) + PlainEntries(b, iso);
        { PlainCons(e, rest, iso); assert a == [e] + rest; }
        PlainEntries(a, iso) + PlainEntries(b, iso);
      }
    }
  }

  lemma {:induction false} SelectElements(es: seq<Entry>, p: Text -> bool)
    ensures forall e :: e in Select(es, p) <==> e in es && p(e.key)
  {
    if es != [] {
      SelectElements(es[1..], p);
      assert es == [es[0]] + es[1..];
    }
  }

  lemma PlainAssignAll(es: seq<Entry>, iso: Iso)
    requires AllDefined(es)
    ensures PlainEntries(AssignAll(es), iso) == AssignAll(PlainEntries(es, iso))
  {
    var own := Select(es, NotProto);
    SelectElements(es, NotProto);
    SelectElements(own, IsIndex);
    PlainSelect(es, NotProto, iso);
    PlainSelect(own, IsIndex, iso);
    PlainSelect(own, NotIndex, iso);
    PlainSort(Select(own, IsIndex), IndexLess, iso);
    PlainConcat(Sort(Select(own, IsIndex), IndexLess), Select(own, NotIndex), iso);
  }

  lemma {:induction false} SortEntriesDefined(es: seq<Entry>, iso: Iso)
    ensures AllDefined(SortEntries(es, iso))
  {
    if es != [] { SortEntriesDefined(es[1..], iso); }
  }

  lemma PlainOfBuilt(es: seq<Entry>, iso: Iso)
    requires AllDefined(es)
    ensures PlainEntries(AssignAll(Sort(es, KeyLess)), iso) == AssignAll(Sort(PlainEntries(es, iso), KeyLess))
  {
    SortElements(es, KeyLess);
    PlainSort(es, KeyLess, iso);
    PlainAssignAll(Sort(es, KeyLess), iso);
  }

  lemma {:induction false} PlainOfSorted(v: Js, iso: Iso)
    ensures Plain(SortKeysDeep(v, iso), iso) == Normal(v, iso)
    decreases v, 1
  {
    match v
    case Arr(items) => PlainOfItems(items, iso);
    case Obj(es) =>
      PlainOfEntries(es, iso);
      SortEntriesDefined(es, iso);
      PlainOfBuilt(SortEntries(es, iso), iso);
    case _ =>
  }

  lemma {:induction false} PlainOfItems(items: seq<Js>, iso: Iso)
    ensures PlainItems(SortItems(items, iso), iso) == NormalItems(items, iso)
    decreases items, 0
  {
    if items != [] {
      PlainOfSorted(items[0], iso);
      PlainOfItems(items[1..], iso);
      assert SortItems(items, iso)[1..] == SortItems(items[1..], iso);
    }
  }

  lemma {:induction false} PlainOfEntries(es: seq<Entry>, iso: Iso)
    ensures PlainEntries(SortEntries(es, iso), iso) == NormalEntries(es, iso)
    decreases es, 0
  {
    if es != [] {
      PlainOfEntries(es[1..], iso);
      if !es[0].value.Undefined? {
        PlainOfSorted(es[0].value, iso);
        assert SortEntries(es, iso)[1..] == SortEntries(es[1..], iso);
      }
    }
  }

  // ---------- printing sees only the plain value ----------

  lemma {:induction false} PrintPlain(v: Js, k: Text, iso: Iso)
    ensures PrintTo(Plain(v, iso), k, iso) == PrintTo(v, k, iso)
    decreases v, 1
  {
    match v
    case Arr(items) => ItemsPlain(items, true, [93] + k, iso);
    case Obj(es) => EntriesPlain(es, true, [125] + k, iso);
    case _ =>
  }

  lemma {:induction false} ItemsPlain(items: seq<Js>, first: bool, k: Text, iso: Iso)
    ensures ItemsTo(PlainItems(items, iso), first, k, iso) == ItemsTo(items, first, k, iso)
    decreases items, 0
  {
    if items != [] {
      ItemsPlain(items[1..], false, k, iso);
      PrintPlain(items[0], ItemsTo(items[1..], false, k, iso), iso);
      assert PlainItems(items, iso)[1..] == PlainItems(items[1..], iso);
    }
  }

  lemma {:induction false} EntriesPlain(es: seq<Entry>, first: bool, k: Text, iso: Iso)
    ensures EntriesTo(PlainEntries(es, iso), first, k, iso) == EntriesTo(es, first, k, iso)
    decreases es, 0
  {
    if es != [] {
      EntriesPlain(es[1..], first, k, iso);
      EntriesPlain(es[1..], false, k, iso);
      if !es[0].value.Undefined? {
        PrintPlain(es[0].value, EntriesTo(es[1..], false, k, iso), iso);
        assert PlainEntries(es, iso)[1..] == PlainEntries(es[1..], iso);
      }
    }
  }

  // ---------- elements and order of a built object ----------

  lemma KeyLessIsStrict()
    ensures StrictOrder(KeyLess)
  {
    LexIsStrictOrder();
    forall x: Entry, y: Entry, z: Entry | KeyLess(x, y) && KeyLess(y, z) ensures KeyLess(x, z) {
      assert LexLess(x.key, y.key) && LexLess(y.key, z.key);
    }
  }

  lemma DistinctIsComparable(es: seq<Entry>)
    requires DistinctKeys(es)
    ensures Comparable(es, KeyLess)
  {
    forall i, j | 0 <= i < j < |es| ensures KeyLess(es[i], es[j]) || KeyLess(es[j], es[i]) {
      LexTotal(es[i].key, es[j].key);
    }
  }

  lemma {:induction false} SelectSorted(es: seq<Entry>, p: Text -> bool, lt: (Entry, Entry) -> bool)
    requires SortedBy(es, lt)
    ensures SortedBy(Select(es, p), lt)
  {
    if es != [] {
      SelectSorted(es[1..], p, lt);
      SelectElements(es[1..], p);
      var t := Select(es[1..], p);
      forall i | 0 <= i < |t| ensures lt(es[0], t[i]) {
        assert t[i] in es[1..];
      }
    }
  }

  lemma SortedIsDistinct(es: seq<Entry>)
    requires SortedBy(es, KeyLess)
    ensures DistinctKeys(es)
  {
    forall i, j | 0 <= i < j < |es| ensures es[i].key != es[j].key {
      assert KeyLess(es[i], es[j]);
      LexIrreflexive(es[i].key);
    }
  }

  lemma IndexComparable(es: seq<Entry>)
    requires DistinctKeys(es) && forall e :: e in es ==> IsIndex(e.key)
    ensures Comparable(es, IndexLess)
  {
    forall i, j | 0 <= i < j < |es| ensures IndexLess(es[i], es[j]) || IndexLess(es[j], es[i]) {
      assert es[i] in es && es[j] in es;
      NumeralRoundTrip(es[i].key);
      NumeralRoundTrip(es[j].key);
    }
  }

  /** Distinct index numbers are distinct keys. */
  lemma IndexSortedIsDistinct(es: seq<Entry>)
    requires SortedBy(es, IndexLess)
    ensures DistinctKeys(es)
  {
    forall i, j | 0 <= i < j < |es| ensures es[i].key != es[j].key {
      assert IndexLess(es[i], es[j]);
    }
  }

  lemma ConcatDistinct(a: seq<Entry>, b: seq<Entry>)
    requires DistinctKeys(a) && DistinctKeys(b)
    requires forall e :: e in a ==> IsIndex(e.key)
    requires forall e :: e in b ==> NotIndex(e.key)
    ensures DistinctKeys(a + b)
  {
    forall i, j | 0 <= i < j < |a + b| ensures (a + b)[i].key != (a + b)[j].key {
      if i < |a| && j >= |a| {
        assert a[i] in a && b[j - |a|] in b;
      }
    }
  }

  lemma OwnOrderElements(es: seq<Entry>)
    requires SortedBy(es, KeyLess)
    ensures forall e :: e in OwnOrder(es) <==> e in es
    ensures DistinctKeys(OwnOrder(es))
  {
    var low, high := Select(es, IsIndex), Select(es, NotIndex);
    SelectElements(es, IsIndex);
    SelectElements(es, NotIndex);
    SelectSorted(es, IsIndex, KeyLess);
    SelectSorted(es, NotIndex, KeyLess);
    SortedIsDistinct(low);
    SortedIsDistinct(high);
    SortElements(low, IndexLess);
    IndexComparable(low);
    SortSorted(low, IndexLess);
    IndexSortedIsDistinct(Sort(low, IndexLess));
    ConcatDistinct(Sort(low, IndexLess), high);
  }

  lemma BuiltElements(es: seq<Entry>)
    requires DistinctKeys(es)
    ensures forall e :: e in AssignAll(Sort(es, KeyLess)) <==> e in es && e.key != PROTO
    ensures DistinctKeys(AssignAll(Sort(es, KeyLess)))
  {
    KeyLessIsStrict();
    DistinctIsComparable(es);
    SortElements(es, KeyLess);
    SortSorted(es, KeyLess);
    SelectElements(Sort(es, KeyLess), NotProto);
    SelectSorted(Sort(es, KeyLess), NotProto, KeyLess);
    OwnOrderElements(Select(Sort(es, KeyLess), NotProto));
  }

  /** The built object depends only on the pairs whose key is not `__proto__`. */
  lemma BuiltCanonical(es: seq<Entry>, fs: seq<Entry>)
    requires DistinctKeys(es) && DistinctKeys(fs)
    requires forall e: Entry :: e.key != PROTO ==> (e in es <==> e in fs)
    ensures AssignAll(Sort(es, KeyLess)) == AssignAll(Sort(fs, KeyLess))
  {
    KeyLessIsStrict();
    DistinctIsComparable(es);
    DistinctIsComparable(fs);
    SortElements(es, KeyLess);
    SortElements(fs, KeyLess);
    SortSorted(es, KeyLess);
    SortSorted(fs, KeyLess);
    var a, b := Select(Sort(es, KeyLess), NotProto), Select(Sort(fs, KeyLess), NotProto);
    SelectElements(Sort(es, KeyLess), NotProto);
    SelectElements(Sort(fs, KeyLess), NotProto);
    SelectSorted(Sort(es, KeyLess), NotProto, KeyLess);
    SelectSorted(Sort(fs, KeyLess), NotProto, KeyLess);
    SortedUnique(a, b, KeyLess);
  }

  ghost predicate NormalisedFrom(es: seq<Entry>, e: Entry, iso: Iso) {
    exists d :: d in es && !d.value.Undefined? && e == Entry(d.key, Normal(d.value, iso))
  }

  lemma {:induction false} NormalEntriesElements(es: seq<Entry>, iso: Iso)
    ensures forall e :: e in NormalEntries(es, iso) <==> NormalisedFrom(es, e, iso)
    ensures DistinctKeys(es) ==> DistinctKeys(NormalEntries(es, iso))
  {
    if es != [] {
      NormalEntriesElements(es[1..], iso);
      var ns := NormalEntries(es[1..], iso);
      assert es == [es[0]] + es[1..];
      if DistinctKeys(es) && !es[0].value.Undefined? {
        forall i | 0 <= i < |ns| ensures ns[i].key != es[0].key {
          assert ns[i] in ns;
          var d :| d in es[1..] && ns[i] == Entry(d.key, Normal(d.value, iso));
        }
      }
    }
  }

  // ---------- the content is preserved and determines the text ----------

  lemma {:induction false} NormalKeepsContent(v: Js, iso: Iso)
    requires WellFormed(v)
    ensures MeaningOf(Normal(v, iso), {}, iso) == Content(v, iso)
    ensures Printable(Normal(v, iso))
    decreases v, 1
  {
    match v
    case Arr(items) => NormalItemsKeepContent(items, iso);
    case Obj(es) => NormalFields(es, iso);
    case _ =>
  }

  lemma {:induction false} NormalItemsKeepContent(items: seq<Js>, iso: Iso)
    requires forall x :: x in items ==> WellFormed(x)
    ensures MeaningOfItems(NormalItems(items, iso), {}, iso) == MeaningOfItems(items, {PROTO}, iso)
    ensures forall x :: x in NormalItems(items, iso) ==> Printable(x)
    decreases items, 0
  {
    if items != [] {
      NormalKeepsContent(items[0], iso);
      NormalItemsKeepContent(items[1..], iso);
      assert NormalItems(items, iso)[1..] == NormalItems(items[1..], iso);
    }
  }

  lemma {:induction false} NormalFields(es: seq<Entry>, iso: Iso)
    requires DistinctKeys(es) && forall e :: e in es ==> WellFormed(e.value)
    ensures Fields(AssignAll(Sort(NormalEntries(es, iso), KeyLess)), {}, iso) == Fields(es, {PROTO}, iso)
    ensures forall e :: e in AssignAll(Sort(NormalEntries(es, iso), KeyLess)) ==> Printable(e.value)
    decreases es, 0
  {
    forall d | d in es
      ensures MeaningOf(Normal(d.value, iso), {}, iso) == Content(d.value, iso) && Printable(Normal(d.value, iso))
    {
      NormalKeepsContent(d.value, iso);
    }
    NormalEntriesElements(es, iso);
    BuiltElements(NormalEntries(es, iso));
    SameFields(es, AssignAll(Sort(NormalEntries(es, iso), KeyLess)), iso);
  }

  /** An object holding the normal forms of the visible properties has the same fields. */
  lemma {:induction false} SameFields(es: seq<Entry>, built: seq<Entry>, iso: Iso)
    requires DistinctKeys(es) && DistinctKeys(built)
    requires forall d :: d in es ==> MeaningOf(Normal(d.value, iso), {}, iso) == Content(d.value, iso)
    requires forall e :: e in built <==>
               e.key != PROTO && NormalisedFrom(es, e, iso)
    ensures Fields(built, {}, iso) == Fields(es, {PROTO}, iso)
  {
    FieldsSound(es, {PROTO}, iso);
    FieldsSound(built, {}, iso);
    var f, g := Fields(built, {}, iso), Fields(es, {PROTO}, iso);
    forall k | k in f
      ensures k in g && g[k] == f[k]
    {
      assert Listed(built, k, {});
      BuiltFieldIsListed(es, built, k, iso);
    }
    forall k | k in g
      ensures k in f
    {
      assert Listed(es, k, {PROTO});
      ListedFieldIsBuilt(es, built, k, iso);
    }
    assert f.Keys == g.Keys;
  }

  /** Two listings of fields agree on `k`. */
  ghost predicate SamePlace(es: seq<Entry>, built: seq<Entry>, d: Entry, e: Entry, iso: Iso) {
    d in es && e in built && Visible(d, {PROTO}) && Visible(e, {}) && e == Entry(d.key, Normal(d.value, iso))
  }

  lemma BuiltFieldIsListed(es: seq<Entry>, built: seq<Entry>, k: Text, iso: Iso)
    requires Listed(built, k, {}) && forall e :: e in built <==> e.key != PROTO && NormalisedFrom(es, e, iso)
    ensures exists d, e :: SamePlace(es, built, d, e, iso) && e.key == k
  {
    var e :| e in built && e.key == k && Visible(e, {});
    var d :| d in es && !d.value.Undefined? && e == Entry(d.key, Normal(d.value, iso));
    assert SamePlace(es, built, d, e, iso);
  }

  lemma ListedFieldIsBuilt(es: seq<Entry>, built: seq<Entry>, k: Text, iso: Iso)
    requires Listed(es, k, {PROTO}) && forall e :: e in built <==> e.key != PROTO && NormalisedFrom(es, e, iso)
    ensures exists d, e :: SamePlace(es, built, d, e, iso) && e.key == k
  {
    var d :| d in es && d.key == k && Visible(d, {PROTO});
    var e := Entry(d.key, Normal(d.value, iso));
    assert NormalisedFrom(es, e, iso);
    assert SamePlace(es, built, d, e, iso);
  }

  lemma {:induction false} ContentDeterminesNormal(v: Js, w: Js, iso: Iso)
    requires WellFormed(v) && WellFormed(w)
    requires Content(v, iso) == Content(w, iso)
    ensures Normal(v, iso) == Normal(w, iso)
    decreases v, 1
  {
    match v
    case Arr(items) => ContentDeterminesItems(items, w.items, iso);
    case Obj(es) => ContentDeterminesEntries(es, w.entries, iso);
    case _ =>
  }

  lemma {:induction false} ContentDeterminesItems(a: seq<Js>, b: seq<Js>, iso: Iso)
    requires forall x :: x in a ==> WellFormed(x)
    requires forall x :: x in b ==> WellFormed(x)
    requires MeaningOfItems(a, {PROTO}, iso) == MeaningOfItems(b, {PROTO}, iso)
    ensures NormalItems(a, iso) == NormalItems(b, iso)
    decreases a, 0
  {
    if a != [] {
      var ma, mb := MeaningOfItems(a, {PROTO}, iso), MeaningOfItems(b, {PROTO}, iso);
      assert b != [] && ma[0] == mb[0] && ma[1..] == mb[1..];
      assert ma[1..] == MeaningOfItems(a[1..], {PROTO}, iso);
      assert mb[1..] == MeaningOfItems(b[1..], {PROTO}, iso);
      ContentDeterminesNormal(a[0], b[0], iso);
      ContentDeterminesItems(a[1..], b[1..], iso);
    }
  }

  lemma {:induction false} ContentDeterminesEntries(es: seq<Entry>, fs: seq<Entry>, iso: Iso)
    requires DistinctKeys(es) && forall e :: e in es ==> WellFormed(e.value)
    requires DistinctKeys(fs) && forall e :: e in fs ==> WellFormed(e.value)
    requires Fields(es, {PROTO}, iso) == Fields(fs, {PROTO}, iso)
    ensures AssignAll(Sort(NormalEntries(es, iso), KeyLess)) == AssignAll(Sort(NormalEntries(fs, iso), KeyLess))
    decreases es, 0
  {
    var ns, ms := NormalEntries(es, iso), NormalEntries(fs, iso);
    NormalEntriesElements(es, iso);
    NormalEntriesElements(fs, iso);
    FieldsSound(es, {PROTO}, iso);
    FieldsSound(fs, {PROTO}, iso);
    forall e: Entry | e.key != PROTO ensures e in ns <==> e in ms {
      if e in ns {
        var d :| d in es && !d.value.Undefined? && e == Entry(d.key, Normal(d.value, iso));
        assert Visible(d, {PROTO}) && Listed(fs, d.key, {PROTO});
        var d' :| d' in fs && d'.key == d.key && Visible(d', {PROTO});
        ContentDeterminesNormal(d.value, d'.value, iso);
      }
      if e in ms {
        var d' :| d' in fs && !d'.value.Undefined? && e == Entry(d'.key, Normal(d'.value, iso));
        assert Visible(d', {PROTO}) && Listed(es, d'.key, {PROTO});
        var d :| d in es && d.key == d'.key && Visible(d, {PROTO});
        ContentDeterminesNormal(d.value, d'.value, iso);
      }
    }
    BuiltCanonical(ns, ms);
  }

  lemma CanonicalTextIsNormalText(v: Js, iso: Iso)
    requires !v.Undefined?
    ensures CanonicalStringify(v, iso) == Some(PrintTo(Normal(v, iso), [], iso))
  {
    PlainOfSorted(v, iso);
    PrintPlain(SortKeysDeep(v, iso), [], iso);
  }

  lemma {:induction false} PlainNormal(v: Js, iso: Iso)
    ensures Plain(Normal(v, iso), iso) == Normal(v, iso)
  {
    PlainOfSorted(v, iso);
    PlainTwice(SortKeysDeep(v, iso), iso);
  }

  lemma {:induction false} PlainTwice(v: Js, iso: Iso)
    ensures Plain(Plain(v, iso), iso) == Plain(v, iso)
    decreases v, 1
  {
    match v
    case Arr(items) => PlainItemsTwice(items, iso);
    case Obj(es) => PlainEntriesTwice(es, iso);
    case _ =>
  }

  lemma {:induction false} PlainItemsTwice(items: seq<Js>, iso: Iso)
    ensures PlainItems(PlainItems(items, iso), iso) == PlainItems(items, iso)
    decreases items, 0
  {
    if items != [] {
      PlainTwice(items[0], iso);
      PlainItemsTwice(items[1..], iso);
      assert PlainItems(items, iso)[1..] == PlainItems(items[1..], iso);
    }
  }

  lemma {:induction false} PlainEntriesTwice(es: seq<Entry>, iso: Iso)
    ensures PlainEntries(PlainEntries(es, iso), iso) == PlainEntries(es, iso)
    decreases es, 0
  {
    if es != [] {
      PlainEntriesTwice(es[1..], iso);
      if !es[0].value.Undefined? {
        PlainTwice(es[0].value, iso);
        assert PlainEntries(es, iso)[1..] == PlainEntries(es[1..], iso);
      }
    }
  }

  /** The canonical text is valid JSON for the normal form, with nothing left over. */
  lemma CanonicalParses(v: Js, iso: Iso)
    requires WellFormed(v) && !v.Undefined?
    ensures CanonicalStringify(v, iso).Some?
    ensures ParseValue(CanonicalStringify(v, iso).value) == Done(Normal(v, iso), [])
  {
    CanonicalTextIsNormalText(v, iso);
    NormalKeepsContent(v, iso);
    PrintParse(Normal(v, iso), [], iso);
    PlainNormal(v, iso);
  }

  // ---------- the order of the keys ----------

  /** Key `a` is printed before key `b`: array indices first and by number, the others by the first
      code unit in which they differ. */
  ghost predicate Precedes(a: Text, b: Text) {
    if IsIndex(a) then !IsIndex(b) || NumeralValue(a) < NumeralValue(b)
    else !IsIndex(b) && exists k: nat :: SmallerAt(a, b, k)
  }

  ghost predicate InOrder(es: seq<Entry>) { forall i, j :: 0 <= i < j < |es| ==> Precedes(es[i].key, es[j].key) }

  /** Every object inside `v` lists its keys in order. */
  ghost predicate KeysInOrder(v: Js) {
    match v
    case Arr(items) => forall x :: x in items ==> KeysInOrder(x)
    case Obj(es) => InOrder(es) && forall e :: e in es ==> KeysInOrder(e.value)
    case _ => true
  }

  lemma LowThenHigh(low: seq<Entry>, high: seq<Entry>)
    requires SortedBy(low, IndexLess) && SortedBy(high, KeyLess)
    requires forall e :: e in low ==> IsIndex(e.key)
    requires forall e :: e in high ==> !IsIndex(e.key)
    ensures InOrder(low + high)
  {
    var es := low + high;
    forall i, j | 0 <= i < j < |es| ensures Precedes(es[i].key, es[j].key) {
      assert i < |low| ==> es[i] in low;
      assert i >= |low| ==> es[i] in high;
      assert j < |low| ==> es[j] in low;
      assert j >= |low| ==> es[j] in high;
      if i >= |low| {
        assert KeyLess(high[i - |low|], high[j - |low|]);
        LexMeaning(es[i].key, es[j].key);
      }
    }
  }

  lemma BuiltInOrder(es: seq<Entry>)
    requires DistinctKeys(es)
    ensures InOrder(AssignAll(Sort(es, KeyLess)))
  {
    KeyLessIsStrict();
    DistinctIsComparable(es);
    SortSorted(es, KeyLess);
    SelectSorted(Sort(es, KeyLess), NotProto, KeyLess);
    var own := Select(Sort(es, KeyLess), NotProto);
    var low, high := Select(own, IsIndex), Select(own, NotIndex);
    SelectElements(own, IsIndex);
    SelectElements(own, NotIndex);
    SelectSorted(own, IsIndex, KeyLess);
    SelectSorted(own, NotIndex, KeyLess);
    SortedIsDistinct(low);
    IndexComparable(low);
    SortElements(low, IndexLess);
    SortSorted(low, IndexLess);
    LowThenHigh(Sort(low, IndexLess), high);
  }

  lemma {:induction false} NormalInOrder(v: Js, iso: Iso)
    requires WellFormed(v)
    ensures KeysInOrder(Normal(v, iso))
    decreases v, 1
  {
    match v
    case Arr(items) => NormalItemsInOrder(items, iso);
    case Obj(es) =>
      NormalEntriesElements(es, iso);
      BuiltElements(NormalEntries(es, iso));
      BuiltInOrder(NormalEntries(es, iso));
      forall e | e in AssignAll(Sort(NormalEntries(es, iso), KeyLess)) ensures KeysInOrder(e.value) {
        assert NormalisedFrom(es, e, iso);
        var d :| d in es && !d.value.Undefined? && e == Entry(d.key, Normal(d.value, iso));
        NormalInOrder(d.value, iso);
      }
    case _ =>
  }

  lemma {:induction false} NormalItemsInOrder(items: seq<Js>, iso: Iso)
    requires forall x :: x in items ==> WellFormed(x)
    ensures forall x :: x in NormalItems(items, iso) ==> KeysInOrder(x)
    decreases items, 0
  {
    if items != [] {
      NormalInOrder(items[0], iso);
      NormalItemsInOrder(items[1..], iso);
    }
  }

  /** The canonical text, read back, lists the keys of every object in ascending order. */
  lemma CanonicalKeysInOrder(v: Js, iso: Iso)
    requires WellFormed(v) && !v.Undefined?
    ensures CanonicalStringify(v, iso).Some?
    ensures var p := ParseValue(CanonicalStringify(v, iso).value); p.Done? && p.rest == [] && KeysInOrder(p.value)
  {
    CanonicalParses(v, iso);
    NormalInOrder(v, iso);
  }

  /** MAIN: two values have the same canonical text exactly when they have the same content. */
  lemma CanonicalTextIdentifiesContent(v: Js, w: Js, iso: Iso)
    requires WellFormed(v) && WellFormed(w) && !v.Undefined? && !w.Undefined?
    ensures CanonicalStringify(v, iso) == CanonicalStringify(w, iso) <==> Content(v, iso) == Content(w, iso)
  {
    CanonicalTextIsNormalText(v, iso);
    CanonicalTextIsNormalText(w, iso);
    if CanonicalStringify(v, iso) == CanonicalStringify(w, iso) {
      CanonicalParses(v, iso);
      CanonicalParses(w, iso);
      NormalKeepsContent(v, iso);
      NormalKeepsContent(w, iso);
    }
    if Content(v, iso) == Content(w, iso) {
      ContentDeterminesNormal(v, w, iso);
    }
  }

  // ---------- storage, key order, undefined keys and dates do not change the text ----------

  lemma {:induction false} NormalOfPlain(v: Js, iso: Iso)
    ensures Normal(Plain(v, iso), iso) == Normal(v, iso)
    decreases v, 1
  {
    match v
    case Arr(items) => NormalOfPlainItems(items, iso);
    case Obj(es) => NormalOfPlainEntries(es, iso);
    case _ =>
  }

  lemma {:induction false} NormalOfPlainItems(items: seq<Js>, iso: Iso)
    ensures NormalItems(PlainItems(items, iso), iso) == NormalItems(items, iso)
    decreases items, 0
  {
    if items != [] {
      NormalOfPlain(items[0], iso);
      NormalOfPlainItems(items[1..], iso);
      assert PlainItems(items, iso)[1..] == PlainItems(items[1..], iso);
    }
  }

  lemma {:induction false} NormalOfPlainEntries(es: seq<Entry>, iso: Iso)
    ensures NormalEntries(PlainEntries(es, iso), iso) == NormalEntries(es, iso)
    decreases es, 0
  {
    if es != [] {
      NormalOfPlainEntries(es[1..], iso);
      if !es[0].value.Undefined? {
        NormalOfPlain(es[0].value, iso);
        assert PlainEntries(es, iso)[1..] == PlainEntries(es[1..], iso);
      }
    }
  }

  /** A value written to a JSON column and read back has the text it had when written. */
  lemma StorageKeepsText(v: Js, iso: Iso)
    requires !v.Undefined?
    ensures CanonicalStringify(Plain(v, iso), iso) == CanonicalStringify(v, iso)
  {
    NormalOfPlain(v, iso);
    CanonicalTextIsNormalText(v, iso);
    CanonicalTextIsNormalText(Plain(v, iso), iso);
  }

  /** Equal up to key order, undefined-valued keys, and dates given as ISO strings. */
  ghost predicate Equivalent(v: Js, w: Js, iso: Iso)
    decreases v
  {
    match (v, w)
    case (Arr(a), Arr(b)) => |a| == |b| && forall i :: 0 <= i < |a| ==> Equivalent(a[i], b[i], iso)
    case (Obj(es), Obj(fs)) =>
      && (forall e :: e in es && !e.value.Undefined? ==>
            exists f :: f in fs && f.key == e.key && Equivalent(e.value, f.value, iso))
      && (forall f :: f in fs && !f.value.Undefined? ==> exists e :: e in es && e.key == f.key && !e.value.Undefined?)
    case (Date(ms), Str(s)) => s == iso(ms)
    case (Str(s), Date(ms)) => s == iso(ms)
    case _ => v == w
  }

  lemma {:induction false} EquivalentContent(v: Js, w: Js, iso: Iso)
    requires WellFormed(v) && WellFormed(w) && Equivalent(v, w, iso)
    ensures Content(v, iso) == Content(w, iso)
    ensures v.Undefined? <==> w.Undefined?
    decreases v, 1
  {
    match (v, w)
    case (Arr(a), Arr(b)) => EquivalentItems(a, b, iso);
    case (Obj(es), Obj(fs)) => EquivalentFields(es, fs, iso);
    case _ =>
  }

  lemma {:induction false} EquivalentItems(a: seq<Js>, b: seq<Js>, iso: Iso)
    requires forall x :: x in a ==> WellFormed(x)
    requires forall x :: x in b ==> WellFormed(x)
    requires |a| == |b| && forall i :: 0 <= i < |a| ==> Equivalent(a[i], b[i], iso)
    ensures MeaningOfItems(a, {PROTO}, iso) == MeaningOfItems(b, {PROTO}, iso)
    decreases a, 0
  {
    if a != [] {
      EquivalentContent(a[0], b[0], iso);
      EquivalentItems(a[1..], b[1..], iso);
    }
  }

  lemma {:induction false} EquivalentFields(es: seq<Entry>, fs: seq<Entry>, iso: Iso)
    requires DistinctKeys(es) && forall e :: e in es ==> WellFormed(e.value)
    requires DistinctKeys(fs) && forall e :: e in fs ==> WellFormed(e.value)
    requires forall e :: e in es && !e.value.Undefined? ==>
               exists f :: f in fs && f.key == e.key && Equivalent(e.value, f.value, iso)
    requires forall f :: f in fs && !f.value.Undefined? ==> exists e :: e in es && e.key == f.key && !e.value.Undefined?
    ensures Fields(es, {PROTO}, iso) == Fields(fs, {PROTO}, iso)
    decreases es, 0
  {
    FieldsSound(es, {PROTO}, iso);
    FieldsSound(fs, {PROTO}, iso);
    var m, n := Fields(es, {PROTO}, iso), Fields(fs, {PROTO}, iso);
    forall k | k in m ensures k in n && n[k] == m[k] {
      assert Listed(es, k, {PROTO});
      var e :| e in es && e.key == k && Visible(e, {PROTO});
      var f :| f in fs && f.key == k && Equivalent(e.value, f.value, iso);
      EquivalentContent(e.value, f.value, iso);
      assert Visible(f, {PROTO});
    }
    forall k | k in n ensures k in m {
      assert Listed(fs, k, {PROTO});
      var f :| f in fs && f.key == k && Visible(f, {PROTO});
      var e :| e in es && e.key == k && !e.value.Undefined?;
      assert Visible(e, {PROTO});
    }
    assert m.Keys == n.Keys;
  }

  lemma EquivalentSameText(v: Js, w: Js, iso: Iso)
    requires WellFormed(v) && WellFormed(w) && Equivalent(v, w, iso)
    ensures CanonicalStringify(v, iso) == CanonicalStringify(w, iso)
  {
    EquivalentContent(v, w, iso);
    if !v.Undefined? { CanonicalTextIdentifiesContent(v, w, iso); }
  }

  // ---------- exactly when the text loses nothing ----------

  /** No object inside `v` has a defined own property named `__proto__`. */
  ghost predicate ProtoFree(v: Js) {
    match v
    case Arr(items) => forall x :: x in items ==> ProtoFree(x)
    case Obj(es) => forall e :: e in es && !e.value.Undefined? ==> e.key != PROTO && ProtoFree(e.value)
    case _ => true
  }

  lemma {:induction false} ProtoFreeIff(v: Js, iso: Iso)
    requires WellFormed(v)
    ensures MeaningOf(v, {}, iso) == Content(v, iso) <==> ProtoFree(v)
    decreases v, 1
  {
    match v
    case Arr(items) => ProtoFreeItems(items, iso);
    case Obj(es) => ProtoFreeFields(es, iso);
    case _ =>
  }

  lemma {:induction false} ProtoFreeItems(items: seq<Js>, iso: Iso)
    requires forall x :: x in items ==> WellFormed(x)
    ensures MeaningOfItems(items, {}, iso) == MeaningOfItems(items, {PROTO}, iso) <==> forall x :: x in items ==> ProtoFree(x)
    decreases items, 0
  {
    if items != [] {
      ProtoFreeIff(items[0], iso);
      ProtoFreeItems(items[1..], iso);
      var m, n := MeaningOfItems(items, {}, iso), MeaningOfItems(items, {PROTO}, iso);
      assert m[1..] == MeaningOfItems(items[1..], {}, iso) && n[1..] == MeaningOfItems(items[1..], {PROTO}, iso);
      assert m == [m[0]] + m[1..] && n == [n[0]] + n[1..];
      assert items == [items[0]] + items[1..];
    }
  }

  lemma {:induction false} ProtoFreeFields(es: seq<Entry>, iso: Iso)
    requires DistinctKeys(es) && forall e :: e in es ==> WellFormed(e.value)
    ensures Fields(es, {}, iso) == Fields(es, {PROTO}, iso) <==>
              forall e :: e in es && !e.value.Undefined? ==> e.key != PROTO && ProtoFree(e.value)
    decreases es, 0
  {
    FieldsSound(es, {}, iso);
    FieldsSound(es, {PROTO}, iso);
    var m, n := Fields(es, {}, iso), Fields(es, {PROTO}, iso);
    forall e | e in es ensures MeaningOf(e.value, {}, iso) == Content(e.value, iso) <==> ProtoFree(e.value) {
      ProtoFreeIff(e.value, iso);
    }
    if m == n {
      forall e | e in es && !e.value.Undefined? ensures e.key != PROTO && ProtoFree(e.value) {
        assert Visible(e, {}) && e.key in n;
        var d :| d in es && d.key == e.key && Visible(d, {PROTO});
        assert d == e;
      }
    }
    if forall e :: e in es && !e.value.Undefined? ==> e.key != PROTO && ProtoFree(e.value) {
      forall k | k in m ensures k in n && n[k] == m[k] {
        var e :| e in es && e.key == k && Visible(e, {});
        assert Visible(e, {PROTO});
      }
      forall k | k in n ensures k in m {
        var e :| e in es && e.key == k && Visible(e, {PROTO});
        assert Visible(e, {});
      }
      assert m.Keys == n.Keys;
    }
  }

  /** The canonical text, read back, means what was written exactly when no own key is `__proto__`. */
  lemma CanonicalTextLossless(v: Js, iso: Iso)
    requires WellFormed(v) && !v.Undefined?
    ensures CanonicalStringify(v, iso).Some?
    ensures var p := ParseValue(CanonicalStringify(v, iso).value);
            p.Done? && (MeaningOf(p.value, {}, iso) == MeaningOf(v, {}, iso) <==> ProtoFree(v))
  {
    CanonicalParses(v, iso);
    NormalKeepsContent(v, iso);
    ProtoFreeIff(v, iso);
  }

  /** A value that differs in meaning but not in text: `{"__proto__": 1}` against `{}`. */
  lemma ProtoKeyIsLost(iso: Iso)
    ensures var v, w := Obj([Entry(PROTO, Num([49]))]), Obj([]);
            && WellFormed(v) && WellFormed(w)
            && MeaningOf(v, {}, iso) != MeaningOf(w, {}, iso)
            && CanonicalStringify(v, iso) == CanonicalStringify(w, iso)
  {
    var es := [Entry(PROTO, Num([49]))];
    FieldsSound(es, {}, iso);
    FieldsSound(es, {PROTO}, iso);
    assert es[0] in es && Visible(es[0], {});
    assert Fields(es, {PROTO}, iso) == map[];
    assert WellFormed(Obj(es)) && WellFormed(Obj([]));
    CanonicalTextIdentifiesContent(Obj(es), Obj([]), iso);
  }

  lemma {:induction false} HiddenField(es: seq<Entry>, e: Entry, iso: Iso)
    requires e.key == PROTO
    ensures Fields(es + [e], {PROTO}, iso) == Fields(es, {PROTO}, iso)
  {
    if es == [] {
      assert ([] + [e])[1..] == [];
    } else {
      assert (es + [e])[0] == es[0] && (es + [e])[1..] == es[1..] + [e];
      HiddenField(es[1..], e, iso);
    }
  }

  /** Fields are read off one property at a time. */
  lemma SameContentAfter(a: Entry, b: Entry, rest: seq<Entry>, iso: Iso)
    requires a.key == b.key && a.value.Undefined? == b.value.Undefined? && Content(a.value, iso) == Content(b.value, iso)
    ensures Fields([a] + rest, {PROTO}, iso) == Fields([b] + rest, {PROTO}, iso)
  {
    assert ([a] + rest)[1..] == rest && ([b] + rest)[1..] == rest;
  }

  lemma SameRestAfter(a: Entry, x: seq<Entry>, y: seq<Entry>, iso: Iso)
    requires Fields(x, {PROTO}, iso) == Fields(y, {PROTO}, iso)
    ensures Fields([a] + x, {PROTO}, iso) == Fields([a] + y, {PROTO}, iso)
  {
    assert ([a] + x)[1..] == x && ([a] + y)[1..] == y;
  }
}
