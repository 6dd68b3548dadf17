/**
 JavaScript values, `JSON.stringify`, and the canonical form of the audit chain
 (`canonicalStringify` and `sortKeysDeep`).

 `iso` stands for `Date.prototype.toISOString`. A finite number is represented by
 the text the runtime prints for it.
 */
module Json {
  import opened Sorting
  import opened Text

  /** `Undefined` also stands for functions and symbols: values without a JSON form. */
  datatype Js =
    | Undefined
    | Null
    | Bool(b: bool)
    | Num(token: Text)
    | NonFinite(name: Text)
    | Str(s: Text)
    | Date(ms: int)
    | Arr(items: seq<Js>)
    | Obj(entries: seq<Entry>)

  /** One own property; an object lists its properties in enumeration order. */
  datatype Entry = Entry(key: Text, value: Js)

  type Iso = int -> Text

  const PROTO: Text := Ascii("__proto__")

  predicate IsNumberChar(u: CodeUnit) { IsDigit(u) || u == 43 || u == 45 || u == 46 || u == 101 }

  predicate IsNumberToken(t: Text) {
    t != [] && (IsDigit(t[0]) || t[0] == 45) && forall i :: 0 <= i < |t| ==> IsNumberChar(t[i])
  }

  ghost predicate DistinctKeys(es: seq<Entry>) {
    forall i, j :: 0 <= i < j < |es| ==> es[i].key != es[j].key
  }

  /** What every runtime value satisfies: number tokens are numbers, keys do not repeat. */
  ghost predicate WellFormed(v: Js) {
    match v
    case Num(token) => IsNumberToken(token)
    case Arr(items) => forall x :: x in items ==> WellFormed(x)
    case Obj(es) => DistinctKeys(es) && forall e :: e in es ==> WellFormed(e.value)
    case _ => true
  }

  /** The part of `WellFormed` that printing needs. */
  ghost predicate Printable(v: Js) {
    match v
    case Num(token) => IsNumberToken(token)
    case Arr(items) => forall x :: x in items ==> Printable(x)
    case Obj(es) => forall e :: e in es ==> Printable(e.value)
    case _ => true
  }

  // ---------- sortKeysDeep ----------

  predicate KeyLess(a: Entry, b: Entry) { LexLess(a.key, b.key) }

  /** An array index: such keys are enumerated first, in numeric order. */
  predicate IsIndex(k: Text) { IsNumeral(k) && NumeralValue(k) <= 4294967294 }

  function IndexOf(k: Text): nat { if IsIndex(k) then NumeralValue(k) else 0 }

  predicate IndexLess(a: Entry, b: Entry) { IndexOf(a.key) < IndexOf(b.key) }

  function Select(es: seq<Entry>, p: Text -> bool): seq<Entry> {
    if es == [] then []
    else if p(es[0].key) then [es[0]] + Select(es[1..], p)
    else Select(es[1..], p)
  }

  predicate NotProto(k: Text) { k != PROTO }
  predicate NotIndex(k: Text) { !IsIndex(k) }

  /** Enumeration order of an object whose own properties were created in order `es`. */
  function OwnOrder(es: seq<Entry>): seq<Entry> {
    Sort(Select(es, IsIndex), IndexLess) + Select(es, NotIndex)
  }

  /** The object `sorted` after `sorted[key] = value` for every pair: assigning to
      `__proto__` invokes a setter and creates no own property. */
  function AssignAll(es: seq<Entry>): seq<Entry> {
    OwnOrder(Select(es, NotProto))
  }

  function SortKeysDeep(v: Js, iso: Iso): Js
    decreases v, 1
  {
    match v
    case Arr(items) => Arr(SortItems(items, iso))
    case Date(ms) => Str(iso(ms))
    case Obj(es) => Obj(AssignAll(Sort(SortEntries(es, iso), KeyLess)))
    case _ => v
  }

  function SortItems(items: seq<Js>, iso: Iso): seq<Js>
    decreases items, 0
  {
    if items == [] then [] else [SortKeysDeep(items[0], iso)] + SortItems(items[1..], iso)
  }

  /** The defined properties with their values sorted; sorting looks at keys only. */
  function SortEntries(es: seq<Entry>, iso: Iso): seq<Entry>
    decreases es, 0
  {
    if es == [] then []
    else if es[0].value.Undefined? then SortEntries(es[1..], iso)
    else [Entry(es[0].key, SortKeysDeep(es[0].value, iso))] + SortEntries(es[1..], iso)
  }

  // ---------- JSON.stringify ----------

  function Hex4(u: CodeUnit): (t: Text)
    ensures |t| == 4
  {
    [HexDigit(u / 16 / 16 / 16), HexDigit(u / 16 / 16 % 16), HexDigit(u / 16 % 16), HexDigit(u % 16)]
  }

  /** Section 7 of RFC 8259, with the escapes `JSON.stringify` chooses. */
  function EscapeUnit(u: CodeUnit): Text {
    if u == 34 || u == 92 then [92, u]
    else if u == 8 then [92, 98]
    else if u == 9 then [92, 116]
    else if u == 10 then [92, 110]
    else if u == 12 then [92, 102]
    else if u == 13 then [92, 114]
    else if u < 32 || IsHigh(u) || IsLow(u) then [92, 117] + Hex4(u)
    else [u]
  }

  /** The string `s`, escaped and closed, followed by `k`. */
  function EscapeTo(s: Text, k: Text): Text {
    if s == [] then [34] + k
    else if |s| > 1 && IsHigh(s[0]) && IsLow(s[1]) then s[..2] + EscapeTo(s[2..], k)
    else EscapeUnit(s[0]) + EscapeTo(s[1..], k)
  }

  function QuoteTo(s: Text, k: Text): Text { [34] + EscapeTo(s, k) }

  const NULL_TEXT: Text := [110, 117, 108, 108]
  const TRUE_TEXT: Text := [116, 114, 117, 101]
  const FALSE_TEXT: Text := [102, 97, 108, 115, 101]

  /** The JSON text of `v` followed by `k`. */
  function PrintTo(v: Js, k: Text, iso: Iso): Text
    decreases v, 1
  {
    match v
    case Bool(b) => (if b then TRUE_TEXT else FALSE_TEXT) + k
    case Num(token) => token + k
    case Str(s) => QuoteTo(s, k)
    case Date(ms) => QuoteTo(iso(ms), k)
    case Arr(items) => [91] + ItemsTo(items, true, [93] + k, iso)
    case Obj(es) => [123] + EntriesTo(es, true, [125] + k, iso)
    case _ => NULL_TEXT + k
  }

  function ItemsTo(items: seq<Js>, first: bool, k: Text, iso: Iso): Text
    decreases items, 0
  {
    if items == [] then k
    else (if first then [] else [44]) + PrintTo(items[0], ItemsTo(items[1..], false, k, iso), iso)
  }

  function EntriesTo(es: seq<Entry>, first: bool, k: Text, iso: Iso): Text
    decreases es, 0
  {
    if es == [] then k
    else if es[0].value.Undefined? then EntriesTo(es[1..], first, k, iso)
    else (if first then [] else [44])
         + QuoteTo(es[0].key, [58] + PrintTo(es[0].value, EntriesTo(es[1..], false, k, iso), iso))
  }

  /** `JSON.stringify(sortKeysDeep(v))`; `undefined` has no JSON text. */
  function CanonicalStringify(v: Js, iso: Iso): Option<Text> {
    if v.Undefined? then None else Some(PrintTo(SortKeysDeep(v, iso), [], iso))
  }

  // ---------- reading JSON back ----------

  datatype Parsed<+T> = Fail | Done(value: T, rest: Text)

  function Unescape(u: CodeUnit): Option<CodeUnit> {
    if u == 34 || u == 92 then Some(u)
    else if u == 98 then Some(8)
    else if u == 116 then Some(9)
    else if u == 110 then Some(10)
    else if u == 102 then Some(12)
    else if u == 114 then Some(13)
    else None
  }

  function ParseHex4(t: Text): Option<CodeUnit> {
    if |t| >= 4 && IsHexDigit(t[0]) && IsHexDigit(t[1]) && IsHexDigit(t[2]) && IsHexDigit(t[3])
    then Some(((HexValue(t[0]) * 16 + HexValue(t[1])) * 16 + HexValue(t[2])) * 16 + HexValue(t[3]))
    else None
  }

  function Prepend(u: CodeUnit, p: Parsed<Text>): Parsed<Text> {
    match p
    case Fail => Fail
    case Done(s, rest) => Done([u] + s, rest)
  }

  /** The rest of a string after its opening quote. */
  function ParseString(t: Text): (p: Parsed<Text>)
    ensures p.Done? ==> |p.rest| < |t|
  {
    if t == [] then Fail
    else if t[0] == 34 then Done([], t[1..])
    else if t[0] != 92 then Prepend(t[0], ParseString(t[1..]))
    else if |t| == 1 then Fail
    else if t[1] == 117 then
      (match ParseHex4(t[2..])
       case None => Fail
       case Some(u) => Prepend(u, ParseString(t[6..])))
    else
      match Unescape(t[1])
      case None => Fail
      case Some(u) => Prepend(u, ParseString(t[2..]))
  }

  function NumberLength(t: Text): (n: nat)
    ensures n <= |t|
  {
    if t == [] || !IsNumberChar(t[0]) then 0 else 1 + NumberLength(t[1..])
  }

  function ParseValue(t: Text): (p: Parsed<Js>)
    ensures p.Done? ==> |p.rest| < |t|
    decreases |t|, 1
  {
    if t == [] then Fail
    else if NULL_TEXT <= t then Done(Null, t[4..])
    else if TRUE_TEXT <= t then Done(Bool(true), t[4..])
    else if FALSE_TEXT <= t then Done(Bool(false), t[5..])
    else if t[0] == 34 then
      (match ParseString(t[1..])
       case Fail => Fail
       case Done(s, rest) => Done(Str(s), rest))
    else if t[0] == 91 then
      (match ParseItems(t[1..], true)
       case Fail => Fail
       case Done(items, rest) => Done(Arr(items), rest))
    else if t[0] == 123 then
      (match ParseEntries(t[1..], true)
       case Fail => Fail
       case Done(es, rest) => Done(Obj(es), rest))
    else if IsNumberChar(t[0]) then Done(Num(t[..NumberLength(t)]), t[NumberLength(t)..])
    else Fail
  }

  function ParseItems(t: Text, first: bool): (p: Parsed<seq<Js>>)
    ensures p.Done? ==> |p.rest| < |t|
    decreases |t|, 2
  {
    if t == [] then Fail
    else if t[0] == 93 then Done([], t[1..])
    else if !first && t[0] != 44 then Fail
    else
      match ParseValue(if first then t else t[1..])
      case Fail => Fail
      case Done(v, rest) =>
        match ParseItems(rest, false)
        case Fail => Fail
        case Done(vs, rest') => Done([v] + vs, rest')
  }

  function ParseEntries(t: Text, first: bool): (p: Parsed<seq<Entry>>)
    ensures p.Done? ==> |p.rest| < |t|
    decreases |t|, 2
  {
    if t == [] then Fail
    else if t[0] == 125 then Done([], t[1..])
    else if !first && t[0] != 44 then Fail
    else
      var u := if first then t else t[1..];
      if u == [] || u[0] != 34 then Fail
      else
        match ParseString(u[1..])
        case Fail => Fail
        case Done(key, rest) =>
          if rest == [] || rest[0] != 58 then Fail
          else
            match ParseValue(rest[1..])
            case Fail => Fail
            case Done(v, rest') =>
              match ParseEntries(rest', false)
              case Fail => Fail
              case Done(es, rest'') => Done([Entry(key, v)] + es, rest'')
  }

  /** What survives a trip through JSON text. */
  function Plain(v: Js, iso: Iso): Js
    decreases v, 1
  {
    match v
    case Undefined => Null
    case NonFinite(_) => Null
    case Date(ms) => Str(iso(ms))
    case Arr(items) => Arr(PlainItems(items, iso))
    case Obj(es) => Obj(PlainEntries(es, iso))
    case _ => v
  }

  function PlainItems(items: seq<Js>, iso: Iso): seq<Js>
    decreases items, 0
  {
    if items == [] then [] else [Plain(items[0], iso)] + PlainItems(items[1..], iso)
  }

  function PlainEntries(es: seq<Entry>, iso: Iso): seq<Entry>
    decreases es, 0
  {
    if es == [] then []
    else if es[0].value.Undefined? then PlainEntries(es[1..], iso)
    else [Entry(es[0].key, Plain(es[0].value, iso))] + PlainEntries(es[1..], iso)
  }

  // ---------- reading undoes printing ----------

  lemma Hex4RoundTrip(u: CodeUnit, k: Text)
    ensures ParseHex4(Hex4(u) + k) == Some(u)
  {
    var t := Hex4(u) + k;
    assert t[..4] == Hex4(u);
    assert t[0] == Hex4(u)[0] && t[1] == Hex4(u)[1] && t[2] == Hex4(u)[2] && t[3] == Hex4(u)[3];
  }

  lemma ShortEscapeReads(c: CodeUnit, u: CodeUnit, k: Text)
    requires Unescape(c) == Some(u)
    ensures ParseString([92, c] + k) == Prepend(u, ParseString(k))
  {
    var t := [92, c] + k;
    assert t[0] == 92 && t[1] == c && t[2..] == k;
  }

  lemma LongEscapeReads(u: CodeUnit, k: Text)
    ensures ParseString([92, 117] + Hex4(u) + k) == Prepend(u, ParseString(k))
  {
    var t := [92, 117] + Hex4(u) + k;
    Hex4RoundTrip(u, k);
    assert t[0] == 92 && t[1] == 117 && t[2..] == Hex4(u) + k && t[6..] == k;
  }

  lemma PlainUnitReads(u: CodeUnit, k: Text)
    requires u != 34 && u != 92 && u >= 32
    ensures ParseString([u] + k) == Prepend(u, ParseString(k))
  {
    assert ([u] + k)[1..] == k;
  }

  lemma EscapeUnitRoundTrip(u: CodeUnit, k: Text)
    ensures ParseString(EscapeUnit(u) + k) == Prepend(u, ParseString(k))
  {
    var e := EscapeUnit(u);
    if e == [u] {
      PlainUnitReads(u, k);
    } else if |e| == 2 {
      assert e == [92, e[1]] && Unescape(e[1]) == Some(u);
      ShortEscapeReads(e[1], u, k);
    } else {
      LongEscapeReads(u, k);
    }
  }

  lemma {:induction false} StringRoundTrip(s: Text, k: Text)
    ensures ParseString(EscapeTo(s, k)) == Done(s, k)
    decreases |s|
  {
    if s == [] {
      assert EscapeTo(s, k)[1..] == k;
    } else if |s| > 1 && IsHigh(s[0]) && IsLow(s[1]) {
      var tail := EscapeTo(s[2..], k);
      StringRoundTrip(s[2..], k);
      var t := s[..2] + tail;
      assert t[1..][1..] == tail;
      assert s == [s[0]] + ([s[1]] + s[2..]);
    } else {
      StringRoundTrip(s[1..], k);
      EscapeUnitRoundTrip(s[0], EscapeTo(s[1..], k));
      assert s == [s[0]] + s[1..];
    }
  }

  ghost predicate EndsNumber(k: Text) { k == [] || !IsNumberChar(k[0]) }

  lemma {:induction false} NumberLengthOf(token: Text, k: Text)
    requires forall i :: 0 <= i < |token| ==> IsNumberChar(token[i])
    requires EndsNumber(k)
    ensures NumberLength(token + k) == |token|
  {
    if token == [] {
      assert token + k == k;
    } else {
      NumberLengthOf(token[1..], k);
      assert (token + k)[1..] == token[1..] + k;
    }
  }

  lemma NumberRoundTrip(token: Text, k: Text)
    requires IsNumberToken(token) && EndsNumber(k)
    ensures ParseValue(token + k) == Done(Num(token), k)
  {
    var t := token + k;
    assert t[0] == token[0];
    NumberLengthOf(token, k);
    assert t[..|token|] == token && t[|token|..] == k;
  }

  /** The text of a value never starts like a closing bracket, a comma or a brace. */
  lemma PrintHead(v: Js, k: Text, iso: Iso)
    requires Printable(v)
    ensures PrintTo(v, k, iso) != [] && PrintTo(v, k, iso)[0] !in {93, 125, 44}
  {
  }

  lemma LiteralRoundTrip(k: Text)
    ensures ParseValue(NULL_TEXT + k) == Done(Null, k)
    ensures ParseValue(TRUE_TEXT + k) == Done(Bool(true), k)
    ensures ParseValue(FALSE_TEXT + k) == Done(Bool(false), k)
  {
    assert (NULL_TEXT + k)[4..] == k && (TRUE_TEXT + k)[4..] == k && (FALSE_TEXT + k)[5..] == k;
    assert (NULL_TEXT + k)[0] == 110 && (TRUE_TEXT + k)[0] == 116 && (FALSE_TEXT + k)[0] == 102;
  }

  lemma QuoteRoundTrip(s: Text, k: Text)
    ensures ParseValue(QuoteTo(s, k)) == Done(Str(s), k)
  {
    StringRoundTrip(s, k);
    assert QuoteTo(s, k)[1..] == EscapeTo(s, k);
  }

  /** Reading back printed JSON gives the value that storage keeps, and stops where it ended. */
  lemma {:induction false} PrintParse(v: Js, k: Text, iso: Iso)
    requires Printable(v) && EndsNumber(k)
    ensures ParseValue(PrintTo(v, k, iso)) == Done(Plain(v, iso), k)
    decreases v, 1
  {
    match v
    case Bool(b) => LiteralRoundTrip(k);
    case Num(token) => NumberRoundTrip(token, k);
    case Str(s) => QuoteRoundTrip(s, k);
    case Date(ms) => QuoteRoundTrip(iso(ms), k);
    case Arr(items) =>
      ItemsParse(items, true, k, iso);
      assert PrintTo(v, k, iso)[1..] == ItemsTo(items, true, [93] + k, iso);
    case Obj(es) =>
      EntriesParse(es, true, k, iso);
      assert PrintTo(v, k, iso)[1..] == EntriesTo(es, true, [125] + k, iso);
    case _ => LiteralRoundTrip(k);
  }

  lemma {:induction false} ItemsParse(items: seq<Js>, first: bool, k: Text, iso: Iso)
    requires forall x :: x in items ==> Printable(x)
    ensures ParseItems(ItemsTo(items, first, [93] + k, iso), first) == Done(PlainItems(items, iso), k)
    ensures EndsNumber(ItemsTo(items, false, [93] + k, iso))
    decreases items, 0
  {
    if items == [] {
      assert ([93] + k)[1..] == k;
    } else {
      var tail := ItemsTo(items[1..], false, [93] + k, iso);
      ItemsParse(items[1..], false, k, iso);
      PrintParse(items[0], tail, iso);
      PrintHead(items[0], tail, iso);
      var t := ItemsTo(items, first, [93] + k, iso);
      assert (if first then t else t[1..]) == PrintTo(items[0], tail, iso);
    }
  }

  /** One `"key":value` member, read back. */
  lemma {:induction false} EntryParse(e: Entry, tail: Text, iso: Iso)
    requires Printable(e.value) && EndsNumber(tail)
    ensures var t := QuoteTo(e.key, [58] + PrintTo(e.value, tail, iso));
            && t[0] == 34
            && ParseString(t[1..]) == Done(e.key, [58] + PrintTo(e.value, tail, iso))
            && ParseValue(([58] + PrintTo(e.value, tail, iso))[1..]) == Done(Plain(e.value, iso), tail)
    decreases e, 1
  {
    var mid := [58] + PrintTo(e.value, tail, iso);
    PrintParse(e.value, tail, iso);
    StringRoundTrip(e.key, mid);
    assert QuoteTo(e.key, mid)[1..] == EscapeTo(e.key, mid);
    assert mid[1..] == PrintTo(e.value, tail, iso);
  }

  /** One member and the ones after it, as the parser meets them. */
  lemma EntryThenRest(t: Text, first: bool, u: Text, key: Text, mid: Text, v: Js, tail: Text, es: seq<Entry>, k: Text)
    requires t == (if first then [] else [44]) + u && u != [] && u[0] == 34
    requires ParseString(u[1..]) == Done(key, mid) && mid != [] && mid[0] == 58
    requires ParseValue(mid[1..]) == Done(v, tail) && ParseEntries(tail, false) == Done(es, k)
    ensures ParseEntries(t, first) == Done([Entry(key, v)] + es, k)
    ensures EndsNumber([44] + u)
  {
    assert (if first then t else t[1..]) == u;
  }

  lemma {:induction false} EntriesParse(es: seq<Entry>, first: bool, k: Text, iso: Iso)
    requires forall e :: e in es ==> Printable(e.value)
    ensures ParseEntries(EntriesTo(es, first, [125] + k, iso), first) == Done(PlainEntries(es, iso), k)
    ensures EndsNumber(EntriesTo(es, false, [125] + k, iso))
    decreases es, 0
  {
    if es == [] {
      assert ([125] + k)[1..] == k;
    } else if es[0].value.Undefined? {
      EntriesParse(es[1..], first, k, iso);
      EntriesParse(es[1..], false, k, iso);
    } else {
      var tail := EntriesTo(es[1..], false, [125] + k, iso);
      var mid := [58] + PrintTo(es[0].value, tail, iso);
      EntriesParse(es[1..], false, k, iso);
      EntryParse(es[0], tail, iso);
      EntryThenRest(EntriesTo(es, first, [125] + k, iso), first, QuoteTo(es[0].key, mid), es[0].key, mid,
                    Plain(es[0].value, iso), tail, PlainEntries(es[1..], iso), k);
    }
  }

  // ---------- where strings end ----------

  /** A reader of JSON text is outside a string, inside one, or after a backslash. */
  datatype Lex = Outside | Inside | Escaped

  predicate OutsideChar(u: CodeUnit) {
    97 <= u <= 122 || IsNumberChar(u) || u == 34 || u == 44 || u == 58 || u == 91 || u == 93 || u == 123 || u == 125
  }

  /** What may follow a value or a key: a comma, a colon or a closing bracket. */
  predicate Closes(k: Text) { k == [] || k[0] == 44 || k[0] == 58 || k[0] == 93 || k[0] == 125 }

  /** Outside strings only JSON's own characters occur, and a string is followed by one that may follow it. */
  predicate Lexes(t: Text, at: Lex) {
    if t == [] then true
    else
      match at
      case Outside => OutsideChar(t[0]) && Lexes(t[1..], if t[0] == 34 then Inside else Outside)
      case Inside =>
        if t[0] == 34 then Closes(t[1..]) && Lexes(t[1..], Outside)
        else Lexes(t[1..], if t[0] == 92 then Escaped else Inside)
      case Escaped => Lexes(t[1..], Inside)
  }

  lemma {:induction false} TokenLexes(t: Text, k: Text)
    requires Lexes(k, Outside) && forall i :: 0 <= i < |t| ==> OutsideChar(t[i]) && t[i] != 34
    ensures Lexes(t + k, Outside)
  {
    if t == [] {
      assert t + k == k;
    } else {
      assert (t + k)[1..] == t[1..] + k;
      TokenLexes(t[1..], k);
    }
  }

  lemma {:induction false} BodyLexes(t: Text, k: Text)
    requires Lexes(k, Inside) && forall i :: 0 <= i < |t| ==> t[i] != 34 && t[i] != 92
    ensures Lexes(t + k, Inside)
  {
    if t == [] {
      assert t + k == k;
    } else {
      assert (t + k)[1..] == t[1..] + k;
      BodyLexes(t[1..], k);
    }
  }

  lemma EscapedUnitLexes(u: CodeUnit, k: Text)
    requires Lexes(k, Inside)
    ensures Lexes(EscapeUnit(u) + k, Inside)
  {
    var e := EscapeUnit(u);
    if e[0] == 92 {
      var rest := e[2..];
      forall i | 0 <= i < |rest|
        ensures rest[i] != 34 && rest[i] != 92
      {
        assert |e| == 6 && rest == Hex4(u);
      }
      BodyLexes(rest, k);
      assert e + k == [92, e[1]] + (rest + k);
      assert ([92, e[1]] + (rest + k))[1..] == [e[1]] + (rest + k);
      assert ([e[1]] + (rest + k))[1..] == rest + k;
    } else {
      BodyLexes(e, k);
    }
  }

  lemma {:induction false} StringLexes(s: Text, k: Text)
    requires Lexes(k, Outside) && Closes(k)
    ensures Lexes(EscapeTo(s, k), Inside)
  {
    if s == [] {
      assert ([34] + k)[1..] == k;
    } else if |s| > 1 && IsHigh(s[0]) && IsLow(s[1]) {
      StringLexes(s[2..], k);
      BodyLexes(s[..2], EscapeTo(s[2..], k));
    } else {
      StringLexes(s[1..], k);
      EscapedUnitLexes(s[0], EscapeTo(s[1..], k));
    }
  }

  lemma QuoteLexes(s: Text, k: Text)
    requires Lexes(k, Outside) && Closes(k)
    ensures Lexes(QuoteTo(s, k), Outside)
  {
    StringLexes(s, k);
    assert QuoteTo(s, k)[1..] == EscapeTo(s, k);
  }

  lemma MarkLexes(u: CodeUnit, k: Text)
    requires Lexes(k, Outside) && OutsideChar(u) && u != 34
    ensures Lexes([u] + k, Outside)
  {
    assert ([u] + k)[1..] == k;
  }

  lemma {:induction false} PrintLexes(v: Js, k: Text, iso: Iso)
    requires Printable(v) && Lexes(k, Outside) && Closes(k)
    ensures Lexes(PrintTo(v, k, iso), Outside)
    decreases v, 1
  {
    match v
    case Bool(b) => TokenLexes(if b then TRUE_TEXT else FALSE_TEXT, k);
    case Num(token) => TokenLexes(token, k);
    case Str(s) => QuoteLexes(s, k);
    case Date(ms) => QuoteLexes(iso(ms), k);
    case Arr(items) =>
      MarkLexes(93, k);
      ItemsLex(items, true, [93] + k, iso);
      MarkLexes(91, ItemsTo(items, true, [93] + k, iso));
    case Obj(es) =>
      MarkLexes(125, k);
      EntriesLex(es, true, [125] + k, iso);
      MarkLexes(123, EntriesTo(es, true, [125] + k, iso));
    case _ => TokenLexes(NULL_TEXT, k);
  }

  lemma {:induction false} ItemsLex(items: seq<Js>, first: bool, k: Text, iso: Iso)
    requires (forall x :: x in items ==> Printable(x)) && Lexes(k, Outside) && Closes(k)
    ensures Lexes(ItemsTo(items, first, k, iso), Outside) && (!first ==> Closes(ItemsTo(items, first, k, iso)))
    decreases items, 0
  {
    if items != [] {
      var tail := ItemsTo(items[1..], false, k, iso);
      ItemsLex(items[1..], false, k, iso);
      PrintLexes(items[0], tail, iso);
      var t := PrintTo(items[0], tail, iso);
      if first { assert [] + t == t; } else { MarkLexes(44, t); }
    }
  }

  lemma {:induction false} EntriesLex(es: seq<Entry>, first: bool, k: Text, iso: Iso)
    requires (forall e :: e in es ==> Printable(e.value)) && Lexes(k, Outside) && Closes(k)
    ensures Lexes(EntriesTo(es, first, k, iso), Outside) && (!first ==> Closes(EntriesTo(es, first, k, iso)))
    decreases es, 0
  {
    if es != [] {
      if es[0].value.Undefined? {
        EntriesLex(es[1..], first, k, iso);
      } else {
        var tail := EntriesTo(es[1..], false, k, iso);
        EntriesLex(es[1..], false, k, iso);
        PrintLexes(es[0].value, tail, iso);
        MarkLexes(58, PrintTo(es[0].value, tail, iso));
        var t := QuoteTo(es[0].key, [58] + PrintTo(es[0].value, tail, iso));
        QuoteLexes(es[0].key, [58] + PrintTo(es[0].value, tail, iso));
        if first { assert [] + t == t; } else { MarkLexes(44, t); }
      }
    }
  }

  /** Where a foreign character stands, the reader is inside a string. */
  lemma {:induction false} ForeignIsInside(t: Text, u: CodeUnit, rest: Text, at: Lex)
    requires Lexes(t + [u] + rest, at) && !OutsideChar(u) && u != 92
    ensures Lexes(rest, Inside)
  {
    var all := t + [u] + rest;
    if t == [] {
      assert all[0] == u && all[1..] == rest;
    } else {
      var next := if at.Outside? then (if t[0] == 34 then Inside else Outside)
                  else if at.Escaped? then Inside
                  else if t[0] == 34 then Outside else if t[0] == 92 then Escaped else Inside;
      assert all[0] == t[0] && all[1..] == t[1..] + [u] + rest;
      ForeignIsInside(t[1..], u, rest, next);
    }
  }
}
