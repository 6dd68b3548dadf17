/** Signing and verifying webhook deliveries. */
module WebhookSignature {
  import opened Text

  type Byte = b: int | 0 <= b < 256

  type Digest = d: seq<Byte> | |d| == 32 witness seq(32, _ => 0)

  /** HMAC-SHA256 of a message under a secret. */
  type Hmac = (Text, seq<Byte>) -> Digest

  const MAX_SAFE_INTEGER := 9007199254740991
  const DOT := 46

  // ---------- bytes ----------

  /** One code point below 0x10000 that is not half of a pair; lone halves become U+FFFD. */
  function Utf8Unit(u: CodeUnit): seq<Byte> {
    if u < 0x80 then [u]
    else if u < 0x800 then [0xC0 + u / 64, 0x80 + u % 64]
    else if IsHigh(u) || IsLow(u) then [0xEF, 0xBF, 0xBD]
    else [0xE0 + u / 64 / 64, 0x80 + u / 64 % 64, 0x80 + u % 64]
  }

  /** A surrogate pair; the high half carries ten bits above the low half's ten. */
  function Utf8Pair(high: CodeUnit, low: CodeUnit): seq<Byte>
    requires IsHigh(high) && IsLow(low)
  {
    var h, l := high - 0xD800 + 64, low - 0xDC00;
    [0xF0 + h / 4 / 64, 0x80 + h / 4 % 64, 0x80 + h % 4 * 16 + l / 64, 0x80 + l % 64]
  }

  predicate IsContinuation(b: Byte) { 0x80 <= b < 0xC0 }

  /** The number that the bytes of one character stand for, by the table in section 3 of RFC 3629. */
  function CodePoint(bytes: seq<Byte>): Option<nat> {
    var n := |bytes|;
    var a: int, b: int := if n > 0 then bytes[0] else 0, if n > 1 then bytes[1] as int - 0x80 else 0;
    var c: int, d: int := if n > 2 then bytes[2] as int - 0x80 else 0, if n > 3 then bytes[3] as int - 0x80 else 0;
    if !(forall i :: 0 < i < n ==> IsContinuation(bytes[i])) then None
    else if n == 1 && a < 0x80 then Some(a)
    else if n == 2 && 0xC2 <= a < 0xE0 then Some((a - 0xC0) * 64 + b)
    else if n == 3 && 0xE0 <= a < 0xF0 then Some((a - 0xE0) * 4096 + b * 64 + c)
    else if n == 4 && 0xF0 <= a < 0xF5 then Some((a - 0xF0) * 262144 + b * 4096 + c * 64 + d)
    else None
  }

  /** Every unit and every pair is written as UTF-8 of its code point, a lone half as that of U+FFFD. */
  lemma Utf8IsStandard(u: CodeUnit, high: CodeUnit, low: CodeUnit)
    requires IsHigh(high) && IsLow(low)
    ensures CodePoint(Utf8Unit(u)) == Some(if IsHigh(u) || IsLow(u) then 0xFFFD else u)
    ensures CodePoint(Utf8Pair(high, low)) == Some(0x10000 + (high - 0xD800) * 0x400 + (low - 0xDC00))
  {
    assert u / 64 / 64 * 4096 + u / 64 % 64 * 64 + u % 64 == u;
    var h, l := high - 0xD800 + 64, low - 0xDC00;
    assert h / 4 / 64 * 262144 + h / 4 % 64 * 4096 + (h % 4 * 16 + l / 64) * 64 + l % 64 == h * 0x400 + l;
  }

  predicate StartsWithPair(t: Text) { |t| > 1 && IsHigh(t[0]) && IsLow(t[1]) }

  /** `Buffer.from(t, "utf8")` */
  function Utf8(t: Text): seq<Byte> {
    if t == [] then []
    else if StartsWithPair(t) then Utf8Pair(t[0], t[1]) + Utf8(t[2..])
    else Utf8Unit(t[0]) + Utf8(t[1..])
  }

  /** No half of a surrogate pair stands alone. */
  predicate Paired(t: Text) {
    if t == [] then true
    else if StartsWithPair(t) then Paired(t[2..])
    else !IsHigh(t[0]) && !IsLow(t[0]) && Paired(t[1..])
  }

  function HeadBytes(t: Text): seq<Byte>
    requires t != []
  {
    if StartsWithPair(t) then Utf8Pair(t[0], t[1]) else Utf8Unit(t[0])
  }

  function HeadUnits(t: Text): nat
    requires t != []
  {
    if StartsWithPair(t) then 2 else 1
  }

  /** How many bytes a character takes, told by its first byte. */
  function LengthFromLead(b: Byte): nat {
    if b < 0x80 then 1 else if b < 0xE0 then 2 else if b < 0xF0 then 3 else 4
  }

  lemma HeadLength(t: Text)
    requires t != []
    ensures |HeadBytes(t)| > 0 && |HeadBytes(t)| == LengthFromLead(HeadBytes(t)[0])
  {
  }

  lemma UnitInjective(u: CodeUnit, v: CodeUnit)
    requires !IsHigh(u) && !IsLow(u) && !IsHigh(v) && !IsLow(v) && Utf8Unit(u) == Utf8Unit(v)
    ensures u == v
  {
    var a, b := Utf8Unit(u), Utf8Unit(v);
    assert a[0] == b[0] && (|a| > 1 ==> a[1] == b[1]) && (|a| > 2 ==> a[2] == b[2]);
  }

  lemma PairInjective(h: CodeUnit, l: CodeUnit, h': CodeUnit, l': CodeUnit)
    requires IsHigh(h) && IsLow(l) && IsHigh(h') && IsLow(l') && Utf8Pair(h, l) == Utf8Pair(h', l')
    ensures h == h' && l == l'
  {
    var a, b := Utf8Pair(h, l), Utf8Pair(h', l');
    assert a[0] == b[0] && a[1] == b[1] && a[2] == b[2] && a[3] == b[3];
    var x, y := h - 0xD800 + 64, h' - 0xD800 + 64;
    assert x / 4 == y / 4;
  }

  lemma HeadInjective(s: Text, t: Text)
    requires s != [] && t != [] && Paired(s) && Paired(t) && HeadBytes(s) == HeadBytes(t)
    ensures HeadUnits(s) == HeadUnits(t) && s[..HeadUnits(s)] == t[..HeadUnits(t)]
  {
    var a, b := HeadBytes(s), HeadBytes(t);
    assert a[0] == b[0] && |a| == |b|;
    if StartsWithPair(s) {
      PairInjective(s[0], s[1], t[0], t[1]);
    } else {
      UnitInjective(s[0], t[0]);
    }
  }

  lemma {:induction false} Utf8Injective(s: Text, t: Text)
    requires Paired(s) && Paired(t) && Utf8(s) == Utf8(t)
    ensures s == t
    decreases |s|
  {
    if s == [] {
      if t != [] { HeadLength(t); }
    } else if t == [] {
      HeadLength(s);
    } else {
      HeadLength(s);
      HeadLength(t);
      var a, b := HeadBytes(s), HeadBytes(t);
      var m, n := HeadUnits(s), HeadUnits(t);
      assert Utf8(s) == a + Utf8(s[m..]) && Utf8(t) == b + Utf8(t[n..]);
      assert a[0] == Utf8(s)[0] && b[0] == Utf8(t)[0];
      assert a == Utf8(s)[..|a|] && b == Utf8(t)[..|b|];
      HeadInjective(s, t);
      assert Utf8(s[m..]) == Utf8(s)[|a|..] && Utf8(t[n..]) == Utf8(t)[|b|..];
      Utf8Injective(s[m..], t[n..]);
      assert s == s[..m] + s[m..] && t == t[..n] + t[n..];
    }
  }

  lemma {:induction false} Utf8Dot(t: Text, rest: Text)
    ensures Utf8(t + [DOT] + rest) == Utf8(t) + [DOT] + Utf8(rest)
    decreases |t|
  {
    var all := t + [DOT] + rest;
    if t == [] {
      assert all == [DOT] + rest && all[1..] == rest;
    } else {
      var m := HeadUnits(t);
      assert StartsWithPair(all) == StartsWithPair(t);
      assert all[m..] == t[m..] + [DOT] + rest;
      Utf8Dot(t[m..], rest);
      var a, p, q := HeadBytes(t), Utf8(t[m..]), Utf8(rest);
      assert HeadBytes(all) == a;
      calc {
        Utf8(all);
        a + Utf8(all[m..]);
        a + (p + [DOT] + q);
        (a + p) + [DOT] + q;
      }
    }
  }

  lemma {:induction false} Utf8Digits(t: Text)
    requires AllDigits(t)
    ensures Utf8(t) == t
  {
    if t != [] {
      Utf8Digits(t[1..]);
      assert IsDigit(t[0]);
      assert t == [t[0]] + t[1..];
    }
  }

  // ---------- hexadecimal ----------

  /** `digest("hex")` */
  function Hex(d: seq<Byte>): (t: Text)
    ensures |t| == 2 * |d| && forall i :: 0 <= i < |t| ==> IsHexDigit(t[i])
  {
    if d == [] then [] else [HexDigit(d[0] / 16), HexDigit(d[0] % 16)] + Hex(d[1..])
  }

  lemma HexPair(high: CodeUnit, low: CodeUnit)
    requires IsHexDigit(high) && IsHexDigit(low)
    ensures var v := HexValue(high) * 16 + HexValue(low);
            0 <= v < 256 && HexDigit(v / 16) == high && HexDigit(v % 16) == low
  {
    var v := HexValue(high) * 16 + HexValue(low);
    assert v / 16 == HexValue(high) && v % 16 == HexValue(low);
  }

  lemma HexCons(first: Byte, rest: seq<Byte>)
    ensures Hex([first] + rest) == [HexDigit(first / 16), HexDigit(first % 16)] + Hex(rest)
  {
    assert ([first] + rest)[1..] == rest;
  }

  /** `Buffer.from(t, "hex")` of an even number of hexadecimal digits. */
  function FromHex(t: Text): (d: seq<Byte>)
    requires |t| % 2 == 0 && forall i :: 0 <= i < |t| ==> IsHexDigit(t[i])
    ensures 2 * |d| == |t| && Hex(d) == t
  {
    if t == [] then []
    else
      HexPair(t[0], t[1]);
      var first := HexValue(t[0]) * 16 + HexValue(t[1]);
      var rest := FromHex(t[2..]);
      HexCons(first, rest);
      assert t == [t[0], t[1]] + t[2..];
      [first] + rest
  }

  lemma {:induction false} HexInjective(a: seq<Byte>, b: seq<Byte>)
    requires Hex(a) == Hex(b)
    ensures a == b
  {
    if a != [] {
      assert |a| == |b|;
      assert Hex(a)[0] == Hex(b)[0] && Hex(a)[1] == Hex(b)[1];
      assert Hex(a)[2..] == Hex(a[1..]) && Hex(b)[2..] == Hex(b[1..]);
      HexInjective(a[1..], b[1..]);
      assert a[0] / 16 == b[0] / 16 && a[0] % 16 == b[0] % 16;
      assert a == [a[0]] + a[1..] && b == [b[0]] + b[1..];
    }
  }

  // ---------- headers ----------

  /** White space in the sense of `String.prototype.trim`. */
  predicate IsSpace(u: CodeUnit) {
    9 <= u <= 13 || u == 32 || u == 0xA0 || u == 0x1680 || 0x2000 <= u <= 0x200A
    || u == 0x2028 || u == 0x2029 || u == 0x202F || u == 0x205F || u == 0x3000 || u == 0xFEFF
  }

  function Trim(t: Text): (r: Text)
    ensures IsTrimmed(r) && |r| <= |t|
    ensures IsTrimmed(t) ==> r == t
    decreases |t|
  {
    if t == [] then t
    else if IsSpace(t[0]) then Trim(t[1..])
    else if IsSpace(t[|t| - 1]) then Trim(t[..|t| - 1])
    else t
  }

  predicate IsTrimmed(t: Text) { t != [] ==> !IsSpace(t[0]) && !IsSpace(t[|t| - 1]) }

  function NonEmpty(value: Option<Text>): (r: Option<Text>)
    ensures r.Some? ==> r.value != [] && IsTrimmed(r.value)
  {
    if value.None? || Trim(value.value) == [] then None else Some(Trim(value.value))
  }

  // ---------- signing ----------

  /** `<timestamp>.<deliveryId>.<body>` */
  function SigningBase(timestamp: nat, deliveryId: Text, rawBody: seq<Byte>): seq<Byte> {
    Utf8(Decimal(timestamp) + [DOT] + deliveryId + [DOT]) + rawBody
  }

  const V1: Text := [118, 49, 61]

  function ComputeSignatureHeader(hmac: Hmac, secret: Text, timestamp: nat, deliveryId: Text, rawBody: seq<Byte>): Text {
    V1 + Hex(hmac(secret, SigningBase(timestamp, deliveryId, rawBody)))
  }

  lemma Reassociate<T>(x: seq<T>, y: seq<T>, z: seq<T>)
    ensures x + y + z == x + (y + z)
  {
  }

  lemma Utf8DotEnd(t: Text)
    ensures Utf8(t + [DOT]) == Utf8(t) + [DOT]
  {
    Utf8Dot(t, []);
    assert t + [DOT] + [] == t + [DOT];
  }

  lemma BaseParts(timestamp: nat, deliveryId: Text, rawBody: seq<Byte>)
    ensures SigningBase(timestamp, deliveryId, rawBody)
              == Utf8(Decimal(timestamp)) + [DOT] + (Utf8(deliveryId) + [DOT] + rawBody)
  {
    var n, id := Decimal(timestamp), deliveryId;
    Reassociate(n + [DOT], id, [DOT]);
    Utf8Dot(n, id + [DOT]);
    Utf8DotEnd(id);
    Reassociate(Utf8(n) + [DOT], Utf8(id) + [DOT], rawBody);
  }

  lemma StampBytes(timestamp: nat)
    ensures Utf8(Decimal(timestamp)) == Decimal(timestamp) && DOT !in Utf8(Decimal(timestamp))
  {
    DecimalRoundTrip(timestamp);
    Utf8Digits(Decimal(timestamp));
  }

  // ---------- reading signed bytes ----------

  lemma PairedTail(t: Text)
    requires t != [] && Paired(t)
    ensures Paired(t[HeadUnits(t)..])
  {
  }

  lemma DotHead(t: Text)
    requires t != [] && HeadBytes(t)[0] == DOT
    ensures t[0] == DOT && HeadUnits(t) == 1 && HeadBytes(t) == [DOT]
  {
  }

  lemma PrefixHeads(s: Text, t: Text, a: seq<Byte>, rest: seq<Byte>)
    requires s != [] && t != [] && HeadBytes(t) + Utf8(t[HeadUnits(t)..]) == (HeadBytes(s) + a) + rest
    ensures HeadBytes(s) == HeadBytes(t) && Utf8(t[HeadUnits(t)..]) == a + rest
  {
    HeadLength(s);
    HeadLength(t);
    var x, y, w := HeadBytes(s), HeadBytes(t), Utf8(t[HeadUnits(t)..]);
    var all := y + w;
    assert all == x + (a + rest);
    assert all[0] == y[0] && all[0] == x[0];
    assert y == all[..|y|] && x == all[..|x|];
    assert w == all[|y|..] && a + rest == all[|x|..];
  }

  lemma StartsWithDot(t: Text, z: seq<Byte>)
    requires t != [] && Utf8(t) == [DOT] + z
    ensures t == [DOT] + t[1..] && Utf8(t[1..]) == z
  {
    HeadLength(t);
    assert Utf8(t) == HeadBytes(t) + Utf8(t[HeadUnits(t)..]);
    assert Utf8(t)[0] == HeadBytes(t)[0];
    DotHead(t);
    assert Utf8(t)[1..] == Utf8(t[1..]) && ([DOT] + z)[1..] == z;
  }

  lemma SameHeads(s: Text, t: Text, z: seq<Byte>)
    requires s != [] && t != [] && Paired(s) && Paired(t) && Utf8(t) == Utf8(s) + [DOT] + z
    ensures HeadUnits(s) == HeadUnits(t) && s[..HeadUnits(s)] == t[..HeadUnits(t)]
    ensures Utf8(t[HeadUnits(t)..]) == Utf8(s[HeadUnits(s)..]) + [DOT] + z
  {
    var m, n := HeadUnits(s), HeadUnits(t);
    var a := Utf8(s[m..]);
    assert Utf8(s) == HeadBytes(s) + a && Utf8(t) == HeadBytes(t) + Utf8(t[n..]);
    Reassociate(HeadBytes(s) + a, [DOT], z);
    PrefixHeads(s, t, a, [DOT] + z);
    HeadInjective(s, t);
    Reassociate(a, [DOT], z);
  }

  /** Text whose bytes continue those of `s` with a dot continues `s` with a dot. */
  lemma {:induction false} ContinuesWithDot(s: Text, t: Text, z: seq<Byte>) returns (x: Text)
    requires Paired(s) && Paired(t) && Utf8(t) == Utf8(s) + [DOT] + z
    ensures t == s + [DOT] + x && Utf8(x) == z && Paired(x)
    decreases |s|
  {
    assert t != [];
    PairedTail(t);
    if s == [] {
      assert Utf8(s) + [DOT] + z == [DOT] + z;
      StartsWithDot(t, z);
      x := t[1..];
      assert !StartsWithPair(t);
    } else {
      var m := HeadUnits(s);
      SameHeads(s, t, z);
      PairedTail(s);
      x := ContinuesWithDot(s[m..], t[m..], z);
      Glue(s, t, m, x);
    }
  }

  lemma Glue(s: Text, t: Text, m: nat, x: Text)
    requires m <= |s| && m <= |t| && s[..m] == t[..m] && t[m..] == s[m..] + [DOT] + x
    ensures t == s + [DOT] + x
  {
    assert t == t[..m] + t[m..] && s == s[..m] + s[m..];
  }

  /** The split between id and body can move from one dot to a later one. */
  ghost predicate MovesOver(id: Text, body: seq<Byte>, id': Text, body': seq<Byte>, x: Text) {
    Paired(x) && id' == id + [DOT] + x && body == Utf8(x) + [DOT] + body'
  }

  ghost predicate Moves(id: Text, body: seq<Byte>, id': Text, body': seq<Byte>) {
    exists x :: MovesOver(id, body, id', body', x)
  }

  lemma Regroup(p: seq<Byte>, q: seq<Byte>, r: seq<Byte>)
    ensures (p + [DOT] + q) + [DOT] + r == p + [DOT] + (q + [DOT] + r)
  {
  }

  lemma MoveDot(t: nat, id: Text, x: Text, body: seq<Byte>)
    ensures SigningBase(t, id + [DOT] + x, body) == SigningBase(t, id, Utf8(x) + [DOT] + body)
  {
    BaseParts(t, id + [DOT] + x, body);
    BaseParts(t, id, Utf8(x) + [DOT] + body);
    Utf8Dot(id, x);
    Regroup(Utf8(id), Utf8(x), body);
  }

  lemma LaterDot(u: seq<Byte>, body: seq<Byte>, v: seq<Byte>, body': seq<Byte>)
    requires u + [DOT] + body == v + [DOT] + body' && |u| < |v|
    ensures v == u + [DOT] + v[|u| + 1..] && body == v[|u| + 1..] + [DOT] + body'
  {
    var all, z := u + [DOT] + body, v[|u| + 1..];
    assert u == all[..|u|] && v == all[..|v|] && all[|u|] == DOT;
    assert v[|u|] == DOT && v[..|u|] == u;
    assert v == u + [DOT] + z;
    assert body == all[|u| + 1..];
    Regroup(u, z, body');
    assert all == u + [DOT] + (z + [DOT] + body');
  }

  lemma SameTail(id: Text, body: seq<Byte>, id': Text, body': seq<Byte>)
    requires Paired(id) && Paired(id') && Utf8(id) + [DOT] + body == Utf8(id') + [DOT] + body'
    requires |Utf8(id)| <= |Utf8(id')|
    ensures (id == id' && body == body') || Moves(id, body, id', body')
  {
    var u, v := Utf8(id), Utf8(id');
    if |u| == |v| {
      SameLengthSplit(u, body, v, body');
      Utf8Injective(id, id');
    } else {
      LaterDot(u, body, v, body');
      var x := ContinuesWithDot(id, id', v[|u| + 1..]);
      assert MovesOver(id, body, id', body', x);
    }
  }

  lemma SameLengthSplit(u: seq<Byte>, body: seq<Byte>, v: seq<Byte>, body': seq<Byte>)
    requires u + [DOT] + body == v + [DOT] + body' && |u| == |v|
    ensures u == v && body == body'
  {
    var all := u + [DOT] + body;
    assert u == all[..|u|] && v == all[..|v|] && body == all[|u| + 1..] && body' == all[|v| + 1..];
  }

  /** MAIN: signed bytes are read the same way exactly when timestamp, id and body agree, up to
      moving the split between id and body from one dot to another. */
  lemma SigningBaseReadings(t: nat, id: Text, body: seq<Byte>, t': nat, id': Text, body': seq<Byte>)
    requires Paired(id) && Paired(id')
    ensures SigningBase(t, id, body) == SigningBase(t', id', body') <==>
              t == t' && ((id == id' && body == body') || Moves(id, body, id', body') || Moves(id', body', id, body))
  {
    if SigningBase(t, id, body) == SigningBase(t', id', body') {
      BaseParts(t, id, body);
      BaseParts(t', id', body');
      StampBytes(t);
      StampBytes(t');
      SplitAt(Utf8(Decimal(t)), Utf8(id) + [DOT] + body, Utf8(Decimal(t')), Utf8(id') + [DOT] + body', DOT);
      DecimalInjective(t, t');
      if |Utf8(id)| <= |Utf8(id')| { SameTail(id, body, id', body'); } else { SameTail(id', body', id, body); }
    }
    if Moves(id, body, id', body') {
      var x :| MovesOver(id, body, id', body', x);
      MoveDot(t, id, x, body');
    }
    if Moves(id', body', id, body) {
      var x :| MovesOver(id', body', id, body, x);
      MoveDot(t, id', x, body);
    }
  }

  /** Hence ids of one length, or without dots, are told apart, and so are the bodies. */
  lemma SigningBaseInjective(t: nat, id: Text, body: seq<Byte>, t': nat, id': Text, body': seq<Byte>)
    requires Paired(id) && Paired(id') && SigningBase(t, id, body) == SigningBase(t', id', body')
    ensures t == t'
    ensures |id| == |id'| || (DOT !in id && DOT !in id') ==> id == id' && body == body'
  {
    SigningBaseReadings(t, id, body, t', id', body');
    if Moves(id, body, id', body') {
      var x :| MovesOver(id, body, id', body', x);
      assert id'[|id|] == DOT;
    }
    if Moves(id', body', id, body) {
      var x :| MovesOver(id', body', id, body, x);
      assert id[|id'|] == DOT;
    }
  }

  /** Another way to read the bytes signed for (t, id, body). */
  ghost predicate OtherReading(t: nat, id: Text, body: seq<Byte>, id': Text, body': seq<Byte>) {
    Paired(id') && SigningBase(t, id', body') == SigningBase(t, id, body) && (id' != id || body' != body)
  }

  ghost predicate SplitsAtDot(body: seq<Byte>, x: Text, y: seq<Byte>) { Paired(x) && body == Utf8(x) + [DOT] + y }

  lemma {:induction false} PairedParts(a: Text, b: Text)
    ensures Paired(a + [DOT] + b) <==> Paired(a) && Paired(b)
    decreases |a|
  {
    var all := a + [DOT] + b;
    if a == [] {
      assert all == [DOT] + b && all[1..] == b;
    } else {
      var m := HeadUnits(a);
      assert StartsWithPair(all) == StartsWithPair(a);
      assert all[m..] == a[m..] + [DOT] + b;
      PairedParts(a[m..], b);
    }
  }

  lemma DotSplits(id: Text) returns (a: Text, b: Text)
    requires DOT in id
    ensures id == a + [DOT] + b
  {
    var i :| 0 <= i < |id| && id[i] == DOT;
    a, b := id[..i], id[i + 1..];
  }

  /** MAIN: a signed message can be read in another way exactly when its id has a dot, or its body
      has one after bytes that are text. */
  lemma AmbiguousIff(t: nat, id: Text, body: seq<Byte>)
    requires Paired(id)
    ensures (exists id', body' :: OtherReading(t, id, body, id', body')) <==> DOT in id || exists x, y :: SplitsAtDot(body, x, y)
  {
    if exists id', body' :: OtherReading(t, id, body, id', body') {
      var id', body' :| OtherReading(t, id, body, id', body');
      SigningBaseReadings(t, id, body, t, id', body');
      if Moves(id, body, id', body') {
        var x :| MovesOver(id, body, id', body', x);
        assert SplitsAtDot(body, x, body');
      } else {
        var x :| MovesOver(id', body', id, body, x);
        assert id[|id'|] == DOT;
      }
    }
    if DOT in id {
      var a, b := DotSplits(id);
      DottedIdIsAmbiguous(t, a, b, body);
    }
    if exists x, y :: SplitsAtDot(body, x, y) {
      var x, y :| SplitsAtDot(body, x, y);
      DottedBodyIsAmbiguous(t, id, x, y);
    }
  }

  /** With a dot in the id: the rest of the id can be read as the start of the body. */
  lemma DottedIdIsAmbiguous(t: nat, a: Text, b: Text, body: seq<Byte>)
    requires Paired(a + [DOT] + b)
    ensures OtherReading(t, a + [DOT] + b, body, a, Utf8(b) + [DOT] + body)
  {
    PairedParts(a, b);
    MoveDot(t, a, b, body);
  }

  /** With a dot in the body: the text before it can be read as the rest of the id. */
  lemma DottedBodyIsAmbiguous(t: nat, id: Text, x: Text, y: seq<Byte>)
    requires Paired(id) && Paired(x)
    ensures OtherReading(t, id, Utf8(x) + [DOT] + y, id + [DOT] + x, y)
  {
    PairedParts(id, x);
    MoveDot(t, id, x, y);
  }

  ghost predicate DotParts(id: Text, a: Text, b: Text) { id == a + [DOT] + b }

  /** What an HTTP header value can hold: a tab, or a byte above the control characters but not DEL. */
  predicate IsHeaderText(t: Text) { forall u :: u in t ==> u == 9 || 32 <= u <= 126 || 128 <= u <= 255 }

  lemma {:induction false} HeaderIsPaired(t: Text)
    requires IsHeaderText(t)
    ensures Paired(t)
  {
    if t != [] {
      assert t[0] in t && forall u :: u in t[1..] ==> u in t;
      HeaderIsPaired(t[1..]);
    }
  }

  /** What the verifier takes for an id: a trimmed, non-empty header value. */
  ghost predicate IsDeliveryId(id: Text) { IsHeaderText(id) && id != [] && IsTrimmed(id) }

  /** The shorter id of a dotted one is an id, or the id continued into the body is one. */
  ghost predicate Ambiguous(id: Text, body: seq<Byte>) {
    || (exists a: Text, b: Text :: DotParts(id, a, b) && IsDeliveryId(a))
    || (exists x: Text, y: seq<Byte> :: SplitsAtDot(body, x, y) && IsDeliveryId(id + [DOT] + x))
  }

  /** The same, among the readings that the verifier would accept. */
  lemma AmbiguousDeliveryIff(t: nat, id: Text, body: seq<Byte>)
    requires Paired(id)
    ensures (exists id': Text, body': seq<Byte> :: OtherReading(t, id, body, id', body') && IsDeliveryId(id')) <==> Ambiguous(id, body)
  {
    if exists id': Text, body': seq<Byte> :: OtherReading(t, id, body, id', body') && IsDeliveryId(id') {
      var id': Text, body': seq<Byte> :| OtherReading(t, id, body, id', body') && IsDeliveryId(id');
      SigningBaseReadings(t, id, body, t, id', body');
      if Moves(id, body, id', body') {
        var x :| MovesOver(id, body, id', body', x);
        assert SplitsAtDot(body, x, body') && IsDeliveryId(id + [DOT] + x);
      } else {
        var x :| MovesOver(id', body', id, body, x);
        assert DotParts(id, id', x);
      }
    }
    if Ambiguous(id, body) { AmbiguousHasReading(t, id, body); }
  }

  lemma AmbiguousHasReading(t: nat, id: Text, body: seq<Byte>)
    requires Paired(id) && Ambiguous(id, body)
    ensures exists id': Text, body': seq<Byte> :: OtherReading(t, id, body, id', body') && IsDeliveryId(id')
  {
    if a: Text, b: Text :| DotParts(id, a, b) && IsDeliveryId(a) {
      ShorterReading(t, id, body, a, b);
    } else {
      var x: Text, y: seq<Byte> :| SplitsAtDot(body, x, y) && IsDeliveryId(id + [DOT] + x);
      LongerReading(t, id, body, x, y, id + [DOT] + x);
    }
  }

  lemma ShorterReading(t: nat, id: Text, body: seq<Byte>, a: Text, b: Text)
    requires Paired(id) && DotParts(id, a, b)
    ensures OtherReading(t, id, body, a, Utf8(b) + [DOT] + body)
  {
    DottedIdIsAmbiguous(t, a, b, body);
  }

  lemma LongerReading(t: nat, id: Text, body: seq<Byte>, x: Text, y: seq<Byte>, id': Text)
    requires Paired(id) && SplitsAtDot(body, x, y) && id' == id + [DOT] + x
    ensures OtherReading(t, id, body, id', y)
  {
    DottedBodyIsAmbiguous(t, id, x, y);
  }

  // ---------- verifying ----------

  datatype Reason =
    | MissingSignature | MissingTimestamp | MissingDeliveryId
    | MalformedSignature | MalformedTimestamp | TimestampOutsideTolerance | SignatureMismatch

  datatype Result = Verified(deliveryId: Text, timestamp: nat) | Rejected(reason: Reason)

  datatype Delivery = Delivery(
    rawBody: seq<Byte>, signatureHeader: Option<Text>, timestampHeader: Option<Text>, deliveryIdHeader: Option<Text>)

  /** `/^v1=([0-9a-f]{64})$/` */
  predicate IsSignature(t: Text) { |t| == 67 && t[..3] == V1 && IsDigest(t[3..]) }

  function Abs(x: int): nat { if x < 0 then -x else x }

  /** Everything that is checked before the signature itself. */
  function Screen(d: Delivery, now: int, tolerance: int): Result {
    var signature, stamp, id := NonEmpty(d.signatureHeader), NonEmpty(d.timestampHeader), NonEmpty(d.deliveryIdHeader);
    if signature.None? then Rejected(MissingSignature)
    else if stamp.None? then Rejected(MissingTimestamp)
    else if id.None? then Rejected(MissingDeliveryId)
    else if !IsSignature(signature.value) then Rejected(MalformedSignature)
    else if !IsNumeral(stamp.value) then Rejected(MalformedTimestamp)
    else if NumeralValue(stamp.value) > MAX_SAFE_INTEGER then Rejected(MalformedTimestamp)
    else if Abs(now - NumeralValue(stamp.value)) > tolerance then Rejected(TimestampOutsideTolerance)
    else Verified(id.value, NumeralValue(stamp.value))
  }

  /** What verification decides: the screening, then whether some secret signed these bytes. */
  function Verify(hmac: Hmac, secrets: seq<Text>, d: Delivery, now: int, tolerance: int): Result {
    var screened := Screen(d, now, tolerance);
    if screened.Rejected? then screened
    else if exists secret :: secret in secrets
              && ComputeSignatureHeader(hmac, secret, screened.timestamp, screened.deliveryId, d.rawBody)
                 == NonEmpty(d.signatureHeader).value then screened
    else Rejected(SignatureMismatch)
  }

  ghost predicate SomeMatches(hmac: Hmac, secrets: seq<Text>, base: seq<Byte>, provided: seq<Byte>) {
    exists secret :: secret in secrets && hmac(secret, base) == provided
  }

  lemma SomeMatchesMore(hmac: Hmac, secrets: seq<Text>, secret: Text, base: seq<Byte>, provided: seq<Byte>)
    ensures SomeMatches(hmac, secrets + [secret], base, provided) <==>
              SomeMatches(hmac, secrets, base, provided) || hmac(secret, base) == provided
  {
    assert secret in secrets + [secret];
    assert forall x :: x in secrets + [secret] <==> x in secrets || x == secret;
  }

  /** The verifier: every secret is tried, and the outcomes are accumulated. */
  method VerifyWebhookSignature(hmac: Hmac, secrets: seq<Text>, d: Delivery, now: int, toleranceSeconds: Option<int>)
      returns (r: Result)
    ensures r == Verify(hmac, secrets, d, now, match toleranceSeconds case Some(seconds) => seconds case None => 5 * 60)
  {
    var tolerance := if toleranceSeconds.Some? then toleranceSeconds.value else 300;
    r := Screen(d, now, tolerance);
    if r.Rejected? { return; }
    var signature := NonEmpty(d.signatureHeader).value;
    var provided := FromHex(signature[3..]);
    var base := SigningBase(r.timestamp, r.deliveryId, d.rawBody);
    var matched := false;
    for i := 0 to |secrets|
      invariant matched <==> SomeMatches(hmac, secrets[..i], base, provided)
    {
      var candidate := hmac(secrets[i], base);
      assert secrets[..i + 1] == secrets[..i] + [secrets[i]];
      SomeMatchesMore(hmac, secrets[..i], secrets[i], base, provided);
      matched := matched || candidate == provided;
    }
    assert secrets[..|secrets|] == secrets;
    forall secret | secret in secrets
      ensures hmac(secret, base) == provided <==> V1 + Hex(hmac(secret, base)) == signature
    {
      SignatureMatches(hmac(secret, base), signature);
    }
    if !matched { r := Rejected(SignatureMismatch); }
  }

  lemma SignatureMatches(d: Digest, signature: Text)
    requires IsSignature(signature)
    ensures d == FromHex(signature[3..]) <==> V1 + Hex(d) == signature
  {
    assert signature == V1 + signature[3..];
    if V1 + Hex(d) == signature {
      assert Hex(d) == (V1 + Hex(d))[3..];
      HexInjective(d, FromHex(signature[3..]));
    }
  }

  lemma SignatureHasShape(hmac: Hmac, secret: Text, timestamp: nat, deliveryId: Text, rawBody: seq<Byte>)
    ensures var h := ComputeSignatureHeader(hmac, secret, timestamp, deliveryId, rawBody);
            IsSignature(h) && IsTrimmed(h) && h != []
  {
    var hex := Hex(hmac(secret, SigningBase(timestamp, deliveryId, rawBody)));
    assert (V1 + hex)[..3] == V1 && (V1 + hex)[3..] == hex;
  }

  lemma NumeralIsTrimmed(t: Text)
    requires IsNumeral(t)
    ensures IsTrimmed(t)
  {
    assert IsDigit(t[0]) && IsDigit(t[|t| - 1]);
  }

  /** MAIN: a delivery verifies exactly when its headers, trimmed, are a non-empty id, the
      plain decimal of a safe timestamp within tolerance, and the header the sender computes
      for them and the body under one of the accepted secrets. */
  lemma VerifiedIff(hmac: Hmac, secrets: seq<Text>, d: Delivery, now: int, tolerance: int, id: Text, timestamp: nat)
    ensures Verify(hmac, secrets, d, now, tolerance) == Verified(id, timestamp) <==>
              && NonEmpty(d.deliveryIdHeader) == Some(id)
              && NonEmpty(d.timestampHeader) == Some(Decimal(timestamp))
              && timestamp <= MAX_SAFE_INTEGER && Abs(now - timestamp) <= tolerance
              && exists secret :: secret in secrets
                   && NonEmpty(d.signatureHeader) == Some(ComputeSignatureHeader(hmac, secret, timestamp, id, d.rawBody))
  {
    DecimalRoundTrip(timestamp);
    forall secret { SignatureHasShape(hmac, secret, timestamp, id, d.rawBody); }
    var stamp := NonEmpty(d.timestampHeader);
    if stamp.Some? && IsNumeral(stamp.value) { NumeralRoundTrip(stamp.value); }
  }

  /** The header is the plain decimal of a safe integer. */
  ghost predicate Stamps(header: Text, timestamp: nat) { header == Decimal(timestamp) && timestamp < 0x20_0000_0000_0000 }

  /** The header is the sender's under none of the secrets. */
  ghost predicate Unsigned(hmac: Hmac, secrets: seq<Text>, header: Text, timestamp: nat, id: Text, body: seq<Byte>) {
    forall secret :: secret in secrets ==> header != ComputeSignatureHeader(hmac, secret, timestamp, id, body)
  }

  /** A refusal names the first of these that applies, and each applies exactly when: a header is
      missing, the signature or the timestamp is malformed, the timestamp is out of tolerance, and
      no accepted secret signed these bytes. */
  lemma RejectedIff(hmac: Hmac, secrets: seq<Text>, d: Delivery, now: int, tolerance: int)
    ensures var r := Verify(hmac, secrets, d, now, tolerance);
            var signature, stamp, id := NonEmpty(d.signatureHeader), NonEmpty(d.timestampHeader), NonEmpty(d.deliveryIdHeader);
            var present := signature.Some? && stamp.Some? && id.Some?;
            var shaped := present && IsSignature(signature.value);
            && (r == Rejected(MissingSignature) <==> signature.None?)
            && (r == Rejected(MissingTimestamp) <==> signature.Some? && stamp.None?)
            && (r == Rejected(MissingDeliveryId) <==> signature.Some? && stamp.Some? && id.None?)
            && (r == Rejected(MalformedSignature) <==> present && !shaped)
            && (r == Rejected(MalformedTimestamp) <==> shaped && !exists t: nat :: Stamps(stamp.value, t))
            && (r == Rejected(TimestampOutsideTolerance) <==>
                  shaped && exists t: nat :: Stamps(stamp.value, t) && !(now - tolerance <= t <= now + tolerance))
            && (r == Rejected(SignatureMismatch) <==>
                  shaped && exists t: nat ::
                    Stamps(stamp.value, t) && now - tolerance <= t <= now + tolerance
                    && Unsigned(hmac, secrets, signature.value, t, id.value, d.rawBody))
  {
    var stamp := NonEmpty(d.timestampHeader);
    if stamp.Some? {
      if IsNumeral(stamp.value) { NumeralRoundTrip(stamp.value); }
      forall t: nat ensures Stamps(stamp.value, t) <==> IsNumeral(stamp.value) && NumeralValue(stamp.value) == t <= MAX_SAFE_INTEGER {
        DecimalRoundTrip(t);
      }
      if IsNumeral(stamp.value) && NumeralValue(stamp.value) <= MAX_SAFE_INTEGER { assert Stamps(stamp.value, NumeralValue(stamp.value)); }
    }
  }

  /** A request built by the sender verifies under any secret list that holds its secret. */
  lemma SignThenVerify(
      hmac: Hmac, secrets: seq<Text>, secret: Text, timestamp: nat, deliveryId: Text, rawBody: seq<Byte>,
      now: int, tolerance: int)
    requires secret in secrets && timestamp <= MAX_SAFE_INTEGER && Abs(now - timestamp) <= tolerance
    requires deliveryId != [] && IsTrimmed(deliveryId)
    ensures var d := Delivery(rawBody, Some(ComputeSignatureHeader(hmac, secret, timestamp, deliveryId, rawBody)),
                              Some(Decimal(timestamp)), Some(deliveryId));
            Verify(hmac, secrets, d, now, tolerance) == Verified(deliveryId, timestamp)
  {
    var header := ComputeSignatureHeader(hmac, secret, timestamp, deliveryId, rawBody);
    var d := Delivery(rawBody, Some(header), Some(Decimal(timestamp)), Some(deliveryId));
    DecimalRoundTrip(timestamp);
    NumeralIsTrimmed(Decimal(timestamp));
    SignatureHasShape(hmac, secret, timestamp, deliveryId, rawBody);
    VerifiedIff(hmac, secrets, d, now, tolerance, deliveryId, timestamp);
  }
}
