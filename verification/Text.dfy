/** JavaScript strings: sequences of UTF-16 code units, their order and decimal printing. */
module Text {
  import opened Sorting

  type CodeUnit = u: int | 0 <= u < 0x10000

  /** A JavaScript string. */
  type Text = seq<CodeUnit>

  datatype Option<+T> = None | Some(value: T)

  /** The text of an ASCII literal. */
  function Ascii(s: string): (t: Text)
    requires forall i :: 0 <= i < |s| ==> s[i] < 128 as char
    ensures |t| == |s|
    ensures forall i :: 0 <= i < |s| ==> t[i] == s[i] as int
  {
    seq(|s|, i requires 0 <= i < |s| => s[i] as int)
  }

  /** The halves of a surrogate pair. */
  predicate IsHigh(u: CodeUnit) { 0xD800 <= u <= 0xDBFF }
  predicate IsLow(u: CodeUnit) { 0xDC00 <= u <= 0xDFFF }

  // ---------- the `<` of JavaScript strings ----------

  predicate LexLess(a: Text, b: Text) {
    b != [] && (a == [] || a[0] < b[0] || (a[0] == b[0] && LexLess(a[1..], b[1..])))
  }

  lemma {:induction false} LexIrreflexive(a: Text)
    ensures !LexLess(a, a)
  {
    if a != [] { LexIrreflexive(a[1..]); }
  }

  lemma {:induction false} LexTransitive(a: Text, b: Text, c: Text)
    requires LexLess(a, b) && LexLess(b, c)
    ensures LexLess(a, c)
  {
    if a != [] && a[0] == b[0] && b[0] == c[0] {
      LexTransitive(a[1..], b[1..], c[1..]);
    }
  }

  lemma {:induction false} LexTotal(a: Text, b: Text)
    ensures a == b || LexLess(a, b) || LexLess(b, a)
  {
    if a != [] && b != [] && a[0] == b[0] {
      LexTotal(a[1..], b[1..]);
      assert a == [a[0]] + a[1..] && b == [b[0]] + b[1..];
    }
  }

  /** `a` and `b` first differ at `k`, where `a` has ended or holds the smaller code unit. */
  ghost predicate SmallerAt(a: Text, b: Text, k: nat) {
    k <= |a| && k < |b| && a[..k] == b[..k] && (k < |a| ==> a[k] < b[k])
  }

  /** The order is decided by the first difference. */
  lemma {:induction false} LexMeaning(a: Text, b: Text)
    ensures LexLess(a, b) <==> exists k :: SmallerAt(a, b, k)
  {
    if a != [] && b != [] && a[0] == b[0] {
      LexMeaning(a[1..], b[1..]);
      if k: nat :| SmallerAt(a[1..], b[1..], k) {
        assert a[..k + 1] == [a[0]] + a[1..][..k] && b[..k + 1] == [b[0]] + b[1..][..k];
        assert SmallerAt(a, b, k + 1);
      }
      if k: nat :| SmallerAt(a, b, k) {
        assert a[1..][..k - 1] == a[..k][1..] && b[1..][..k - 1] == b[..k][1..];
        assert SmallerAt(a[1..], b[1..], k - 1);
      }
    } else {
      assert LexLess(a, b) ==> SmallerAt(a, b, 0);
      if k: nat :| SmallerAt(a, b, k) { assert k > 0 ==> a[..k][0] == b[..k][0]; }
    }
  }

  lemma LexIsStrictOrder()
    ensures StrictOrder(LexLess)
  {
    forall x: Text ensures !LexLess(x, x) { LexIrreflexive(x); }
    forall x, y, z | LexLess(x, y) && LexLess(y, z) ensures LexLess(x, z) { LexTransitive(x, y, z); }
  }

  lemma LexIsWeakOrder()
    ensures WeakOrder(LexLess)
  {
    LexIsStrictOrder();
    forall x, y, z | LexLess(x, z) ensures LexLess(x, y) || LexLess(y, z) {
      LexTotal(x, y);
    }
  }

  // ---------- decimal numerals ----------

  predicate IsDigit(u: CodeUnit) { 48 <= u <= 57 }

  predicate AllDigits(t: Text) { forall i :: 0 <= i < |t| ==> IsDigit(t[i]) }

  /** `^(?:0|[1-9][0-9]*)$` */
  predicate IsNumeral(t: Text) { t != [] && AllDigits(t) && (t[0] == 48 ==> |t| == 1) }

  function Decimal(n: nat): Text {
    if n < 10 then [48 + n] else Decimal(n / 10) + [48 + n % 10]
  }

  function NumeralValue(t: Text): nat
    requires AllDigits(t)
  {
    if t == [] then 0 else 10 * NumeralValue(t[..|t| - 1]) + (t[|t| - 1] - 48)
  }

  /** Decimal printing is undone by reading. */
  lemma {:induction false} DecimalRoundTrip(n: nat)
    ensures IsNumeral(Decimal(n)) && NumeralValue(Decimal(n)) == n
    ensures n > 0 ==> Decimal(n)[0] != 48
  {
    if n >= 10 {
      DecimalRoundTrip(n / 10);
      assert Decimal(n)[..|Decimal(n)| - 1] == Decimal(n / 10);
    } else {
      assert Decimal(n)[..0] == [];
      assert NumeralValue([]) == 0;
    }
  }

  lemma {:induction false} NumeralPositive(t: Text)
    requires t != [] && AllDigits(t) && t[0] != 48
    ensures NumeralValue(t) > 0
  {
    if |t| > 1 { NumeralPositive(t[..|t| - 1]); }
  }

  /** A numeral without leading zeros is the one the printer gives. */
  lemma {:induction false} NumeralRoundTrip(t: Text)
    requires IsNumeral(t)
    ensures Decimal(NumeralValue(t)) == t
  {
    if |t| == 1 {
      assert t[..0] == [];
      assert NumeralValue([]) == 0;
      assert t == [t[0]];
    } else {
      var front := t[..|t| - 1];
      NumeralRoundTrip(front);
      NumeralPositive(front);
      assert NumeralValue(t) / 10 == NumeralValue(front);
      assert t == front + [t[|t| - 1]];
    }
  }

  lemma DecimalInjective(m: nat, n: nat)
    requires Decimal(m) == Decimal(n)
    ensures m == n
  {
    DecimalRoundTrip(m);
    DecimalRoundTrip(n);
  }

  /** `toString()` of a whole number or bigint. */
  function Integer(n: int): Text {
    if n < 0 then [45] + Decimal(-n) else Decimal(n)
  }

  lemma IntegerInjective(m: int, n: int)
    requires Integer(m) == Integer(n)
    ensures m == n
  {
    var a, b := if m < 0 then -m else m, if n < 0 then -n else n;
    DecimalRoundTrip(a);
    DecimalRoundTrip(b);
    assert m < 0 ==> Integer(m)[1..] == Decimal(a);
    assert n < 0 ==> Integer(n)[1..] == Decimal(b);
  }

  // ---------- lower-case hexadecimal ----------

  predicate IsHexDigit(u: CodeUnit) { IsDigit(u) || 97 <= u <= 102 }

  function HexDigit(n: int): (u: CodeUnit)
    requires 0 <= n < 16
    ensures IsHexDigit(u)
  {
    if n < 10 then 48 + n else 87 + n
  }

  function HexValue(u: CodeUnit): (n: int)
    requires IsHexDigit(u)
    ensures 0 <= n < 16 && HexDigit(n) == u
  {
    if u <= 57 then u - 48 else u - 87
  }

  /** A lower-case SHA-256 digest in hexadecimal. */
  predicate IsDigest(t: Text) { |t| == 64 && forall i :: 0 <= i < |t| ==> IsHexDigit(t[i]) }

  // ---------- joining and splitting ----------

  lemma SplitAt<T>(a: seq<T>, x: seq<T>, b: seq<T>, y: seq<T>, mark: T)
    requires mark !in a && mark !in b && a + [mark] + x == b + [mark] + y
    ensures a == b && x == y
  {
    var t, u := a + [mark] + x, b + [mark] + y;
    assert t[|a|] == mark && u[|b|] == mark;
    assert forall i :: 0 <= i < |a| ==> t[i] == a[i] && a[i] in a;
    assert forall i :: 0 <= i < |b| ==> u[i] == b[i] && b[i] in b;
    assert a == t[..|a|] && b == u[..|b|];
    assert x == t[|a| + 1..] && y == u[|b| + 1..];
  }

  /** `parts.join(mark)` */
  function Join(parts: seq<Text>, mark: CodeUnit): Text {
    if parts == [] then []
    else if |parts| == 1 then parts[0]
    else parts[0] + [mark] + Join(parts[1..], mark)
  }

  ghost predicate Lacks(parts: seq<Text>, mark: CodeUnit) { forall i :: 0 <= i < |parts| ==> mark !in parts[i] }

  lemma JoinMarked(parts: seq<Text>, mark: CodeUnit)
    requires |parts| > 1
    ensures mark in Join(parts, mark)
  {
    assert Join(parts, mark)[|parts[0]|] == mark;
  }

  /** Parts that do not contain the mark can be read back from their join. */
  lemma {:induction false} JoinInjective(a: seq<Text>, b: seq<Text>, mark: CodeUnit)
    requires |a| > 0 && |b| > 0 && Lacks(a, mark) && Lacks(b, mark)
    requires Join(a, mark) == Join(b, mark)
    ensures a == b
  {
    if |a| > 1 { JoinMarked(a, mark); }
    if |b| > 1 { JoinMarked(b, mark); }
    if |a| > 1 && |b| > 1 {
      SplitAt(a[0], Join(a[1..], mark), b[0], Join(b[1..], mark), mark);
      JoinInjective(a[1..], b[1..], mark);
      assert a == [a[0]] + a[1..] && b == [b[0]] + b[1..];
    } else {
      assert a == [a[0]] && b == [b[0]];
    }
  }
}
