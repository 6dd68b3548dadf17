/** Sorting by a strict order: the specification behind every `sort` and `orderBy`. */
module Sorting {

  /** A strict order: irreflexive and transitive, hence asymmetric. */
  ghost predicate StrictOrder<T(!new)>(lt: (T, T) -> bool) {
    && (forall x :: !lt(x, x))
    && (forall x, y, z :: lt(x, y) && lt(y, z) ==> lt(x, z))
  }

  ghost predicate SortedBy<T>(s: seq<T>, lt: (T, T) -> bool) {
    forall i, j :: 0 <= i < j < |s| ==> lt(s[i], s[j])
  }

  /** Any two positions of `s` hold comparable elements. */
  ghost predicate Comparable<T>(s: seq<T>, lt: (T, T) -> bool) {
    forall i, j :: 0 <= i < j < |s| ==> lt(s[i], s[j]) || lt(s[j], s[i])
  }

  function Insert<T>(x: T, s: seq<T>, lt: (T, T) -> bool): seq<T> {
    if s == [] || !lt(s[0], x) then [x] + s else [s[0]] + Insert(x, s[1..], lt)
  }

  /** Stable, like `Array.prototype.sort`. */
  function Sort<T>(s: seq<T>, lt: (T, T) -> bool): seq<T> {
    if s == [] then [] else Insert(s[0], Sort(s[1..], lt), lt)
  }

  lemma {:induction false} InsertElements<T>(x: T, s: seq<T>, lt: (T, T) -> bool)
    ensures multiset(Insert(x, s, lt)) == multiset(s) + multiset{x}
  {
    if s == [] || !lt(s[0], x) {
    } else {
      InsertElements(x, s[1..], lt);
      assert s == [s[0]] + s[1..];
    }
  }

  lemma {:induction false} SortElements<T>(s: seq<T>, lt: (T, T) -> bool)
    ensures multiset(Sort(s, lt)) == multiset(s)
    ensures |Sort(s, lt)| == |s|
    ensures forall x :: x in Sort(s, lt) <==> x in s
  {
    if s != [] {
      SortElements(s[1..], lt);
      InsertElements(s[0], Sort(s[1..], lt), lt);
      assert s == [s[0]] + s[1..];
      assert |multiset(Sort(s, lt))| == |multiset(s)|;
    }
    forall x ensures x in Sort(s, lt) <==> x in s {
      assert x in Sort(s, lt) <==> x in multiset(Sort(s, lt));
    }
  }

  lemma {:induction false} InsertSorted<T(!new)>(x: T, s: seq<T>, lt: (T, T) -> bool)
    requires StrictOrder(lt) && SortedBy(s, lt)
    requires forall y :: y in s ==> lt(x, y) || lt(y, x)
    ensures SortedBy(Insert(x, s, lt), lt)
  {
    if s == [] || !lt(s[0], x) {
      assert forall i :: 0 < i < |s| ==> lt(s[0], s[i]);
    } else {
      var rest := s[1..];
      InsertSorted(x, rest, lt);
      InsertElements(x, rest, lt);
      var t := Insert(x, rest, lt);
      forall i | 0 <= i < |t| ensures lt(s[0], t[i]) {
        assert t[i] in multiset(t);
        assert t[i] in rest || t[i] == x;
        assert s[0] in s;
      }
    }
  }

  lemma {:induction false} SortSorted<T(!new)>(s: seq<T>, lt: (T, T) -> bool)
    requires StrictOrder(lt) && Comparable(s, lt)
    ensures SortedBy(Sort(s, lt), lt)
  {
    if s != [] {
      SortSorted(s[1..], lt);
      SortElements(s[1..], lt);
      forall y | y in Sort(s[1..], lt) ensures lt(s[0], y) || lt(y, s[0]) {
        var i :| 0 <= i < |s[1..]| && s[1..][i] == y;
        assert s[i + 1] == y;
      }
      InsertSorted(s[0], Sort(s[1..], lt), lt);
    }
  }

  /** A strict order in which being incomparable is transitive too, as for keys that may repeat. */
  ghost predicate WeakOrder<T(!new)>(lt: (T, T) -> bool) {
    StrictOrder(lt) && forall x, y, z :: lt(x, z) ==> lt(x, y) || lt(y, z)
  }

  /** Sorted, where elements with the same key may repeat. */
  ghost predicate Ascending<T>(s: seq<T>, lt: (T, T) -> bool) {
    forall i, j :: 0 <= i < j < |s| ==> !lt(s[j], s[i])
  }

  lemma {:induction false} InsertAscending<T(!new)>(x: T, s: seq<T>, lt: (T, T) -> bool)
    requires WeakOrder(lt) && Ascending(s, lt)
    ensures Ascending(Insert(x, s, lt), lt)
  {
    if s == [] || !lt(s[0], x) {
      forall i | 0 <= i < |s| ensures !lt(s[i], x) {
        assert i > 0 ==> !lt(s[i], s[0]);
      }
    } else {
      var rest := s[1..];
      InsertAscending(x, rest, lt);
      InsertElements(x, rest, lt);
      var t := Insert(x, rest, lt);
      forall i | 0 <= i < |t| ensures !lt(t[i], s[0]) {
        assert t[i] in multiset(t);
        assert t[i] in rest || t[i] == x;
      }
    }
  }

  /** What `sort` leaves is in ascending order. */
  lemma {:induction false} SortAscending<T(!new)>(s: seq<T>, lt: (T, T) -> bool)
    requires WeakOrder(lt)
    ensures Ascending(Sort(s, lt), lt)
  {
    if s != [] {
      SortAscending(s[1..], lt);
      InsertAscending(s[0], Sort(s[1..], lt), lt);
    }
  }

  /** Strictly sorted sequences are determined by their elements. */
  lemma {:induction false} SortedUnique<T(!new)>(s: seq<T>, t: seq<T>, lt: (T, T) -> bool)
    requires StrictOrder(lt) && SortedBy(s, lt) && SortedBy(t, lt)
    requires forall x :: x in s <==> x in t
    ensures s == t
  {
    assert t != [] ==> t[0] in s;
    assert s != [] ==> s[0] in t;
    if s != [] {
      assert s[0] == t[0];
      forall x ensures x in s[1..] <==> x in t[1..] {
        if x in s[1..] { TailMember(s, t, x, lt); }
        if x in t[1..] { TailMember(t, s, x, lt); }
      }
      SortedUnique(s[1..], t[1..], lt);
      assert s == [s[0]] + s[1..] && t == [t[0]] + t[1..];
    }
  }

  lemma TailMember<T(!new)>(s: seq<T>, t: seq<T>, x: T, lt: (T, T) -> bool)
    requires StrictOrder(lt) && SortedBy(s, lt)
    requires s != [] && t != [] && s[0] == t[0]
    requires forall y :: y in s ==> y in t
    requires x in s[1..]
    ensures x in t[1..]
  {
    var i :| 0 <= i < |s[1..]| && s[1..][i] == x;
    assert s[i + 1] == x && lt(s[0], x);
    assert x in t;
    var j :| 0 <= j < |t| && t[j] == x;
    assert j != 0;
    assert t[1..][j - 1] == x;
  }

  lemma SortOfSorted<T(!new)>(s: seq<T>, lt: (T, T) -> bool)
    requires StrictOrder(lt) && SortedBy(s, lt)
    ensures Sort(s, lt) == s
  {
    SortElements(s, lt);
    SortSorted(s, lt);
    SortedUnique(Sort(s, lt), s, lt);
  }
}
