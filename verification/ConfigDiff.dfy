/** The semantic difference of two snapshots, as a patch that can be applied and undone. */
module ConfigDiff {
  import opened Sorting
  import opened Text
  import opened Json
  import opened ConfigSnapshot
  import ConfigDocument
  import ConfigPartition
  import Canonical

  datatype Snapshot = Snapshot(entries: seq<Entry>, excluded: seq<Excluded>)

  datatype Change = Change(path: Text, before: Js, after: Js)

  datatype Diff = Diff(
    identical: bool, added: seq<Entry>, removed: seq<Entry>, changed: seq<Change>,
    excludedAdded: seq<Text>, excludedRemoved: seq<Text>)

  // ---------- values ----------

  /** A scalar or a list of scalars with a JSON form. */
  ghost predicate IsConfigValue(v: Js) { ConfigDocument.Parsed(v) && IsSetting(v) }

  ghost predicate IsSnapshot(s: Snapshot) {
    DistinctKeys(s.entries) && forall e :: e in s.entries ==> IsConfigValue(e.value)
  }

  predicate SameText(v: Js, w: Js, iso: Iso) { ConfigDocument.Canonicalize(v, iso) == ConfigDocument.Canonicalize(w, iso) }

  lemma {:induction false} ScalarsFromContent(a: seq<Js>, b: seq<Js>, iso: Iso)
    requires forall x :: x in a ==> IsConfigValue(x) && IsScalar(x)
    requires forall x :: x in b ==> IsConfigValue(x) && IsScalar(x)
    requires Canonical.MeaningOfItems(a, {PROTO}, iso) == Canonical.MeaningOfItems(b, {PROTO}, iso)
    ensures a == b
    decreases |a|
  {
    var x, y := Canonical.MeaningOfItems(a, {PROTO}, iso), Canonical.MeaningOfItems(b, {PROTO}, iso);
    if a != [] && b != [] {
      assert a[0] in a && b[0] in b;
      assert x[0] == y[0] && x[1..] == y[1..];
      ScalarsFromContent(a[1..], b[1..], iso);
      assert a == [a[0]] + a[1..] && b == [b[0]] + b[1..];
    }
  }

  /** Comparing canonical texts compares values: `1` and `"1"` differ. */
  lemma SameTextIsSameValue(v: Js, w: Js, iso: Iso)
    requires IsConfigValue(v) && IsConfigValue(w)
    ensures SameText(v, w, iso) <==> v == w
  {
    ConfigDocument.SameTextSameContent(v, w, iso);
    if v.Arr? && w.Arr? && SameText(v, w, iso) {
      ScalarsFromContent(v.items, w.items, iso);
    }
  }

  // ---------- the loop ----------

  function Keys(es: seq<Entry>): (ks: seq<Text>)
    ensures |ks| == |es| && forall i :: 0 <= i < |es| ==> ks[i] == es[i].key
  {
    seq(|es|, i requires 0 <= i < |es| => es[i].key)
  }

  /** `[...new Set(ks)]` */
  function Unique(ks: seq<Text>): seq<Text> {
    if ks == [] then []
    else
      var init, last := Unique(ks[..|ks| - 1]), ks[|ks| - 1];
      if last in init then init else init + [last]
  }

  function AllPaths(base: Snapshot, target: Snapshot): seq<Text> {
    Sort(Unique(Keys(base.entries) + Keys(target.entries)), LexLess)
  }

  function Added(paths: seq<Text>, base: seq<Entry>, target: seq<Entry>): seq<Entry> {
    if paths == [] then []
    else if Lookup(base, paths[0]).None? && Lookup(target, paths[0]).Some?
    then [Entry(paths[0], Lookup(target, paths[0]).value)] + Added(paths[1..], base, target)
    else Added(paths[1..], base, target)
  }

  function Changed(paths: seq<Text>, base: seq<Entry>, target: seq<Entry>, iso: Iso): seq<Change> {
    if paths == [] then []
    else if Differs(paths[0], base, target, iso)
    then [Change(paths[0], Lookup(base, paths[0]).value, Lookup(target, paths[0]).value)] + Changed(paths[1..], base, target, iso)
    else Changed(paths[1..], base, target, iso)
  }

  predicate Differs(path: Text, base: seq<Entry>, target: seq<Entry>, iso: Iso) {
    && Lookup(base, path).Some? && Lookup(target, path).Some?
    && !SameText(Lookup(base, path).value, Lookup(target, path).value, iso)
  }

  function ExcludedPaths(s: Snapshot): (ks: seq<Text>)
    ensures |ks| == |s.excluded| && forall i :: 0 <= i < |ks| ==> ks[i] == s.excluded[i].path
  {
    seq(|s.excluded|, i requires 0 <= i < |s.excluded| => s.excluded[i].path)
  }

  function Lacking(ks: seq<Text>, other: seq<Text>): seq<Text> {
    if ks == [] then []
    else if ks[0] in other then Lacking(ks[1..], other)
    else [ks[0]] + Lacking(ks[1..], other)
  }

  /** Excluded paths of `there` that are not excluded in `here`, sorted. */
  function OnlyExcludedIn(there: Snapshot, here: Snapshot): seq<Text> {
    Sort(Lacking(Unique(ExcludedPaths(there)), ExcludedPaths(here)), LexLess)
  }

  function DiffOf(base: Snapshot, target: Snapshot, iso: Iso): Diff {
    var paths := AllPaths(base, target);
    var added, removed := Added(paths, base.entries, target.entries), Added(paths, target.entries, base.entries);
    var changed := Changed(paths, base.entries, target.entries, iso);
    var excludedAdded, excludedRemoved := OnlyExcludedIn(target, base), OnlyExcludedIn(base, target);
    Diff(added == [] && removed == [] && changed == [] && excludedAdded == [] && excludedRemoved == [],
         added, removed, changed, excludedAdded, excludedRemoved)
  }

  method DiffSnapshots(base: Snapshot, target: Snapshot, iso: Iso) returns (diff: Diff)
    ensures diff == DiffOf(base, target, iso)
  {
    var paths := AllPaths(base, target);
    var added: seq<Entry>, removed: seq<Entry>, changed: seq<Change> := [], [], [];
    ghost var b, t := base.entries, target.entries;
    for i := 0 to |paths|
      invariant added + Added(paths[i..], b, t) == Added(paths, b, t)
      invariant removed + Added(paths[i..], t, b) == Added(paths, t, b)
      invariant changed + Changed(paths[i..], b, t, iso) == Changed(paths, b, t, iso)
    {
      var path := paths[i];
      assert paths[i..][0] == path && paths[i..][1..] == paths[i + 1..];
      var before, after := Lookup(base.entries, path), Lookup(target.entries, path);
      if before.Some? && after.None? {
        removed := removed + [Entry(path, before.value)];
      } else if before.None? && after.Some? {
        added := added + [Entry(path, after.value)];
      } else if before.Some? && !SameText(before.value, after.value, iso) {
        changed := changed + [Change(path, before.value, after.value)];
      }
    }
    var excludedAdded, excludedRemoved := OnlyExcludedIn(target, base), OnlyExcludedIn(base, target);
    diff := Diff(|added| == 0 && |removed| == 0 && |changed| == 0 && |excludedAdded| == 0 && |excludedRemoved| == 0,
                 added, removed, changed, excludedAdded, excludedRemoved);
  }

  // ---------- what the lists say ----------

  lemma {:induction false} UniqueElements(ks: seq<Text>)
    ensures forall k :: k in Unique(ks) <==> k in ks
    ensures Comparable(Unique(ks), LexLess)
  {
    if ks != [] {
      var front, last := ks[..|ks| - 1], ks[|ks| - 1];
      UniqueElements(front);
      assert ks == front + [last];
      var init := Unique(front);
      if last !in init {
        forall i | 0 <= i < |init|
          ensures LexLess(init[i], last) || LexLess(last, init[i])
        {
          assert init[i] in init;
          LexTotal(init[i], last);
        }
      }
    }
  }

  lemma {:induction false} LookupNone(es: seq<Entry>, k: Text)
    ensures Lookup(es, k).Some? <==> k in Keys(es)
  {
    if es != [] {
      LookupNone(es[1..], k);
      assert Keys(es) == [es[0].key] + Keys(es[1..]);
    }
  }

  /** Both directions look at the same paths, in the same order. */
  lemma PathsAgree(base: Snapshot, target: Snapshot)
    ensures AllPaths(base, target) == AllPaths(target, base)
    ensures SortedBy(AllPaths(base, target), LexLess)
    ensures forall k :: k in AllPaths(base, target) <==> Lookup(base.entries, k).Some? || Lookup(target.entries, k).Some?
  {
    var x, y := Keys(base.entries) + Keys(target.entries), Keys(target.entries) + Keys(base.entries);
    UniqueElements(x);
    UniqueElements(y);
    LexIsStrictOrder();
    SortElements(Unique(x), LexLess);
    SortElements(Unique(y), LexLess);
    SortSorted(Unique(x), LexLess);
    SortSorted(Unique(y), LexLess);
    SortedUnique(Sort(Unique(x), LexLess), Sort(Unique(y), LexLess), LexLess);
    forall k: Text
      ensures k in AllPaths(base, target) <==> Lookup(base.entries, k).Some? || Lookup(target.entries, k).Some?
    {
      LookupNone(base.entries, k);
      LookupNone(target.entries, k);
    }
  }

  lemma {:induction false} AddedLookup(paths: seq<Text>, base: seq<Entry>, target: seq<Entry>, k: Text)
    ensures Lookup(Added(paths, base, target), k)
      == if k in paths && Lookup(base, k).None? then Lookup(target, k) else None
  {
    if paths != [] {
      AddedLookup(paths[1..], base, target, k);
      assert paths == [paths[0]] + paths[1..];
    }
  }

  function Afters(cs: seq<Change>): seq<Entry> {
    if cs == [] then [] else [Entry(cs[0].path, cs[0].after)] + Afters(cs[1..])
  }

  lemma {:induction false} ChangedLookup(paths: seq<Text>, base: seq<Entry>, target: seq<Entry>, iso: Iso, k: Text)
    ensures Lookup(Afters(Changed(paths, base, target, iso)), k)
      == if k in paths && Differs(k, base, target, iso) then Lookup(target, k) else None
  {
    if paths != [] {
      ChangedLookup(paths[1..], base, target, iso, k);
      assert paths == [paths[0]] + paths[1..];
    }
  }

  // ---------- applying a difference ----------

  /** A snapshot's entries as the mapping they stand for. */
  function Settings(es: seq<Entry>): map<Text, Js> {
    map k | k in Keys(es) :: (LookupNone(es, k); Lookup(es, k).value)
  }

  lemma SettingsIs(es: seq<Entry>, k: Text)
    ensures k in Settings(es) <==> Lookup(es, k).Some?
    ensures k in Settings(es) ==> Settings(es)[k] == Lookup(es, k).value
  {
    LookupNone(es, k);
  }

  function KeySet(es: seq<Entry>): set<Text> { set k | k in Keys(es) }

  function Apply(settings: map<Text, Js>, diff: Diff): map<Text, Js> {
    settings - KeySet(diff.removed) + Settings(Afters(diff.changed)) + Settings(diff.added)
  }

  lemma StoredIsConfigValue(s: Snapshot, k: Text)
    requires IsSnapshot(s) && Lookup(s.entries, k).Some?
    ensures IsConfigValue(Lookup(s.entries, k).value)
  {
    LookupMember(s.entries, k, Lookup(s.entries, k).value);
  }

  /** What the difference says about one path, against what the two snapshots hold there. */
  lemma ApplyAt(base: Snapshot, target: Snapshot, iso: Iso, k: Text)
    requires IsSnapshot(base) && IsSnapshot(target)
    ensures var patched := Apply(Settings(base.entries), DiffOf(base, target, iso));
            && (k in patched <==> Lookup(target.entries, k).Some?)
            && (k in patched ==> patched[k] == Lookup(target.entries, k).value)
  {
    var paths, d := AllPaths(base, target), DiffOf(base, target, iso);
    PathsAgree(base, target);
    AddedLookup(paths, base.entries, target.entries, k);
    AddedLookup(paths, target.entries, base.entries, k);
    ChangedLookup(paths, base.entries, target.entries, iso, k);
    SettingsIs(base.entries, k);
    SettingsIs(d.added, k);
    SettingsIs(Afters(d.changed), k);
    LookupNone(d.removed, k);
    if Lookup(base.entries, k).Some? && Lookup(target.entries, k).Some? {
      StoredIsConfigValue(base, k);
      StoredIsConfigValue(target, k);
      SameTextIsSameValue(Lookup(base.entries, k).value, Lookup(target.entries, k).value, iso);
    }
  }

  /** Applying the difference to the base gives the target. */
  lemma DiffLeadsToTarget(base: Snapshot, target: Snapshot, iso: Iso)
    requires IsSnapshot(base) && IsSnapshot(target)
    ensures Apply(Settings(base.entries), DiffOf(base, target, iso)) == Settings(target.entries)
  {
    var patched := Apply(Settings(base.entries), DiffOf(base, target, iso));
    forall k: Text
      ensures k in patched <==> k in Settings(target.entries)
      ensures k in patched ==> patched[k] == Settings(target.entries)[k]
    {
      ApplyAt(base, target, iso, k);
      SettingsIs(target.entries, k);
    }
  }

  // ---------- exactly what is listed ----------

  lemma {:induction false} AddedElements(paths: seq<Text>, base: seq<Entry>, target: seq<Entry>, e: Entry)
    ensures e in Added(paths, base, target) <==>
              e.key in paths && Lookup(base, e.key).None? && Lookup(target, e.key) == Some(e.value)
  {
    if paths != [] {
      AddedElements(paths[1..], base, target, e);
      assert paths == [paths[0]] + paths[1..];
    }
  }

  lemma {:induction false} ChangedElements(paths: seq<Text>, base: seq<Entry>, target: seq<Entry>, iso: Iso, c: Change)
    ensures c in Changed(paths, base, target, iso) <==>
              && c.path in paths && Lookup(base, c.path) == Some(c.before) && Lookup(target, c.path) == Some(c.after)
              && !SameText(c.before, c.after, iso)
  {
    if paths != [] {
      ChangedElements(paths[1..], base, target, iso, c);
      assert paths == [paths[0]] + paths[1..];
    }
  }

  lemma {:induction false} LackingElements(ks: seq<Text>, other: seq<Text>, k: Text)
    ensures k in Lacking(ks, other) <==> k in ks && k !in other
  {
    if ks != [] {
      LackingElements(ks[1..], other, k);
      assert ks == [ks[0]] + ks[1..];
    }
  }

  ghost predicate IsExcluded(s: Snapshot, path: Text) { exists x :: x in s.excluded && x.path == path }

  lemma OnlyExcludedElements(there: Snapshot, here: Snapshot, k: Text)
    ensures k in OnlyExcludedIn(there, here) <==> IsExcluded(there, k) && !IsExcluded(here, k)
  {
    UniqueElements(ExcludedPaths(there));
    LackingElements(Unique(ExcludedPaths(there)), ExcludedPaths(here), k);
    SortElements(Lacking(Unique(ExcludedPaths(there)), ExcludedPaths(here)), LexLess);
    ExcludedPathsElements(there, k);
    ExcludedPathsElements(here, k);
  }

  lemma ExcludedPathsElements(s: Snapshot, k: Text)
    ensures k in ExcludedPaths(s) <==> IsExcluded(s, k)
  {
    if k in ExcludedPaths(s) {
      var i :| 0 <= i < |ExcludedPaths(s)| && ExcludedPaths(s)[i] == k;
      assert s.excluded[i] in s.excluded;
    }
    if x :| x in s.excluded && x.path == k {
      var i :| 0 <= i < |s.excluded| && s.excluded[i] == x;
      assert ExcludedPaths(s)[i] == k;
    }
  }

  /** Every list of a difference holds exactly what its name says: settings only in the target, only
      in the base, or in both with different values, and paths withheld only in one of them. */
  lemma DiffIsExact(base: Snapshot, target: Snapshot, iso: Iso)
    requires IsSnapshot(base) && IsSnapshot(target)
    ensures var d, b, t := DiffOf(base, target, iso), Settings(base.entries), Settings(target.entries);
            && (forall e :: e in d.added <==> e.key !in b && e.key in t && t[e.key] == e.value)
            && (forall e :: e in d.removed <==> e.key in b && e.key !in t && b[e.key] == e.value)
            && (forall c :: c in d.changed <==>
                  c.path in b && c.path in t && b[c.path] == c.before && t[c.path] == c.after && c.before != c.after)
            && (forall k :: k in d.excludedAdded <==> IsExcluded(target, k) && !IsExcluded(base, k))
            && (forall k :: k in d.excludedRemoved <==> IsExcluded(base, k) && !IsExcluded(target, k))
  {
    var d, b, t, paths := DiffOf(base, target, iso), Settings(base.entries), Settings(target.entries), AllPaths(base, target);
    PathsAgree(base, target);
    forall e: Entry
      ensures e in d.added <==> e.key !in b && e.key in t && t[e.key] == e.value
      ensures e in d.removed <==> e.key in b && e.key !in t && b[e.key] == e.value
    {
      AddedElements(paths, base.entries, target.entries, e);
      AddedElements(paths, target.entries, base.entries, e);
      SettingsIs(base.entries, e.key);
      SettingsIs(target.entries, e.key);
    }
    forall c: Change
      ensures c in d.changed <==>
        c.path in b && c.path in t && b[c.path] == c.before && t[c.path] == c.after && c.before != c.after
    {
      ChangeIsListed(base, target, iso, c);
    }
    forall k ensures k in d.excludedAdded <==> IsExcluded(target, k) && !IsExcluded(base, k) { OnlyExcludedElements(target, base, k); }
    forall k ensures k in d.excludedRemoved <==> IsExcluded(base, k) && !IsExcluded(target, k) { OnlyExcludedElements(base, target, k); }
  }

  lemma ChangeIsListed(base: Snapshot, target: Snapshot, iso: Iso, c: Change)
    requires IsSnapshot(base) && IsSnapshot(target)
    ensures var b, t := Settings(base.entries), Settings(target.entries);
            c in DiffOf(base, target, iso).changed <==>
              c.path in b && c.path in t && b[c.path] == c.before && t[c.path] == c.after && c.before != c.after
  {
    PathsAgree(base, target);
    ChangedElements(AllPaths(base, target), base.entries, target.entries, iso, c);
    SettingsIs(base.entries, c.path);
    SettingsIs(target.entries, c.path);
    if Lookup(base.entries, c.path) == Some(c.before) && Lookup(target.entries, c.path) == Some(c.after) {
      StoredIsConfigValue(base, c.path);
      StoredIsConfigValue(target, c.path);
      SameTextIsSameValue(c.before, c.after, iso);
    }
  }

  // ---------- the inverse ----------

  function Reversed(cs: seq<Change>): seq<Change> {
    if cs == [] then [] else [Change(cs[0].path, cs[0].after, cs[0].before)] + Reversed(cs[1..])
  }

  function Inverse(d: Diff): Diff {
    Diff(d.identical, d.removed, d.added, Reversed(d.changed), d.excludedRemoved, d.excludedAdded)
  }

  lemma {:induction false} ChangedReverses(paths: seq<Text>, base: seq<Entry>, target: seq<Entry>, iso: Iso)
    ensures Changed(paths, target, base, iso) == Reversed(Changed(paths, base, target, iso))
  {
    if paths != [] {
      ChangedReverses(paths[1..], base, target, iso);
    }
  }

  lemma {:induction false} ReversedTwice(cs: seq<Change>)
    ensures Reversed(Reversed(cs)) == cs
  {
    if cs != [] { ReversedTwice(cs[1..]); }
  }

  /** Swapping the two snapshots gives the inverse difference, and inverting twice changes nothing. */
  lemma SwapIsInverse(base: Snapshot, target: Snapshot, iso: Iso)
    ensures DiffOf(target, base, iso) == Inverse(DiffOf(base, target, iso))
    ensures Inverse(Inverse(DiffOf(base, target, iso))) == DiffOf(base, target, iso)
  {
    PathsAgree(base, target);
    ChangedReverses(AllPaths(base, target), base.entries, target.entries, iso);
    ReversedTwice(DiffOf(base, target, iso).changed);
  }

  /** So the inverse undoes the difference. */
  lemma InverseLeadsBack(base: Snapshot, target: Snapshot, iso: Iso)
    requires IsSnapshot(base) && IsSnapshot(target)
    ensures var d := DiffOf(base, target, iso);
            Apply(Apply(Settings(base.entries), d), Inverse(d)) == Settings(base.entries)
  {
    DiffLeadsToTarget(base, target, iso);
    SwapIsInverse(base, target, iso);
    DiffLeadsToTarget(target, base, iso);
  }

  // ---------- identical ----------

  lemma {:induction false} LackingNone(ks: seq<Text>, other: seq<Text>)
    ensures Lacking(ks, other) == [] <==> forall k :: k in ks ==> k in other
  {
    if ks != [] {
      LackingNone(ks[1..], other);
      assert ks == [ks[0]] + ks[1..];
    }
  }

  lemma OnlyExcludedNone(there: Snapshot, here: Snapshot)
    ensures OnlyExcludedIn(there, here) == [] <==> forall k :: k in ExcludedPaths(there) ==> k in ExcludedPaths(here)
  {
    var ks := ExcludedPaths(there);
    UniqueElements(ks);
    LackingNone(Unique(ks), ExcludedPaths(here));
    SortElements(Lacking(Unique(ks), ExcludedPaths(here)), LexLess);
  }

  ghost predicate SameExclusions(a: Snapshot, b: Snapshot) {
    forall k :: k in ExcludedPaths(a) <==> k in ExcludedPaths(b)
  }

  lemma {:induction false} NothingAdded(paths: seq<Text>, base: seq<Entry>, target: seq<Entry>)
    requires forall k :: k in paths ==> Lookup(base, k).Some?
    ensures Added(paths, base, target) == []
  {
    if paths != [] {
      assert paths[0] in paths;
      NothingAdded(paths[1..], base, target);
    }
  }

  lemma {:induction false} NothingChanged(paths: seq<Text>, base: seq<Entry>, target: seq<Entry>, iso: Iso)
    requires forall k :: k in paths ==> Lookup(base, k) == Lookup(target, k)
    ensures Changed(paths, base, target, iso) == []
  {
    if paths != [] {
      assert paths[0] in paths;
      NothingChanged(paths[1..], base, target, iso);
    }
  }

  lemma EqualSettingsNoDiff(base: Snapshot, target: Snapshot, iso: Iso)
    requires Settings(base.entries) == Settings(target.entries)
    ensures var d := DiffOf(base, target, iso); d.added == [] && d.removed == [] && d.changed == []
  {
    var paths := AllPaths(base, target);
    PathsAgree(base, target);
    forall k | k in paths
      ensures Lookup(base.entries, k) == Lookup(target.entries, k) && Lookup(base.entries, k).Some?
    {
      SettingsIs(base.entries, k);
      SettingsIs(target.entries, k);
    }
    NothingAdded(paths, base.entries, target.entries);
    NothingAdded(paths, target.entries, base.entries);
    NothingChanged(paths, base.entries, target.entries, iso);
  }

  /** `identical` exactly when the settings agree and the same paths are excluded. */
  lemma IdenticalIff(base: Snapshot, target: Snapshot, iso: Iso)
    requires IsSnapshot(base) && IsSnapshot(target)
    ensures DiffOf(base, target, iso).identical
      <==> Settings(base.entries) == Settings(target.entries) && SameExclusions(base, target)
  {
    var d := DiffOf(base, target, iso);
    OnlyExcludedNone(target, base);
    OnlyExcludedNone(base, target);
    if d.identical {
      DiffLeadsToTarget(base, target, iso);
    }
    if Settings(base.entries) == Settings(target.entries) {
      EqualSettingsNoDiff(base, target, iso);
    }
  }

  // ---------- order ----------

  predicate ChangeLess(a: Change, b: Change) { LexLess(a.path, b.path) }

  lemma {:induction false} AddedSorted(paths: seq<Text>, base: seq<Entry>, target: seq<Entry>)
    requires SortedBy(paths, LexLess)
    ensures SortedBy(Added(paths, base, target), KeyLess)
    ensures forall e :: e in Added(paths, base, target) ==> e.key in paths
  {
    if paths != [] {
      AddedSorted(paths[1..], base, target);
      assert forall k :: k in paths[1..] ==> LexLess(paths[0], k);
    }
  }

  lemma {:induction false} ChangedSorted(paths: seq<Text>, base: seq<Entry>, target: seq<Entry>, iso: Iso)
    requires SortedBy(paths, LexLess)
    ensures SortedBy(Changed(paths, base, target, iso), ChangeLess)
    ensures forall c :: c in Changed(paths, base, target, iso) ==> c.path in paths
  {
    if paths != [] {
      ChangedSorted(paths[1..], base, target, iso);
      assert forall k :: k in paths[1..] ==> LexLess(paths[0], k);
    }
  }

  lemma {:induction false} LackingComparable(ks: seq<Text>, other: seq<Text>)
    requires Comparable(ks, LexLess)
    ensures Comparable(Lacking(ks, other), LexLess)
    ensures forall k :: k in Lacking(ks, other) ==> k in ks
  {
    if ks != [] {
      LackingComparable(ks[1..], other);
      assert forall k :: k in ks[1..] ==> LexLess(ks[0], k) || LexLess(k, ks[0]);
    }
  }

  lemma ExcludedSorted(there: Snapshot, here: Snapshot)
    ensures SortedBy(OnlyExcludedIn(there, here), LexLess)
  {
    UniqueElements(ExcludedPaths(there));
    LackingComparable(Unique(ExcludedPaths(there)), ExcludedPaths(here));
    LexIsStrictOrder();
    SortSorted(Lacking(Unique(ExcludedPaths(there)), ExcludedPaths(here)), LexLess);
  }

  /** Every list of a difference is sorted by path and names each path once. */
  lemma DiffIsSorted(base: Snapshot, target: Snapshot, iso: Iso)
    ensures var d := DiffOf(base, target, iso);
            && SortedBy(d.added, KeyLess) && SortedBy(d.removed, KeyLess) && SortedBy(d.changed, ChangeLess)
            && SortedBy(d.excludedAdded, LexLess) && SortedBy(d.excludedRemoved, LexLess)
  {
    var paths := AllPaths(base, target);
    PathsAgree(base, target);
    AddedSorted(paths, base.entries, target.entries);
    AddedSorted(paths, target.entries, base.entries);
    ChangedSorted(paths, base.entries, target.entries, iso);
    ExcludedSorted(target, base);
    ExcludedSorted(base, target);
  }

  // ---------- flattened configurations ----------

  lemma {:induction false} PlacesAreWellFormed(v: Js, place: ConfigPartition.Place)
    requires WellFormed(v) && ConfigPartition.At(v, place).Some?
    ensures WellFormed(ConfigPartition.At(v, place).value)
    decreases |place|
  {
    if place != [] {
      if v.Obj? { assert v.entries[place[0]] in v.entries; } else { assert v.items[place[0]] in v.items; }
      PlacesAreWellFormed(ChildAt(v, place[0]), place[1..]);
    }
  }

  /** Everything above applies to every snapshot that flattening produces. */
  lemma FlattenedIsSnapshot(policy: Policy, config: Js)
    requires WellFormed(config)
    ensures var flat := Flatten(policy, config); IsSnapshot(Snapshot(flat.entries, flat.excluded))
  {
    var flat := Flatten(policy, config);
    FlattenContents(policy, config, [], Excluded([], SecretName));
    forall e | e in flat.entries
      ensures IsConfigValue(e.value)
    {
      LookupMember(flat.entries, e.key, e.value);
      var place := ConfigPartition.EntriesAreSettings(policy, config, e.key, e.value);
      PlacesAreWellFormed(config, place);
      ConfigDocument.SettingKeepsMeaning(ConfigPartition.At(config, place).value, policy.iso);
    }
  }
}
