/** Flattening partitions the settings: each is kept under its own path or covered by an exclusion. */
module ConfigPartition {
  import opened Text
  import opened Json
  import opened Sorting
  import opened ConfigSnapshot
  import Canonical

  /** A place in a configuration: which child to take at each level. */
  type Place = seq<nat>

  function At(v: Js, place: Place): Option<Js>
    decreases |place|
  {
    if place == [] then Some(v)
    else if !Branches(v) || place[0] >= Width(v) then None
    else At(ChildAt(v, place[0]), place[1..])
  }

  /** The path the visitor builds on its way to `place`. */
  function PathTo(v: Js, path: Text, place: Place): Text
    requires At(v, place).Some?
    decreases |place|
  {
    if place == [] then path else PathTo(ChildAt(v, place[0]), PathAt(v, path, place[0]), place[1..])
  }

  /** What becomes of the setting at `place`: the first ancestor with a secret name withholds it. */
  function Route(policy: Policy, v: Js, path: Text, place: Place): Option<Emission>
    decreases |place|
  {
    if v.Undefined? then None
    else if path != [] && policy.secretPath(path) then Some(Withheld(path, SecretName))
    else if IsSetting(v) then (if place == [] then Some(Settle(policy, v, path)) else None)
    else if place == [] || place[0] >= Width(v) then None
    else Route(policy, ChildAt(v, place[0]), PathAt(v, path, place[0]), place[1..])
  }

  // ---------- emissions and routes ----------

  lemma {:induction false} ChildEmits(policy: Policy, v: Js, path: Text, from: nat, i: nat, e: Emission)
    requires Branches(v) && from <= i < Width(v) && e in Emit(policy, ChildAt(v, i), PathAt(v, path, i))
    ensures e in EmitChildren(policy, v, path, from)
    decreases i - from
  {
    if from < i { ChildEmits(policy, v, path, from + 1, i, e); }
  }

  lemma {:induction false} EmittedByChild(policy: Policy, v: Js, path: Text, from: nat, e: Emission) returns (i: nat)
    requires Branches(v) && from <= Width(v) && e in EmitChildren(policy, v, path, from)
    ensures from <= i < Width(v) && e in Emit(policy, ChildAt(v, i), PathAt(v, path, i))
    decreases Width(v) - from
  {
    if e in Emit(policy, ChildAt(v, from), PathAt(v, path, from)) {
      i := from;
    } else {
      i := EmittedByChild(policy, v, path, from + 1, e);
    }
  }

  /** Every route ends in something the visitor records. */
  lemma {:induction false} RouteIsEmitted(policy: Policy, v: Js, path: Text, place: Place)
    requires Route(policy, v, path, place).Some?
    ensures Route(policy, v, path, place).value in Emit(policy, v, path)
    decreases |place|
  {
    if (path == [] || !policy.secretPath(path)) && !IsSetting(v) {
      RouteIsEmitted(policy, ChildAt(v, place[0]), PathAt(v, path, place[0]), place[1..]);
      ChildEmits(policy, v, path, 0, place[0], Route(policy, v, path, place).value);
    }
  }

  ghost predicate ComesFrom(policy: Policy, v: Js, path: Text, place: Place, e: Emission) {
    && At(v, place).Some? && !At(v, place).value.Undefined?
    && Route(policy, v, path, place) == Some(e)
    && e.path == PathTo(v, path, place)
    && (e.Kept? ==> IsSetting(At(v, place).value) && e.value == Normalise(At(v, place).value, policy.iso))
  }

  /** Everything the visitor records comes from a place with that path. */
  lemma {:induction false} EmittedHasPlace(policy: Policy, v: Js, path: Text, e: Emission) returns (place: Place)
    requires e in Emit(policy, v, path)
    ensures ComesFrom(policy, v, path, place, e)
    decreases v
  {
    place := [];
    if (path == [] || !policy.secretPath(path)) && !IsSetting(v) {
      var i := EmittedByChild(policy, v, path, 0, e);
      var rest := EmittedHasPlace(policy, ChildAt(v, i), PathAt(v, path, i), e);
      place := [i] + rest;
      assert place[1..] == rest;
    }
  }

  /** A setting is always dealt with: kept under its own path, or withheld at a place on the way. */
  lemma {:induction false} SettingIsRouted(policy: Policy, v: Js, path: Text, place: Place) returns (cover: Place)
    requires At(v, place).Some? && IsSetting(At(v, place).value)
    ensures Route(policy, v, path, place).Some?
    ensures cover <= place && At(v, cover).Some?
    ensures Route(policy, v, path, place).value.path == PathTo(v, path, cover)
    ensures Route(policy, v, path, place).value.Kept? ==>
      cover == place && Route(policy, v, path, place).value == Kept(PathTo(v, path, place), Normalise(At(v, place).value, policy.iso))
    decreases |place|
  {
    cover := [];
    if place != [] && (path == [] || !policy.secretPath(path)) {
      var rest := SettingIsRouted(policy, ChildAt(v, place[0]), PathAt(v, path, place[0]), place[1..]);
      cover := [place[0]] + rest;
      assert cover[1..] == rest;
    }
  }

  /** Once withheld on the way, withheld all the way down. */
  lemma {:induction false} WithheldBelow(policy: Policy, v: Js, path: Text, cover: Place, place: Place)
    requires cover <= place && At(v, place).Some?
    requires Route(policy, v, path, cover).Some? && Route(policy, v, path, cover).value.Withheld?
    ensures Route(policy, v, path, place) == Route(policy, v, path, cover)
    decreases |cover|
  {
    if cover != [] && (path == [] || !policy.secretPath(path)) && !IsSetting(v) {
      WithheldBelow(policy, ChildAt(v, cover[0]), PathAt(v, path, cover[0]), cover[1..], place[1..]);
    }
  }

  // ---------- exactly what is recorded ----------

  /** Nothing strictly around `place` has a secret name: the visitor gets there. */
  ghost predicate Reached(policy: Policy, v: Js, path: Text, place: Place)
    requires At(v, place).Some?
    decreases |place|
  {
    place != [] ==>
      && (path == [] || !policy.secretPath(path))
      && Reached(policy, ChildAt(v, place[0]), PathAt(v, path, place[0]), place[1..])
  }

  /** Why `e` is recorded for what stands at `place`. */
  ghost predicate RecordedFor(policy: Policy, v: Js, path: Text, place: Place, e: Emission) {
    && At(v, place).Some? && !At(v, place).value.Undefined? && Reached(policy, v, path, place) && e.path == PathTo(v, path, place)
    && var value, secretName := At(v, place).value, e.path != [] && policy.secretPath(e.path);
       match e
       case Withheld(_, SecretName) => secretName
       case Withheld(_, SecretValue) => !secretName && IsSetting(value) && HoldsSecret(policy, Normalise(value, policy.iso))
       case Kept(_, kept) =>
         !secretName && IsSetting(value) && !HoldsSecret(policy, Normalise(value, policy.iso)) && kept == Normalise(value, policy.iso)
  }

  lemma {:induction false} RecordedIsEmitted(policy: Policy, v: Js, path: Text, place: Place, e: Emission)
    requires RecordedFor(policy, v, path, place, e)
    ensures e in Emit(policy, v, path)
    decreases |place|
  {
    if place != [] {
      RecordedIsEmitted(policy, ChildAt(v, place[0]), PathAt(v, path, place[0]), place[1..], e);
      ChildEmits(policy, v, path, 0, place[0], e);
    }
  }

  lemma {:induction false} EmittedIsRecorded(policy: Policy, v: Js, path: Text, e: Emission) returns (place: Place)
    requires e in Emit(policy, v, path)
    ensures RecordedFor(policy, v, path, place, e)
    decreases v
  {
    place := [];
    if (path == [] || !policy.secretPath(path)) && !IsSetting(v) {
      var i := EmittedByChild(policy, v, path, 0, e);
      var rest := EmittedIsRecorded(policy, ChildAt(v, i), PathAt(v, path, i), e);
      place := [i] + rest;
      assert place[1..] == rest;
    }
  }

  /** What is excluded and why, for every configuration: exactly the places with a secret name, and
      the settings with a secret value, that lie in nothing excluded by name. */
  lemma ExclusionsAreExact(policy: Policy, config: Js, x: Excluded)
    ensures x in Flatten(policy, config).excluded <==>
              exists place :: RecordedFor(policy, config, [], place, Withheld(x.path, x.reason))
  {
    var e := Withheld(x.path, x.reason);
    FlattenContents(policy, config, x.path, x);
    if e in Emit(policy, config, []) {
      var place := EmittedIsRecorded(policy, config, [], e);
    }
    if place :| RecordedFor(policy, config, [], place, e) { RecordedIsEmitted(policy, config, [], place, e); }
  }

  /** Entries and exclusions come out in the order of their paths. */
  lemma FlattenIsSorted(policy: Policy, config: Js)
    ensures var flat := Flatten(policy, config);
            && Canonical.InOrder(flat.entries)
            && forall i, j :: 0 <= i < j < |flat.excluded| ==> !LexLess(flat.excluded[j].path, flat.excluded[i].path)
  {
    var c := Gathered(policy, config);
    CollectKeys(Collected([], []), Emit(policy, config, []));
    Canonical.BuiltInOrder(c.entries);
    LexIsWeakOrder();
    assert WeakOrder(PathLess) by {
      forall x, y, z | PathLess(x, z) ensures PathLess(x, y) || PathLess(y, z) {
        assert LexLess(x.path, y.path) || LexLess(y.path, z.path);
      }
      forall x, y, z | PathLess(x, y) && PathLess(y, z) ensures PathLess(x, z) {
        LexTransitive(x.path, y.path, z.path);
      }
    }
    SortAscending(c.excluded, PathLess);
    assert forall i, j :: 0 <= i < j < |Sort(c.excluded, PathLess)| ==>
      !PathLess(Sort(c.excluded, PathLess)[j], Sort(c.excluded, PathLess)[i]);
  }

  /** The setting at `place` may be shown: neither it nor anything around it is named like a secret,
      and its value does not look like one. */
  ghost predicate Showable(policy: Policy, config: Js, place: Place)
    requires At(config, place).Some?
  {
    RecordedFor(policy, config, [], place, Kept(PathTo(config, [], place), Normalise(At(config, place).value, policy.iso)))
  }

  lemma {:induction false} RecordedIsRouted(policy: Policy, v: Js, path: Text, place: Place, e: Emission)
    requires RecordedFor(policy, v, path, place, e)
    ensures Route(policy, v, path, place) == Some(e)
    decreases |place|
  {
    if place != [] {
      RecordedIsRouted(policy, ChildAt(v, place[0]), PathAt(v, path, place[0]), place[1..], e);
    }
  }

  lemma {:induction false} KeptIsRecorded(policy: Policy, v: Js, path: Text, place: Place)
    requires At(v, place).Some? && IsSetting(At(v, place).value)
    requires Route(policy, v, path, place).Some? && Route(policy, v, path, place).value.Kept?
    ensures RecordedFor(policy, v, path, place, Route(policy, v, path, place).value)
    decreases |place|
  {
    if place != [] {
      KeptIsRecorded(policy, ChildAt(v, place[0]), PathAt(v, path, place[0]), place[1..]);
    }
  }

  // ---------- with plain keys, a path names one place ----------

  ghost predicate PlainKeys(es: seq<Entry>) {
    DistinctKeys(es) && forall i :: 0 <= i < |es| ==> es[i].key != [] && DOT !in es[i].key
  }

  /** Non-empty keys without dots, at every level. */
  ghost predicate Clean(v: Js) {
    match v
    case Arr(items) => forall i :: 0 <= i < |items| ==> Clean(items[i])
    case Obj(es) => PlainKeys(es) && forall i :: 0 <= i < |es| ==> Clean(es[i].value)
    case _ => true
  }

  function Segment(v: Js, i: nat): Text
    requires Branches(v) && i < Width(v)
  {
    if v.Arr? then Decimal(i) else v.entries[i].key
  }

  function Segments(v: Js, place: Place): seq<Text>
    requires At(v, place).Some?
    decreases |place|
  {
    if place == [] then [] else [Segment(v, place[0])] + Segments(ChildAt(v, place[0]), place[1..])
  }

  lemma SegmentPlain(v: Js, i: nat)
    requires Clean(v) && Branches(v) && i < Width(v)
    ensures Segment(v, i) != [] && DOT !in Segment(v, i) && Clean(ChildAt(v, i))
  {
    if v.Arr? { DecimalRoundTrip(i); }
  }

  lemma SegmentInjective(v: Js, i: nat, j: nat)
    requires Clean(v) && Branches(v) && i < Width(v) && j < Width(v) && Segment(v, i) == Segment(v, j)
    ensures i == j
  {
    if v.Arr? { DecimalInjective(i, j); }
  }

  lemma {:induction false} SegmentsPlain(v: Js, place: Place)
    requires Clean(v) && At(v, place).Some?
    ensures Lacks(Segments(v, place), DOT) && |Segments(v, place)| == |place|
    ensures place != [] ==> Segments(v, place)[0] != []
    decreases |place|
  {
    if place != [] {
      SegmentPlain(v, place[0]);
      SegmentsPlain(ChildAt(v, place[0]), place[1..]);
    }
  }

  lemma {:induction false} SegmentsInjective(v: Js, a: Place, b: Place)
    requires Clean(v) && At(v, a).Some? && At(v, b).Some? && Segments(v, a) == Segments(v, b)
    ensures a == b
    decreases |a|
  {
    SegmentsPlain(v, a);
    SegmentsPlain(v, b);
    if a != [] {
      var x, y := Segments(v, a), Segments(v, b);
      assert x[0] == y[0] && x[1..] == y[1..];
      SegmentInjective(v, a[0], b[0]);
      SegmentPlain(v, a[0]);
      SegmentsInjective(ChildAt(v, a[0]), a[1..], b[1..]);
      assert a == [a[0]] + a[1..] && b == [b[0]] + b[1..];
    }
  }

  lemma Regroup(path: Text, s: Text, rest: Text)
    ensures path + [DOT] + s + [DOT] + rest == path + [DOT] + (s + [DOT] + rest)
  {
  }

  function Under(path: Text, rest: Text): Text { if path == [] then rest else path + [DOT] + rest }

  lemma {:induction false} PathIsJoin(v: Js, path: Text, place: Place)
    requires Clean(v) && At(v, place).Some? && place != [] && (path != [] || v.Obj?)
    ensures PathTo(v, path, place) == Under(path, Join(Segments(v, place), DOT))
    decreases |place|
  {
    SegmentPlain(v, place[0]);
    var child, next, segs := ChildAt(v, place[0]), PathAt(v, path, place[0]), Segments(v, place);
    assert next == Under(path, segs[0]);
    if |place| > 1 {
      PathIsJoin(child, next, place[1..]);
      SegmentsPlain(child, place[1..]);
      assert segs[1..] == Segments(child, place[1..]);
      Regroup(path, segs[0], Join(segs[1..], DOT));
    }
  }

  lemma JoinNonEmpty(parts: seq<Text>)
    requires parts != [] && parts[0] != []
    ensures Join(parts, DOT) != []
  {
  }

  lemma PathIsEmpty(v: Js, place: Place)
    requires v.Obj? && Clean(v) && At(v, place).Some?
    ensures PathTo(v, [], place) == [] <==> place == []
  {
    if place != [] {
      PathIsJoin(v, [], place);
      SegmentsPlain(v, place);
      JoinNonEmpty(Segments(v, place));
    }
  }

  lemma PathInjective(v: Js, a: Place, b: Place)
    requires v.Obj? && Clean(v) && At(v, a).Some? && At(v, b).Some? && PathTo(v, [], a) == PathTo(v, [], b)
    ensures a == b
  {
    PathIsEmpty(v, a);
    PathIsEmpty(v, b);
    if a != [] {
      PathIsJoin(v, [], a);
      PathIsJoin(v, [], b);
      SegmentsPlain(v, a);
      SegmentsPlain(v, b);
      JoinInjective(Segments(v, a), Segments(v, b), DOT);
      SegmentsInjective(v, a, b);
    }
  }

  // ---------- the theorems ----------

  /** The only thing ever recorded under a place's path is what its route says. */
  lemma RecordedOnce(policy: Policy, config: Js, place: Place, e: Emission)
    requires config.Obj? && Clean(config) && At(config, place).Some?
    requires e in Emit(policy, config, []) && e.path == PathTo(config, [], place)
    ensures Route(policy, config, [], place) == Some(e)
  {
    var other := EmittedHasPlace(policy, config, [], e);
    PathInjective(config, place, other);
  }

  lemma {:induction false} LastKeptIs(es: seq<Emission>, path: Text, value: Js)
    requires Kept(path, value) in es
    requires forall e :: e in es && e.Kept? && e.path == path ==> e.value == value
    ensures LastKept(es, path) == Some(value)
  {
    if Kept(path, value) in es[1..] {
      LastKeptIs(es[1..], path, value);
    } else {
      forall e | e in es[1..] && e.Kept?
        ensures e.path != path
      {
        assert e in es;
      }
      NothingKept(es[1..], path);
    }
  }

  lemma {:induction false} NothingKept(es: seq<Emission>, path: Text)
    requires forall e :: e in es && e.Kept? ==> e.path != path
    ensures LastKept(es, path) == None
  {
    if es != [] {
      assert es[0] in es;
      NothingKept(es[1..], path);
    }
  }

  /** Some exclusion names the place itself or one it lies in. */
  ghost predicate Covered(flat: Collected, config: Js, place: Place)
    requires At(config, place).Some?
  {
    exists x, cover :: CoveredBy(flat, config, place, x, cover)
  }

  ghost predicate CoveredBy(flat: Collected, config: Js, place: Place, x: Excluded, cover: Place)
    requires At(config, place).Some?
  {
    x in flat.excluded && cover <= place && At(config, cover).Some? && x.path == PathTo(config, [], cover)
  }

  ghost predicate KeptAt(flat: Collected, policy: Policy, config: Js, place: Place)
    requires At(config, place).Some?
  {
    Lookup(flat.entries, PathTo(config, [], place)) == Some(Normalise(At(config, place).value, policy.iso))
  }

  lemma WithheldCase(policy: Policy, config: Js, place: Place)
    requires config.Obj? && Clean(config) && At(config, place).Some? && IsSetting(At(config, place).value)
    requires Route(policy, config, [], place).Some? && Route(policy, config, [], place).value.Withheld?
    ensures Covered(Flatten(policy, config), config, place)
    ensures Lookup(Flatten(policy, config).entries, PathTo(config, [], place)) == None
  {
    var flat, es, path := Flatten(policy, config), Emit(policy, config, []), PathTo(config, [], place);
    var e := Route(policy, config, [], place).value;
    var x := Excluded(e.path, e.reason);
    var cover := SettingIsRouted(policy, config, [], place);
    RouteIsEmitted(policy, config, [], place);
    FlattenContents(policy, config, path, x);
    assert CoveredBy(flat, config, place, x, cover);
    forall k | k in es && k.Kept?
      ensures k.path != path
    {
      if k.path == path { RecordedOnce(policy, config, place, k); }
    }
    NothingKept(es, path);
  }

  lemma KeptValue(policy: Policy, config: Js, place: Place)
    requires config.Obj? && Clean(config) && At(config, place).Some? && IsSetting(At(config, place).value)
    requires Route(policy, config, [], place).Some? && Route(policy, config, [], place).value.Kept?
    ensures PathTo(config, [], place) != PROTO <==> KeptAt(Flatten(policy, config), policy, config, place)
  {
    var es, path := Emit(policy, config, []), PathTo(config, [], place);
    var cover := SettingIsRouted(policy, config, [], place);
    var e := Route(policy, config, [], place).value;
    RouteIsEmitted(policy, config, [], place);
    FlattenContents(policy, config, path, Excluded(path, SecretName));
    forall k | k in es && k.Kept? && k.path == path
      ensures k.value == e.value
    {
      RecordedOnce(policy, config, place, k);
    }
    LastKeptIs(es, path, e.value);
  }

  lemma KeptIsUncovered(policy: Policy, config: Js, place: Place)
    requires config.Obj? && Clean(config) && At(config, place).Some?
    requires Route(policy, config, [], place).Some? && Route(policy, config, [], place).value.Kept?
    ensures !Covered(Flatten(policy, config), config, place)
  {
    var flat := Flatten(policy, config);
    forall x, cover | CoveredBy(flat, config, place, x, cover)
      ensures false
    {
      FlattenContents(policy, config, x.path, x);
      RecordedOnce(policy, config, cover, Withheld(x.path, x.reason));
      WithheldBelow(policy, config, [], cover, place);
    }
  }

  /** Every setting of a configuration with plain keys is in `entries` under its own path with its
      normalised value, or it is covered by an exclusion of itself or something around it; never both.
      The exception is a top-level setting named `__proto__`: unless covered it is in neither. */
  lemma SettingsArePartitioned(policy: Policy, config: Js, place: Place)
    requires config.Obj? && Clean(config) && At(config, place).Some? && IsSetting(At(config, place).value)
    ensures var flat, path := Flatten(policy, config), PathTo(config, [], place);
            && (Covered(flat, config, place) <==> !Showable(policy, config, place))
            && if Covered(flat, config, place) then Lookup(flat.entries, path) == None
               else KeptAt(flat, policy, config, place) <==> path != PROTO
  {
    var cover := SettingIsRouted(policy, config, [], place);
    if Showable(policy, config, place) {
      RecordedIsRouted(policy, config, [], place, Kept(PathTo(config, [], place), Normalise(At(config, place).value, policy.iso)));
    }
    if Route(policy, config, [], place).value.Withheld? {
      WithheldCase(policy, config, place);
    } else {
      KeptIsRecorded(policy, config, [], place);
      KeptValue(policy, config, place);
      KeptIsUncovered(policy, config, place);
    }
  }

  /** Nothing is invented: an entry is the normalised value of a setting with that path. */
  lemma EntriesAreSettings(policy: Policy, config: Js, path: Text, value: Js) returns (place: Place)
    requires Lookup(Flatten(policy, config).entries, path) == Some(value)
    ensures At(config, place).Some? && IsSetting(At(config, place).value)
    ensures PathTo(config, [], place) == path && Normalise(At(config, place).value, policy.iso) == value
  {
    FlattenContents(policy, config, path, Excluded(path, SecretName));
    LastKeptEmitted(Emit(policy, config, []), path);
    place := EmittedHasPlace(policy, config, [], Kept(path, value));
  }

  lemma {:induction false} LastKeptEmitted(es: seq<Emission>, path: Text)
    requires LastKept(es, path).Some?
    ensures Kept(path, LastKept(es, path).value) in es
  {
    if LastKept(es[1..], path).Some? { LastKeptEmitted(es[1..], path); }
  }

  /** A top-level setting named `__proto__` is lost: neither kept nor excluded. */
  lemma ProtoSettingIsLost(policy: Policy)
    requires !policy.secretPath(PROTO) && !policy.secretValue(Null)
    ensures Flatten(policy, Obj([Entry(PROTO, Null)])) == Collected([], [])
  {
    var config := Obj([Entry(PROTO, Null)]);
    assert ChildAt(config, 0) == Null && PathAt(config, [], 0) == PROTO;
    assert Emit(policy, Null, PROTO) == [Kept(PROTO, Null)];
    assert EmitChildren(policy, config, [], 1) == [];
    assert Emit(policy, config, []) == [Kept(PROTO, Null)];
    assert Collect(Collected([], []), [Kept(PROTO, Null)]) == Collected([], []);
  }
}
