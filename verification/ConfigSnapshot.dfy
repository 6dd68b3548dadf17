/**
 Flattening a configuration into dot paths while withholding secrets.

 Which paths and which values count as secret is a parameter (`Policy`): everything
 here holds for every choice of the two tests.
 */
module ConfigSnapshot {
  import opened Sorting
  import opened Text
  import opened Json
  import Canonical

  datatype Reason = SecretName | SecretValue

  datatype Excluded = Excluded(path: Text, reason: Reason)

  datatype Policy = Policy(secretPath: Text -> bool, secretValue: Js -> bool, iso: Iso)

  const DOT := 46

  // ---------- settings ----------

  predicate IsScalar(v: Js) { v.Null? || v.Str? || v.Num? || v.NonFinite? || v.Bool? || v.Date? }

  predicate AllScalar(items: seq<Js>) { forall x :: x in items ==> IsScalar(x) }

  /** A list of scalars is one setting. */
  predicate IsSetting(v: Js) { IsScalar(v) || (v.Arr? && AllScalar(v.items)) }

  function NormaliseScalar(v: Js, iso: Iso): Js {
    match v
    case Date(ms) => Str(iso(ms))
    case NonFinite(name) => Str(name)
    case _ => v
  }

  function NormaliseAll(items: seq<Js>, iso: Iso): (r: seq<Js>)
    ensures |r| == |items| && forall i :: 0 <= i < |items| ==> r[i] == NormaliseScalar(items[i], iso)
  {
    seq(|items|, i requires 0 <= i < |items| => NormaliseScalar(items[i], iso))
  }

  function Normalise(v: Js, iso: Iso): Js {
    if v.Arr? then Arr(NormaliseAll(v.items, iso)) else NormaliseScalar(v, iso)
  }

  predicate HoldsSecret(policy: Policy, v: Js) {
    if v.Arr? then exists x :: x in v.items && policy.secretValue(x) else policy.secretValue(v)
  }

  // ---------- the visitor, as the list of what it records ----------

  datatype Emission = Kept(path: Text, value: Js) | Withheld(path: Text, reason: Reason)

  predicate Branches(v: Js) { v.Obj? || (v.Arr? && !AllScalar(v.items)) }

  function Width(v: Js): nat { if v.Obj? then |v.entries| else if v.Arr? then |v.items| else 0 }

  function ChildAt(v: Js, i: nat): (c: Js)
    requires Branches(v) && i < Width(v)
    ensures c < v
  {
    if v.Obj? then v.entries[i].value else v.items[i]
  }

  /** The path of the `i`th child; an empty path is the root's. */
  function PathAt(v: Js, path: Text, i: nat): Text
    requires Branches(v) && i < Width(v)
  {
    if v.Arr? then path + [DOT] + Decimal(i)
    else if path == [] then v.entries[i].key
    else path + [DOT] + v.entries[i].key
  }

  function Settle(policy: Policy, v: Js, path: Text): Emission {
    var value := Normalise(v, policy.iso);
    if HoldsSecret(policy, value) then Withheld(path, SecretValue) else Kept(path, value)
  }

  function Emit(policy: Policy, v: Js, path: Text): seq<Emission>
    decreases v, Width(v) + 1
  {
    if v.Undefined? then []
    else if path != [] && policy.secretPath(path) then [Withheld(path, SecretName)]
    else if IsSetting(v) then [Settle(policy, v, path)]
    else EmitChildren(policy, v, path, 0)
  }

  function EmitChildren(policy: Policy, v: Js, path: Text, i: nat): seq<Emission>
    requires Branches(v) && i <= Width(v)
    decreases v, Width(v) - i
  {
    if i == Width(v) then []
    else Emit(policy, ChildAt(v, i), PathAt(v, path, i)) + EmitChildren(policy, v, path, i + 1)
  }

  // ---------- collecting ----------

  function Lookup(es: seq<Entry>, key: Text): Option<Js> {
    if es == [] then None else if es[0].key == key then Some(es[0].value) else Lookup(es[1..], key)
  }

  function Put(es: seq<Entry>, key: Text, value: Js): seq<Entry> {
    if es == [] then [Entry(key, value)]
    else if es[0].key == key then [Entry(key, value)] + es[1..]
    else [es[0]] + Put(es[1..], key, value)
  }

  /** `entries[path] = value`; assigning to `__proto__` creates no property. */
  function Assign(es: seq<Entry>, path: Text, value: Js): seq<Entry> {
    if path == PROTO then es else Put(es, path, value)
  }

  datatype Collected = Collected(entries: seq<Entry>, excluded: seq<Excluded>)

  function Record(c: Collected, e: Emission): Collected {
    match e
    case Kept(path, value) => c.(entries := Assign(c.entries, path, value))
    case Withheld(path, reason) => c.(excluded := c.excluded + [Excluded(path, reason)])
  }

  function Collect(c: Collected, es: seq<Emission>): Collected
    decreases |es|
  {
    if es == [] then c else Collect(Record(c, es[0]), es[1..])
  }

  lemma {:induction false} CollectConcat(c: Collected, a: seq<Emission>, b: seq<Emission>)
    ensures Collect(c, a + b) == Collect(Collect(c, a), b)
    decreases |a|
  {
    if a == [] {
      assert a + b == b;
    } else {
      assert (a + b)[0] == a[0] && (a + b)[1..] == a[1..] + b;
      CollectConcat(Record(c, a[0]), a[1..], b);
    }
  }

  class Collector {
    var entries: seq<Entry>
    var excluded: seq<Excluded>

    constructor ()
      ensures State() == Collected([], [])
    {
      entries, excluded := [], [];
    }

    function State(): Collected
      reads this
    {
      Collected(entries, excluded)
    }

    method Keep(policy: Policy, v: Js, path: Text)
      modifies this
      ensures State() == Record(old(State()), Settle(policy, v, path))
    {
      var value := Normalise(v, policy.iso);
      if HoldsSecret(policy, value) {
        excluded := excluded + [Excluded(path, SecretValue)];
      } else {
        entries := Assign(entries, path, value);
      }
    }

    method Visit(policy: Policy, v: Js, path: Text)
      modifies this
      ensures State() == Collect(old(State()), Emit(policy, v, path))
      decreases v, 1
    {
      if v.Undefined? {
        return;
      }
      if path != [] && policy.secretPath(path) {
        excluded := excluded + [Excluded(path, SecretName)];
        return;
      }
      if IsSetting(v) {
        Keep(policy, v, path);
        return;
      }
      VisitChildren(policy, v, path);
    }

    method VisitChildren(policy: Policy, v: Js, path: Text)
      requires Branches(v)
      modifies this
      ensures State() == Collect(old(State()), EmitChildren(policy, v, path, 0))
      decreases v, 0
    {
      var i := 0;
      while i < Width(v)
        invariant i <= Width(v)
        invariant Collect(State(), EmitChildren(policy, v, path, i)) == Collect(old(State()), EmitChildren(policy, v, path, 0))
      {
        CollectConcat(State(), Emit(policy, ChildAt(v, i), PathAt(v, path, i)), EmitChildren(policy, v, path, i + 1));
        Visit(policy, ChildAt(v, i), PathAt(v, path, i));
        i := i + 1;
      }
    }
  }

  predicate PathLess(a: Excluded, b: Excluded) { LexLess(a.path, b.path) }

  function Gathered(policy: Policy, config: Js): Collected { Collect(Collected([], []), Emit(policy, config, [])) }

  function Flatten(policy: Policy, config: Js): Collected {
    var c := Gathered(policy, config);
    Collected(AssignAll(Sort(c.entries, KeyLess)), Sort(c.excluded, PathLess))
  }

  method FlattenConfig(policy: Policy, config: Js) returns (flat: Collected)
    ensures flat == Flatten(policy, config)
  {
    var collector := new Collector();
    collector.Visit(policy, config, []);
    flat := Collected(AssignAll(Sort(collector.entries, KeyLess)), Sort(collector.excluded, PathLess));
  }

  // ---------- what the collected lists contain ----------

  /** The value the last assignment to `path` left. */
  function LastKept(es: seq<Emission>, path: Text): Option<Js> {
    if es == [] then None
    else
      var later := LastKept(es[1..], path);
      if later.Some? then later
      else if es[0].Kept? && es[0].path == path then Some(es[0].value)
      else None
  }

  lemma {:induction false} PutLookup(es: seq<Entry>, key: Text, value: Js, other: Text)
    ensures Lookup(Put(es, key, value), other) == if other == key then Some(value) else Lookup(es, other)
  {
    if es != [] && es[0].key != key {
      PutLookup(es[1..], key, value, other);
    }
  }

  lemma {:induction false} PutKeys(es: seq<Entry>, key: Text, value: Js)
    ensures forall e :: e in Put(es, key, value) ==> e == Entry(key, value) || e in es
    ensures DistinctKeys(es) ==> DistinctKeys(Put(es, key, value))
  {
    if es != [] && es[0].key != key {
      PutKeys(es[1..], key, value);
      var rest := Put(es[1..], key, value);
      if DistinctKeys(es) {
        TailDistinct(es);
        forall i | 0 <= i < |rest|
          ensures rest[i].key != es[0].key
        {
          assert rest[i] in rest;
        }
      }
    }
  }

  lemma TailDistinct(es: seq<Entry>)
    requires es != [] && DistinctKeys(es)
    ensures DistinctKeys(es[1..]) && forall e :: e in es[1..] ==> e.key != es[0].key
  {
  }

  lemma {:induction false} LookupMember(es: seq<Entry>, key: Text, value: Js)
    requires DistinctKeys(es)
    ensures Lookup(es, key) == Some(value) <==> Entry(key, value) in es
  {
    if es != [] {
      TailDistinct(es);
      LookupMember(es[1..], key, value);
      assert es == [es[0]] + es[1..];
    }
  }

  lemma {:induction false} CollectLookup(c: Collected, es: seq<Emission>, path: Text)
    ensures Lookup(Collect(c, es).entries, path) ==
      if path != PROTO && LastKept(es, path).Some? then LastKept(es, path) else Lookup(c.entries, path)
    decreases |es|
  {
    if es != [] {
      CollectLookup(Record(c, es[0]), es[1..], path);
      if es[0].Kept? && es[0].path != PROTO {
        PutLookup(c.entries, es[0].path, es[0].value, path);
      }
    }
  }

  lemma {:induction false} CollectKeys(c: Collected, es: seq<Emission>)
    requires DistinctKeys(c.entries)
    ensures DistinctKeys(Collect(c, es).entries)
    decreases |es|
  {
    if es != [] {
      if es[0].Kept? { PutKeys(c.entries, es[0].path, es[0].value); }
      CollectKeys(Record(c, es[0]), es[1..]);
    }
  }

  lemma {:induction false} CollectExcluded(c: Collected, es: seq<Emission>, x: Excluded)
    ensures x in Collect(c, es).excluded <==> x in c.excluded || Withheld(x.path, x.reason) in es
    decreases |es|
  {
    if es != [] {
      CollectExcluded(Record(c, es[0]), es[1..], x);
      assert es == [es[0]] + es[1..];
    }
  }

  /** Sorting at the end loses nothing: lookups and exclusions are those of the emissions. */
  lemma FlattenContents(policy: Policy, config: Js, path: Text, x: Excluded)
    ensures var flat, es := Flatten(policy, config), Emit(policy, config, []);
            && Lookup(flat.entries, path) == (if path == PROTO then None else LastKept(es, path))
            && (x in flat.excluded <==> Withheld(x.path, x.reason) in es)
            && DistinctKeys(flat.entries)
  {
    var c, es := Gathered(policy, config), Emit(policy, config, []);
    CollectKeys(Collected([], []), es);
    CollectLookup(Collected([], []), es, path);
    CollectExcluded(Collected([], []), es, x);
    SortElements(c.excluded, PathLess);
    SortKeepsLookup(c.entries, path);
    Canonical.BuiltElements(c.entries);
  }

  lemma SortKeepsLookup(es: seq<Entry>, path: Text)
    requires DistinctKeys(es)
    ensures Lookup(AssignAll(Sort(es, KeyLess)), path) == if path == PROTO then None else Lookup(es, path)
  {
    var built := AssignAll(Sort(es, KeyLess));
    Canonical.BuiltElements(es);
    var found, stored := Lookup(built, path), Lookup(es, path);
    if found.Some? {
      LookupMember(built, path, found.value);
      LookupMember(es, path, found.value);
    } else if stored.Some? {
      LookupMember(es, path, stored.value);
      LookupMember(built, path, stored.value);
    }
  }
}
