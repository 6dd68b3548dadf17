/** The sliding-window limiter on verification metadata, with its separate pruning pass. */
module PrivacyBudget {
  import opened Text

  type Usage = map<Text, seq<int>>

  // ---------- specification ----------

  /** The grants that still count at `now`. */
  function Active(times: seq<int>, window: int, now: int): seq<int> {
    if times == [] then []
    else if times[|times| - 1] + window > now then Active(times[..|times| - 1], window, now) + [times[|times| - 1]]
    else Active(times[..|times| - 1], window, now)
  }

  function Stored(usage: Usage, key: Text): seq<int> { if key in usage then usage[key] else [] }

  function Pruned(usage: Usage, window: int, now: int): Usage {
    map key | key in usage && Active(usage[key], window, now) != [] :: Active(usage[key], window, now)
  }

  // ---------- the service ----------

  class Limiter {
    const window: int
    const budget: int
    var budgetUsage: Usage

    constructor (window: int, budget: int)
      ensures this.window == window && this.budget == budget && budgetUsage == map[]
    {
      this.window, this.budget, budgetUsage := window, budget, map[];
    }

    method Filter(times: seq<int>, now: int) returns (active: seq<int>)
      ensures active == Active(times, window, now)
    {
      active := [];
      for i := 0 to |times|
        invariant active == Active(times[..i], window, now)
      {
        assert times[..i + 1][..i] == times[..i];
        if times[i] + window > now {
          active := active + [times[i]];
        }
      }
      assert times[..|times|] == times;
    }

    method TryConsume(key: Text, now: int) returns (granted: bool)
      modifies this`budgetUsage
      ensures granted == Grants(old(budgetUsage), window, budget, key, now)
      ensures budgetUsage == Next(World(old(budgetUsage), []), window, budget, Consume(key, now)).usage
    {
      var usage := Filter(if key in budgetUsage then budgetUsage[key] else [], now);
      if |usage| >= budget {
        return false;
      }
      usage := usage + [now];
      budgetUsage := budgetUsage[key := usage];
      granted := true;
    }

    method Prune(now: int)
      modifies this`budgetUsage
      ensures budgetUsage == Pruned(old(budgetUsage), window, now)
    {
      ghost var before := budgetUsage;
      var left := budgetUsage.Keys;
      while left != {}
        invariant left <= before.Keys && left <= budgetUsage.Keys
        invariant forall key :: key in left ==> budgetUsage[key] == before[key]
        invariant forall key :: key in budgetUsage && key !in left ==>
          key in before && budgetUsage[key] == Active(before[key], window, now) && budgetUsage[key] != []
        invariant forall key :: key in before && key !in left && key !in budgetUsage ==> Active(before[key], window, now) == []
      {
        var key :| key in left;
        var active := Filter(budgetUsage[key], now);
        if |active| == 0 {
          budgetUsage := budgetUsage - {key};
        } else {
          budgetUsage := budgetUsage[key := active];
        }
        left := left - {key};
      }
    }
  }

  // ---------- runs ----------

  datatype Step = Consume(key: Text, now: int) | Prune(now: int)

  /** Every grant ever made, in order. */
  datatype Grant = Grant(key: Text, at: int)

  datatype World = World(usage: Usage, grants: seq<Grant>)

  const EMPTY := World(map[], [])

  predicate Grants(usage: Usage, window: int, budget: int, key: Text, now: int) {
    |Active(Stored(usage, key), window, now)| < budget
  }

  function Next(w: World, window: int, budget: int, s: Step): World {
    match s
    case Consume(key, now) =>
      if Grants(w.usage, window, budget, key, now)
      then World(w.usage[key := Active(Stored(w.usage, key), window, now) + [now]], w.grants + [Grant(key, now)])
      else w
    case Prune(now) => w.(usage := Pruned(w.usage, window, now))
  }

  function Run(w: World, window: int, budget: int, steps: seq<Step>): World
    decreases |steps|
  {
    if steps == [] then w
    else Next(Run(w, window, budget, steps[..|steps| - 1]), window, budget, steps[|steps| - 1])
  }

  predicate ClockRuns(steps: seq<Step>) { forall i, j :: 0 <= i < j < |steps| ==> steps[i].now <= steps[j].now }

  function GrantTimes(grants: seq<Grant>, key: Text): seq<int> {
    if grants == [] then []
    else if grants[|grants| - 1].key == key
    then GrantTimes(grants[..|grants| - 1], key) + [grants[|grants| - 1].at]
    else GrantTimes(grants[..|grants| - 1], key)
  }

  function CountIn(times: seq<int>, from: int, to: int): nat {
    if times == [] then 0
    else CountIn(times[..|times| - 1], from, to) + (if from <= times[|times| - 1] < to then 1 else 0)
  }

  // ---------- filtering ----------

  lemma {:induction false} ActiveTwice(times: seq<int>, window: int, now: int, later: int)
    requires now <= later
    ensures Active(Active(times, window, now), window, later) == Active(times, window, later)
  {
    if times != [] {
      var init, last := times[..|times| - 1], times[|times| - 1];
      ActiveTwice(init, window, now, later);
      if last + window > now { ActiveAppend(Active(init, window, now), last, window, later); }
    }
  }

  lemma ActiveAppend(times: seq<int>, t: int, window: int, now: int)
    ensures Active(times + [t], window, now) == Active(times, window, now) + (if t + window > now then [t] else [])
  {
    assert (times + [t])[..|times|] == times;
  }

  lemma GrantTimesAppend(grants: seq<Grant>, g: Grant, key: Text)
    ensures GrantTimes(grants + [g], key) == GrantTimes(grants, key) + (if g.key == key then [g.at] else [])
  {
    assert (grants + [g])[..|grants|] == grants;
  }

  // ---------- what is stored agrees with the whole history ----------

  /** From `clock` on, the stored list and the full history have the same active grants. */
  ghost predicate Agrees(w: World, window: int, clock: int, key: Text) {
    forall now :: now >= clock ==> SameAt(w, window, key, now)
  }

  ghost predicate SameAt(w: World, window: int, key: Text, now: int) {
    Active(Stored(w.usage, key), window, now) == Active(GrantTimes(w.grants, key), window, now)
  }

  lemma ConsumeAgrees(w: World, window: int, budget: int, clock: int, s: Step, key: Text)
    requires s.Consume? && s.now >= clock && Agrees(w, window, clock, key)
    ensures Agrees(Next(w, window, budget, s), window, s.now, key)
  {
    var w' := Next(w, window, budget, s);
    forall now | now >= s.now
      ensures SameAt(w', window, key, now)
    {
      assert SameAt(w, window, key, now);
      if w' != w {
        GrantTimesAppend(w.grants, Grant(s.key, s.now), key);
        if key == s.key {
          var kept := Active(Stored(w.usage, key), window, s.now);
          ActiveTwice(Stored(w.usage, key), window, s.now, now);
          ActiveAppend(kept, s.now, window, now);
          ActiveAppend(GrantTimes(w.grants, key), s.now, window, now);
        }
      }
    }
  }

  lemma PruneAgrees(w: World, window: int, clock: int, at: int, key: Text)
    requires at >= clock && Agrees(w, window, clock, key)
    ensures Agrees(w.(usage := Pruned(w.usage, window, at)), window, at, key)
  {
    var w' := w.(usage := Pruned(w.usage, window, at));
    forall now | now >= at
      ensures SameAt(w', window, key, now)
    {
      assert SameAt(w, window, key, now);
      ActiveTwice(Stored(w.usage, key), window, at, now);
      assert Stored(w'.usage, key) == Active(Stored(w.usage, key), window, at);
    }
  }

  function ClockAfter(steps: seq<Step>): int { if steps == [] then 0 else steps[|steps| - 1].now }

  lemma {:induction false} HistoryAgrees(window: int, budget: int, steps: seq<Step>, key: Text, now: int)
    requires ClockRuns(steps) && (steps != [] ==> now >= ClockAfter(steps))
    ensures SameAt(Run(EMPTY, window, budget, steps), window, key, now)
    decreases |steps|
  {
    if steps != [] {
      var init, s := steps[..|steps| - 1], steps[|steps| - 1];
      var w := Run(EMPTY, window, budget, init);
      forall later | later >= s.now
        ensures SameAt(w, window, key, later)
      {
        HistoryAgrees(window, budget, init, key, later);
      }
      assert Agrees(w, window, s.now, key);
      if s.Consume? { ConsumeAgrees(w, window, budget, s.now, s, key); } else { PruneAgrees(w, window, s.now, s.now, key); }
    }
  }

  /** A request is refused exactly when the last window already holds the whole budget,
      whatever has been pruned in between. */
  lemma RefusedIffWindowIsFull(window: int, budget: int, steps: seq<Step>, key: Text, now: int)
    requires ClockRuns(steps + [Consume(key, now)])
    ensures Grants(Run(EMPTY, window, budget, steps).usage, window, budget, key, now)
      <==> CountIn(GrantTimes(Run(EMPTY, window, budget, steps).grants, key), now - window + 1, now + 1) < budget
  {
    var all := steps + [Consume(key, now)];
    assert all[|steps|] == Consume(key, now);
    assert forall i :: 0 <= i < |steps| ==> all[i] == steps[i];
    HistoryAgrees(window, budget, steps, key, now);
    GrantsAreBefore(window, budget, steps, key, now);
    ActiveCount(GrantTimes(Run(EMPTY, window, budget, steps).grants, key), window, now);
  }

  ghost predicate AllBy(times: seq<int>, now: int) { forall i :: 0 <= i < |times| ==> times[i] <= now }

  /** What counts at `now` is what was granted less than a window ago. */
  lemma {:induction false} ActiveCount(times: seq<int>, window: int, now: int)
    requires AllBy(times, now)
    ensures |Active(times, window, now)| == CountIn(times, now - window + 1, now + 1)
  {
    if times != [] {
      ActiveCount(times[..|times| - 1], window, now);
    }
  }

  lemma {:induction false} GrantsAreBefore(window: int, budget: int, steps: seq<Step>, key: Text, now: int)
    requires forall i :: 0 <= i < |steps| ==> steps[i].now <= now
    ensures AllBy(GrantTimes(Run(EMPTY, window, budget, steps).grants, key), now)
    decreases |steps|
  {
    if steps != [] {
      var init, s := steps[..|steps| - 1], steps[|steps| - 1];
      var w := Run(EMPTY, window, budget, init);
      GrantsAreBefore(window, budget, init, key, now);
      assert Run(EMPTY, window, budget, steps) == Next(w, window, budget, s);
      if s.Consume? { GrantTimesAppend(w.grants, Grant(s.key, s.now), key); }
    }
  }

  // ---------- pruning never changes a decision ----------

  function WithoutPrunes(steps: seq<Step>): seq<Step> {
    if steps == [] then []
    else if steps[|steps| - 1].Prune? then WithoutPrunes(steps[..|steps| - 1])
    else WithoutPrunes(steps[..|steps| - 1]) + [steps[|steps| - 1]]
  }

  lemma {:induction false} WithoutPrunesBefore(steps: seq<Step>, bound: int)
    requires ClockRuns(steps) && forall i :: 0 <= i < |steps| ==> steps[i].now <= bound
    ensures ClockRuns(WithoutPrunes(steps))
    ensures forall i :: 0 <= i < |WithoutPrunes(steps)| ==> WithoutPrunes(steps)[i].now <= bound
  {
    if steps != [] {
      var init, s := steps[..|steps| - 1], steps[|steps| - 1];
      WithoutPrunesBefore(init, s.now);
    }
  }

  /** The same grants are made, and the same requests refused, as if nothing had ever been pruned. */
  lemma {:induction false} PruningIsInvisible(window: int, budget: int, steps: seq<Step>)
    requires ClockRuns(steps)
    ensures Run(EMPTY, window, budget, steps).grants == Run(EMPTY, window, budget, WithoutPrunes(steps)).grants
    decreases |steps|
  {
    if steps != [] {
      var init, s := steps[..|steps| - 1], steps[|steps| - 1];
      PruningIsInvisible(window, budget, init);
      if s.Consume? {
        var bare := WithoutPrunes(init);
        WithoutPrunesBefore(init, s.now);
        assert (bare + [s])[..|bare|] == bare;
        HistoryAgrees(window, budget, init, s.key, s.now);
        HistoryAgrees(window, budget, bare, s.key, s.now);
      }
    }
  }

  // ---------- the window bound ----------

  /** Each grant was made while fewer than `budget` earlier ones were active. */
  ghost predicate Admitted(times: seq<int>, window: int, budget: int) {
    forall i :: 0 <= i < |times| ==> |Active(times[..i], window, times[i])| < budget
  }

  lemma {:induction false} InWindowAreActive(times: seq<int>, window: int, from: int, now: int)
    requires now < from + window
    ensures CountIn(times, from, from + window) <= |Active(times, window, now)|
  {
    if times != [] {
      InWindowAreActive(times[..|times| - 1], window, from, now);
    }
  }

  lemma {:induction false} AdmittedFitWindows(times: seq<int>, window: int, budget: int, from: int)
    requires Admitted(times, window, budget) && budget >= 0
    ensures CountIn(times, from, from + window) <= budget
  {
    if times != [] {
      var init, last := times[..|times| - 1], times[|times| - 1];
      forall i | 0 <= i < |init|
        ensures |Active(init[..i], window, init[i])| < budget
      {
        assert init[..i] == times[..i];
      }
      AdmittedFitWindows(init, window, budget, from);
      assert |Active(times[..|times| - 1], window, last)| < budget;
      if last < from + window { InWindowAreActive(init, window, from, last); }
    }
  }

  lemma AdmitOneMore(times: seq<int>, t: int, window: int, budget: int)
    requires Admitted(times, window, budget) && |Active(times, window, t)| < budget
    ensures Admitted(times + [t], window, budget)
  {
    var more := times + [t];
    forall i | 0 <= i < |more|
      ensures |Active(more[..i], window, more[i])| < budget
    {
      if i < |times| { assert more[..i] == times[..i]; } else { assert more[..i] == times; }
    }
  }

  lemma {:induction false} AllAdmitted(window: int, budget: int, steps: seq<Step>, key: Text)
    requires ClockRuns(steps)
    ensures Admitted(GrantTimes(Run(EMPTY, window, budget, steps).grants, key), window, budget)
    decreases |steps|
  {
    if steps != [] {
      var init, s := steps[..|steps| - 1], steps[|steps| - 1];
      var w := Run(EMPTY, window, budget, init);
      AllAdmitted(window, budget, init, key);
      if s.Consume? && Grants(w.usage, window, budget, s.key, s.now) {
        GrantTimesAppend(w.grants, Grant(s.key, s.now), key);
        if s.key == key {
          HistoryAgrees(window, budget, init, key, s.now);
          AdmitOneMore(GrantTimes(w.grants, key), s.now, window, budget);
        }
      }
    }
  }

  /** No half-open window of the configured length ever holds more than the budget, for any proof. */
  lemma NoWindowExceedsBudget(window: int, budget: nat, steps: seq<Step>, key: Text, from: int)
    requires ClockRuns(steps)
    ensures CountIn(GrantTimes(Run(EMPTY, window, budget, steps).grants, key), from, from + window) <= budget
  {
    AllAdmitted(window, budget, steps, key);
    AdmittedFitWindows(GrantTimes(Run(EMPTY, window, budget, steps).grants, key), window, budget, from);
  }

  lemma FirstGrant(key: Text, now: int, before: World)
    requires key !in before.usage
    ensures Next(before, 10, 1, Consume(key, now)) == World(before.usage[key := [now]], before.grants + [Grant(key, now)])
  {
    var none := Active(Stored(before.usage, key), 10, now);
    assert none == [] && none + [now] == [now];
  }

  lemma PruneEmpties(key: Text, grants: seq<Grant>)
    ensures Next(World(map[key := [0]], grants), 10, 1, Prune(10)) == World(map[], grants)
  {
    assert Active([0], 10, 10) == Active([0][..0], 10, 10);
  }

  lemma CountPair(a: int, b: int, from: int, to: int)
    requires from <= a < to && from <= b < to
    ensures CountIn([a, b], from, to) == 2
  {
    assert [a, b][..1] == [a] && [a][..0] == [];
    assert CountIn([a], from, to) == CountIn([a][..0], from, to) + 1;
  }

  /** A clock that steps back after a prune lets a window overflow. */
  lemma ClockMustNotStepBack(key: Text)
    ensures var w := Next(Next(Next(EMPTY, 10, 1, Consume(key, 0)), 10, 1, Prune(10)), 10, 1, Consume(key, 5));
            CountIn(GrantTimes(w.grants, key), 0, 10) == 2
  {
    var first := [Grant(key, 0)];
    FirstGrant(key, 0, EMPTY);
    PruneEmpties(key, first);
    FirstGrant(key, 5, World(map[], first));
    GrantTimesAppend([], Grant(key, 0), key);
    GrantTimesAppend(first, Grant(key, 5), key);
    CountPair(0, 5, 0, 10);
  }

  // ---------- any clock ----------

  /** A grant, and the latest clock reading its list has been filtered at since. */
  datatype Mark = Mark(at: int, filtered: Option<int>)

  predicate Lives(m: Mark, window: int) { m.filtered.None? || m.at + window > m.filtered.value }

  function Raise(m: Mark, now: int): Mark {
    m.(filtered := Some(if m.filtered.Some? && m.filtered.value > now then m.filtered.value else now))
  }

  function RaiseAll(marks: seq<Mark>, now: int): seq<Mark> {
    if marks == [] then [] else RaiseAll(marks[..|marks| - 1], now) + [Raise(marks[|marks| - 1], now)]
  }

  /** The grants of a key with their marks, after a run on any clock. */
  function Marks(window: int, budget: int, steps: seq<Step>, key: Text): seq<Mark> {
    if steps == [] then []
    else
      var init, s := steps[..|steps| - 1], steps[|steps| - 1];
      var before := Marks(window, budget, init, key);
      if s.Prune? then RaiseAll(before, s.now)
      else if s.key == key && Grants(Run(EMPTY, window, budget, init).usage, window, budget, key, s.now)
      then RaiseAll(before, s.now) + [Mark(s.now, None)]
      else before
  }

  function Times(marks: seq<Mark>): seq<int> {
    if marks == [] then [] else Times(marks[..|marks| - 1]) + [marks[|marks| - 1].at]
  }

  function Survivors(marks: seq<Mark>, window: int): seq<int> {
    if marks == [] then []
    else
      var init, last := Survivors(marks[..|marks| - 1], window), marks[|marks| - 1];
      if Lives(last, window) then init + [last.at] else init
  }

  lemma MarksAppend(marks: seq<Mark>, m: Mark, window: int)
    ensures Times(marks + [m]) == Times(marks) + [m.at]
    ensures Survivors(marks + [m], window) == if Lives(m, window) then Survivors(marks, window) + [m.at] else Survivors(marks, window)
  {
    assert (marks + [m])[..|marks|] == marks;
  }

  lemma {:induction false} FilterRaises(marks: seq<Mark>, window: int, now: int)
    ensures Active(Survivors(marks, window), window, now) == Survivors(RaiseAll(marks, now), window)
    ensures Times(RaiseAll(marks, now)) == Times(marks)
  {
    if marks != [] {
      var init, last := marks[..|marks| - 1], marks[|marks| - 1];
      FilterRaises(init, window, now);
      MarksAppend(RaiseAll(init, now), Raise(last, now), window);
      if Lives(last, window) { ActiveAppend(Survivors(init, window), last.at, window, now); }
    }
  }

  /** What is stored, on any clock: the grants that counted at every filtering since. */
  lemma {:induction false} StoredAreSurvivors(window: int, budget: int, steps: seq<Step>, key: Text)
    ensures var w, marks := Run(EMPTY, window, budget, steps), Marks(window, budget, steps, key);
            Stored(w.usage, key) == Survivors(marks, window) && GrantTimes(w.grants, key) == Times(marks)
    decreases |steps|
  {
    if steps != [] {
      var init, s := steps[..|steps| - 1], steps[|steps| - 1];
      var w, before := Run(EMPTY, window, budget, init), Marks(window, budget, init, key);
      StoredAreSurvivors(window, budget, init, key);
      FilterRaises(before, window, s.now);
      if s.Consume? && Grants(w.usage, window, budget, s.key, s.now) {
        GrantTimesAppend(w.grants, Grant(s.key, s.now), key);
        MarksAppend(RaiseAll(before, s.now), Mark(s.now, None), window);
      }
    }
  }

  /** No grant that would count at `now` failed to count at an earlier filtering. */
  ghost predicate NoRevival(marks: seq<Mark>, window: int, now: int) {
    forall i :: 0 <= i < |marks| && marks[i].at + window > now ==> Lives(marks[i], window)
  }

  lemma {:induction false} CountsAgreeIff(marks: seq<Mark>, window: int, now: int)
    ensures |Active(Survivors(marks, window), window, now)| <= |Active(Times(marks), window, now)|
    ensures |Active(Survivors(marks, window), window, now)| == |Active(Times(marks), window, now)| <==> NoRevival(marks, window, now)
  {
    if marks != [] {
      var init, last := marks[..|marks| - 1], marks[|marks| - 1];
      CountsAgreeIff(init, window, now);
      ActiveAppend(Times(init), last.at, window, now);
      if Lives(last, window) { ActiveAppend(Survivors(init, window), last.at, window, now); }
      assert NoRevival(marks, window, now) <==> NoRevival(init, window, now) && (last.at + window > now ==> Lives(last, window));
    }
  }

  /** On any clock: a request is judged by the count the full history gives if and only if the clock
      brings no grant back that an earlier filtering, for a grant or a prune, had let go. */
  lemma JudgedByHistoryIff(window: int, budget: int, steps: seq<Step>, key: Text, now: int)
    ensures var w := Run(EMPTY, window, budget, steps);
            (|Active(Stored(w.usage, key), window, now)| == |Active(GrantTimes(w.grants, key), window, now)|) <==>
            NoRevival(Marks(window, budget, steps, key), window, now)
  {
    StoredAreSurvivors(window, budget, steps, key);
    CountsAgreeIff(Marks(window, budget, steps, key), window, now);
  }
}
