/** Staged configuration rollouts: stages, cohorts, health gates and transitions. */
module ConfigRollout {
  import opened Text
  import opened Sorting

  datatype Status = CANARY | BLOCKED | COMPLETED | ROLLED_BACK

  predicate IsOpen(status: Status) { status == CANARY || status == BLOCKED }

  datatype Refusal = STALE_VERSION | STALE_STAGE | NOT_IN_CANARY | NOT_OPEN | GATE_REQUIRED | GATE_EXPIRED

  // ---------- stages ----------

  /** Strictly increasing whole percentages from at least 1, ending at 100. */
  ghost predicate ValidStages(stages: seq<int>) {
    && 1 <= |stages| <= 10 && stages[|stages| - 1] == 100
    && (forall i :: 0 <= i < |stages| ==> 1 <= stages[i] <= 100)
    && (forall i, j :: 0 <= i < j < |stages| ==> stages[i] < stages[j])
  }

  datatype StageVerdict = Accepted | BadCount | NotWholePercent | NotIncreasing | NotEndingAt100

  predicate IsWhole(x: real) { x.Floor as real == x }

  function Floors(xs: seq<real>): seq<int> { seq(|xs|, i requires 0 <= i < |xs| => xs[i].Floor) }

  ghost predicate IsPercentage(x: real) { exists n: int :: IsPercent(x, n) }

  ghost predicate IsPercent(x: real, n: int) { 1 <= n <= 100 && x == n as real }

  /** The stages are these whole numbers. */
  ghost predicate Percentages(stages: seq<real>, ps: seq<int>) {
    |ps| == |stages| && forall i :: 0 <= i < |stages| ==> stages[i] == ps[i] as real
  }

  lemma WholeIff(x: real)
    ensures IsPercentage(x) <==> IsWhole(x) && 1.0 <= x <= 100.0
  {
    if IsWhole(x) && 1.0 <= x <= 100.0 { assert IsPercent(x, x.Floor); }
  }

  /** Whole numbers in place of the stages are their floors. */
  lemma PercentagesAreFloors(stages: seq<real>, ps: seq<int>)
    requires Percentages(stages, ps)
    ensures ps == Floors(stages) && forall i :: 0 <= i < |stages| ==> IsWhole(stages[i])
  {
  }

  method AssertValidStages(stages: seq<real>) returns (verdict: StageVerdict)
    ensures verdict == Accepted <==> exists ps :: Percentages(stages, ps) && ValidStages(ps)
    ensures verdict == Accepted ==> Percentages(stages, Floors(stages)) && ValidStages(Floors(stages))
    ensures verdict == BadCount <==> |stages| == 0 || |stages| > 10
    ensures verdict == NotWholePercent ==> exists x :: x in stages && !IsPercentage(x)
    ensures verdict == NotIncreasing ==> exists i :: 0 <= i < |stages| - 1 && stages[i + 1] <= stages[i]
    ensures verdict == NotEndingAt100 ==> stages[|stages| - 1] != 100.0 && forall x :: x in stages ==> IsPercentage(x)
  {
    forall ps | Percentages(stages, ps) ensures ps == Floors(stages) && forall i :: 0 <= i < |stages| ==> IsWhole(stages[i]) {
      PercentagesAreFloors(stages, ps);
    }
    forall x { WholeIff(x); }
    if |stages| == 0 || |stages| > 10 { return BadCount; }
    for i := 0 to |stages|
      invariant forall j :: 0 <= j < i ==> IsWhole(stages[j]) && 1 <= stages[j].Floor <= 100
      invariant forall j, k :: 0 <= j < k < i ==> stages[j].Floor < stages[k].Floor
    {
      if !IsWhole(stages[i]) || stages[i] < 1.0 || stages[i] > 100.0 {
        assert IsWhole(stages[i]) ==> !(1 <= Floors(stages)[i] <= 100);
        return NotWholePercent;
      }
      if i > 0 && stages[i] <= stages[i - 1] {
        assert Floors(stages)[i] <= Floors(stages)[i - 1];
        return NotIncreasing;
      }
    }
    assert Percentages(stages, Floors(stages));
    if stages[|stages| - 1] != 100.0 { return NotEndingAt100; }
    return Accepted;
  }

  // ---------- cohorts ----------

  /** The first four bytes of a SHA-256 digest, as a number. */
  type Digest32 = Text -> nat

  function CohortPosition(sha: Digest32, rolloutId: Text, instanceId: Text): nat {
    sha(rolloutId + [0] + instanceId) % 10000
  }

  predicate IsInCohort(sha: Digest32, rolloutId: Text, instanceId: Text, percent: int) {
    CohortPosition(sha, rolloutId, instanceId) < percent * 100
  }

  /** The first `n` positions. */
  function Positions(n: nat): (s: set<nat>)
    ensures |s| == n && forall x: nat :: x in s <==> x < n
  {
    if n == 0 then {} else Positions(n - 1) + {n - 1}
  }

  /** Of the ten thousand positions an instance can have, `percent` in a hundred are in the cohort:
      everyone at 100, nobody at 0, and whoever is in stays in when the percentage grows. */
  lemma CohortIsShare(sha: Digest32, rolloutId: Text, instanceId: Text, percent: nat, larger: nat)
    requires percent <= larger <= 100
    ensures var position := CohortPosition(sha, rolloutId, instanceId);
            && position < 10000 && |Positions(10000)| == 100 * 100 && |Positions(100 * percent)| == 100 * percent
            && (IsInCohort(sha, rolloutId, instanceId, percent) <==> position in Positions(100 * percent))
            && (IsInCohort(sha, rolloutId, instanceId, percent) ==> IsInCohort(sha, rolloutId, instanceId, larger))
    ensures IsInCohort(sha, rolloutId, instanceId, 100) && !IsInCohort(sha, rolloutId, instanceId, 0)
  {
  }

  // ---------- health gates ----------

  datatype GateCheck = GateCheck(name: Text, passed: bool, observedAt: int)

  datatype GatePolicy = GatePolicy(requiredChecks: seq<Text>, maxEvidenceAge: int)

  datatype Fault = DUPLICATE | FAILED | FROM_FUTURE | MISSING | PREDATES_STAGE | STALE

  datatype GateFailure = GateFailure(check: Text, reason: Fault)

  datatype GateEvaluation = GateEvaluation(passed: bool, failures: seq<GateFailure>, evaluatedAt: int)

  predicate Named(checks: seq<GateCheck>, name: Text) { exists c :: c in checks && c.name == name }

  ghost predicate DistinctNames(checks: seq<GateCheck>) {
    forall i, j :: 0 <= i < j < |checks| ==> checks[i].name != checks[j].name
  }

  /** What is wrong with one check, the first reason that applies. */
  function FaultOf(c: GateCheck, policy: GatePolicy, stageStartedAt: int, now: int): Option<Fault> {
    if c.observedAt > now then Some(FROM_FUTURE)
    else if c.observedAt < stageStartedAt then Some(PREDATES_STAGE)
    else if now - c.observedAt > policy.maxEvidenceAge then Some(STALE)
    else if !c.passed then Some(FAILED)
    else None
  }

  /** The rule: every check is named once, passing, observed during this stage and recent,
      and every required check is there. */
  ghost predicate GateHolds(checks: seq<GateCheck>, policy: GatePolicy, stageStartedAt: int, now: int) {
    && DistinctNames(checks)
    && (forall r :: r in policy.requiredChecks ==> Named(checks, r))
    && (forall c :: c in checks ==>
          c.passed && stageStartedAt <= c.observedAt <= now && now - c.observedAt <= policy.maxEvidenceAge)
  }

  function ReasonText(f: Fault): Text {
    match f
    case DUPLICATE => Ascii("duplicate")
    case FAILED => Ascii("failed")
    case FROM_FUTURE => Ascii("from_future")
    case MISSING => Ascii("missing")
    case PREDATES_STAGE => Ascii("predates_stage")
    case STALE => Ascii("stale")
  }

  /** Sorted by check name, then by reason. */
  predicate FailureLess(a: GateFailure, b: GateFailure) {
    LexLess(a.check, b.check) || (a.check == b.check && LexLess(ReasonText(a.reason), ReasonText(b.reason)))
  }

  lemma FailureOrder()
    ensures WeakOrder(FailureLess)
  {
    LexIsStrictOrder();
    forall x, y, z | FailureLess(x, y) && FailureLess(y, z) ensures FailureLess(x, z) {
      if x.check == y.check == z.check {
        LexTransitive(ReasonText(x.reason), ReasonText(y.reason), ReasonText(z.reason));
      } else if x.check != y.check && y.check != z.check {
        LexTransitive(x.check, y.check, z.check);
      }
    }
    forall x, y, z | FailureLess(x, z) ensures FailureLess(x, y) || FailureLess(y, z) {
      LexTotal(x.check, y.check);
      LexTotal(y.check, z.check);
      LexTotal(ReasonText(x.reason), ReasonText(y.reason));
    }
  }

  /** The first check of each name: the map built while scanning the evidence. */
  function FirstNamed(checks: seq<GateCheck>): seq<GateCheck> {
    if checks == [] then []
    else
      var front, last := FirstNamed(checks[..|checks| - 1]), checks[|checks| - 1];
      if Named(front, last.name) then front else front + [last]
  }

  function DuplicateFailures(checks: seq<GateCheck>): seq<GateFailure> {
    if checks == [] then []
    else
      var front, last := checks[..|checks| - 1], checks[|checks| - 1];
      if Named(FirstNamed(front), last.name) then DuplicateFailures(front) + [GateFailure(last.name, DUPLICATE)]
      else DuplicateFailures(front)
  }

  function MissingFailures(required: seq<Text>, byName: seq<GateCheck>): seq<GateFailure> {
    if required == [] then []
    else
      var front, last := MissingFailures(required[..|required| - 1], byName), required[|required| - 1];
      if Named(byName, last) then front else front + [GateFailure(last, MISSING)]
  }

  function HealthFailures(byName: seq<GateCheck>, policy: GatePolicy, stageStartedAt: int, now: int): seq<GateFailure> {
    if byName == [] then []
    else
      var front, last := HealthFailures(byName[..|byName| - 1], policy, stageStartedAt, now), byName[|byName| - 1];
      match FaultOf(last, policy, stageStartedAt, now)
      case None => front
      case Some(fault) => front + [GateFailure(last.name, fault)]
  }

  function FailuresOf(checks: seq<GateCheck>, policy: GatePolicy, stageStartedAt: int, now: int): seq<GateFailure> {
    DuplicateFailures(checks) + MissingFailures(policy.requiredChecks, FirstNamed(checks))
    + HealthFailures(FirstNamed(checks), policy, stageStartedAt, now)
  }

  /** The scan of the evidence: an index by name, and a failure for every repetition. */
  method IndexChecks(checks: seq<GateCheck>) returns (byName: seq<GateCheck>, failures: seq<GateFailure>)
    ensures byName == FirstNamed(checks) && failures == DuplicateFailures(checks)
  {
    byName, failures := [], [];
    for i := 0 to |checks|
      invariant byName == FirstNamed(checks[..i]) && failures == DuplicateFailures(checks[..i])
    {
      assert checks[..i + 1][..i] == checks[..i];
      if Named(byName, checks[i].name) {
        failures := failures + [GateFailure(checks[i].name, DUPLICATE)];
        continue;
      }
      byName := byName + [checks[i]];
    }
    assert checks[..|checks|] == checks;
  }

  method ListMissing(required: seq<Text>, byName: seq<GateCheck>) returns (failures: seq<GateFailure>)
    ensures failures == MissingFailures(required, byName)
  {
    failures := [];
    for i := 0 to |required|
      invariant failures == MissingFailures(required[..i], byName)
    {
      assert required[..i + 1][..i] == required[..i];
      if !Named(byName, required[i]) { failures := failures + [GateFailure(required[i], MISSING)]; }
    }
    assert required[..|required|] == required;
  }

  method ListUnhealthy(byName: seq<GateCheck>, policy: GatePolicy, stageStartedAt: int, now: int)
      returns (failures: seq<GateFailure>)
    ensures failures == HealthFailures(byName, policy, stageStartedAt, now)
  {
    failures := [];
    for i := 0 to |byName|
      invariant failures == HealthFailures(byName[..i], policy, stageStartedAt, now)
    {
      assert byName[..i + 1][..i] == byName[..i];
      var check := byName[i];
      if check.observedAt > now {
        failures := failures + [GateFailure(check.name, FROM_FUTURE)];
      } else if check.observedAt < stageStartedAt {
        failures := failures + [GateFailure(check.name, PREDATES_STAGE)];
      } else if now - check.observedAt > policy.maxEvidenceAge {
        failures := failures + [GateFailure(check.name, STALE)];
      } else if !check.passed {
        failures := failures + [GateFailure(check.name, FAILED)];
      }
    }
    assert byName[..|byName|] == byName;
  }

  method EvaluateGate(checks: seq<GateCheck>, policy: GatePolicy, stageStartedAt: int, now: int)
      returns (e: GateEvaluation)
    ensures e == Evaluation(checks, policy, stageStartedAt, now)
  {
    var byName, failures := IndexChecks(checks);
    var missing := ListMissing(policy.requiredChecks, byName);
    var unhealthy := ListUnhealthy(byName, policy, stageStartedAt, now);
    failures := Sort(failures + missing + unhealthy, FailureLess);
    e := GateEvaluation(|failures| == 0, failures, now);
  }

  function Evaluation(checks: seq<GateCheck>, policy: GatePolicy, stageStartedAt: int, now: int): GateEvaluation {
    var failures := Sort(FailuresOf(checks, policy, stageStartedAt, now), FailureLess);
    GateEvaluation(|failures| == 0, failures, now)
  }

  /** Check `j` is the first of its name. */
  ghost predicate IsFirst(checks: seq<GateCheck>, j: nat) {
    j < |checks| && forall i :: 0 <= i < j ==> checks[i].name != checks[j].name
  }

  /** What each reason says of one check; the earlier ones take precedence. */
  ghost predicate Defective(c: GateCheck, reason: Fault, policy: GatePolicy, stageStartedAt: int, now: int) {
    match reason
    case FROM_FUTURE => c.observedAt > now
    case PREDATES_STAGE => c.observedAt <= now && c.observedAt < stageStartedAt
    case STALE => stageStartedAt <= c.observedAt <= now && c.observedAt < now - policy.maxEvidenceAge
    case FAILED => stageStartedAt <= c.observedAt <= now && c.observedAt >= now - policy.maxEvidenceAge && !c.passed
    case _ => false
  }

  /** `f` names a real defect of the evidence. */
  ghost predicate Explains(f: GateFailure, checks: seq<GateCheck>, policy: GatePolicy, stageStartedAt: int, now: int) {
    match f.reason
    case DUPLICATE => exists j, k :: 0 <= j < k < |checks| && checks[j].name == f.check == checks[k].name
    case MISSING => f.check in policy.requiredChecks && forall c :: c in checks ==> c.name != f.check
    case _ =>
      exists j: nat :: IsFirst(checks, j) && checks[j].name == f.check && Defective(checks[j], f.reason, policy, stageStartedAt, now)
  }

  lemma {:induction false} FirstNamedCovers(checks: seq<GateCheck>)
    ensures forall c :: c in FirstNamed(checks) ==> c in checks
    ensures forall c :: c in checks ==> Named(FirstNamed(checks), c.name)
  {
    if checks != [] {
      var front, last := checks[..|checks| - 1], checks[|checks| - 1];
      FirstNamedCovers(front);
      assert checks == front + [last];
      var all := FirstNamed(checks);
      assert forall c :: c in FirstNamed(front) ==> c in all;
      forall c | c in checks ensures Named(all, c.name) {
        if c in front {
          assert Named(FirstNamed(front), c.name);
          var d :| d in FirstNamed(front) && d.name == c.name;
          assert d in all;
        } else if !Named(FirstNamed(front), last.name) {
          assert last in all;
        }
      }
    }
  }

  lemma FirstNamedNames(checks: seq<GateCheck>, name: Text)
    ensures Named(FirstNamed(checks), name) <==> Named(checks, name)
  {
    FirstNamedCovers(checks);
    if Named(checks, name) {
      var c :| c in checks && c.name == name;
      assert Named(FirstNamed(checks), c.name);
    }
  }

  lemma DistinctSnoc(front: seq<GateCheck>, last: GateCheck)
    ensures DistinctNames(front + [last]) <==> DistinctNames(front) && !Named(front, last.name)
  {
    var all := front + [last];
    if DistinctNames(all) {
      forall i, j | 0 <= i < j < |front| ensures front[i].name != front[j].name { assert all[i].name != all[j].name; }
      forall c | c in front ensures c.name != last.name {
        var j :| 0 <= j < |front| && front[j] == c;
        assert all[j].name != all[|front|].name;
      }
    }
    if DistinctNames(front) && !Named(front, last.name) {
      assert forall j :: 0 <= j < |front| ==> front[j] in front;
    }
  }

  lemma {:induction false} NoDuplicatesIff(checks: seq<GateCheck>)
    ensures DuplicateFailures(checks) == [] <==> DistinctNames(checks)
    ensures DistinctNames(checks) ==> FirstNamed(checks) == checks
  {
    if checks != [] {
      var front, last := checks[..|checks| - 1], checks[|checks| - 1];
      assert checks == front + [last];
      NoDuplicatesIff(front);
      FirstNamedNames(front, last.name);
      DistinctSnoc(front, last);
    }
  }

  lemma {:induction false} NoMissingIff(required: seq<Text>, byName: seq<GateCheck>)
    ensures MissingFailures(required, byName) == [] <==> forall r :: r in required ==> Named(byName, r)
    ensures forall f :: f in MissingFailures(required, byName) ==>
              f.reason == MISSING && f.check in required && !Named(byName, f.check)
  {
    if required != [] {
      NoMissingIff(required[..|required| - 1], byName);
      assert required == required[..|required| - 1] + [required[|required| - 1]];
    }
  }

  lemma {:induction false} NoHealthIff(byName: seq<GateCheck>, policy: GatePolicy, stageStartedAt: int, now: int)
    ensures HealthFailures(byName, policy, stageStartedAt, now) == [] <==>
              forall c :: c in byName ==> FaultOf(c, policy, stageStartedAt, now) == None
  {
    if byName != [] {
      NoHealthIff(byName[..|byName| - 1], policy, stageStartedAt, now);
      assert byName == byName[..|byName| - 1] + [byName[|byName| - 1]];
    }
  }

  /** MAIN: the evaluation passes exactly when the rule holds. */
  lemma GatePassesIff(checks: seq<GateCheck>, policy: GatePolicy, stageStartedAt: int, now: int)
    ensures Evaluation(checks, policy, stageStartedAt, now).passed <==> GateHolds(checks, policy, stageStartedAt, now)
  {
    SortElements(FailuresOf(checks, policy, stageStartedAt, now), FailureLess);
    NoDuplicatesIff(checks);
    NoMissingIff(policy.requiredChecks, FirstNamed(checks));
    NoHealthIff(FirstNamed(checks), policy, stageStartedAt, now);
  }

  /** `c` is the first check of its name. */
  ghost predicate FirstOfName(checks: seq<GateCheck>, c: GateCheck) {
    exists j: nat :: IsFirst(checks, j) && checks[j] == c
  }

  lemma LastIsFirst(front: seq<GateCheck>, last: GateCheck)
    ensures IsFirst(front + [last], |front|) <==> !Named(front, last.name)
  {
    var checks := front + [last];
    assert forall i :: 0 <= i < |front| ==> checks[i] == front[i] && front[i] in front;
    if c :| c in front && c.name == last.name {
      var i :| 0 <= i < |front| && front[i] == c;
      assert checks[i].name == checks[|front|].name;
    }
  }

  lemma FirstSnoc(front: seq<GateCheck>, last: GateCheck, c: GateCheck)
    ensures FirstOfName(front + [last], c) <==> FirstOfName(front, c) || (c == last && !Named(front, last.name))
  {
    var checks := front + [last];
    LastIsFirst(front, last);
    assert forall i :: 0 <= i < |front| ==> checks[i] == front[i];
    if j: nat :| IsFirst(checks, j) && checks[j] == c {
      if j < |front| {
        assert forall i :: 0 <= i < j ==> front[i].name == checks[i].name;
        assert IsFirst(front, j) && front[j] == c;
      }
    }
    if j: nat :| IsFirst(front, j) && front[j] == c { assert IsFirst(checks, j) && checks[j] == c; }
    assert checks[|front|] == last;
  }

  lemma {:induction false} FirstNamedIsFirst(checks: seq<GateCheck>, c: GateCheck)
    ensures c in FirstNamed(checks) <==> FirstOfName(checks, c)
  {
    if checks != [] {
      var front, last := checks[..|checks| - 1], checks[|checks| - 1];
      assert checks == front + [last];
      FirstNamedIsFirst(front, c);
      FirstNamedNames(front, last.name);
      FirstSnoc(front, last, c);
    }
  }

  lemma {:induction false} DuplicatesExact(checks: seq<GateCheck>, f: GateFailure)
    ensures f in DuplicateFailures(checks) <==>
              f.reason == DUPLICATE && exists j, k :: 0 <= j < k < |checks| && checks[j].name == f.check == checks[k].name
  {
    if checks != [] {
      var front, last := checks[..|checks| - 1], checks[|checks| - 1];
      DuplicatesExact(front, f);
      FirstNamedNames(front, last.name);
      if j, k :| 0 <= j < k < |front| && front[j].name == f.check == front[k].name {
        assert checks[j].name == f.check == checks[k].name;
      }
      if j, k :| 0 <= j < k < |checks| && checks[j].name == f.check == checks[k].name {
        assert checks[j] in front;
        if k < |front| { assert front[j].name == f.check == front[k].name; }
      }
      if c :| c in front && c.name == last.name {
        var j :| 0 <= j < |front| && front[j] == c;
        assert checks[j].name == last.name == checks[|front|].name;
      }
    }
  }

  lemma {:induction false} MissingExact(required: seq<Text>, byName: seq<GateCheck>, f: GateFailure)
    ensures f in MissingFailures(required, byName) <==> f.reason == MISSING && f.check in required && !Named(byName, f.check)
  {
    if required != [] {
      MissingExact(required[..|required| - 1], byName, f);
      assert required == required[..|required| - 1] + [required[|required| - 1]];
    }
  }

  lemma {:induction false} HealthExact(byName: seq<GateCheck>, policy: GatePolicy, stageStartedAt: int, now: int, f: GateFailure)
    ensures f in HealthFailures(byName, policy, stageStartedAt, now) <==>
              exists c :: c in byName && c.name == f.check && Defective(c, f.reason, policy, stageStartedAt, now)
  {
    if byName != [] {
      var front, last := byName[..|byName| - 1], byName[|byName| - 1];
      HealthExact(front, policy, stageStartedAt, now, f);
      assert byName == front + [last];
      assert FaultOf(last, policy, stageStartedAt, now) == Some(f.reason) <==> Defective(last, f.reason, policy, stageStartedAt, now);
    }
  }

  lemma HealthIsFirst(checks: seq<GateCheck>, policy: GatePolicy, stageStartedAt: int, now: int, f: GateFailure)
    ensures f in HealthFailures(FirstNamed(checks), policy, stageStartedAt, now) <==>
              exists j: nat :: IsFirst(checks, j) && checks[j].name == f.check && Defective(checks[j], f.reason, policy, stageStartedAt, now)
  {
    HealthExact(FirstNamed(checks), policy, stageStartedAt, now, f);
    if c :| c in FirstNamed(checks) && c.name == f.check && Defective(c, f.reason, policy, stageStartedAt, now) {
      FirstNamedIsFirst(checks, c);
    }
    if j: nat :| IsFirst(checks, j) && checks[j].name == f.check && Defective(checks[j], f.reason, policy, stageStartedAt, now) {
      FirstNamedIsFirst(checks, checks[j]);
    }
  }

  lemma FailureIsExact(checks: seq<GateCheck>, policy: GatePolicy, stageStartedAt: int, now: int, f: GateFailure)
    ensures f in FailuresOf(checks, policy, stageStartedAt, now) <==> Explains(f, checks, policy, stageStartedAt, now)
  {
    DuplicatesExact(checks, f);
    MissingExact(policy.requiredChecks, FirstNamed(checks), f);
    FirstNamedNames(checks, f.check);
    HealthIsFirst(checks, policy, stageStartedAt, now, f);
  }

  /** By check, and by reason where the check is the same. */
  ghost predicate ByCheckAndReason(failures: seq<GateFailure>) {
    forall i, j :: 0 <= i < j < |failures| ==>
      && !LexLess(failures[j].check, failures[i].check)
      && (failures[i].check == failures[j].check ==> !LexLess(ReasonText(failures[j].reason), ReasonText(failures[i].reason)))
  }

  lemma FailuresAscend(failures: seq<GateFailure>)
    ensures ByCheckAndReason(Sort(failures, FailureLess))
  {
    FailureOrder();
    SortAscending(failures, FailureLess);
    var sorted := Sort(failures, FailureLess);
    assert forall i, j :: 0 <= i < j < |sorted| ==> !FailureLess(sorted[j], sorted[i]);
  }

  /** The failures reported are exactly the defects of the evidence, by name and then by reason. */
  lemma FailuresAreExact(checks: seq<GateCheck>, policy: GatePolicy, stageStartedAt: int, now: int)
    ensures var failures := Evaluation(checks, policy, stageStartedAt, now).failures;
            && (forall f :: f in failures <==> Explains(f, checks, policy, stageStartedAt, now))
            && ByCheckAndReason(failures)
  {
    var failures := FailuresOf(checks, policy, stageStartedAt, now);
    SortElements(failures, FailureLess);
    FailuresAscend(failures);
    forall f ensures f in failures <==> Explains(f, checks, policy, stageStartedAt, now) {
      FailureIsExact(checks, policy, stageStartedAt, now, f);
    }
  }

  // ---------- transitions ----------

  datatype Gate = Gate(passed: bool, evaluatedAt: int, eventId: Text)

  /** A stored rollout. */
  datatype Rollout = Rollout(
    id: Text, environment: Text, snapshotId: Text, baselineSnapshotId: Option<Text>,
    status: Status, stages: seq<int>, stageIndex: nat, stageStartedAt: int, version: nat, lastGate: Option<Gate>,
    completedAt: Option<int>, rolledBackAt: Option<int>)

  datatype Transition = Next(next: Rollout) | Refuse(refusal: Refusal)

  function ApplyGate(r: Rollout, expectedVersion: int, stageIndex: int, e: GateEvaluation, eventId: Text): Transition {
    if r.version != expectedVersion then Refuse(STALE_VERSION)
    else if r.status != CANARY then Refuse(NOT_IN_CANARY)
    else if stageIndex != r.stageIndex then Refuse(STALE_STAGE)
    else Next(r.(status := if e.passed then CANARY else BLOCKED, version := r.version + 1,
                 lastGate := Some(Gate(e.passed, e.evaluatedAt, eventId))))
  }

  function ApplyPromotion(r: Rollout, expectedVersion: int, now: int, gateValidity: int): Transition {
    if r.version != expectedVersion then Refuse(STALE_VERSION)
    else if r.status != CANARY then Refuse(NOT_IN_CANARY)
    else if r.lastGate.None? || !r.lastGate.value.passed then Refuse(GATE_REQUIRED)
    else if now - r.lastGate.value.evaluatedAt > gateValidity then Refuse(GATE_EXPIRED)
    else if r.stageIndex == |r.stages| - 1 then
      Next(r.(status := COMPLETED, version := r.version + 1))
    else
      Next(r.(stageIndex := r.stageIndex + 1, stageStartedAt := now, version := r.version + 1, lastGate := None))
  }

  function ApplyRollback(r: Rollout, expectedVersion: int): Transition {
    if r.version != expectedVersion then Refuse(STALE_VERSION)
    else if !IsOpen(r.status) then Refuse(NOT_OPEN)
    else Next(r.(status := ROLLED_BACK, version := r.version + 1))
  }
}
