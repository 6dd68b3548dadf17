/** Rollout decisions, the compare-and-swap store, and what every history guarantees. */
module RolloutService {
  import opened Text
  import opened ConfigRollout

  // ---------- decisions and their events ----------

  datatype EventKind = Created | GatePassed | GateFailed | Promoted | Completed | RolledBack

  datatype Evidence =
    | Origin(snapshotId: Text, baseline: Option<Text>)
    | Health(checks: seq<GateCheck>, failures: seq<GateFailure>)
    | Promotion(fromStageIndex: nat, gateEventId: Option<Text>)
    | Abandonment(restored: Option<Text>, abandoned: Text, statusAtRollback: Status, failedGateEventId: Option<Text>)

  datatype Event = Event(id: Text, rolloutId: Text, kind: EventKind, stageIndex: nat, percent: int, evidence: Evidence)

  datatype Settings = Settings(policy: GatePolicy, gateValidity: int)

  /** A request to change a rollout, with the clock reading it is decided at. */
  datatype Decision =
    | RecordGate(expectedVersion: int, stageIndex: int, checks: seq<GateCheck>, now: int, eventId: Text)
    | Promote(expectedVersion: int, now: int, eventId: Text)
    | Rollback(expectedVersion: int, now: int, eventId: Text)

  datatype Decided = Change(next: Rollout, event: Event) | Denied(refusal: Refusal)

  function PercentOf(r: Rollout): int { if r.stageIndex < |r.stages| then r.stages[r.stageIndex] else 0 }

  function EventFor(r: Rollout, id: Text, kind: EventKind, evidence: Evidence): Event {
    Event(id, r.id, kind, r.stageIndex, PercentOf(r), evidence)
  }

  /** `recordGate` up to its commit. */
  function DecideGate(sv: Settings, read: Rollout, expectedVersion: int, stageIndex: int, checks: seq<GateCheck>, now: int, eventId: Text): Decided {
    var evaluation := Evaluation(checks, sv.policy, read.stageStartedAt, now);
    match ApplyGate(read, expectedVersion, stageIndex, evaluation, eventId)
    case Refuse(refusal) => Denied(refusal)
    case Next(next) =>
      Change(next, EventFor(read, eventId, if evaluation.passed then GatePassed else GateFailed,
                            Health(checks, evaluation.failures)))
  }

  /** `promote` up to its commit. */
  function DecidePromotion(sv: Settings, read: Rollout, expectedVersion: int, now: int, eventId: Text): Decided {
    match ApplyPromotion(read, expectedVersion, now, sv.gateValidity)
    case Refuse(refusal) => Denied(refusal)
    case Next(applied) =>
      var completed := applied.status == COMPLETED;
      var next := applied.(completedAt := if completed then Some(now) else None);
      var gateEventId := if read.lastGate.Some? then Some(read.lastGate.value.eventId) else None;
      Change(next, EventFor(next, eventId, if completed then Completed else Promoted,
                            Promotion(read.stageIndex, gateEventId)))
  }

  /** `rollback` up to its commit. */
  function DecideRollback(read: Rollout, expectedVersion: int, now: int, eventId: Text): Decided {
    match ApplyRollback(read, expectedVersion)
    case Refuse(refusal) => Denied(refusal)
    case Next(applied) =>
      var failedGate := if read.lastGate.Some? && !read.lastGate.value.passed then Some(read.lastGate.value.eventId) else None;
      Change(applied.(rolledBackAt := Some(now)),
             EventFor(read, eventId, RolledBack,
                      Abandonment(read.baselineSnapshotId, read.snapshotId, read.status, failedGate)))
  }

  function Decide(sv: Settings, read: Rollout, d: Decision): Decided {
    match d
    case RecordGate(v, stage, checks, now, id) => DecideGate(sv, read, v, stage, checks, now, id)
    case Promote(v, now, id) => DecidePromotion(sv, read, v, now, id)
    case Rollback(v, now, id) => DecideRollback(read, v, now, id)
  }

  // ---------- what a decision does ----------

  /** The row without the columns that a decision may write. */
  function Fixed(r: Rollout): Rollout {
    r.(status := CANARY, stageIndex := 0, stageStartedAt := 0, version := 0, lastGate := None, completedAt := None, rolledBackAt := None)
  }

  ghost predicate PercentTells(e: Event, r: Rollout) { e.stageIndex < |r.stages| ==> e.percent == r.stages[e.stageIndex] }

  /** A gate is recorded exactly by a caller who saw the present version and stage of a canary. It
      keeps the canary going or blocks it, as the rule says, and changes nothing else. */
  lemma GateDecision(sv: Settings, read: Rollout, d: Decision)
    requires d.RecordGate?
    ensures var holds := GateHolds(d.checks, sv.policy, read.stageStartedAt, d.now);
            match Decide(sv, read, d)
            case Denied(refusal) =>
              && (refusal == STALE_VERSION <==> d.expectedVersion != read.version)
              && (refusal == NOT_IN_CANARY <==> d.expectedVersion == read.version && read.status != CANARY)
              && (refusal == STALE_STAGE <==> d.expectedVersion == read.version && read.status == CANARY)
              && (refusal == STALE_STAGE ==> d.stageIndex != read.stageIndex)
            case Change(next, e) =>
              && d.expectedVersion == read.version && read.status == CANARY && d.stageIndex == read.stageIndex
              && next.status == (if holds then CANARY else BLOCKED)
              && next.lastGate == Some(Gate(holds, d.now, d.eventId)) && next.version == read.version + 1
              && Fixed(next) == Fixed(read) && next.stageIndex == read.stageIndex && next.stageStartedAt == read.stageStartedAt
              && next.completedAt == read.completedAt && next.rolledBackAt == read.rolledBackAt
              && e.id == d.eventId && e.rolloutId == read.id && e.stageIndex == read.stageIndex
              && e.kind == (if holds then GatePassed else GateFailed)
              && e.evidence.Health? && e.evidence.checks == d.checks && PercentTells(e, read)
              && (forall f :: f in e.evidence.failures <==> Explains(f, d.checks, sv.policy, read.stageStartedAt, d.now))
  {
    FailuresAreExact(d.checks, sv.policy, read.stageStartedAt, d.now);
    GatePassesIff(d.checks, sv.policy, read.stageStartedAt, d.now);
  }

  /** A stage is promoted exactly by a caller who saw the present version of a canary whose last gate
      passed and is still valid. The last stage completes the rollout; any other gives way to the
      next, which starts now and without a gate. Nothing else changes. */
  lemma PromotionDecision(sv: Settings, read: Rollout, d: Decision)
    requires d.Promote?
    ensures var gated := read.lastGate.Some? && read.lastGate.value.passed;
            var final := read.stageIndex == |read.stages| - 1;
            match Decide(sv, read, d)
            case Denied(refusal) =>
              && (refusal == STALE_VERSION <==> d.expectedVersion != read.version)
              && (refusal == NOT_IN_CANARY <==> d.expectedVersion == read.version && read.status != CANARY)
              && (refusal == GATE_REQUIRED <==> d.expectedVersion == read.version && read.status == CANARY && !gated)
              && (refusal == GATE_EXPIRED <==> d.expectedVersion == read.version && read.status == CANARY && gated)
              && (refusal == GATE_EXPIRED ==> d.now > read.lastGate.value.evaluatedAt + sv.gateValidity)
            case Change(next, e) =>
              && d.expectedVersion == read.version && read.status == CANARY && gated
              && d.now <= read.lastGate.value.evaluatedAt + sv.gateValidity
              && next.version == read.version + 1 && Fixed(next) == Fixed(read) && next.rolledBackAt == read.rolledBackAt
              && (if final then
                    && next.status == COMPLETED && next.completedAt == Some(d.now) && next.stageIndex == read.stageIndex
                    && next.stageStartedAt == read.stageStartedAt && next.lastGate == read.lastGate
                  else
                    && next.status == CANARY && next.completedAt == None && next.stageIndex == read.stageIndex + 1
                    && next.stageStartedAt == d.now && next.lastGate == None)
              && e.id == d.eventId && e.rolloutId == read.id && e.stageIndex == next.stageIndex
              && e.kind == (if final then Completed else Promoted)
              && e.evidence == Promotion(read.stageIndex, Some(read.lastGate.value.eventId)) && PercentTells(e, read)
  {
  }

  /** A rollback is accepted exactly from a caller who saw the present version of an open rollout. It
      closes the rollout and changes nothing else, and its event names what is restored, what is
      abandoned and the gate that failed, if one did. */
  lemma RollbackDecision(sv: Settings, read: Rollout, d: Decision)
    requires d.Rollback?
    ensures match Decide(sv, read, d)
            case Denied(refusal) =>
              && (refusal == STALE_VERSION <==> d.expectedVersion != read.version)
              && (refusal == NOT_OPEN <==> d.expectedVersion == read.version)
              && (refusal == NOT_OPEN ==> read.status == COMPLETED || read.status == ROLLED_BACK)
            case Change(next, e) =>
              && d.expectedVersion == read.version && (read.status == CANARY || read.status == BLOCKED)
              && next.status == ROLLED_BACK && next.rolledBackAt == Some(d.now) && next.version == read.version + 1
              && Fixed(next) == Fixed(read) && next.stageIndex == read.stageIndex && next.stageStartedAt == read.stageStartedAt
              && next.lastGate == read.lastGate && next.completedAt == read.completedAt
              && e.id == d.eventId && e.rolloutId == read.id && e.stageIndex == read.stageIndex && e.kind == RolledBack
              && PercentTells(e, read) && e.evidence.Abandonment? && e.evidence.restored == read.baselineSnapshotId
              && e.evidence.abandoned == read.snapshotId && e.evidence.statusAtRollback == read.status
              && (e.evidence.failedGateEventId.Some? <==> read.lastGate.Some? && !read.lastGate.value.passed)
              && (e.evidence.failedGateEventId.Some? ==> e.evidence.failedGateEventId == Some(read.lastGate.value.eventId))
  {
  }

  // ---------- stored columns ----------

  /** The columns that hold the last gate. */
  datatype GateColumns = GateColumns(eventId: Option<Text>, passed: Option<bool>, evaluatedAt: Option<int>)

  function ToColumns(gate: Option<Gate>): GateColumns {
    if gate.None? then GateColumns(None, None, None)
    else GateColumns(Some(gate.value.eventId), Some(gate.value.passed), Some(gate.value.evaluatedAt))
  }

  function FromColumns(c: GateColumns): Option<Gate> {
    if c.eventId.Some? && c.eventId.value != [] && c.passed.Some? && c.evaluatedAt.Some?
    then Some(Gate(c.passed.value, c.evaluatedAt.value, c.eventId.value)) else None
  }

  /** A gate survives storage exactly when its event id is not the empty string. */
  lemma GateColumnsRoundTrip(gate: Option<Gate>)
    ensures FromColumns(ToColumns(gate)) == gate <==> (gate.Some? ==> gate.value.eventId != [])
  {
  }

  // ---------- the store ----------

  datatype RolloutDb = RolloutDb(rollouts: map<Text, Rollout>, events: map<Text, seq<Event>>)

  /** Another open rollout already holds this one's environment (the unique open-environment key). */
  predicate Clashes(rollouts: map<Text, Rollout>, r: Rollout) {
    IsOpen(r.status)
    && exists id :: id in rollouts && id != r.id && IsOpen(rollouts[id].status) && rollouts[id].environment == r.environment
  }

  predicate CanCreate(db: RolloutDb, r: Rollout) { r.id !in db.rollouts && !Clashes(db.rollouts, r) }

  function CreateIn(db: RolloutDb, r: Rollout, e: Event): RolloutDb {
    if CanCreate(db, r) then RolloutDb(db.rollouts[r.id := r], db.events[r.id := [e]]) else db
  }

  predicate CanApply(db: RolloutDb, next: Rollout, expectedVersion: int) {
    next.id in db.rollouts && db.rollouts[next.id].version == expectedVersion && !Clashes(db.rollouts, next)
  }

  function EventsOf(db: RolloutDb, id: Text): seq<Event> { if id in db.events then db.events[id] else [] }

  function ApplyIn(db: RolloutDb, next: Rollout, expectedVersion: int, e: Event): RolloutDb {
    if CanApply(db, next, expectedVersion)
    then RolloutDb(db.rollouts[next.id := next], db.events[next.id := EventsOf(db, next.id) + [e]]) else db
  }

  /** No other rollout is open in the environment. */
  ghost predicate NoneOpenIn(rollouts: map<Text, Rollout>, environment: Text, except: Text) {
    forall id :: id in rollouts && id != except && rollouts[id].environment == environment ==>
      rollouts[id].status == COMPLETED || rollouts[id].status == ROLLED_BACK
  }

  class RolloutStore {
    var rollouts: map<Text, Rollout>
    var events: map<Text, seq<Event>>

    function State(): RolloutDb
      reads this
    {
      RolloutDb(rollouts, events)
    }

    constructor ()
      ensures State() == RolloutDb(map[], map[])
    {
      rollouts, events := map[], map[];
    }

    method CreateRollout(r: Rollout, e: Event) returns (created: bool)
      modifies this
      ensures created == CanCreate(old(State()), r)
      ensures created <==> r.id !in old(rollouts) && (IsOpen(r.status) ==> NoneOpenIn(old(rollouts), r.environment, r.id))
      ensures created ==> rollouts == old(rollouts)[r.id := r] && r.id in events && events[r.id] == [e]
      ensures !created ==> State() == old(State())
      ensures State() == CreateIn(old(State()), r, e)
    {
      if r.id in rollouts || Clashes(rollouts, r) { return false; }
      rollouts := rollouts[r.id := r];
      events := events[r.id := [e]];
      return true;
    }

    method Transition(next: Rollout, expectedVersion: int, e: Event) returns (applied: bool)
      modifies this
      ensures applied == CanApply(old(State()), next, expectedVersion)
      ensures applied <==> && next.id in old(rollouts) && old(rollouts)[next.id].version == expectedVersion
                           && (IsOpen(next.status) ==> NoneOpenIn(old(rollouts), next.environment, next.id))
      ensures applied ==> rollouts == old(rollouts)[next.id := next] && EventsOf(State(), next.id) == old(EventsOf(State(), next.id)) + [e]
      ensures !applied ==> State() == old(State())
      ensures State() == ApplyIn(old(State()), next, expectedVersion, e)
    {
      if next.id !in rollouts || rollouts[next.id].version != expectedVersion || Clashes(rollouts, next) { return false; }
      rollouts := rollouts[next.id := next];
      events := events[next.id := (if next.id in events then events[next.id] else []) + [e]];
      return true;
    }
  }

  /** One service call that reads a rollout, decides and commits, with `read` as it was read:
      other callers may have committed since. */
  method CommitDecision(store: RolloutStore, sv: Settings, read: Rollout, d: Decision) returns (refusal: Option<Refusal>)
    modifies store
    ensures match Decide(sv, read, d)
            case Denied(r) => refusal == Some(r) && store.State() == old(store.State())
            case Change(next, event) =>
              && store.State() == ApplyIn(old(store.State()), next, read.version, event)
              && refusal == if CanApply(old(store.State()), next, read.version) then None else Some(STALE_VERSION)
  {
    var decided := Decide(sv, read, d);
    if decided.Denied? {
      return Some(decided.refusal);
    }
    var applied := store.Transition(decided.next, read.version, decided.event);
    refusal := if applied then None else Some(STALE_VERSION);
  }

  // ---------- histories ----------

  /** The row and the event that `createRollout` writes. */
  function NewRollout(id: Text, environment: Text, snapshotId: Text, baseline: Option<Text>, stages: seq<int>, now: int): Rollout {
    Rollout(id, environment, snapshotId, baseline, CANARY, stages, 0, now, 0, None, None, None)
  }

  function CreationEvent(r: Rollout, eventId: Text): Event {
    EventFor(r, eventId, Created, Origin(r.snapshotId, r.baselineSnapshotId))
  }

  datatype Started = Running(rollout: Rollout) | InvalidStages | AlreadyActive | OpenRolloutExists

  /** `createRollout`: the checks before the insert, and the insert. */
  method StartRollout(
      store: RolloutStore, id: Text, environment: Text, snapshotId: Text, baseline: Option<Text>, stages: seq<real>,
      now: int, eventId: Text) returns (outcome: Started)
    modifies store
    ensures var valid := exists ps :: Percentages(stages, ps) && ValidStages(ps);
            && (outcome.InvalidStages? <==> !valid)
            && (outcome.AlreadyActive? <==> valid && baseline == Some(snapshotId))
            && (outcome.OpenRolloutExists? <==>
                  && valid && baseline != Some(snapshotId)
                  && (id in old(store.rollouts) || !NoneOpenIn(old(store.rollouts), environment, id)))
    ensures !outcome.Running? ==> store.State() == old(store.State())
    ensures outcome.Running? ==>
              var r := outcome.rollout;
              && store.State() == CreateIn(old(store.State()), r, CreationEvent(r, eventId)) && id in store.rollouts
              && store.rollouts[id] == r && IsStart(r, CreationEvent(r, eventId))
              && r.id == id && r.environment == environment && r.snapshotId == snapshotId && r.baselineSnapshotId == baseline
              && Percentages(stages, r.stages) && r.stageStartedAt == now
  {
    var verdict := AssertValidStages(stages);
    if verdict != Accepted { return InvalidStages; }
    if baseline == Some(snapshotId) { return AlreadyActive; }
    var r := NewRollout(id, environment, snapshotId, baseline, Floors(stages), now);
    var created := store.CreateRollout(r, CreationEvent(r, eventId));
    outcome := if created then Running(r) else OpenRolloutExists;
  }

  ghost predicate IsStart(r: Rollout, e: Event) {
    && r.status == CANARY && r.stageIndex == 0 && r.version == 0 && r.lastGate == None && ValidStages(r.stages)
    && r.completedAt == None && r.rolledBackAt == None && r.baselineSnapshotId != Some(r.snapshotId)
    && e.kind == Created && e.rolloutId == r.id && e.evidence == Origin(r.snapshotId, r.baselineSnapshotId)
  }

  /** Decision `d` turns `before` into `after` and records `e`. */
  ghost predicate Leads(sv: Settings, before: Rollout, d: Decision, after: Rollout, e: Event) {
    Decide(sv, before, d) == Change(after, e)
  }

  ghost predicate SomeDecisionLeads(sv: Settings, before: Rollout, after: Rollout, e: Event) {
    exists d :: Leads(sv, before, d, after, e)
  }

  /** `events[k]` records the decision that turned row `k - 1` into row `k`. */
  ghost predicate StepAt(sv: Settings, rows: seq<Rollout>, events: seq<Event>, k: nat)
    requires 0 < k < |rows| == |events|
  {
    SomeDecisionLeads(sv, rows[k - 1], rows[k], events[k])
  }

  /** The rows a rollout went through, one per version, each with its event. */
  ghost predicate History(sv: Settings, id: Text, rows: seq<Rollout>, events: seq<Event>) {
    && 0 < |rows| == |events| && IsStart(rows[0], events[0])
    && (forall k :: 0 <= k < |rows| ==> rows[k].version == k && rows[k].id == id)
    && (forall k :: 0 < k < |rows| ==> StepAt(sv, rows, events, k))
  }

  /** What any decision changes and what it leaves alone. */
  lemma DecideFrame(sv: Settings, read: Rollout, d: Decision)
    requires Decide(sv, read, d).Change?
    ensures var next := Decide(sv, read, d).next;
            && IsOpen(read.status) && next.version == read.version + 1 && next.id == read.id
            && next.stages == read.stages && next.environment == read.environment
            && next.snapshotId == read.snapshotId && next.baselineSnapshotId == read.baselineSnapshotId
            && read.stageIndex <= next.stageIndex <= read.stageIndex + 1
            && (read.stageIndex < |read.stages| ==> next.stageIndex < |next.stages|)
  {
  }

  lemma StepFrame(sv: Settings, rows: seq<Rollout>, events: seq<Event>, k: nat)
    requires 0 < k < |rows| == |events| && StepAt(sv, rows, events, k)
    ensures && IsOpen(rows[k - 1].status) && rows[k].version == rows[k - 1].version + 1
            && rows[k].stages == rows[k - 1].stages && rows[k].environment == rows[k - 1].environment
            && rows[k].snapshotId == rows[k - 1].snapshotId && rows[k].baselineSnapshotId == rows[k - 1].baselineSnapshotId
            && rows[k - 1].stageIndex <= rows[k].stageIndex <= rows[k - 1].stageIndex + 1
            && (rows[k - 1].stageIndex < |rows[k - 1].stages| ==> rows[k].stageIndex < |rows[k].stages|)
  {
    var d :| Leads(sv, rows[k - 1], d, rows[k], events[k]);
    DecideFrame(sv, rows[k - 1], d);
  }

  lemma {:induction false} HistoryFrame(sv: Settings, id: Text, rows: seq<Rollout>, events: seq<Event>, k: nat)
    requires History(sv, id, rows, events) && k < |rows|
    ensures rows[k].stages == rows[0].stages && rows[k].environment == rows[0].environment
    ensures rows[k].snapshotId == rows[0].snapshotId && rows[k].baselineSnapshotId == rows[0].baselineSnapshotId
    ensures rows[k].stageIndex < |rows[k].stages|
  {
    if k > 0 {
      HistoryFrame(sv, id, rows, events, k - 1);
      assert StepAt(sv, rows, events, k);
      StepFrame(sv, rows, events, k);
    }
  }

  lemma {:induction false} StageGrows(sv: Settings, id: Text, rows: seq<Rollout>, events: seq<Event>, k: nat, l: nat)
    requires History(sv, id, rows, events) && k <= l < |rows|
    ensures rows[k].stageIndex <= rows[l].stageIndex
  {
    if k < l {
      StageGrows(sv, id, rows, events, k, l - 1);
      assert StepAt(sv, rows, events, l);
      StepFrame(sv, rows, events, l);
    }
  }

  /** A closed rollout never changes: every row but the last of a history is open. */
  lemma ClosedIsFinal(sv: Settings, id: Text, rows: seq<Rollout>, events: seq<Event>, k: nat)
    requires History(sv, id, rows, events) && k + 1 < |rows|
    ensures IsOpen(rows[k].status)
  {
    assert StepAt(sv, rows, events, k + 1);
    StepFrame(sv, rows, events, k + 1);
  }

  // ---------- events tell what happened ----------

  /** The status each kind of event leaves behind. */
  ghost predicate KindTells(kind: EventKind, status: Status) {
    && (kind == RolledBack <==> status == ROLLED_BACK) && (kind == Completed <==> status == COMPLETED)
    && (kind == GateFailed <==> status == BLOCKED)
    && (kind == Created || kind == GatePassed || kind == Promoted <==> status == CANARY)
  }

  /** The closing times of a row are set exactly when it is closed that way, and a canary has no failed gate. */
  ghost predicate RowTells(r: Rollout) {
    && (r.rolledBackAt.Some? <==> r.status == ROLLED_BACK) && (r.completedAt.Some? <==> r.status == COMPLETED)
    && (r.status == CANARY ==> r.lastGate.None? || r.lastGate.value.passed)
    && (r.status == BLOCKED ==> r.lastGate.Some? && !r.lastGate.value.passed)
  }

  lemma DecisionTells(sv: Settings, read: Rollout, d: Decision)
    requires Decide(sv, read, d).Change? && RowTells(read)
    ensures var Change(next, e) := Decide(sv, read, d);
            && e.kind != Created && KindTells(e.kind, next.status) && RowTells(next)
            && (e.kind == Promoted <==> next.stageIndex == read.stageIndex + 1)
            && (next.status == BLOCKED ==> e.id == next.lastGate.value.eventId)
  {
    match d
    case RecordGate(_, _, _, _, _) => GateDecision(sv, read, d);
    case Promote(_, _, _) => PromotionDecision(sv, read, d);
    case Rollback(_, _, _) => RollbackDecision(sv, read, d);
  }

  /** MAIN: the events of a rollout tell its rows: which status each left, when it closed and how, and
      exactly which ones moved it to the next stage. */
  lemma {:induction false} EventsTellRows(sv: Settings, id: Text, rows: seq<Rollout>, events: seq<Event>, k: nat)
    requires History(sv, id, rows, events) && k < |rows|
    ensures KindTells(events[k].kind, rows[k].status) && RowTells(rows[k]) && (events[k].kind == Created <==> k == 0)
    ensures k > 0 ==> (events[k].kind == Promoted <==> rows[k].stageIndex == rows[k - 1].stageIndex + 1)
    ensures rows[k].status == BLOCKED ==> events[k].id == rows[k].lastGate.value.eventId
  {
    if k > 0 {
      EventsTellRows(sv, id, rows, events, k - 1);
      assert StepAt(sv, rows, events, k);
      var d :| Leads(sv, rows[k - 1], d, rows[k], events[k]);
      DecisionTells(sv, rows[k - 1], d);
    }
  }

  /** MAIN: a rolled-back rollout tells everyone to run its baseline; its last event says so, and names
      the event just before it as the failed gate exactly when it was blocked. */
  lemma RollbackIsExplained(sha: Digest32, sv: Settings, id: Text, rows: seq<Rollout>, events: seq<Event>, instanceId: Text)
    requires History(sv, id, rows, events) && rows[|rows| - 1].status == ROLLED_BACK
    ensures var k := |rows| - 1;
            && Cohort(sha, rows[k], instanceId) == CohortAnswer(false, 0, rows[0].baselineSnapshotId)
            && k > 0 && events[k].evidence.Abandonment?
            && events[k].evidence.restored == rows[0].baselineSnapshotId && events[k].evidence.abandoned == rows[0].snapshotId
            && (events[k - 1].kind == GateFailed <==> events[k].evidence.statusAtRollback == BLOCKED)
            && events[k].evidence.failedGateEventId == if events[k - 1].kind == GateFailed then Some(events[k - 1].id) else None
  {
    var k := |rows| - 1;
    EventsTellRows(sv, id, rows, events, k);
    RollbackNamesGate(sv, id, rows, events, k);
    HistoryFrame(sv, id, rows, events, k);
  }

  lemma RollbackNamesGate(sv: Settings, id: Text, rows: seq<Rollout>, events: seq<Event>, k: nat)
    requires History(sv, id, rows, events) && 0 < k < |rows| && rows[k].status == ROLLED_BACK
    ensures && events[k].evidence.Abandonment?
            && events[k].evidence.restored == rows[0].baselineSnapshotId && events[k].evidence.abandoned == rows[0].snapshotId
            && (events[k - 1].kind == GateFailed <==> events[k].evidence.statusAtRollback == BLOCKED)
            && events[k].evidence.failedGateEventId == if events[k - 1].kind == GateFailed then Some(events[k - 1].id) else None
  {
    EventsTellRows(sv, id, rows, events, k - 1);
    HistoryFrame(sv, id, rows, events, k - 1);
    assert StepAt(sv, rows, events, k);
    var d :| Leads(sv, rows[k - 1], d, rows[k], events[k]);
    RollbackOf(sv, rows[k - 1], d);
  }

  lemma RollbackOf(sv: Settings, read: Rollout, d: Decision)
    requires Decide(sv, read, d).Change? && RowTells(read) && Decide(sv, read, d).next.status == ROLLED_BACK
    ensures var e := Decide(sv, read, d).event;
            && e.evidence.Abandonment? && e.evidence.restored == read.baselineSnapshotId
            && e.evidence.abandoned == read.snapshotId && e.evidence.statusAtRollback == read.status
            && e.evidence.failedGateEventId == if read.status == BLOCKED then Some(read.lastGate.value.eventId) else None
  {
    DecisionTells(sv, read, d);
    assert d.Rollback?;
    RollbackDecision(sv, read, d);
  }

  // ---------- gate safety ----------

  /** Event `m` is a passed gate of `stage`, recorded as `g`, whose evidence satisfied the rule. */
  ghost predicate PassedGateAt(sv: Settings, rows: seq<Rollout>, events: seq<Event>, m: nat, stage: nat, g: Gate)
    requires |rows| == |events|
  {
    && 0 < m < |rows| && events[m].kind == GatePassed && events[m].id == g.eventId && events[m].stageIndex == stage
    && rows[m - 1].stageIndex == stage && rows[m].lastGate == Some(g)
    && events[m].evidence.Health?
    && GateHolds(events[m].evidence.checks, sv.policy, rows[m - 1].stageStartedAt, g.evaluatedAt)
  }

  lemma GateStep(sv: Settings, read: Rollout, d: Decision)
    requires d.RecordGate? && Decide(sv, read, d).Change?
    ensures var Change(next, e) := Decide(sv, read, d);
            && next.stageIndex == read.stageIndex && next.lastGate.Some?
            && (next.lastGate.value.passed ==>
                  && e.kind == GatePassed && e.id == next.lastGate.value.eventId && e.stageIndex == read.stageIndex
                  && e.evidence.Health?
                  && GateHolds(e.evidence.checks, sv.policy, read.stageStartedAt, next.lastGate.value.evaluatedAt))
            && (!next.lastGate.value.passed ==> e.kind == GateFailed && next.status == BLOCKED)
  {
    GatePassesIff(d.checks, sv.policy, read.stageStartedAt, d.now);
  }

  lemma OtherStep(sv: Settings, read: Rollout, d: Decision)
    requires !d.RecordGate? && Decide(sv, read, d).Change?
    ensures var next := Decide(sv, read, d).next;
            next.lastGate == None || (next.lastGate == read.lastGate && next.stageIndex == read.stageIndex)
  {
  }

  lemma HealthyStep(sv: Settings, read: Rollout, d: Decision)
    requires Decide(sv, read, d).Change?
    ensures var Change(next, e) := Decide(sv, read, d);
            next.status == CANARY || next.status == COMPLETED ==> read.status == CANARY && e.kind != GateFailed
  {
  }

  /** A passing gate on a row was recorded by an earlier event of the same stage. */
  lemma {:induction false} LastGateWasPassed(sv: Settings, id: Text, rows: seq<Rollout>, events: seq<Event>, k: nat)
      returns (m: nat)
    requires History(sv, id, rows, events) && k < |rows|
    requires rows[k].lastGate.Some? && rows[k].lastGate.value.passed
    ensures m <= k && PassedGateAt(sv, rows, events, m, rows[k].stageIndex, rows[k].lastGate.value)
  {
    assert k > 0;
    assert StepAt(sv, rows, events, k);
    var d :| Leads(sv, rows[k - 1], d, rows[k], events[k]);
    if d.RecordGate? {
      GateStep(sv, rows[k - 1], d);
      m := k;
    } else {
      OtherStep(sv, rows[k - 1], d);
      m := LastGateWasPassed(sv, id, rows, events, k - 1);
    }
  }

  /** The time a promotion or completion was decided at, as the row records it. */
  ghost function DecidedAt(r: Rollout): int { if r.completedAt.Some? then r.completedAt.value else r.stageStartedAt }

  ghost predicate IsPromotion(e: Event) { e.kind == Promoted || e.kind == Completed }

  lemma PromotionStep(sv: Settings, rows: seq<Rollout>, events: seq<Event>, k: nat)
    requires 0 < k < |rows| == |events| && StepAt(sv, rows, events, k) && IsPromotion(events[k])
    ensures var before, e := rows[k - 1], events[k];
            && before.status == CANARY && before.lastGate.Some? && before.lastGate.value.passed
            && e.evidence == Promotion(before.stageIndex, Some(before.lastGate.value.eventId))
            && DecidedAt(rows[k]) - before.lastGate.value.evaluatedAt <= sv.gateValidity
            && (e.kind == Completed <==> rows[k].status == COMPLETED)
            && (e.kind == Completed ==> before.stageIndex == |before.stages| - 1)
            && (e.kind == Promoted ==> rows[k].stageIndex == before.stageIndex + 1)
  {
    var d :| Leads(sv, rows[k - 1], d, rows[k], events[k]);
  }

  /** MAIN: every promotion and completion names an earlier passed gate of the stage it leaves,
      still valid when the promotion was decided, whose evidence satisfied the gate rule. */
  lemma PromotionsAreGated(sv: Settings, id: Text, rows: seq<Rollout>, events: seq<Event>, k: nat) returns (m: nat)
    requires History(sv, id, rows, events) && 0 < k < |rows| && IsPromotion(events[k])
    ensures rows[k - 1].lastGate.Some?
    ensures var g := rows[k - 1].lastGate.value;
            && m < k && events[k].evidence.Promotion? && events[k].evidence.gateEventId == Some(events[m].id)
            && PassedGateAt(sv, rows, events, m, events[k].evidence.fromStageIndex, g)
            && DecidedAt(rows[k]) - g.evaluatedAt <= sv.gateValidity
  {
    assert StepAt(sv, rows, events, k);
    PromotionStep(sv, rows, events, k);
    m := LastGateWasPassed(sv, id, rows, events, k - 1);
  }

  // ---------- completed rollouts ----------

  /** Some event at or before `k` leaves `stage` by promotion or completion. */
  ghost predicate LeftStage(events: seq<Event>, stage: nat, p: nat) {
    0 < p < |events| && IsPromotion(events[p]) && events[p].evidence.Promotion? && events[p].evidence.fromStageIndex == stage
  }

  lemma {:induction false} StageWasLeft(sv: Settings, id: Text, rows: seq<Rollout>, events: seq<Event>, k: nat, stage: nat)
      returns (p: nat)
    requires History(sv, id, rows, events) && k < |rows|
    requires stage < rows[k].stageIndex || (stage == rows[k].stageIndex && rows[k].status == COMPLETED)
    ensures p <= k && LeftStage(events, stage, p)
  {
    assert k > 0;
    assert StepAt(sv, rows, events, k);
    var d :| Leads(sv, rows[k - 1], d, rows[k], events[k]);
    if d.Promote? && rows[k - 1].stageIndex == stage {
      p := k;
    } else {
      p := StageWasLeft(sv, id, rows, events, k - 1, stage);
    }
  }

  lemma {:induction false} NoFailedGate(sv: Settings, id: Text, rows: seq<Rollout>, events: seq<Event>, k: nat, j: nat)
    requires History(sv, id, rows, events) && j <= k < |rows| && (rows[k].status == CANARY || rows[k].status == COMPLETED)
    ensures events[j].kind != GateFailed
  {
    if k > 0 {
      assert StepAt(sv, rows, events, k);
      var d :| Leads(sv, rows[k - 1], d, rows[k], events[k]);
      HealthyStep(sv, rows[k - 1], d);
      if j < k { NoFailedGate(sv, id, rows, events, k - 1, j); }
    }
  }

  /** MAIN: a completed rollout left every stage through a gate passed in it and still valid then, in
      stage order, and never failed one. */
  lemma CompletedIsFullyGated(sv: Settings, id: Text, rows: seq<Rollout>, events: seq<Event>, stage: nat)
      returns (m: nat, p: nat)
    requires History(sv, id, rows, events) && rows[|rows| - 1].status == COMPLETED && stage < |rows[0].stages|
    ensures m < p && LeftStage(events, stage, p) && rows[p - 1].lastGate.Some?
    ensures PassedGateAt(sv, rows, events, m, stage, rows[p - 1].lastGate.value)
    ensures p < |rows| && DecidedAt(rows[p]) - rows[p - 1].lastGate.value.evaluatedAt <= sv.gateValidity
    ensures forall j :: 0 <= j < |events| ==> events[j].kind != GateFailed
  {
    var last := |rows| - 1;
    CompletedAtLastStage(sv, id, rows, events);
    p := StageWasLeft(sv, id, rows, events, last, stage);
    m := PromotionsAreGated(sv, id, rows, events, p);
    forall j | 0 <= j < |events| ensures events[j].kind != GateFailed { NoFailedGate(sv, id, rows, events, last, j); }
  }

  lemma CompletedAtLastStage(sv: Settings, id: Text, rows: seq<Rollout>, events: seq<Event>)
    requires History(sv, id, rows, events) && rows[|rows| - 1].status == COMPLETED
    ensures rows[|rows| - 1].stageIndex == |rows[0].stages| - 1
  {
    var k := |rows| - 1;
    HistoryFrame(sv, id, rows, events, k);
    assert k > 0;
    assert StepAt(sv, rows, events, k);
    var d :| Leads(sv, rows[k - 1], d, rows[k], events[k]);
  }

  /** Gates of later stages come later. */
  lemma GatesInStageOrder(sv: Settings, id: Text, rows: seq<Rollout>, events: seq<Event>, m: nat, s: nat, g: Gate, n: nat, t: nat, g': Gate)
    requires History(sv, id, rows, events) && s < t
    requires PassedGateAt(sv, rows, events, m, s, g) && PassedGateAt(sv, rows, events, n, t, g')
    ensures m < n
  {
    if n <= m { StageGrows(sv, id, rows, events, n - 1, m - 1); }
  }

  // ---------- cohorts over a history ----------

  datatype CohortAnswer = CohortAnswer(inCohort: bool, percent: int, snapshotId: Option<Text>)

  function Cohort(sha: Digest32, r: Rollout, instanceId: Text): CohortAnswer {
    if r.status == COMPLETED then CohortAnswer(true, 100, Some(r.snapshotId))
    else if r.status == ROLLED_BACK then CohortAnswer(false, 0, r.baselineSnapshotId)
    else
      var inCohort := IsInCohort(sha, r.id, instanceId, PercentOf(r));
      CohortAnswer(inCohort, PercentOf(r), if inCohort then Some(r.snapshotId) else r.baselineSnapshotId)
  }

  /** MAIN: whoever is told to run the new snapshot keeps being told so, until completion tells
      everyone, or rollback tells everyone to run the baseline. */
  lemma CohortOnlyGrows(sha: Digest32, sv: Settings, id: Text, rows: seq<Rollout>, events: seq<Event>, k: nat, l: nat, instanceId: Text)
    requires History(sv, id, rows, events) && k <= l < |rows|
    ensures rows[l].status == ROLLED_BACK ==> Cohort(sha, rows[l], instanceId).snapshotId == rows[0].baselineSnapshotId
    ensures rows[l].status == COMPLETED ==> Cohort(sha, rows[l], instanceId).snapshotId == Some(rows[0].snapshotId)
    ensures rows[l].status != ROLLED_BACK && Cohort(sha, rows[k], instanceId).snapshotId == Some(rows[0].snapshotId) ==>
              Cohort(sha, rows[l], instanceId).snapshotId == Some(rows[0].snapshotId)
  {
    HistoryFrame(sv, id, rows, events, k);
    HistoryFrame(sv, id, rows, events, l);
    StageGrows(sv, id, rows, events, k, l);
    if k < l { ClosedIsFinal(sv, id, rows, events, k); }
    var stages := rows[0].stages;
    assert stages[rows[k].stageIndex] <= stages[rows[l].stageIndex];
  }

  /** While a rollout is open, exactly the instances in the share of its stage run the new snapshot. */
  lemma CohortIsExact(sha: Digest32, sv: Settings, id: Text, rows: seq<Rollout>, events: seq<Event>, k: nat, instanceId: Text)
    requires History(sv, id, rows, events) && k < |rows| && IsOpen(rows[k].status)
    ensures rows[k].stageIndex < |rows[k].stages| && 1 <= rows[k].stages[rows[k].stageIndex] <= 100
    ensures var percent, answer := rows[k].stages[rows[k].stageIndex], Cohort(sha, rows[k], instanceId);
            && answer.percent == percent
            && (answer.inCohort <==> CohortPosition(sha, id, instanceId) in Positions(100 * percent))
            && answer.snapshotId == if answer.inCohort then Some(rows[0].snapshotId) else rows[0].baselineSnapshotId
  {
    HistoryFrame(sv, id, rows, events, k);
  }

  // ---------- any number of callers ----------

  /** The tables, and for every rollout the rows it has been through. A caller's read is one of them. */
  datatype World = World(db: RolloutDb, past: map<Text, seq<Rollout>>)

  datatype Act =
    | Start(id: Text, environment: Text, snapshotId: Text, baseline: Option<Text>, stages: seq<int>, now: int, eventId: Text)
    | Commit(id: Text, readVersion: nat, decision: Decision)

  /** One atomic step: a creation, or the commit of a decision made on an earlier read. */
  ghost function Perform(sv: Settings, w: World, act: Act): World {
    match act
    case Start(id, environment, snapshotId, baseline, stages, now, eventId) =>
      var r := NewRollout(id, environment, snapshotId, baseline, stages, now);
      if ValidStages(stages) && baseline != Some(snapshotId) && CanCreate(w.db, r)
      then World(CreateIn(w.db, r, CreationEvent(r, eventId)), w.past[id := [r]]) else w
    case Commit(id, version, d) =>
      if id !in w.past || version >= |w.past[id]| then w
      else
        var read := w.past[id][version];
        match Decide(sv, read, d)
        case Denied(_) => w
        case Change(next, e) =>
          if CanApply(w.db, next, read.version)
          then World(ApplyIn(w.db, next, read.version, e), w.past[id := w.past[id] + [next]]) else w
  }

  ghost function Play(sv: Settings, acts: seq<Act>): World {
    if acts == [] then World(RolloutDb(map[], map[]), map[])
    else Perform(sv, Play(sv, acts[..|acts| - 1]), acts[|acts| - 1])
  }

  /** The stored row is the newest of a history whose events are the stored ones. */
  ghost predicate StoredOk(sv: Settings, id: Text, rows: seq<Rollout>, row: Rollout, events: seq<Event>) {
    History(sv, id, rows, events) && row == rows[|rows| - 1]
  }

  ghost predicate RolloutOk(sv: Settings, w: World, id: Text)
    requires id in w.past
  {
    id in w.db.rollouts && id in w.db.events && StoredOk(sv, id, w.past[id], w.db.rollouts[id], w.db.events[id])
  }

  ghost predicate OneOpenPerEnvironment(rollouts: map<Text, Rollout>) {
    forall a, b :: a in rollouts && b in rollouts && a != b && IsOpen(rollouts[a].status) && IsOpen(rollouts[b].status) ==>
      rollouts[a].environment != rollouts[b].environment
  }

  ghost predicate KeyedById(rollouts: map<Text, Rollout>) { forall id :: id in rollouts ==> rollouts[id].id == id }

  ghost predicate WorldOk(sv: Settings, w: World) {
    && w.past.Keys == w.db.rollouts.Keys && OneOpenPerEnvironment(w.db.rollouts) && KeyedById(w.db.rollouts)
    && forall id :: id in w.past ==> RolloutOk(sv, w, id)
  }

  lemma PutKeepsOneOpen(rollouts: map<Text, Rollout>, r: Rollout)
    requires OneOpenPerEnvironment(rollouts) && KeyedById(rollouts) && !Clashes(rollouts, r)
    ensures OneOpenPerEnvironment(rollouts[r.id := r]) && KeyedById(rollouts[r.id := r])
  {
  }

  /** Writing one rollout's row, rows and events leaves the others as they were. */
  lemma PutKeepsWorld(sv: Settings, w: World, r: Rollout, rows: seq<Rollout>, events: seq<Event>)
    requires WorldOk(sv, w) && !Clashes(w.db.rollouts, r) && StoredOk(sv, r.id, rows, r, events)
    ensures WorldOk(sv, World(RolloutDb(w.db.rollouts[r.id := r], w.db.events[r.id := events]), w.past[r.id := rows]))
  {
    var w' := World(RolloutDb(w.db.rollouts[r.id := r], w.db.events[r.id := events]), w.past[r.id := rows]);
    PutKeepsOneOpen(w.db.rollouts, r);
    assert w'.past.Keys == w'.db.rollouts.Keys;
    forall id | id in w'.past ensures RolloutOk(sv, w', id) {
      if id != r.id { assert RolloutOk(sv, w, id); }
    }
  }

  /** A decision on an old read cannot be committed: the version it read is the current one. */
  lemma CommittedReadIsCurrent(sv: Settings, w: World, id: Text, version: nat, next: Rollout)
    requires WorldOk(sv, w) && id in w.past && version < |w.past[id]| && next.id == id
    requires CanApply(w.db, next, w.past[id][version].version)
    ensures version == |w.past[id]| - 1
  {
    assert RolloutOk(sv, w, id);
  }

  lemma HistoryExtend(sv: Settings, id: Text, rows: seq<Rollout>, events: seq<Event>, d: Decision, next: Rollout, e: Event)
    requires History(sv, id, rows, events) && Decide(sv, rows[|rows| - 1], d) == Change(next, e)
    ensures History(sv, id, rows + [next], events + [e])
  {
    var rs, es, n := rows + [next], events + [e], |rows|;
    DecideFrame(sv, rows[n - 1], d);
    forall k | 0 < k < |rs| ensures StepAt(sv, rs, es, k) {
      if k < n {
        assert StepAt(sv, rows, events, k);
        var c :| Leads(sv, rows[k - 1], c, rows[k], events[k]);
        assert Leads(sv, rs[k - 1], c, rs[k], es[k]);
      } else {
        assert Leads(sv, rs[k - 1], d, rs[k], es[k]);
      }
    }
  }

  lemma StartKeepsWorld(sv: Settings, w: World, r: Rollout, e: Event)
    requires WorldOk(sv, w) && IsStart(r, e) && CanCreate(w.db, r)
    ensures WorldOk(sv, World(CreateIn(w.db, r, e), w.past[r.id := [r]]))
  {
    PutKeepsWorld(sv, w, r, [r], [e]);
  }

  lemma CommitKeepsWorld(sv: Settings, w: World, id: Text, version: nat, d: Decision)
    requires WorldOk(sv, w) && id in w.past && version < |w.past[id]| && Decide(sv, w.past[id][version], d).Change?
    requires CanApply(w.db, Decide(sv, w.past[id][version], d).next, w.past[id][version].version)
    ensures WorldOk(sv, Perform(sv, w, Commit(id, version, d)))
    ensures version == |w.past[id]| - 1
  {
    assert RolloutOk(sv, w, id);
    var rows, events := w.past[id], w.db.events[id];
    DecideFrame(sv, rows[version], d);
    var Change(next, e) := Decide(sv, rows[version], d);
    assert next.id == id;
    CommittedReadIsCurrent(sv, w, id, version, next);
    HistoryExtend(sv, id, rows, events, d, next, e);
    PutKeepsWorld(sv, w, next, rows + [next], events + [e]);
  }

  /** MAIN: after any interleaving of any number of callers, stale or not, every rollout's rows
      are a history with one event per version, and no environment has two open rollouts. */
  lemma {:induction false} EveryWorldIsOk(sv: Settings, acts: seq<Act>)
    ensures WorldOk(sv, Play(sv, acts))
  {
    if acts != [] {
      var front, act := acts[..|acts| - 1], acts[|acts| - 1];
      EveryWorldIsOk(sv, front);
      var w := Play(sv, front);
      match act
      case Start(id, environment, snapshotId, baseline, stages, now, eventId) =>
        var r := NewRollout(id, environment, snapshotId, baseline, stages, now);
        if ValidStages(stages) && baseline != Some(snapshotId) && CanCreate(w.db, r) {
          StartKeepsWorld(sv, w, r, CreationEvent(r, eventId));
        }
      case Commit(id, version, d) =>
        if id in w.past && version < |w.past[id]| {
          var read := w.past[id][version];
          var decided := Decide(sv, read, d);
          if decided.Change? && CanApply(w.db, decided.next, read.version) { CommitKeepsWorld(sv, w, id, version, d); }
        }
    }
  }

  /** An accepted decision applies exactly once: it was made on the current row, raises the
      version by one and appends one event, so the version counts the events after creation. */
  lemma AcceptedExactlyOnce(sv: Settings, acts: seq<Act>, id: Text, version: nat, d: Decision)
    requires id in Play(sv, acts).past
    ensures var w, w' := Play(sv, acts), Perform(sv, Play(sv, acts), Commit(id, version, d));
            && id in w.db.rollouts && id in w.db.events && id in w'.db.rollouts && id in w'.db.events
            && |w.db.events[id]| == w.db.rollouts[id].version + 1
            && (w' != w ==>
                  && version == w.db.rollouts[id].version && w'.db.rollouts[id].version == version + 1
                  && |w'.db.events[id]| == |w.db.events[id]| + 1 && w.db.events[id] <= w'.db.events[id]
                  && IsOpen(w.db.rollouts[id].status))
  {
    var w := Play(sv, acts);
    EveryWorldIsOk(sv, acts);
    assert RolloutOk(sv, w, id);
    if version < |w.past[id]| {
      var read := w.past[id][version];
      var decided := Decide(sv, read, d);
      if decided.Change? && CanApply(w.db, decided.next, read.version) {
        CommitKeepsWorld(sv, w, id, version, d);
        DecideFrame(sv, read, d);
      }
    }
  }
}
