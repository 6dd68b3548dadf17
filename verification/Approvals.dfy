/** Two-person approval with a single execution lease, under any interleaving of callers. */
module Approvals {
  import opened Text

  datatype Status = Pending | Approved | Rejected | Cancelled | Expired | Executed

  predicate Terminal(s: Status) { s in {Rejected, Cancelled, Expired, Executed} }

  datatype Request = Request(
    requestedBy: Text, payloadHash: Text, expiresAt: int,
    status: Status, decidedBy: Option<Text>, decidedAt: Option<int>,
    lease: Option<Text>, executedAt: Option<int>)

  type Table = map<Text, Request>

  const DEFAULT_TTL_MINUTES := 1440

  datatype Error = NotFound | Forbidden | HashMismatch | AlreadyDecided(status: Status) | PastExpiry | LeaseMismatch

  datatype Result = Ok(request: Request) | Err(error: Error)

  datatype Claim = Claimed(token: Text) | NotClaimed(request: Request) | Unknown | TokenTaken

  // ---------- the conditional updates ----------

  function NewRequest(requestedBy: Text, payloadHash: Text, ttlMinutes: Option<int>, now: int): Request {
    var ttl := if ttlMinutes.Some? then ttlMinutes.value else DEFAULT_TTL_MINUTES;
    Request(requestedBy, payloadHash, now + ttl * 60000, Pending, None, None, None, None)
  }

  predicate Decidable(r: Request, now: int) { r.status == Pending && r.expiresAt > now }

  predicate Sweepable(r: Request, now: int) { r.status == Pending && r.expiresAt < now }

  function Decided(r: Request, outcome: Status, user: Text, now: int): Request {
    r.(status := outcome, decidedBy := Some(user), decidedAt := Some(now))
  }

  function Swept(rows: Table, now: int): Table {
    map id | id in rows :: if Sweepable(rows[id], now) then rows[id].(status := Expired) else rows[id]
  }

  predicate TokenUsed(rows: Table, token: Text) { exists id :: id in rows && rows[id].lease == Some(token) }

  // ---------- the service ----------

  class ApprovalTable {
    var rows: Table

    method Create(id: Text, user: Text, payloadHash: Text, ttlMinutes: Option<int>, now: int) returns (ok: bool)
      modifies this
      ensures ok == (id !in old(rows))
      ensures ok ==>
        && id in rows && rows == old(rows)[id := rows[id]]
        && rows[id].requestedBy == user && rows[id].payloadHash == payloadHash
        && rows[id].expiresAt == now + 60000 * (match ttlMinutes case Some(minutes) => minutes case None => 1440)
        && rows[id].status == Pending && rows[id].decidedBy.None? && rows[id].lease.None? && rows[id].executedAt.None?
      ensures !ok ==> rows == old(rows)
      ensures rows == Next(Alone(old(rows)), Step.Create(id, user, payloadHash, ttlMinutes, now)).rows
    {
      if id in rows {
        return false;
      }
      var ttl := if ttlMinutes.Some? then ttlMinutes.value else DEFAULT_TTL_MINUTES;
      rows := rows[id := Request(user, payloadHash, now + ttl * 60000, Pending, None, None, None, None)];
      ok := true;
    }

    /** The conditional update, whatever happened since the request was read. */
    method WriteDecision(id: Text, user: Text, approve: bool, now: int) returns (result: Result)
      requires id in rows
      modifies this
      ensures result.Ok? <==> Decidable(old(rows)[id], now)
      ensures result.Ok? ==> result.request == Decided(old(rows)[id], if approve then Approved else Rejected, user, now)
      ensures result.Err? ==>
        result.error == if old(rows)[id].status != Pending then AlreadyDecided(old(rows)[id].status) else PastExpiry
      ensures rows == if result.Ok? then old(rows)[id := result.request] else old(rows)
    {
      if rows[id].status == Pending && rows[id].expiresAt > now {
        rows := rows[id := Decided(rows[id], if approve then Approved else Rejected, user, now)];
        return Ok(rows[id]);
      }
      var current := rows[id];
      result := Err(if current.status != Pending then AlreadyDecided(current.status) else PastExpiry);
    }

    /** The whole call when nobody interferes: its read, then its write. */
    method Decide(id: Text, user: Text, expectedHash: Text, approve: bool, now: int) returns (result: Result)
      modifies this
      ensures result == Err(NotFound) <==> id !in old(rows)
      ensures id in old(rows) ==>
        var row := old(rows)[id];
        && (result == Err(Forbidden) <==> row.requestedBy == user)
        && (result == Err(HashMismatch) <==> row.requestedBy != user && row.payloadHash != expectedHash)
        && (result.Ok? <==>
              row.requestedBy != user && row.payloadHash == expectedHash && row.status == Pending && now < row.expiresAt)
        && (result == Err(PastExpiry) <==>
              row.requestedBy != user && row.payloadHash == expectedHash && row.status == Pending && now >= row.expiresAt)
        && (result.Err? && result.error.AlreadyDecided? ==> result.error.status == row.status != Pending)
        && (result.Ok? ==>
              result.request == row.(status := if approve then Approved else Rejected, decidedBy := Some(user), decidedAt := Some(now)))
      ensures rows == if result.Ok? then old(rows)[id := result.request] else old(rows)
      ensures rows == Next(Next(Alone(old(rows)), Read(0, Deciding(id, user, expectedHash, approve), false)), Write(0, now)).rows
    {
      if id !in rows {
        return Err(NotFound);
      }
      var existing := rows[id];
      if existing.requestedBy == user {
        return Err(Forbidden);
      }
      if existing.payloadHash != expectedHash {
        return Err(HashMismatch);
      }
      result := WriteDecision(id, user, approve, now);
    }

    method WriteCancellation(id: Text, user: Text, now: int) returns (result: Result)
      requires id in rows
      modifies this
      ensures result.Ok? <==> old(rows)[id].status == Pending
      ensures result.Ok? ==> result.request == Decided(old(rows)[id], Cancelled, user, now)
      ensures result.Err? ==> result.error == AlreadyDecided(old(rows)[id].status)
      ensures rows == if result.Ok? then old(rows)[id := result.request] else old(rows)
    {
      if rows[id].status != Pending {
        return Err(AlreadyDecided(rows[id].status));
      }
      rows := rows[id := Decided(rows[id], Cancelled, user, now)];
      result := Ok(rows[id]);
    }

    method Cancel(id: Text, user: Text, isAdmin: bool, now: int) returns (result: Result)
      modifies this
      ensures result.Ok? <==> id in old(rows) && (old(rows)[id].requestedBy == user || isAdmin) && old(rows)[id].status == Pending
      ensures result.Ok? ==>
        result.request == old(rows)[id].(status := Cancelled, decidedBy := Some(user), decidedAt := Some(now))
      ensures result == Err(NotFound) <==> id !in old(rows)
      ensures result == Err(Forbidden) <==> id in old(rows) && old(rows)[id].requestedBy != user && !isAdmin
      ensures result.Err? && result.error !in {NotFound, Forbidden} ==> result.error == AlreadyDecided(old(rows)[id].status)
      ensures rows == if result.Ok? then old(rows)[id := result.request] else old(rows)
      ensures rows == Next(Next(Alone(old(rows)), Read(0, Cancelling(id, user), isAdmin)), Write(0, now)).rows
    {
      if id !in rows {
        return Err(NotFound);
      }
      if rows[id].requestedBy != user && !isAdmin {
        return Err(Forbidden);
      }
      result := WriteCancellation(id, user, now);
    }

    method ClaimForExecution(id: Text, token: Text) returns (claim: Claim)
      modifies this
      ensures claim.Claimed? <==>
        id in old(rows) && old(rows)[id].status == Approved && old(rows)[id].lease.None? && !TokenUsed(old(rows), token)
      ensures claim.Claimed? ==> claim.token == token && rows == old(rows)[id := old(rows)[id].(lease := Some(token))]
      ensures !claim.Claimed? ==> rows == old(rows)
      ensures claim.Unknown? <==> id !in old(rows)
      ensures claim.NotClaimed? <==> id in old(rows) && (old(rows)[id].status != Approved || old(rows)[id].lease.Some?)
      ensures claim.NotClaimed? ==> claim.request == old(rows)[id]
      ensures rows == Next(Alone(old(rows)), Step.Claim(id, token)).rows
    {
      if id !in rows {
        return Unknown;
      }
      if rows[id].status != Approved || rows[id].lease.Some? {
        return NotClaimed(rows[id]);
      }
      if TokenUsed(rows, token) {
        return TokenTaken;
      }
      rows := rows[id := rows[id].(lease := Some(token))];
      claim := Claimed(token);
    }

    /** Succeeds for the lease holder, the first time and every time after. */
    method CompleteExecution(id: Text, token: Text, now: int) returns (result: Result)
      modifies this
      ensures result.Ok? <==>
        id in old(rows) && old(rows)[id].lease == Some(token) && old(rows)[id].status in {Approved, Executed}
      ensures result.Ok? ==> id in rows && result.request == rows[id] && rows[id].status == Executed
      ensures result.Err? ==> result.error == if id in old(rows) then LeaseMismatch else NotFound
      ensures rows == if result.Ok? && old(rows)[id].status == Approved
                      then old(rows)[id := old(rows)[id].(status := Executed, executedAt := Some(now))]
                      else old(rows)
      ensures rows == Next(Alone(old(rows)), Step.Complete(id, token, now)).rows
    {
      if id !in rows {
        return Err(NotFound);
      }
      if rows[id].lease == Some(token) && rows[id].status == Approved {
        rows := rows[id := rows[id].(status := Executed, executedAt := Some(now))];
        return Ok(rows[id]);
      }
      var current := rows[id];
      if current.status == Executed && current.lease == Some(token) {
        return Ok(current);
      }
      result := Err(LeaseMismatch);
    }

    /** Afterwards no pending request is past its deadline; what changed was, and is counted. */
    method ExpireStale(now: int) returns (count: nat)
      modifies this
      ensures rows.Keys == old(rows).Keys
      ensures forall id :: id in rows ==> !Sweepable(rows[id], now)
      ensures forall id :: id in rows && rows[id] != old(rows)[id] ==>
        Sweepable(old(rows)[id], now) && rows[id] == old(rows)[id].(status := Expired)
      ensures count == |set id | id in rows && rows[id] != old(rows)[id]|
      ensures rows == Next(Alone(old(rows)), Step.Sweep(now)).rows
    {
      var due := set id | id in rows && Sweepable(rows[id], now);
      ghost var before := rows;
      rows := Swept(rows, now);
      count := |due|;
      assert due == set id | id in rows && rows[id] != before[id];
    }
  }

  // ---------- runs ----------

  /** A decision or cancellation whose read has been made and whose write has not. */
  datatype Call =
    | Deciding(id: Text, user: Text, presented: Text, approve: bool)
    | Cancelling(id: Text, user: Text)

  datatype Step =
    | Create(id: Text, requestedBy: Text, payloadHash: Text, ttlMinutes: Option<int>, now: int)
    | Read(call: nat, request: Call, isAdmin: bool)
    | Write(call: nat, now: int)
    | Claim(id: Text, token: Text)
    | Complete(id: Text, token: Text, now: int)
    | Sweep(now: int)

  /** Who decided which request how and when, and the payload hash a decider presented. */
  datatype Decision = Decision(id: Text, outcome: Status, user: Text, at: int, presented: Option<Text>)

  /** The table, the calls in flight, every decision that won, every lease issued and every completion, in order. */
  datatype World = World(
    rows: Table, calls: map<nat, Call>,
    decisions: seq<Decision>, leases: seq<(Text, Text)>, completions: seq<(Text, Text)>)

  const EMPTY := World(map[], map[], [], [], [])

  /** A table without calls or history: where a single call starts. */
  function Alone(rows: Table): World { World(rows, map[], [], [], []) }

  function CreateStep(w: World, s: Step): World
    requires s.Create?
  {
    if s.id in w.rows then w
    else w.(rows := w.rows[s.id := NewRequest(s.requestedBy, s.payloadHash, s.ttlMinutes, s.now)])
  }

  /** What the read demands: nothing of status or time. */
  predicate Permitted(rows: Table, request: Call, isAdmin: bool) {
    && request.id in rows
    && match request
       case Deciding(id, user, presented, _) => rows[id].requestedBy != user && rows[id].payloadHash == presented
       case Cancelling(id, user) => rows[id].requestedBy == user || isAdmin
  }

  /** The write looks only at the row as it is now: status, and for a decision the deadline. */
  function WriteStep(w: World, c: Call, now: int): World {
    if c.id !in w.rows then w
    else
      match c
      case Deciding(id, user, presented, approve) =>
        if !Decidable(w.rows[id], now) then w
        else Decide(w, Decision(id, if approve then Approved else Rejected, user, now, Some(presented)))
      case Cancelling(id, user) =>
        if w.rows[id].status != Pending then w else Decide(w, Decision(id, Cancelled, user, now, None))
  }

  function Decide(w: World, d: Decision): World
    requires d.id in w.rows
  {
    w.(rows := w.rows[d.id := Decided(w.rows[d.id], d.outcome, d.user, d.at)], decisions := w.decisions + [d])
  }

  function ClaimStep(w: World, s: Step): World
    requires s.Claim?
  {
    if s.id !in w.rows || w.rows[s.id].status != Approved || w.rows[s.id].lease.Some? || TokenUsed(w.rows, s.token) then w
    else w.(rows := w.rows[s.id := w.rows[s.id].(lease := Some(s.token))], leases := w.leases + [(s.id, s.token)])
  }

  function CompleteStep(w: World, s: Step): World
    requires s.Complete?
  {
    if s.id !in w.rows || w.rows[s.id].lease != Some(s.token) || w.rows[s.id].status != Approved then w
    else
      w.(rows := w.rows[s.id := w.rows[s.id].(status := Executed, executedAt := Some(s.now))],
         completions := w.completions + [(s.id, s.token)])
  }

  function Next(w: World, s: Step): World {
    match s
    case Create(_, _, _, _, _) => CreateStep(w, s)
    case Read(call, request, isAdmin) =>
      if Permitted(w.rows, request, isAdmin) then w.(calls := w.calls[call := request]) else w
    case Write(call, now) =>
      if call in w.calls then WriteStep(w.(calls := w.calls - {call}), w.calls[call], now) else w
    case Claim(_, _) => ClaimStep(w, s)
    case Complete(_, _, _) => CompleteStep(w, s)
    case Sweep(now) => w.(rows := Swept(w.rows, now))
  }

  function Run(w: World, steps: seq<Step>): World
    decreases |steps|
  {
    if steps == [] then w else Run(Next(w, steps[0]), steps[1..])
  }

  // ---------- the invariant ----------

  /** A decision that stands: the row records it, and the request has left PENDING. */
  ghost predicate Stands(w: World, d: Decision) {
    && d.id in w.rows
    && var r := w.rows[d.id];
       && r.status != Pending && r.decidedBy == Some(d.user) && r.decidedAt == Some(d.at)
       && (d.outcome == Approved <==> r.status in {Approved, Executed})
       && (d.outcome != Approved ==> r.status == d.outcome)
       && (d.outcome != Cancelled ==> d.user != r.requestedBy && d.at < r.expiresAt && d.presented == Some(r.payloadHash))
  }

  ghost predicate OneDecisionEach(w: World) {
    && (forall d :: d in w.decisions ==> Stands(w, d))
    && forall i, j :: 0 <= i < j < |w.decisions| ==> w.decisions[i].id != w.decisions[j].id
  }

  ghost predicate HasDecision(w: World, id: Text, outcome: Status) {
    exists d :: d in w.decisions && d.id == id && d.outcome == outcome
  }

  /** The outcome that put a row where it is; an expired or pending row has none. */
  function OutcomeOf(s: Status): Option<Status> {
    match s
    case Approved => Some(Approved)
    case Executed => Some(Approved)
    case Rejected => Some(Rejected)
    case Cancelled => Some(Cancelled)
    case _ => None
  }

  /** A row is as the logged decisions, leases and completions made it. */
  ghost predicate RowOk(w: World, id: Text)
    requires id in w.rows
  {
    var r := w.rows[id];
    && (OutcomeOf(r.status).Some? ==> HasDecision(w, id, OutcomeOf(r.status).value))
    && (r.lease.Some? ==> r.status in {Approved, Executed} && (id, r.lease.value) in w.leases)
    && (r.status == Executed ==> r.lease.Some? && (id, r.lease.value) in w.completions)
  }

  ghost predicate RowsOk(w: World) { forall id :: id in w.rows ==> RowOk(w, id) }

  ghost predicate Held(w: World, lease: (Text, Text)) { lease.0 in w.rows && w.rows[lease.0].lease == Some(lease.1) }

  ghost predicate OneLeaseEach(w: World) {
    && (forall l :: l in w.leases ==> Held(w, l))
    && forall i, j :: 0 <= i < j < |w.leases| ==> w.leases[i].0 != w.leases[j].0 && w.leases[i].1 != w.leases[j].1
  }

  ghost predicate DoneByHolder(w: World, c: (Text, Text)) { Held(w, c) && w.rows[c.0].status == Executed }

  ghost predicate OneCompletionEach(w: World) {
    && (forall c :: c in w.completions ==> DoneByHolder(w, c))
    && forall i, j :: 0 <= i < j < |w.completions| ==> w.completions[i].0 != w.completions[j].0
  }

  /** A call in flight still refers to a request it was permitted on; a decider is not its requester. */
  ghost predicate CallOk(w: World, c: Call) {
    && c.id in w.rows
    && (c.Deciding? ==> w.rows[c.id].requestedBy != c.user && w.rows[c.id].payloadHash == c.presented)
  }

  ghost predicate CallsOk(w: World) { forall k :: k in w.calls ==> CallOk(w, w.calls[k]) }

  ghost predicate Safe(w: World) {
    OneDecisionEach(w) && RowsOk(w) && OneLeaseEach(w) && OneCompletionEach(w) && CallsOk(w)
  }

  // ---------- every step keeps it ----------

  /** Rows only move forward: terms stay, terminal rows stay as they are, leases stay. */
  ghost predicate Forward(r: Request, r': Request) {
    && r'.requestedBy == r.requestedBy && r'.payloadHash == r.payloadHash && r'.expiresAt == r.expiresAt
    && (Terminal(r.status) ==> r' == r)
    && (r.status != Pending ==> r'.decidedBy == r.decidedBy && r'.decidedAt == r.decidedAt)
    && (r.status == Approved ==> r'.status in {Approved, Executed})
    && (r.lease.Some? ==> r'.lease == r.lease)
  }

  ghost predicate Moves(w: World, w': World) {
    forall id :: id in w.rows ==> id in w'.rows && Forward(w.rows[id], w'.rows[id])
  }

  lemma NextMoves(w: World, s: Step)
    ensures Moves(w, Next(w, s))
  {
  }

  lemma OldDecisionsStand(w: World, w': World)
    requires OneDecisionEach(w) && Moves(w, w') && w'.decisions == w.decisions
    ensures OneDecisionEach(w')
  {
    forall d | d in w'.decisions
      ensures Stands(w', d)
    {
      assert Stands(w, d);
      assert Forward(w.rows[d.id], w'.rows[d.id]);
    }
  }

  lemma OldLeasesHeld(w: World, w': World)
    requires OneLeaseEach(w) && Moves(w, w') && w'.leases == w.leases
    ensures OneLeaseEach(w')
  {
    forall l | l in w'.leases
      ensures Held(w', l)
    {
      assert Held(w, l);
      assert Forward(w.rows[l.0], w'.rows[l.0]);
    }
  }

  lemma OldCompletionsDone(w: World, w': World)
    requires OneCompletionEach(w) && Moves(w, w') && w'.completions == w.completions
    ensures OneCompletionEach(w')
  {
    forall c | c in w'.completions
      ensures DoneByHolder(w', c)
    {
      assert DoneByHolder(w, c);
      assert Forward(w.rows[c.0], w'.rows[c.0]);
    }
  }

  lemma DecisionAdded(w: World, w': World, d: Decision)
    requires OneDecisionEach(w) && Moves(w, w') && d.id in w.rows && w.rows[d.id].status == Pending
    requires w'.decisions == w.decisions + [d] && Stands(w', d)
    ensures OneDecisionEach(w')
  {
    forall e | e in w.decisions
      ensures Stands(w', e) && e.id != d.id
    {
      assert Stands(w, e);
      assert Forward(w.rows[e.id], w'.rows[e.id]);
    }
    forall i | 0 <= i < |w.decisions|
      ensures w.decisions[i].id != d.id
    {
      assert w.decisions[i] in w.decisions;
    }
  }

  lemma LeaseAdded(w: World, w': World, l: (Text, Text))
    requires OneLeaseEach(w) && Moves(w, w') && l.0 in w.rows && w.rows[l.0].lease.None? && !TokenUsed(w.rows, l.1)
    requires w'.leases == w.leases + [l] && Held(w', l)
    ensures OneLeaseEach(w')
  {
    forall m | m in w.leases
      ensures Held(w', m) && m.0 != l.0 && m.1 != l.1
    {
      assert Held(w, m);
      assert Forward(w.rows[m.0], w'.rows[m.0]);
    }
    forall i | 0 <= i < |w.leases|
      ensures w.leases[i].0 != l.0 && w.leases[i].1 != l.1
    {
      assert w.leases[i] in w.leases;
    }
  }

  lemma CompletionAdded(w: World, w': World, c: (Text, Text))
    requires OneCompletionEach(w) && Moves(w, w') && c.0 in w.rows && w.rows[c.0].status == Approved
    requires w'.completions == w.completions + [c] && DoneByHolder(w', c)
    ensures OneCompletionEach(w')
  {
    forall d | d in w.completions
      ensures DoneByHolder(w', d) && d.0 != c.0
    {
      assert DoneByHolder(w, d);
      assert Forward(w.rows[d.0], w'.rows[d.0]);
    }
    forall i | 0 <= i < |w.completions|
      ensures w.completions[i].0 != c.0
    {
      assert w.completions[i] in w.completions;
    }
  }

  lemma StillDecided(w: World, w': World, id: Text, outcome: Status)
    requires HasDecision(w, id, outcome) && w.decisions <= w'.decisions
    ensures HasDecision(w', id, outcome)
  {
    var d :| d in w.decisions && d.id == id && d.outcome == outcome;
    assert d in w'.decisions;
  }

  lemma RowKeeps(w: World, w': World, id: Text)
    requires id in w.rows && RowOk(w, id) && id in w'.rows && w'.rows[id] == w.rows[id]
    requires w.decisions <= w'.decisions && w.leases <= w'.leases && w.completions <= w'.completions
    ensures RowOk(w', id)
  {
    var outcome := OutcomeOf(w.rows[id].status);
    if outcome.Some? { StillDecided(w, w', id, outcome.value); }
  }

  lemma OthersKeep(w: World, w': World, id: Text)
    requires RowsOk(w) && w'.rows.Keys == w.rows.Keys + {id}
    requires forall k :: k in w.rows && k != id ==> w'.rows[k] == w.rows[k]
    requires w.decisions <= w'.decisions && w.leases <= w'.leases && w.completions <= w'.completions
    requires RowOk(w', id)
    ensures RowsOk(w')
  {
    forall k | k in w'.rows
      ensures RowOk(w', k)
    {
      if k != id {
        assert RowOk(w, k);
        RowKeeps(w, w', k);
      }
    }
  }

  lemma CallsKeep(w: World, w': World)
    requires CallsOk(w) && Moves(w, w')
    requires forall k :: k in w'.calls ==> k in w.calls && w'.calls[k] == w.calls[k]
    ensures CallsOk(w')
  {
    forall k | k in w'.calls
      ensures CallOk(w', w'.calls[k])
    {
      assert CallOk(w, w.calls[k]);
      assert Forward(w.rows[w.calls[k].id], w'.rows[w.calls[k].id]);
    }
  }

  lemma CreateKeeps(w: World, s: Step)
    requires Safe(w) && s.Create?
    ensures Safe(CreateStep(w, s))
  {
    var w' := CreateStep(w, s);
    if w' != w {
      OldDecisionsStand(w, w');
      OldLeasesHeld(w, w');
      OldCompletionsDone(w, w');
      OthersKeep(w, w', s.id);
      CallsKeep(w, w');
    }
  }

  /** A decision that may be taken: on a pending request, and unless it is a cancellation by a permitted decider in time. */
  ghost predicate Takeable(w: World, d: Decision) {
    && d.id in w.rows && w.rows[d.id].status == Pending && d.outcome in {Approved, Rejected, Cancelled}
    && (d.outcome != Cancelled ==>
          && d.user != w.rows[d.id].requestedBy && d.at < w.rows[d.id].expiresAt
          && d.presented == Some(w.rows[d.id].payloadHash))
  }

  lemma DecideKeeps(w: World, d: Decision)
    requires Safe(w) && Takeable(w, d)
    ensures Safe(Decide(w, d))
  {
    var w' := Decide(w, d);
    assert Moves(w, w');
    assert d in w'.decisions;
    assert RowOk(w, d.id);
    assert HasDecision(w', d.id, d.outcome);
    DecisionAdded(w, w', d);
    OldLeasesHeld(w, w');
    OldCompletionsDone(w, w');
    OthersKeep(w, w', d.id);
    CallsKeep(w, w');
  }

  lemma WriteKeeps(w: World, c: Call, now: int)
    requires Safe(w) && CallOk(w, c)
    ensures Safe(WriteStep(w, c, now))
  {
    match c
    case Deciding(id, user, presented, approve) =>
      if Decidable(w.rows[id], now) {
        DecideKeeps(w, Decision(id, if approve then Approved else Rejected, user, now, Some(presented)));
      }
    case Cancelling(id, user) =>
      if w.rows[id].status == Pending { DecideKeeps(w, Decision(id, Cancelled, user, now, None)); }
  }

  lemma CallsChange(w: World, calls: map<nat, Call>)
    requires Safe(w) && forall k :: k in calls ==> CallOk(w, calls[k])
    ensures Safe(w.(calls := calls))
  {
    var w' := w.(calls := calls);
    OldDecisionsStand(w, w');
    OldLeasesHeld(w, w');
    OldCompletionsDone(w, w');
    forall id | id in w'.rows
      ensures RowOk(w', id)
    {
      assert RowOk(w, id);
      RowKeeps(w, w', id);
    }
  }

  lemma ClaimKeeps(w: World, s: Step)
    requires Safe(w) && s.Claim?
    ensures Safe(ClaimStep(w, s))
  {
    var w' := ClaimStep(w, s);
    if w' != w {
      assert Moves(w, w');
      assert RowOk(w, s.id);
      StillDecided(w, w', s.id, Approved);
      LeaseAdded(w, w', (s.id, s.token));
      OldDecisionsStand(w, w');
      OldCompletionsDone(w, w');
      OthersKeep(w, w', s.id);
      CallsKeep(w, w');
    }
  }

  lemma CompleteKeeps(w: World, s: Step)
    requires Safe(w) && s.Complete?
    ensures Safe(CompleteStep(w, s))
  {
    var w' := CompleteStep(w, s);
    if w' != w {
      assert Moves(w, w');
      assert RowOk(w, s.id);
      StillDecided(w, w', s.id, Approved);
      CompletionAdded(w, w', (s.id, s.token));
      OldDecisionsStand(w, w');
      OldLeasesHeld(w, w');
      OthersKeep(w, w', s.id);
      CallsKeep(w, w');
    }
  }

  lemma SweepKeeps(w: World, now: int)
    requires Safe(w)
    ensures Safe(w.(rows := Swept(w.rows, now)))
  {
    var w' := w.(rows := Swept(w.rows, now));
    NextMoves(w, Sweep(now));
    OldDecisionsStand(w, w');
    OldLeasesHeld(w, w');
    OldCompletionsDone(w, w');
    CallsKeep(w, w');
    forall id | id in w'.rows
      ensures RowOk(w', id)
    {
      assert RowOk(w, id);
      if !Sweepable(w.rows[id], now) { RowKeeps(w, w', id); }
    }
  }

  lemma NextKeeps(w: World, s: Step)
    requires Safe(w)
    ensures Safe(Next(w, s))
  {
    match s
    case Create(_, _, _, _, _) => CreateKeeps(w, s);
    case Read(call, request, isAdmin) =>
      if Permitted(w.rows, request, isAdmin) { CallsChange(w, w.calls[call := request]); }
    case Write(call, now) =>
      if call in w.calls {
        assert CallOk(w, w.calls[call]);
        CallsChange(w, w.calls - {call});
        WriteKeeps(w.(calls := w.calls - {call}), w.calls[call], now);
      }
    case Claim(_, _) => ClaimKeeps(w, s);
    case Complete(_, _, _) => CompleteKeeps(w, s);
    case Sweep(now) => SweepKeeps(w, now);
  }

  lemma {:induction false} RunKeeps(w: World, steps: seq<Step>)
    requires Safe(w)
    ensures Safe(Run(w, steps))
    decreases |steps|
  {
    if steps != [] {
      NextKeeps(w, steps[0]);
      RunKeeps(Next(w, steps[0]), steps[1..]);
    }
  }

  // ---------- the theorems ----------

  /** Over any interleaving, reads as stale as may be: at most one decision, one lease and one
      completion per request, no token twice, and every row is as they made it. */
  lemma EveryRunIsSafe(steps: seq<Step>)
    ensures Safe(Run(EMPTY, steps))
  {
    RunKeeps(EMPTY, steps);
  }

  lemma StepForward(w: World, s: Step, id: Text)
    requires id in w.rows
    ensures id in Next(w, s).rows && Forward(w.rows[id], Next(w, s).rows[id])
  {
    NextMoves(w, s);
  }

  /** Through every run: a terminal request never changes again, a decision is never overwritten,
      a lease never moves, and what a decider looked at never changes. */
  lemma {:induction false} NothingIsUndone(w: World, steps: seq<Step>, id: Text)
    requires id in w.rows
    ensures id in Run(w, steps).rows && Forward(w.rows[id], Run(w, steps).rows[id])
    decreases |steps|
  {
    if steps != [] {
      StepForward(w, steps[0], id);
      NothingIsUndone(Next(w, steps[0]), steps[1..], id);
    }
  }

  /** Only the lease holder completes, and completing again, whenever that is, changes nothing. */
  lemma CompletionIsIdempotent(w: World, id: Text, token: Text, now: int, between: seq<Step>, later: int)
    requires id in w.rows
    ensures var once := Next(w, Complete(id, token, now));
            && (once != w ==> w.rows[id].lease == Some(token))
            && (once.rows[id].status == Executed ==>
                  Next(Run(once, between), Complete(id, token, later)) == Run(once, between))
  {
    var once := Next(w, Complete(id, token, now));
    NothingIsUndone(once, between, id);
  }

  /** The loser of a race to claim: once a lease is out, claiming again never succeeds. */
  lemma SecondClaimFails(w: World, id: Text, between: seq<Step>, token: Text)
    requires id in w.rows && w.rows[id].lease.Some?
    ensures Next(Run(w, between), Claim(id, token)) == Run(w, between)
  {
    NothingIsUndone(w, between, id);
  }

  /** The loser of a race: once a request has left PENDING, a decision or cancellation read before
      changes nothing, whenever its write comes. */
  lemma StaleDecisionLosesTheRace(w: World, c: Call, between: seq<Step>, now: int)
    requires c.id in w.rows && w.rows[c.id].status != Pending
    ensures WriteStep(Run(w, between), c, now) == Run(w, between)
  {
    NothingIsUndone(w, between, c.id);
  }

  /** At every instant but one a pending request is either open to decision or due for the sweep;
      at its exact expiry it is neither. */
  lemma ExpiryInstantIsNeither(r: Request, now: int)
    requires r.status == Pending
    ensures Decidable(r, now) || Sweepable(r, now) <==> now != r.expiresAt
    ensures !(Decidable(r, now) && Sweepable(r, now))
  {
  }
}
