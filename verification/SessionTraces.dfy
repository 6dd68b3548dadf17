/** What session rows and links owe to the steps that callers took. */
module SessionTraces {
  import opened Text
  import opened Sessions

  // ---------- what callers did ----------

  /** Step `j` completed the rotation of `from` into `id` that step `i` had read, for the session's own account. */
  ghost predicate RotatedInto(steps: seq<Step>, from: Text, id: Text, userId: Text, tokenHash: Text, expiresAt: int, i: nat, j: nat) {
    && i < j < |steps| && steps[i].Read? && steps[j].Write? && steps[j].call == steps[i].call
    && steps[i].request == Rotating(from, userId, id, tokenHash, expiresAt) && steps[i].owner == userId
  }

  ghost predicate SomeRotation(steps: seq<Step>, from: Text, id: Text, userId: Text, tokenHash: Text, expiresAt: int) {
    exists i: nat, j: nat :: RotatedInto(steps, from, id, userId, tokenHash, expiresAt, i, j)
  }

  /** A session is as it was asked for: at login, or by the rotation of another one. */
  ghost predicate IssuedBy(steps: seq<Step>, id: Text, s: Session) {
    || Create(id, s.userId, s.tokenHash, s.expiresAt) in steps
    || exists from :: SomeRotation(steps, from, id, s.userId, s.tokenHash, s.expiresAt)
  }

  /** A link is the rotation that some caller of the account asked for and completed. */
  ghost predicate LinkedBy(steps: seq<Step>, id: Text, newId: Text, userId: Text) {
    exists tokenHash, expiresAt :: SomeRotation(steps, id, newId, userId, tokenHash, expiresAt)
  }

  ghost predicate InFlight(steps: seq<Step>, c: nat, request: Call) {
    exists i: nat :: i < |steps| && AsksFor(steps[i], c, request)
  }

  ghost predicate AsksFor(s: Step, c: nat, request: Call) {
    s.Read? && s.call == c && s.request == request && (request.Rotating? ==> s.owner == request.userId)
  }

  ghost predicate Traced(steps: seq<Step>, w: World) {
    && (forall id :: id in w.rows ==> IssuedBy(steps, id, w.rows[id]))
    && (forall id :: id in w.rows && w.rows[id].rotatedTo.Some? ==> LinkedBy(steps, id, w.rows[id].rotatedTo.value, w.rows[id].userId))
    && (forall c :: c in w.calls ==> InFlight(steps, c, w.calls[c]))
  }

  // ---------- earlier steps stay what they were ----------

  lemma RotationStays(steps: seq<Step>, s: Step, from: Text, id: Text, userId: Text, tokenHash: Text, expiresAt: int)
    requires SomeRotation(steps, from, id, userId, tokenHash, expiresAt)
    ensures SomeRotation(steps + [s], from, id, userId, tokenHash, expiresAt)
  {
    var i: nat, j: nat :| RotatedInto(steps, from, id, userId, tokenHash, expiresAt, i, j);
    assert RotatedInto(steps + [s], from, id, userId, tokenHash, expiresAt, i, j);
  }

  lemma IssuedStays(steps: seq<Step>, s: Step, id: Text, was: Session, now: Session)
    requires IssuedBy(steps, id, was)
    requires now.userId == was.userId && now.tokenHash == was.tokenHash && now.expiresAt == was.expiresAt
    ensures IssuedBy(steps + [s], id, now)
  {
    if from :| SomeRotation(steps, from, id, was.userId, was.tokenHash, was.expiresAt) {
      RotationStays(steps, s, from, id, was.userId, was.tokenHash, was.expiresAt);
    }
  }

  lemma LinkStays(steps: seq<Step>, s: Step, id: Text, newId: Text, userId: Text)
    requires LinkedBy(steps, id, newId, userId)
    ensures LinkedBy(steps + [s], id, newId, userId)
  {
    var tokenHash, expiresAt :| SomeRotation(steps, id, newId, userId, tokenHash, expiresAt);
    RotationStays(steps, s, id, newId, userId, tokenHash, expiresAt);
  }

  lemma InFlightStays(steps: seq<Step>, s: Step, c: nat, request: Call)
    requires InFlight(steps, c, request)
    ensures InFlight(steps + [s], c, request)
  {
    var i: nat :| i < |steps| && AsksFor(steps[i], c, request);
    assert (steps + [s])[i] == steps[i];
  }

  // ---------- every step keeps the trace ----------

  /** This step completes the rotation. */
  ghost predicate LandsNow(w: World, s: Step) {
    s.Write? && s.call in w.calls && w.calls[s.call].Rotating? && Lands(w.(calls := w.calls - {s.call}), w.calls[s.call])
  }

  /** The session was there with the same account, token and expiry. */
  ghost predicate SameTerms(w: World, id: Text, now: Session) {
    && id in w.rows && now.userId == w.rows[id].userId
    && now.tokenHash == w.rows[id].tokenHash && now.expiresAt == w.rows[id].expiresAt
  }

  lemma RowChange(w: World, s: Step, id: Text)
    requires id in Next(w, s).rows
    ensures var now := Next(w, s).rows[id];
            || SameTerms(w, id, now)
            || s == Create(id, now.userId, now.tokenHash, now.expiresAt)
            || (LandsNow(w, s) && w.calls[s.call].newId == id && now == Successor(w.calls[s.call]))
  {
  }

  lemma LinkChange(w: World, s: Step, id: Text)
    requires id in Next(w, s).rows && Next(w, s).rows[id].rotatedTo.Some?
    ensures var now := Next(w, s).rows[id];
            || (id in w.rows && w.rows[id].rotatedTo == now.rotatedTo && w.rows[id].userId == now.userId)
            || (LandsNow(w, s) && var c := w.calls[s.call];
                c.id == id && now.rotatedTo == Some(c.newId) && now.userId == c.userId)
  {
  }

  lemma CallChange(w: World, s: Step, c: nat)
    requires c in Next(w, s).calls
    ensures (c in w.calls && Next(w, s).calls[c] == w.calls[c]) || AsksFor(s, c, Next(w, s).calls[c])
  {
  }

  lemma LandingRotates(steps: seq<Step>, w: World, s: Step)
    requires Traced(steps, w) && LandsNow(w, s)
    ensures var c := w.calls[s.call]; SomeRotation(steps + [s], c.id, c.newId, c.userId, c.tokenHash, c.expiresAt)
  {
    var c := w.calls[s.call];
    assert InFlight(steps, s.call, c);
    var i: nat :| i < |steps| && AsksFor(steps[i], s.call, c);
    assert RotatedInto(steps + [s], c.id, c.newId, c.userId, c.tokenHash, c.expiresAt, i, |steps|);
  }

  lemma TraceStep(steps: seq<Step>, w: World, s: Step)
    requires Traced(steps, w)
    ensures Traced(steps + [s], Next(w, s))
  {
    var w' := Next(w, s);
    if LandsNow(w, s) { LandingRotates(steps, w, s); }
    forall id | id in w'.rows ensures IssuedBy(steps + [s], id, w'.rows[id]) {
      RowChange(w, s, id);
      if SameTerms(w, id, w'.rows[id]) {
        IssuedStays(steps, s, id, w.rows[id], w'.rows[id]);
      }
    }
    forall id | id in w'.rows && w'.rows[id].rotatedTo.Some?
      ensures LinkedBy(steps + [s], id, w'.rows[id].rotatedTo.value, w'.rows[id].userId)
    {
      LinkChange(w, s, id);
      if id in w.rows && w.rows[id].rotatedTo == w'.rows[id].rotatedTo && w.rows[id].userId == w'.rows[id].userId {
        LinkStays(steps, s, id, w.rows[id].rotatedTo.value, w.rows[id].userId);
      }
    }
    forall c | c in w'.calls ensures InFlight(steps + [s], c, w'.calls[c]) {
      CallChange(w, s, c);
      if AsksFor(s, c, w'.calls[c]) { assert (steps + [s])[|steps|] == s; } else { InFlightStays(steps, s, c, w.calls[c]); }
    }
  }

  lemma {:induction false} RunSnoc(w: World, steps: seq<Step>, s: Step)
    ensures Run(w, steps + [s]) == Next(Run(w, steps), s)
    decreases |steps|
  {
    if steps == [] {
      assert Run(Next(w, s), []) == Next(w, s) && [s][1..] == [];
    } else {
      assert (steps + [s])[1..] == steps[1..] + [s];
      RunSnoc(Next(w, steps[0]), steps[1..], s);
    }
  }

  lemma {:induction false} EveryRunIsTraced(steps: seq<Step>)
    ensures Traced(steps, Run(EMPTY, steps))
    decreases |steps|
  {
    if steps != [] {
      var front, s := steps[..|steps| - 1], steps[|steps| - 1];
      EveryRunIsTraced(front);
      assert front + [s] == steps;
      RunSnoc(EMPTY, front, s);
      TraceStep(front, Run(EMPTY, front), s);
    }
  }

  /** MAIN: over any interleaving, every session has the account, token and expiry that a caller asked for,
      and every link is a rotation that a caller of that account read and completed. */
  lemma SessionsTraceToCallers(steps: seq<Step>, id: Text)
    requires id in Run(EMPTY, steps).rows
    ensures var s := Run(EMPTY, steps).rows[id];
            && IssuedBy(steps, id, s) && (s.rotatedTo.Some? ==> LinkedBy(steps, id, s.rotatedTo.value, s.userId))
  {
    EveryRunIsTraced(steps);
  }
}
