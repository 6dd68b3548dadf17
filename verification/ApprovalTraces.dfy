/** What the rows of an approval table owe to the steps that callers took. */
module ApprovalTraces {
  import opened Text
  import opened Approvals

  // ---------- what callers did ----------

  /** Step `i` is the one that created request `id`. */
  ghost predicate Creates(steps: seq<Step>, id: Text, i: nat) {
    && i < |steps| && steps[i].Create? && steps[i].id == id
    && forall k :: 0 <= k < i && steps[k].Create? ==> steps[k].id != id
  }

  /** The lifetime asked for at creation, a day unless it says otherwise, ends here. */
  function Deadline(s: Step): int
    requires s.Create?
  {
    s.now + 60000 * (match s.ttlMinutes case Some(minutes) => minutes case None => 24 * 60)
  }

  /** Step `j` is the read of call `c`, on a request created before. */
  ghost predicate Reads(steps: seq<Step>, c: nat, request: Call, i: nat, j: nat) {
    && i < j < |steps| && Creates(steps, request.id, i) && steps[j].Read? && steps[j].call == c && steps[j].request == request
    && match request
       case Deciding(_, user, presented, _) => user != steps[i].requestedBy && presented == steps[i].payloadHash
       case Cancelling(_, user) => user == steps[i].requestedBy || steps[j].isAdmin
  }

  /** Step `k` is the write, at time `at`, of the call that step `j` read. */
  ghost predicate Writes(steps: seq<Step>, request: Call, i: nat, j: nat, k: nat, at: int) {
    && j < k < |steps| && steps[k].Write? && steps[k].now == at && Reads(steps, steps[k].call, request, i, j)
    && (request.Deciding? ==> at < Deadline(steps[i]))
  }

  /** The decision was made by a caller's read and write. */
  ghost predicate Taken(steps: seq<Step>, d: Decision) {
    exists request, i: nat, j: nat, k: nat :: Writes(steps, request, i, j, k, d.at) && Says(request, d)
  }

  ghost predicate Says(request: Call, d: Decision) {
    && request.id == d.id && request.user == d.user
    && match request
       case Deciding(_, _, _, approve) => d.outcome == if approve then Approved else Rejected
       case Cancelling(_, _) => d.outcome == Cancelled
  }

  ghost predicate InFlight(steps: seq<Step>, c: nat, request: Call) { exists i: nat, j: nat :: Reads(steps, c, request, i, j) }

  /** The row is the one its creator asked for. */
  ghost predicate RowTraced(steps: seq<Step>, r: Request, id: Text) {
    exists i: nat :: Creates(steps, id, i) && Terms(r, steps[i])
  }

  ghost predicate Terms(r: Request, s: Step)
    requires s.Create?
  {
    r.requestedBy == s.requestedBy && r.payloadHash == s.payloadHash && r.expiresAt == Deadline(s)
  }

  ghost predicate RowsTraced(steps: seq<Step>, w: World) {
    && (forall id :: id in w.rows ==> RowTraced(steps, w.rows[id], id))
    && (forall k :: 0 <= k < |steps| && steps[k].Create? ==> steps[k].id in w.rows)
  }

  ghost predicate CallsTraced(steps: seq<Step>, w: World) {
    forall c :: c in w.calls ==> InFlight(steps, c, w.calls[c])
  }

  ghost predicate DecisionsTraced(steps: seq<Step>, w: World) { forall d :: d in w.decisions ==> Taken(steps, d) }

  ghost predicate Claimed(steps: seq<Step>, l: (Text, Text)) { Claim(l.0, l.1) in steps }

  ghost predicate Completed(steps: seq<Step>, c: (Text, Text)) { exists now :: Complete(c.0, c.1, now) in steps }

  ghost predicate LeasesTraced(steps: seq<Step>, w: World) {
    (forall l :: l in w.leases ==> Claimed(steps, l)) && (forall c :: c in w.completions ==> Completed(steps, c))
  }

  ghost predicate Traced(steps: seq<Step>, w: World) {
    RowsTraced(steps, w) && CallsTraced(steps, w) && DecisionsTraced(steps, w) && LeasesTraced(steps, w)
  }

  // ---------- earlier steps stay what they were ----------

  lemma CreatesKeeps(steps: seq<Step>, s: Step, id: Text, i: nat)
    requires Creates(steps, id, i)
    ensures Creates(steps + [s], id, i) && (steps + [s])[i] == steps[i]
  {
  }

  lemma CreatesOnce(steps: seq<Step>, id: Text, i: nat, j: nat)
    requires Creates(steps, id, i) && Creates(steps, id, j)
    ensures i == j
  {
  }

  lemma ReadsKeeps(steps: seq<Step>, s: Step, c: nat, request: Call, i: nat, j: nat)
    requires Reads(steps, c, request, i, j)
    ensures Reads(steps + [s], c, request, i, j)
  {
    CreatesKeeps(steps, s, request.id, i);
  }

  lemma InFlightKeeps(steps: seq<Step>, s: Step, c: nat, request: Call)
    requires InFlight(steps, c, request)
    ensures InFlight(steps + [s], c, request)
  {
    var i: nat, j: nat :| Reads(steps, c, request, i, j);
    ReadsKeeps(steps, s, c, request, i, j);
  }

  lemma TakenKeeps(steps: seq<Step>, s: Step, d: Decision)
    requires Taken(steps, d)
    ensures Taken(steps + [s], d)
  {
    var request, i: nat, j: nat, k: nat :| Writes(steps, request, i, j, k, d.at) && Says(request, d);
    ReadsKeeps(steps, s, steps[k].call, request, i, j);
    assert Writes(steps + [s], request, i, j, k, d.at);
  }

  lemma RowKeeps(steps: seq<Step>, s: Step, r: Request, r': Request, id: Text)
    requires RowTraced(steps, r, id) && Forward(r, r')
    ensures RowTraced(steps + [s], r', id)
  {
    var i: nat :| Creates(steps, id, i) && Terms(r, steps[i]);
    CreatesKeeps(steps, s, id, i);
  }

  // ---------- every step keeps the trace ----------

  lemma RowsStep(steps: seq<Step>, w: World, s: Step)
    requires RowsTraced(steps, w)
    ensures RowsTraced(steps + [s], Next(w, s))
  {
    var w' := Next(w, s);
    NextMoves(w, s);
    forall id | id in w'.rows
      ensures RowTraced(steps + [s], w'.rows[id], id)
    {
      if id in w.rows {
        assert Forward(w.rows[id], w'.rows[id]);
        RowKeeps(steps, s, w.rows[id], w'.rows[id], id);
      } else {
        RowAppears(steps, w, s, id);
      }
    }
    forall k | 0 <= k < |steps + [s]| && (steps + [s])[k].Create?
      ensures (steps + [s])[k].id in w'.rows
    {
      if k < |steps| { assert steps[k].id in w.rows; }
    }
  }

  lemma RowAppears(steps: seq<Step>, w: World, s: Step, id: Text)
    requires RowsTraced(steps, w) && id !in w.rows && id in Next(w, s).rows
    ensures RowTraced(steps + [s], Next(w, s).rows[id], id)
  {
    assert s.Create? && s.id == id;
    assert Creates(steps + [s], id, |steps|) && Terms(Next(w, s).rows[id], (steps + [s])[|steps|]);
  }

  lemma ReadStep(steps: seq<Step>, w: World, s: Step)
    requires RowsTraced(steps, w) && s.Read? && Permitted(w.rows, s.request, s.isAdmin)
    ensures InFlight(steps + [s], s.call, s.request)
  {
    var id := s.request.id;
    var i: nat :| Creates(steps, id, i) && Terms(w.rows[id], steps[i]);
    CreatesKeeps(steps, s, id, i);
    assert Reads(steps + [s], s.call, s.request, i, |steps|);
  }

  lemma CallsStep(steps: seq<Step>, w: World, s: Step)
    requires RowsTraced(steps, w) && CallsTraced(steps, w)
    ensures CallsTraced(steps + [s], Next(w, s))
  {
    var w' := Next(w, s);
    forall c | c in w'.calls
      ensures InFlight(steps + [s], c, w'.calls[c])
    {
      if s.Read? && Permitted(w.rows, s.request, s.isAdmin) && c == s.call {
        ReadStep(steps, w, s);
      } else {
        assert c in w.calls && w'.calls[c] == w.calls[c];
        InFlightKeeps(steps, s, c, w.calls[c]);
      }
    }
  }

  /** What a write logs was asked for by the call it completes. */
  lemma WriteStepTaken(steps: seq<Step>, w: World, s: Step, d: Decision)
    requires RowsTraced(steps, w) && s.Write? && s.call in w.calls && InFlight(steps, s.call, w.calls[s.call])
    requires d !in w.decisions && d in Next(w, s).decisions
    ensures Taken(steps + [s], d)
  {
    var request := w.calls[s.call];
    var i: nat, j: nat :| Reads(steps, s.call, request, i, j);
    ReadsKeeps(steps, s, s.call, request, i, j);
    assert Says(request, d) && d.at == s.now;
    var row := w.rows[request.id];
    var i': nat :| Creates(steps, request.id, i') && Terms(row, steps[i']);
    CreatesOnce(steps, request.id, i, i');
    assert request.Deciding? ==> Decidable(row, s.now);
    assert Writes(steps + [s], request, i, j, |steps|, d.at);
  }

  lemma DecisionsStep(steps: seq<Step>, w: World, s: Step)
    requires RowsTraced(steps, w) && CallsTraced(steps, w) && DecisionsTraced(steps, w)
    ensures DecisionsTraced(steps + [s], Next(w, s))
  {
    forall d | d in Next(w, s).decisions
      ensures Taken(steps + [s], d)
    {
      if d in w.decisions { TakenKeeps(steps, s, d); } else { WriteStepTaken(steps, w, s, d); }
    }
  }

  lemma LeasesStep(steps: seq<Step>, w: World, s: Step)
    requires LeasesTraced(steps, w)
    ensures LeasesTraced(steps + [s], Next(w, s))
  {
    var w' := Next(w, s);
    forall l | l in w'.leases
      ensures Claimed(steps + [s], l)
    {
      if l in w.leases { assert Claimed(steps, l); }
    }
    forall c | c in w'.completions
      ensures Completed(steps + [s], c)
    {
      if c in w.completions {
        assert Completed(steps, c);
        var now :| Complete(c.0, c.1, now) in steps;
        assert Complete(c.0, c.1, now) in steps + [s];
      } else {
        assert Complete(c.0, c.1, s.now) in steps + [s];
      }
    }
  }

  lemma {:induction false} RunSnoc(w: World, steps: seq<Step>, s: Step)
    ensures Run(w, steps + [s]) == Next(Run(w, steps), s)
    decreases |steps|
  {
    if steps == [] {
      assert Run(Next(w, s), []) == Next(w, s) && [s][1..] == [];
    } else {
      assert (steps + [s])[1..] == steps[1..] + [s];
      RunSnoc(Next(w, steps[0]), steps[1..], s);
    }
  }

  /** MAIN: over any interleaving, every row carries the terms of the step that created it, and every
      decision, lease and completion was asked for by the steps of a caller. */
  lemma {:induction false} EveryRunIsTraced(steps: seq<Step>)
    ensures Traced(steps, Run(EMPTY, steps))
    decreases |steps|
  {
    if steps != [] {
      var front, s := steps[..|steps| - 1], steps[|steps| - 1];
      var w := Run(EMPTY, front);
      EveryRunIsTraced(front);
      assert front + [s] == steps;
      RunSnoc(EMPTY, front, s);
      RowsStep(front, w, s);
      CallsStep(front, w, s);
      DecisionsStep(front, w, s);
      LeasesStep(front, w, s);
    }
  }

  // ---------- what was executed ----------

  /** Steps `i`, `j` and `k` created, read and approved request `id`: by two people, on the payload that
      was filed, and before the deadline that was set. */
  ghost predicate Approves(steps: seq<Step>, id: Text, i: nat, j: nat, k: nat) {
    && i < j < k < |steps| && Creates(steps, id, i)
    && steps[j].Read? && steps[j].request.Deciding? && steps[j].request.id == id && steps[j].request.approve
    && steps[k].Write? && steps[k].call == steps[j].call
    && steps[j].request.user != steps[i].requestedBy && steps[j].request.presented == steps[i].payloadHash
    && steps[k].now < Deadline(steps[i])
  }

  lemma TakenApproves(steps: seq<Step>, d: Decision)
    requires Taken(steps, d) && d.outcome == Approved
    ensures exists i: nat, j: nat, k: nat :: Approves(steps, d.id, i, j, k)
  {
    var request, i: nat, j: nat, k: nat :| Writes(steps, request, i, j, k, d.at) && Says(request, d);
    assert Approves(steps, d.id, i, j, k);
  }

  /** MAIN: what was executed was approved before its deadline by somebody other than the user who
      created it, who presented the hash it was created with; and one caller claimed it and completed it
      under that claim. */
  lemma ExecutedWasApproved(steps: seq<Step>, id: Text)
    requires id in Run(EMPTY, steps).rows && Run(EMPTY, steps).rows[id].status == Executed
    ensures exists i: nat, j: nat, k: nat :: Approves(steps, id, i, j, k)
    ensures exists token, now :: Claim(id, token) in steps && Complete(id, token, now) in steps
  {
    var w := Run(EMPTY, steps);
    EveryRunIsSafe(steps);
    EveryRunIsTraced(steps);
    assert RowOk(w, id);
    var d :| d in w.decisions && d.id == id && d.outcome == Approved;
    TakenApproves(steps, d);
    var l := (id, w.rows[id].lease.value);
    assert Claimed(steps, l) && Completed(steps, l);
  }
}
