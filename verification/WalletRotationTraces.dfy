/** What wallets owe to the steps that callers took. */
module WalletRotationTraces {
  import opened Text
  import opened WalletRotation
  import opened WalletRotationRuns

  // ---------- what callers did ----------

  /** Step `i` asked for the rotation `id` as the row has it. */
  ghost predicate AskedFor(env: Env, steps: seq<Step>, id: Text, r: Rotation, i: nat) {
    i < |steps| && steps[i].Issue? && steps[i].q.rotationId == id && Issues(env, r, steps[i].q)
  }

  /** Step `j` consumed, in time and for the same account, what step `i` had asked for. */
  ghost predicate Attempted(env: Env, steps: seq<Step>, id: Text, r: Rotation, a: Attempt, i: nat, j: nat) {
    && i < j < |steps| && AskedFor(env, steps, id, r, i) && steps[j] == Begin(id, a)
    && a.userId == steps[i].q.userId && a.now < steps[i].q.now + 5 * 60 * 1000
  }

  /** Steps `i`, `j` and `k` asked for, attempted and finished one rotation: within five minutes, by one
      account, from one network and origin, with one signature by each key over its own message. */
  ghost predicate Rotates(env: Env, steps: seq<Step>, c: Completion, i: nat, j: nat, k: nat) {
    && i < j < k < |steps| && steps[i].Issue? && steps[j].Begin? && steps[k] == Finish(c.rotationId)
    && var q, a := steps[i].q, steps[j].attempt;
       && c == Completion(q.userId, q.rotationId, q.wallet, q.newWallet) && q.newWallet != q.wallet
       && steps[j].id == q.rotationId && a.userId == q.userId && a.now < q.now + 5 * 60 * 1000
       && a.wallet == q.wallet && a.site.network == q.site.network && q.origin.Some? && a.origin == q.origin
       && env.verify(q.wallet, MessageFor(env, q, CurrentSigner), a.currentSignature)
       && env.verify(q.newWallet, MessageFor(env, q, ReplacementSigner), a.newSignature)
  }

  ghost predicate RowTraced(env: Env, steps: seq<Step>, w: World, id: Text)
    requires id in w.db.rotations
  {
    exists i: nat :: AskedFor(env, steps, id, w.db.rotations[id], i)
  }

  ghost predicate CallTraced(env: Env, steps: seq<Step>, w: World, id: Text) {
    && id in w.calls && id in w.db.rotations
    && exists i: nat, j: nat :: Attempted(env, steps, id, w.db.rotations[id], w.calls[id].attempt, i, j)
  }

  ghost predicate CompletionTraced(env: Env, steps: seq<Step>, c: Completion) {
    exists i: nat, j: nat, k: nat :: Rotates(env, steps, c, i, j, k)
  }

  ghost predicate Traced(env: Env, steps: seq<Step>, w: World) {
    && (forall id :: id in w.db.rotations ==> RowTraced(env, steps, w, id))
    && (forall id :: id in w.calls ==> CallTraced(env, steps, w, id))
    && (forall c :: c in w.log ==> CompletionTraced(env, steps, c))
    && (forall u :: u in w.origins ==> SignUp(u, w.origins[u]) in steps)
  }

  // ---------- earlier steps stay what they were ----------

  lemma TermsKeepIssue(env: Env, r: Rotation, r': Rotation, q: Request)
    requires Issues(env, r, q) && SameTerms(r, r')
    ensures Issues(env, r', q)
  {
  }

  lemma AskedStays(env: Env, steps: seq<Step>, s: Step, id: Text, r: Rotation, r': Rotation, i: nat)
    requires AskedFor(env, steps, id, r, i) && SameTerms(r, r')
    ensures AskedFor(env, steps + [s], id, r', i) && (steps + [s])[i] == steps[i]
  {
    TermsKeepIssue(env, r, r', steps[i].q);
  }

  lemma AttemptedStays(env: Env, steps: seq<Step>, s: Step, id: Text, r: Rotation, r': Rotation, a: Attempt, i: nat, j: nat)
    requires Attempted(env, steps, id, r, a, i, j) && SameTerms(r, r')
    ensures Attempted(env, steps + [s], id, r', a, i, j)
  {
    AskedStays(env, steps, s, id, r, r', i);
  }

  lemma CompletionStays(env: Env, steps: seq<Step>, s: Step, c: Completion)
    requires CompletionTraced(env, steps, c)
    ensures CompletionTraced(env, steps + [s], c)
  {
    var i: nat, j: nat, k: nat :| Rotates(env, steps, c, i, j, k);
    assert Rotates(env, steps + [s], c, i, j, k);
  }

  // ---------- every step keeps the trace ----------

  lemma RowStep(env: Env, steps: seq<Step>, w: World, s: Step, id: Text)
    requires Traced(env, steps, w) && id in Next(env, w, s).db.rotations
    ensures RowTraced(env, steps + [s], Next(env, w, s), id)
  {
    StepKeepsTerms(env, w, s, id);
    var r' := Next(env, w, s).db.rotations[id];
    if id in w.db.rotations {
      var i: nat :| AskedFor(env, steps, id, w.db.rotations[id], i);
      AskedStays(env, steps, s, id, w.db.rotations[id], r', i);
    } else {
      assert AskedFor(env, steps + [s], id, r', |steps|);
    }
  }

  /** A call in the tables was there before, or this step began it. */
  lemma CallAppears(env: Env, w: World, s: Step, id: Text)
    requires id in Next(env, w, s).calls
    ensures if s.Begin? && s.id == id && Consumable(w.db, id, s.attempt.userId, s.attempt.now)
            then Next(env, w, s).calls[id].attempt == s.attempt && id in Next(env, w, s).db.rotations
            else id in w.calls && Next(env, w, s).calls[id].attempt == w.calls[id].attempt
    ensures id in w.db.rotations ==> id in Next(env, w, s).db.rotations
  {
  }

  lemma CallStep(env: Env, steps: seq<Step>, w: World, s: Step, id: Text)
    requires Traced(env, steps, w) && id in Next(env, w, s).calls
    ensures CallTraced(env, steps + [s], Next(env, w, s), id)
  {
    var w' := Next(env, w, s);
    CallAppears(env, w, s, id);
    if s.Begin? && s.id == id && Consumable(w.db, id, s.attempt.userId, s.attempt.now) {
      StepKeepsTerms(env, w, s, id);
      var r, r' := w.db.rotations[id], w'.db.rotations[id];
      assert RowTraced(env, steps, w, id);
      var i: nat :| AskedFor(env, steps, id, r, i);
      AskedStays(env, steps, s, id, r, r', i);
      assert Attempted(env, steps + [s], id, r', s.attempt, i, |steps|);
    } else {
      assert CallTraced(env, steps, w, id);
      StepKeepsTerms(env, w, s, id);
      var i: nat, j: nat :| Attempted(env, steps, id, w.db.rotations[id], w.calls[id].attempt, i, j);
      AttemptedStays(env, steps, s, id, w.db.rotations[id], w'.db.rotations[id], w.calls[id].attempt, i, j);
    }
  }

  lemma LogAppears(env: Env, w: World, s: Step, c: Completion)
    requires c !in w.log && c in Next(env, w, s).log
    ensures && s.Finish? && CanFinish(w, s.id) && Check(env, w.db.rotations[s.id], w.calls[s.id].attempt) == None
            && var r := w.db.rotations[s.id]; c == Completion(r.userId, s.id, r.currentWallet, r.newWallet)
  {
  }

  lemma LogStep(env: Env, steps: seq<Step>, w: World, s: Step, c: Completion)
    requires Traced(env, steps, w) && Issuance(env, w) && c in Next(env, w, s).log
    ensures CompletionTraced(env, steps + [s], c)
  {
    if c in w.log {
      CompletionStays(env, steps, s, c);
    } else {
      LogAppears(env, w, s, c);
      var id := s.id;
      assert CallTraced(env, steps, w, id) && Issued(env, id, w.db.rotations[id]);
      var i: nat, j: nat :| Attempted(env, steps, id, w.db.rotations[id], w.calls[id].attempt, i, j);
      FinishRotates(env, steps, s, w.db.rotations[id], w.calls[id].attempt, c, i, j);
    }
  }

  lemma FinishRotates(env: Env, steps: seq<Step>, s: Step, r: Rotation, a: Attempt, c: Completion, i: nat, j: nat)
    requires s.Finish? && Attempted(env, steps, s.id, r, a, i, j) && Check(env, r, a) == None && r.newWallet != r.currentWallet
    requires c == Completion(r.userId, s.id, r.currentWallet, r.newWallet)
    ensures CompletionTraced(env, steps + [s], c)
  {
    assert Rotates(env, steps + [s], c, i, j, |steps|);
  }

  lemma OriginStep(env: Env, steps: seq<Step>, w: World, s: Step, u: Text)
    requires u in Next(env, w, s).origins && (u in w.origins ==> SignUp(u, w.origins[u]) in steps)
    ensures SignUp(u, Next(env, w, s).origins[u]) in steps + [s]
  {
    if !s.SignUp? { assert Next(env, w, s).origins == w.origins; }
  }

  lemma TraceStep(env: Env, steps: seq<Step>, w: World, s: Step)
    requires Traced(env, steps, w) && Issuance(env, w)
    ensures Traced(env, steps + [s], Next(env, w, s))
  {
    var w' := Next(env, w, s);
    forall id | id in w'.db.rotations ensures RowTraced(env, steps + [s], w', id) { RowStep(env, steps, w, s, id); }
    forall id | id in w'.calls ensures CallTraced(env, steps + [s], w', id) { CallStep(env, steps, w, s, id); }
    forall c | c in w'.log ensures CompletionTraced(env, steps + [s], c) { LogStep(env, steps, w, s, c); }
    forall u | u in w'.origins ensures SignUp(u, w'.origins[u]) in steps + [s] { OriginStep(env, steps, w, s, u); }
  }

  lemma {:induction false} RunSnoc(env: Env, w: World, steps: seq<Step>, s: Step)
    ensures Run(env, w, steps + [s]) == Next(env, Run(env, w, steps), s)
    decreases |steps|
  {
    if steps == [] {
      assert Run(env, Next(env, w, s), []) == Next(env, w, s) && [s][1..] == [];
    } else {
      assert (steps + [s])[1..] == steps[1..] + [s];
      RunSnoc(env, Next(env, w, steps[0]), steps[1..], s);
    }
  }

  lemma {:induction false} EveryRunIsTraced(env: Env, steps: seq<Step>)
    ensures Traced(env, steps, Run(env, EMPTY, steps))
    decreases |steps|
  {
    if steps != [] {
      var front, s := steps[..|steps| - 1], steps[|steps| - 1];
      EveryRunIsTraced(env, front);
      EveryRunIsSafe(env, front);
      assert front + [s] == steps;
      RunSnoc(env, EMPTY, front, s);
      TraceStep(env, front, Run(env, EMPTY, front), s);
    }
  }

  /** MAIN: over any interleaving, the wallet of an account is the one it signed up with, carried from one
      to the next by rotations that its own callers asked for, attempted and finished, each of them
      single-use, in time and signed by both keys. */
  lemma WalletsTraceToCallers(env: Env, steps: seq<Step>, u: Text)
    requires u in Run(env, EMPTY, steps).db.users
    ensures var w := Run(env, EMPTY, steps);
            && u in w.origins && SignUp(u, w.origins[u]) in steps
            && WalletAfter(w.log, u, w.origins[u]) == Some(w.db.users[u])
            && (forall c :: c in w.log ==> CompletionTraced(env, steps, c))
            && (forall i, j :: 0 <= i < j < |w.log| ==> w.log[i].rotationId != w.log[j].rotationId)
  {
    EveryRunIsSafe(env, steps);
    EveryRunIsTraced(env, steps);
    assert Chained(Run(env, EMPTY, steps), u);
  }
}
