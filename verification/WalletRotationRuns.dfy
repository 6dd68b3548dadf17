/** Every interleaving of wallet rotations: what any run keeps. */
module WalletRotationRuns {
  import opened Text
  import Sessions
  import opened WalletRotation

  /** How far a `complete` call has come since it consumed its rotation. */
  datatype Phase = Consumed | Aborted(reason: Failure) | Finished

  datatype Call = Call(attempt: Attempt, phase: Phase)

  /** One successful commit, in commit order. */
  datatype Completion = Completion(userId: Text, rotationId: Text, before: Text, after: Text)

  /** The tables, the calls in flight, and the run's history. */
  datatype World = World(
    db: Db, calls: map<Text, Call>, origins: map<Text, Text>, log: seq<Completion>, freed: nat)

  const EMPTY := World(Db(map[], map[], map[], false), map[], map[], [], 0)

  datatype Step =
    | SignUp(userId: Text, wallet: Text)
    | OpenSession(sid: Text, session: Sessions.Session)
    | RevokeSession(sid: Text, at: int)
    | TakeSlot
    | FreeSlot
    | Issue(q: Request)
    | Begin(id: Text, attempt: Attempt)
    | Finish(id: Text)
    | Record(id: Text)

  predicate CanFinish(w: World, id: Text) { id in w.calls && w.calls[id].phase == Consumed && id in w.db.rotations }

  /** Why a call that consumed its rotation does not commit. */
  function Obstacle(env: Env, w: World, id: Text): Option<Failure>
    requires CanFinish(w, id)
  {
    var r := w.db.rotations[id];
    var failure := Check(env, r, w.calls[id].attempt);
    if failure.Some? then failure else Refusal(w.db, r)
  }

  function SignUpStep(w: World, userId: Text, wallet: Text): World {
    if userId in w.db.users || wallet in w.db.users.Values then w
    else w.(db := w.db.(users := w.db.users[userId := wallet]), origins := w.origins[userId := wallet])
  }

  function BeginStep(w: World, id: Text, a: Attempt): World {
    if !Consumable(w.db, id, a.userId, a.now) then w
    else w.(db := Consume(w.db, id, a.now), calls := w.calls[id := Call(a, Consumed)])
  }

  function CommitStep(w: World, id: Text): World
    requires CanFinish(w, id)
  {
    var r, call := w.db.rotations[id], w.calls[id];
    w.(db := Commit(w.db, id, call.attempt.now),
       calls := w.calls[id := call.(phase := Finished)],
       log := w.log + [Completion(r.userId, id, r.currentWallet, r.newWallet)])
  }

  function FinishStep(env: Env, w: World, id: Text): World {
    if !CanFinish(w, id) then w
    else
      var obstacle := Obstacle(env, w, id);
      if obstacle.None? then CommitStep(w, id)
      else w.(calls := w.calls[id := w.calls[id].(phase := Aborted(obstacle.value))])
  }

  function RecordStep(w: World, id: Text): World {
    if id in w.calls && w.calls[id].phase.Aborted? && id in w.db.rotations
    then w.(db := Fail(w.db, id, w.calls[id].phase.reason), calls := w.calls[id := w.calls[id].(phase := Finished)])
    else w
  }

  function SessionStep(w: World, sessions: Sessions.Table): World { w.(db := w.db.(sessions := sessions)) }

  function Next(env: Env, w: World, s: Step): World {
    match s
    case SignUp(userId, wallet) => SignUpStep(w, userId, wallet)
    case OpenSession(sid, session) =>
      if sid in w.db.sessions || session.userId !in w.db.users || session.revokedAt.Some? then w
      else SessionStep(w, w.db.sessions[sid := session])
    case RevokeSession(sid, at) =>
      if sid !in w.db.sessions || w.db.sessions[sid].revokedAt.Some? then w
      else SessionStep(w, Sessions.RevokeThese(w.db.sessions, {sid}, at))
    case TakeSlot => w.(db := w.db.(slotTaken := true))
    case FreeSlot => w.(db := w.db.(slotTaken := false), freed := w.freed + 1)
    case Issue(q) => w.(db := Initiate(env, w.db, q))
    case Begin(id, a) => BeginStep(w, id, a)
    case Finish(id) => FinishStep(env, w, id)
    case Record(id) => RecordStep(w, id)
  }

  function Run(env: Env, w: World, steps: seq<Step>): World
    decreases |steps|
  {
    if steps == [] then w else Run(env, Next(env, w, steps[0]), steps[1..])
  }

  // ---------- what holds in every reachable world ----------

  /** The wallet an account holds after the logged commits, provided each of its commits
      started from the wallet the one before left. */
  function WalletAfter(log: seq<Completion>, userId: Text, first: Text): Option<Text> {
    if log == [] then Some(first)
    else
      var c, earlier := log[|log| - 1], WalletAfter(log[..|log| - 1], userId, first);
      if c.userId != userId then earlier
      else if earlier == Some(c.before) then Some(c.after)
      else None
  }

  ghost predicate WalletsDistinct(users: map<Text, Text>) {
    forall u, v :: u in users && v in users && u != v ==> users[u] != users[v]
  }

  ghost predicate Chained(w: World, u: Text)
    requires u in w.db.users && u in w.origins
  {
    WalletAfter(w.log, u, w.origins[u]) == Some(w.db.users[u])
  }

  ghost predicate Accounts(w: World) {
    && WalletsDistinct(w.db.users)
    && w.origins.Keys == w.db.users.Keys
    && forall u :: u in w.db.users ==> Chained(w, u)
  }

  /** The row's two messages name this rotation and are for the two roles. */
  ghost predicate IssuedWith(env: Env, id: Text, r: Rotation, appUrl: Text, nonce: Text) {
    var b := Binding(id, nonce, r.origin, r.userId, r.currentWallet, r.newWallet, env.iso(r.expiresAt));
    && r.currentMessage == BuildMessage(appUrl, r.network, b, CurrentSigner)
    && r.newMessage == BuildMessage(appUrl, r.network, b, ReplacementSigner)
  }

  ghost predicate Issued(env: Env, id: Text, r: Rotation) {
    r.newWallet != r.currentWallet && exists appUrl, nonce :: IssuedWith(env, id, r, appUrl, nonce)
  }

  /** A row and the call that consumed it. */
  ghost predicate RowOk(w: World, id: Text)
    requires id in w.db.rotations
  {
    var r := w.db.rotations[id];
    && r.userId in w.db.users
    && (r.consumedAt.Some? <==> id in w.calls)
    && (id in w.calls ==> ConsumedBy(r, w.calls[id].attempt))
    && (r.status == Completed ==> id in w.calls && w.calls[id].phase == Finished)
  }

  /** In time, and by the account the rotation was issued to. */
  ghost predicate ConsumedBy(r: Rotation, a: Attempt) {
    r.consumedAt == Some(a.now) && a.now < r.expiresAt && r.userId == a.userId
  }

  ghost predicate Rows(w: World) {
    && (forall id :: id in w.calls ==> id in w.db.rotations)
    && forall id :: id in w.db.rotations ==> RowOk(w, id)
  }

  /** A logged commit is a completed rotation whose two signatures verified. */
  ghost predicate Justified(env: Env, w: World, c: Completion) {
    && c.rotationId in w.db.rotations
    && c.rotationId in w.calls
    && var r, a := w.db.rotations[c.rotationId], w.calls[c.rotationId].attempt;
       && r.status == Completed
       && c == Completion(r.userId, c.rotationId, r.currentWallet, r.newWallet)
       && Check(env, r, a) == None
  }

  ghost predicate Commits(env: Env, w: World) {
    && (forall c :: c in w.log ==> Justified(env, w, c))
    && (forall i, j :: 0 <= i < j < |w.log| ==> w.log[i].rotationId != w.log[j].rotationId)
    && |w.log| <= w.freed + (if w.db.slotTaken then 1 else 0)
  }

  /** Rows issued by `Initiate`, whatever happened to their status since. */
  ghost predicate Issuance(env: Env, w: World) {
    forall id :: id in w.db.rotations ==> Issued(env, id, w.db.rotations[id])
  }

  ghost predicate Ok(env: Env, w: World) { Accounts(w) && Rows(w) && Commits(env, w) }

  // ---------- every step keeps it ----------

  lemma SameAccounts(w: World, w': World)
    requires Accounts(w) && w'.db.users == w.db.users && w'.origins == w.origins && w'.log == w.log
    ensures Accounts(w')
  {
    forall u | u in w'.db.users
      ensures Chained(w', u)
    {
      assert Chained(w, u);
    }
  }

  lemma NoCommitsBefore(log: seq<Completion>, u: Text, first: Text)
    requires forall c :: c in log ==> c.userId != u
    ensures WalletAfter(log, u, first) == Some(first)
  {
    if log != [] {
      assert log[|log| - 1] in log;
      NoCommitsBefore(log[..|log| - 1], u, first);
    }
  }

  lemma SignUpKeeps(env: Env, w: World, userId: Text, wallet: Text)
    requires Ok(env, w)
    ensures Ok(env, SignUpStep(w, userId, wallet))
  {
    var w' := SignUpStep(w, userId, wallet);
    if w' != w {
      forall c | c in w.log
        ensures c.userId != userId
      {
        assert Justified(env, w, c);
        assert RowOk(w, c.rotationId);
      }
      NoCommitsBefore(w.log, userId, wallet);
      SignUpDistinct(w.db.users, userId, wallet);
      forall u | u in w'.db.users
        ensures Chained(w', u)
      {
        if u != userId { assert Chained(w, u); }
      }
      forall id | id in w'.db.rotations
        ensures RowOk(w', id)
      {
        assert RowOk(w, id);
      }
      SameCommits(env, w, w');
    }
  }

  lemma SignUpDistinct(users: map<Text, Text>, userId: Text, wallet: Text)
    requires WalletsDistinct(users) && wallet !in users.Values
    ensures WalletsDistinct(users[userId := wallet])
  {
    forall u | u in users
      ensures users[u] != wallet
    {
      assert users[u] in users.Values;
    }
  }

  /** Rows may change as long as completed ones and the calls' attempts stay. */
  ghost predicate KeepsCompleted(w: World, w': World) {
    forall id :: id in w.db.rotations && w.db.rotations[id].status == Completed && id in w.calls ==>
      && id in w'.db.rotations && w'.db.rotations[id] == w.db.rotations[id]
      && id in w'.calls && w'.calls[id].attempt == w.calls[id].attempt
  }

  lemma SameCommits(env: Env, w: World, w': World)
    requires Commits(env, w) && KeepsCompleted(w, w') && w'.log == w.log
    requires w'.freed == w.freed && (w.db.slotTaken ==> w'.db.slotTaken)
    ensures Commits(env, w')
  {
    forall c | c in w'.log
      ensures Justified(env, w', c)
    {
      assert Justified(env, w, c);
    }
  }

  lemma SlotKeeps(env: Env, w: World, taken: bool, freed: nat)
    requires Ok(env, w)
    requires freed == w.freed + (if taken then 0 else 1)
    ensures Ok(env, w.(db := w.db.(slotTaken := taken), freed := freed))
  {
    var w' := w.(db := w.db.(slotTaken := taken), freed := freed);
    SameAccounts(w, w');
    SameRows(w, w');
    forall c | c in w'.log
      ensures Justified(env, w', c)
    {
      assert Justified(env, w, c);
    }
  }

  lemma SameRows(w: World, w': World)
    requires Rows(w) && w'.db.rotations == w.db.rotations && w'.calls == w.calls && w'.db.users == w.db.users
    ensures Rows(w')
  {
    forall id | id in w'.db.rotations
      ensures RowOk(w', id)
    {
      assert RowOk(w, id);
    }
  }

  lemma SessionsKeep(env: Env, w: World, sessions: Sessions.Table)
    requires Ok(env, w)
    ensures Ok(env, SessionStep(w, sessions))
  {
    var w' := SessionStep(w, sessions);
    SameAccounts(w, w');
    SameRows(w, w');
    SameCommits(env, w, w');
  }

  lemma CancelledRowOk(w: World, w': World, id: Text, userId: Text)
    requires Rows(w) && id in w.db.rotations && id in w'.db.rotations
    requires w'.calls == w.calls && w'.db.users.Keys == w.db.users.Keys
    requires w'.db.rotations[id] == CancelPending(w.db.rotations, userId)[id]
    ensures RowOk(w', id)
  {
    assert RowOk(w, id);
  }

  lemma IssueKeeps(env: Env, w: World, q: Request)
    requires Ok(env, w)
    ensures Ok(env, w.(db := Initiate(env, w.db, q)))
  {
    if Accepts(env, w.db, q) {
      var w' := w.(db := Initiate(env, w.db, q));
      SameAccounts(w, w');
      forall id | id in w'.db.rotations
        ensures RowOk(w', id)
      {
        if id != q.rotationId { CancelledRowOk(w, w', id, q.userId); }
      }
      SameCommits(env, w, w');
    }
  }

  lemma BeginKeeps(env: Env, w: World, id: Text, a: Attempt)
    requires Ok(env, w)
    ensures Ok(env, BeginStep(w, id, a))
  {
    if Consumable(w.db, id, a.userId, a.now) {
      var w' := BeginStep(w, id, a);
      SameAccounts(w, w');
      forall k | k in w'.db.rotations
        ensures RowOk(w', k)
      {
        assert RowOk(w, k);
      }
      SameCommits(env, w, w');
    }
  }

  /** A row that nobody touched, next to calls that only moved on. */
  lemma RowTransfers(w: World, w': World, k: Text)
    requires k in w.db.rotations && RowOk(w, k) && k in w'.db.rotations && w'.db.users == w.db.users
    requires w'.db.rotations[k] == w.db.rotations[k]
    requires k in w'.calls <==> k in w.calls
    requires k in w.calls ==> w'.calls[k].attempt == w.calls[k].attempt && (w.calls[k].phase == Finished ==> w'.calls[k].phase == Finished)
    ensures RowOk(w', k)
  {
  }

  lemma RowFails(w: World, w': World, k: Text)
    requires k in w.db.rotations && RowOk(w, k) && k in w'.db.rotations && w'.db.users == w.db.users
    requires w'.db.rotations[k] == w.db.rotations[k].(status := Failed, failure := w'.db.rotations[k].failure)
    requires k in w.calls && k in w'.calls && w'.calls[k].attempt == w.calls[k].attempt
    ensures RowOk(w', k)
  {
  }

  lemma PhaseRow(w: World, w': World, id: Text, recorded: Option<Failure>, k: Text)
    requires Rows(w) && id in w.calls && id in w.db.rotations && k in w.db.rotations
    requires id in w'.calls && w'.calls == w.calls[id := w.calls[id].(phase := w'.calls[id].phase)] && w.calls[id].phase != Finished
    requires w'.db == if recorded.None? then w.db else Fail(w.db, id, recorded.value)
    ensures RowOk(w', k)
  {
    assert RowOk(w, k);
    if w'.db.rotations[k] == w.db.rotations[k] { RowTransfers(w, w', k); } else { RowFails(w, w', k); }
  }

  lemma PhaseCompleted(w: World, w': World, id: Text, recorded: Option<Failure>)
    requires Rows(w) && id in w.calls && id in w.db.rotations && w.calls[id].phase != Finished
    requires id in w'.calls && w'.calls == w.calls[id := w.calls[id].(phase := w'.calls[id].phase)]
    requires w'.db == if recorded.None? then w.db else Fail(w.db, id, recorded.value)
    ensures KeepsCompleted(w, w')
  {
    assert RowOk(w, id);
  }

  lemma PhaseRows(w: World, w': World, id: Text, recorded: Option<Failure>)
    requires Rows(w) && id in w.calls && id in w.db.rotations && w.calls[id].phase != Finished
    requires id in w'.calls && w'.calls == w.calls[id := w.calls[id].(phase := w'.calls[id].phase)]
    requires w'.db == if recorded.None? then w.db else Fail(w.db, id, recorded.value)
    ensures Rows(w') && KeepsCompleted(w, w')
  {
    PhaseCompleted(w, w', id, recorded);
    forall k | k in w'.db.rotations
      ensures RowOk(w', k)
    {
      PhaseRow(w, w', id, recorded, k);
    }
  }

  /** Moving one unfinished call to another phase; its row may leave PENDING for FAILED. */
  lemma PhaseKeeps(env: Env, w: World, w': World, id: Text, phase: Phase, recorded: Option<Failure>)
    requires Ok(env, w) && id in w.calls && id in w.db.rotations && w.calls[id].phase != Finished
    requires w' == w.(db := w'.db, calls := w.calls[id := w.calls[id].(phase := phase)])
    requires w'.db == if recorded.None? then w.db else Fail(w.db, id, recorded.value)
    ensures Ok(env, w')
  {
    SameAccounts(w, w');
    PhaseRows(w, w', id, recorded);
    SameCommits(env, w, w');
  }

  lemma RecordKeeps(env: Env, w: World, id: Text)
    requires Ok(env, w)
    ensures Ok(env, RecordStep(w, id))
  {
    var w' := RecordStep(w, id);
    if w' != w {
      PhaseKeeps(env, w, w', id, Finished, Some(w.calls[id].phase.reason));
    }
  }

  lemma Rebound(users: map<Text, Text>, u: Text, wallet: Text)
    requires WalletsDistinct(users) && wallet !in users.Values
    ensures WalletsDistinct(users[u := wallet])
  {
    SignUpDistinct(users, u, wallet);
  }

  lemma LogGrows(log: seq<Completion>, c: Completion, u: Text, first: Text)
    ensures WalletAfter(log + [c], u, first)
      == (if c.userId != u then WalletAfter(log, u, first)
          else if WalletAfter(log, u, first) == Some(c.before) then Some(c.after) else None)
  {
    assert (log + [c])[..|log|] == log;
  }

  lemma CommitAccounts(env: Env, w: World, id: Text)
    requires Ok(env, w) && CanFinish(w, id) && Obstacle(env, w, id) == None
    ensures Accounts(CommitStep(w, id))
  {
    var w', r := CommitStep(w, id), w.db.rotations[id];
    assert RowOk(w, id);
    Rebound(w.db.users, r.userId, r.newWallet);
    forall u | u in w'.db.users
      ensures Chained(w', u)
    {
      assert Chained(w, u);
      LogGrows(w.log, Completion(r.userId, id, r.currentWallet, r.newWallet), u, w.origins[u]);
    }
  }

  lemma CommitRows(env: Env, w: World, id: Text)
    requires Ok(env, w) && CanFinish(w, id) && Obstacle(env, w, id) == None
    ensures Rows(CommitStep(w, id))
  {
    var w' := CommitStep(w, id);
    assert RowOk(w, id);
    forall k | k in w'.db.rotations
      ensures RowOk(w', k)
    {
      assert RowOk(w, k);
    }
  }

  lemma CommitCommits(env: Env, w: World, id: Text)
    requires Ok(env, w) && CanFinish(w, id) && Obstacle(env, w, id) == None
    ensures Commits(env, CommitStep(w, id))
  {
    var w', r := CommitStep(w, id), w.db.rotations[id];
    assert RowOk(w, id);
    var c := Completion(r.userId, id, r.currentWallet, r.newWallet);
    forall d | d in w'.log
      ensures Justified(env, w', d)
    {
      if d in w.log {
        assert Justified(env, w, d);
        assert RowOk(w, d.rotationId);
      } else {
        assert d == c;
      }
    }
    forall i | 0 <= i < |w.log|
      ensures w.log[i].rotationId != id
    {
      assert w.log[i] in w.log;
      assert Justified(env, w, w.log[i]);
    }
  }

  lemma FinishKeeps(env: Env, w: World, id: Text)
    requires Ok(env, w)
    ensures Ok(env, FinishStep(env, w, id))
  {
    if CanFinish(w, id) {
      if Obstacle(env, w, id).None? {
        CommitAccounts(env, w, id);
        CommitRows(env, w, id);
        CommitCommits(env, w, id);
      } else {
        PhaseKeeps(env, w, FinishStep(env, w, id), id, Aborted(Obstacle(env, w, id).value), None);
      }
    }
  }

  lemma OtherStepsKeep(env: Env, w: World, s: Step)
    requires Ok(env, w) && (s.OpenSession? || s.RevokeSession? || s.TakeSlot? || s.FreeSlot?)
    ensures Ok(env, Next(env, w, s))
  {
    match s
    case OpenSession(sid, session) => SessionsKeep(env, w, w.db.sessions[sid := session]);
    case RevokeSession(sid, at) =>
      SessionsKeep(env, w, Sessions.RevokeThese(w.db.sessions, {sid}, at));
    case TakeSlot => SlotKeeps(env, w, true, w.freed);
    case FreeSlot => SlotKeeps(env, w, false, w.freed + 1);
  }

  lemma NextKeeps(env: Env, w: World, s: Step)
    requires Ok(env, w)
    ensures Ok(env, Next(env, w, s))
  {
    match s
    case SignUp(userId, wallet) => SignUpKeeps(env, w, userId, wallet);
    case Issue(q) => IssueKeeps(env, w, q);
    case Begin(id, a) => BeginKeeps(env, w, id, a);
    case Finish(id) => FinishKeeps(env, w, id);
    case Record(id) => RecordKeeps(env, w, id);
    case _ => OtherStepsKeep(env, w, s);
  }

  // ---------- what a rotation's messages bind ----------

  /** The columns no statement ever updates. */
  predicate SameTerms(r: Rotation, r': Rotation) {
    r' == r.(status := r'.status, failure := r'.failure, consumedAt := r'.consumedAt, completedAt := r'.completedAt)
  }

  ghost predicate TermsKept(env: Env, w: World, s: Step, id: Text)
    requires id in Next(env, w, s).db.rotations
  {
    var r' := Next(env, w, s).db.rotations[id];
    if id in w.db.rotations then SameTerms(w.db.rotations[id], r')
    else s.Issue? && s.q.rotationId == id && Accepts(env, w.db, s.q) && r' == NewRotation(env, s.q)
  }

  lemma StepKeepsTerms(env: Env, w: World, s: Step, id: Text)
    requires id in Next(env, w, s).db.rotations
    ensures TermsKept(env, w, s, id)
  {
  }

  lemma IssuedStays(env: Env, id: Text, r: Rotation, r': Rotation)
    requires Issued(env, id, r) && SameTerms(r, r')
    ensures Issued(env, id, r')
  {
    var appUrl, nonce :| IssuedWith(env, id, r, appUrl, nonce);
    assert IssuedWith(env, id, r', appUrl, nonce);
  }

  lemma NewRotationIssued(env: Env, q: Request)
    requires q.origin.Some? && q.newWallet != q.wallet
    ensures Issued(env, q.rotationId, NewRotation(env, q))
  {
    assert IssuedWith(env, q.rotationId, NewRotation(env, q), q.site.appUrl, q.nonce);
  }

  lemma NextKeepsIssuance(env: Env, w: World, s: Step)
    requires Issuance(env, w)
    ensures Issuance(env, Next(env, w, s))
  {
    var w' := Next(env, w, s);
    forall id | id in w'.db.rotations
      ensures Issued(env, id, w'.db.rotations[id])
    {
      StepKeepsTerms(env, w, s, id);
      if id in w.db.rotations {
        IssuedStays(env, id, w.db.rotations[id], w'.db.rotations[id]);
      } else {
        NewRotationIssued(env, s.q);
      }
    }
  }

  // ---------- every completed rotation is in the log ----------

  ghost predicate InLog(log: seq<Completion>, id: Text) { exists c :: c in log && c.rotationId == id }

  ghost predicate CompletedAreLogged(w: World) {
    forall id :: id in w.db.rotations && w.db.rotations[id].status == Completed ==> InLog(w.log, id)
  }

  predicate IsCommitOf(env: Env, w: World, s: Step, id: Text) {
    s.Finish? && s.id == id && CanFinish(w, id) && Obstacle(env, w, id).None?
  }

  /** A row becomes COMPLETED by its own commit only. */
  lemma CompletedBefore(env: Env, w: World, s: Step, id: Text)
    requires id in Next(env, w, s).db.rotations && Next(env, w, s).db.rotations[id].status == Completed
    ensures (id in w.db.rotations && w.db.rotations[id].status == Completed) || IsCommitOf(env, w, s, id)
  {
  }

  lemma LogOnlyGrows(env: Env, w: World, s: Step)
    ensures w.log <= Next(env, w, s).log
  {
  }

  lemma StillInLog(log: seq<Completion>, log': seq<Completion>, id: Text)
    requires InLog(log, id) && log <= log'
    ensures InLog(log', id)
  {
    var c :| c in log && c.rotationId == id;
    assert c in log';
  }

  lemma CommitIsLogged(w: World, id: Text)
    requires CanFinish(w, id)
    ensures InLog(CommitStep(w, id).log, id)
  {
    var log := CommitStep(w, id).log;
    assert log[|log| - 1] in log;
  }

  lemma NextKeepsLogged(env: Env, w: World, s: Step)
    requires CompletedAreLogged(w)
    ensures CompletedAreLogged(Next(env, w, s))
  {
    var w' := Next(env, w, s);
    LogOnlyGrows(env, w, s);
    forall id | id in w'.db.rotations && w'.db.rotations[id].status == Completed
      ensures InLog(w'.log, id)
    {
      CompletedBefore(env, w, s, id);
      if IsCommitOf(env, w, s, id) { CommitIsLogged(w, id); } else { StillInLog(w.log, w'.log, id); }
    }
  }

  lemma {:induction false} RunKeepsLogged(env: Env, w: World, steps: seq<Step>)
    requires CompletedAreLogged(w)
    ensures CompletedAreLogged(Run(env, w, steps))
    decreases |steps|
  {
    if steps != [] {
      NextKeepsLogged(env, w, steps[0]);
      RunKeepsLogged(env, Next(env, w, steps[0]), steps[1..]);
    }
  }

  lemma {:induction false} RunKeeps(env: Env, w: World, steps: seq<Step>)
    requires Ok(env, w) && Issuance(env, w)
    ensures Ok(env, Run(env, w, steps)) && Issuance(env, Run(env, w, steps))
    decreases |steps|
  {
    if steps != [] {
      var next := Next(env, w, steps[0]);
      NextKeeps(env, w, steps[0]);
      NextKeepsIssuance(env, w, steps[0]);
      RunKeeps(env, next, steps[1..]);
    }
  }

  // ---------- the theorems ----------

  /** Any interleaving of any callers: accounts keep distinct wallets, each account's completed
      rotations lead from its first wallet to its present one without a gap, every completed
      rotation was consumed once, in time, with two valid signatures, and no more rotations
      complete than the default audit position was free for. */
  lemma EveryRunIsSafe(env: Env, steps: seq<Step>)
    ensures Ok(env, Run(env, EMPTY, steps)) && Issuance(env, Run(env, EMPTY, steps))
    ensures CompletedAreLogged(Run(env, EMPTY, steps))
  {
    RunKeeps(env, EMPTY, steps);
    RunKeepsLogged(env, EMPTY, steps);
  }

  /** So what is said of the log is said of the COMPLETED rows: a row is COMPLETED exactly when it
      is in the log, and then it was consumed in time and both signatures verified. */
  lemma CompletedRowsAreJustified(env: Env, steps: seq<Step>, id: Text)
    requires id in Run(env, EMPTY, steps).db.rotations
    ensures var w := Run(env, EMPTY, steps);
            var r := w.db.rotations[id];
            && (r.status == Completed <==> InLog(w.log, id))
            && (r.status == Completed ==>
                  && id in w.calls && ConsumedBy(r, w.calls[id].attempt) && Check(env, r, w.calls[id].attempt) == None
                  && Completion(r.userId, id, r.currentWallet, r.newWallet) in w.log)
  {
    var w := Run(env, EMPTY, steps);
    EveryRunIsSafe(env, steps);
    assert RowOk(w, id);
    if InLog(w.log, id) {
      var c :| c in w.log && c.rotationId == id;
      assert Justified(env, w, c);
    }
  }

  ghost predicate Authorised(env: Env, w: World, w': World, id: Text, u: Text)
    requires u in w.db.users && u in w'.db.users
  {
    && id in w.db.rotations && id in w.calls
    && var r, a := w.db.rotations[id], w.calls[id].attempt;
       && r.userId == u && ConsumedBy(r, a)
       && r.currentWallet == w.db.users[u] && r.newWallet == w'.db.users[u]
       && env.verify(w.db.users[u], r.currentMessage, a.currentSignature)
       && env.verify(w'.db.users[u], r.newMessage, a.newSignature)
       && Issued(env, id, r) && r.currentMessage != r.newMessage
  }

  lemma MessagesDiffer(env: Env, id: Text, r: Rotation)
    requires Issued(env, id, r)
    ensures r.currentMessage != r.newMessage
  {
    var appUrl, nonce :| IssuedWith(env, id, r, appUrl, nonce);
    var b := Binding(id, nonce, r.origin, r.userId, r.currentWallet, r.newWallet, env.iso(r.expiresAt));
    RolesNeverShareAMessage(appUrl, r.network, b, appUrl, r.network, b);
  }

  lemma CommitIsAuthorised(env: Env, w: World, id: Text)
    requires Ok(env, w) && Issuance(env, w) && CanFinish(w, id) && Obstacle(env, w, id) == None
    ensures w.db.rotations[id].userId in w.db.users
    ensures Authorised(env, w, CommitStep(w, id), id, w.db.rotations[id].userId)
    ensures Sessions.Unrevoked(CommitStep(w, id).db.sessions, w.db.rotations[id].userId) == {}
  {
    assert RowOk(w, id);
    MessagesDiffer(env, id, w.db.rotations[id]);
    Sessions.RevocationIsComplete(w.db.sessions, w.db.rotations[id].userId, id, w.calls[id].attempt.now);
  }

  lemma OnlyCommitsMoveWallets(env: Env, w: World, s: Step, u: Text)
    requires u in w.db.users
    ensures u in Next(env, w, s).db.users
    ensures Next(env, w, s).db.users[u] != w.db.users[u] ==>
      s.Finish? && CanFinish(w, s.id) && Obstacle(env, w, s.id).None? && w.db.rotations[s.id].userId == u
  {
  }

  ghost predicate ProperChange(env: Env, w: World, w': World, s: Step, u: Text)
    requires u in w.db.users && u in w'.db.users
  {
    s.Finish? && Authorised(env, w, w', s.id, u) && Sessions.Unrevoked(w'.db.sessions, u) == {} && |w'.log| == |w.log| + 1
  }

  lemma StepIsAuthorised(env: Env, w: World, s: Step, u: Text)
    requires Ok(env, w) && Issuance(env, w) && u in w.db.users
    ensures u in Next(env, w, s).db.users
    ensures Next(env, w, s).db.users[u] != w.db.users[u] ==> ProperChange(env, w, Next(env, w, s), s, u)
  {
    OnlyCommitsMoveWallets(env, w, s, u);
    if Next(env, w, s).db.users[u] != w.db.users[u] {
      CommitIsAuthorised(env, w, s.id);
      assert Next(env, w, s) == CommitStep(w, s.id);
    }
  }

  /** A step that changes an account's wallet is the commit of that account's own rotation,
      authorised by both keys, and it leaves the account without a live session. */
  lemma WalletChangesAreAuthorised(env: Env, steps: seq<Step>, s: Step, u: Text)
    requires u in Run(env, EMPTY, steps).db.users
    ensures var w := Run(env, EMPTY, steps);
            var w' := Next(env, w, s);
            u in w'.db.users && (w'.db.users[u] != w.db.users[u] ==> ProperChange(env, w, w', s, u))
  {
    RunKeeps(env, EMPTY, steps);
    StepIsAuthorised(env, Run(env, EMPTY, steps), s, u);
  }

  /** Asking for a rotation, consuming one, failing one or recording the failure touches
      neither wallets nor sessions. */
  lemma FailedAttemptsChangeNothing(env: Env, w: World, s: Step)
    requires s.Issue? || s.Begin? || s.Record? || s.Finish?
    ensures Next(env, w, s).log == w.log ==>
      Next(env, w, s).db.users == w.db.users && Next(env, w, s).db.sessions == w.db.sessions
  {
    if s.Finish? && CanFinish(w, s.id) && Obstacle(env, w, s.id).None? {
      assert |CommitStep(w, s.id).log| == |w.log| + 1;
    }
  }

  /** When a consumed rotation commits: exactly when both signatures and the binding verify, the
      replacement is unbound, the account still holds the old wallet and the audit position is free. */
  lemma CommitsExactlyWhen(env: Env, w: World, id: Text)
    requires CanFinish(w, id)
    ensures var r, a := w.db.rotations[id], w.calls[id].attempt;
            |FinishStep(env, w, id).log| == |w.log| + 1 <==>
              && r.network == a.site.network && a.origin == Some(r.origin) && r.currentWallet == a.wallet
              && env.verify(r.currentWallet, r.currentMessage, a.currentSignature)
              && env.verify(r.newWallet, r.newMessage, a.newSignature)
              && r.newWallet !in w.db.users.Values
              && r.userId in w.db.users && w.db.users[r.userId] == r.currentWallet
              && !w.db.slotTaken
  {
    if Obstacle(env, w, id).None? {
      assert FinishStep(env, w, id) == CommitStep(w, id);
    } else {
      assert FinishStep(env, w, id).log == w.log;
    }
  }

  /** Without somebody freeing the default audit position, one rotation completes in the whole system. */
  lemma OneCommitPerFreeSlot(env: Env, steps: seq<Step>)
    requires forall i :: 0 <= i < |steps| ==> !steps[i].FreeSlot?
    ensures |Run(env, EMPTY, steps).log| <= 1
  {
    RunKeeps(env, EMPTY, steps);
    NeverFreed(env, EMPTY, steps);
  }

  lemma {:induction false} NeverFreed(env: Env, w: World, steps: seq<Step>)
    requires forall i :: 0 <= i < |steps| ==> !steps[i].FreeSlot?
    ensures Run(env, w, steps).freed == w.freed
    decreases |steps|
  {
    if steps != [] {
      assert !steps[0].FreeSlot?;
      NeverFreed(env, Next(env, w, steps[0]), steps[1..]);
    }
  }

  // ---------- a rotation is spent once ----------

  /** Consumed, superseded or failed. */
  predicate Spent(w: World, id: Text) {
    id in w.db.rotations && (w.db.rotations[id].status != Pending || w.db.rotations[id].consumedAt.Some?)
  }

  lemma StepKeepsSpent(env: Env, w: World, s: Step, id: Text)
    requires Spent(w, id)
    ensures Spent(Next(env, w, s), id)
    ensures id in Next(env, w, s).calls <==> id in w.calls
    ensures id in w.calls ==> Next(env, w, s).calls[id].attempt == w.calls[id].attempt
  {
  }

  /** Once spent, nobody can ever consume it (again), and the call that did is the only one. */
  lemma {:induction false} SpentForever(env: Env, w: World, steps: seq<Step>, id: Text, userId: Text, now: int)
    requires Spent(w, id)
    ensures !Consumable(Run(env, w, steps).db, id, userId, now)
    ensures id in Run(env, w, steps).calls <==> id in w.calls
    ensures id in w.calls ==> Run(env, w, steps).calls[id].attempt == w.calls[id].attempt
    decreases |steps|
  {
    if steps != [] {
      StepKeepsSpent(env, w, steps[0], id);
      SpentForever(env, Next(env, w, steps[0]), steps[1..], id, userId, now);
    }
  }

  lemma NoCallNoCommit(env: Env, w: World, id: Text)
    requires Commits(env, w) && id !in w.calls
    ensures forall c :: c in w.log ==> c.rotationId != id
  {
    forall c | c in w.log
      ensures c.rotationId != id
    {
      assert Justified(env, w, c);
    }
  }

  lemma IssueSpends(env: Env, w: World, q: Request, id: Text)
    requires Rows(w) && Accepts(env, w.db, q)
    requires id in w.db.rotations && w.db.rotations[id].userId == q.userId && w.db.rotations[id].consumedAt.None?
    ensures Spent(Next(env, w, Issue(q)), id) && id !in Next(env, w, Issue(q)).calls
  {
    assert RowOk(w, id);
  }

  /** A newer request supersedes an older one that nobody consumed: it never completes. */
  lemma SupersededNeverCompletes(env: Env, w: World, q: Request, id: Text, later: seq<Step>)
    requires Ok(env, w) && Issuance(env, w) && Accepts(env, w.db, q)
    requires id in w.db.rotations && w.db.rotations[id].userId == q.userId && w.db.rotations[id].consumedAt.None?
    ensures forall c :: c in Run(env, Next(env, w, Issue(q)), later).log ==> c.rotationId != id
  {
    var next := Next(env, w, Issue(q));
    IssueSpends(env, w, q, id);
    NextKeeps(env, w, Issue(q));
    NextKeepsIssuance(env, w, Issue(q));
    SpentForever(env, next, later, id, q.userId, q.now);
    RunKeeps(env, next, later);
    NoCallNoCommit(env, Run(env, next, later), id);
  }

  /** One that was consumed first is cancelled in the table, and commits all the same. */
  lemma SupersededAfterConsumptionStillCommits(env: Env, w: World, q: Request, id: Text)
    requires CanFinish(w, id) && Obstacle(env, w, id).None?
    requires Accepts(env, w.db, q) && w.db.rotations[id].userId == q.userId && w.db.rotations[id].status == Pending
    ensures var next := Next(env, w, Issue(q));
            && next.db.rotations[id].status == Cancelled
            && FinishStep(env, next, id).db.users[q.userId] == w.db.rotations[id].newWallet
  {
    var next := Next(env, w, Issue(q));
    var r := w.db.rotations[id];
    assert next.db.rotations[id] == Cancel(r);
    assert Check(env, Cancel(r), w.calls[id].attempt) == Check(env, r, w.calls[id].attempt);
    assert Refusal(next.db, Cancel(r)) == Refusal(w.db, r);
    assert FinishStep(env, next, id) == CommitStep(next, id);
  }

  /** At most one rotation of an account is pending at any time. */
  ghost predicate OnePending(w: World) {
    forall i, j :: i in w.db.rotations && j in w.db.rotations && PendingFor(w, i, j) ==> i == j
  }

  ghost predicate PendingFor(w: World, i: Text, j: Text)
    requires i in w.db.rotations && j in w.db.rotations
  {
    && w.db.rotations[i].status == Pending && w.db.rotations[j].status == Pending
    && w.db.rotations[i].userId == w.db.rotations[j].userId
  }

  lemma StepKeepsOnePending(env: Env, w: World, s: Step)
    requires OnePending(w)
    ensures OnePending(Next(env, w, s))
  {
    var w' := Next(env, w, s);
    forall i, j | i in w'.db.rotations && j in w'.db.rotations && PendingFor(w', i, j)
      ensures i == j
    {
      StepKeepsPending(env, w, s, i);
      StepKeepsPending(env, w, s, j);
      if i in w.db.rotations && j in w.db.rotations {
        assert PendingFor(w, i, j);
      }
    }
  }

  /** A row that is pending after a step was pending before, or is the one just issued;
      an older row that stays pending is not the requester's. */
  lemma StepKeepsPending(env: Env, w: World, s: Step, id: Text)
    requires id in Next(env, w, s).db.rotations && Next(env, w, s).db.rotations[id].status == Pending
    ensures id !in w.db.rotations ==>
      s.Issue? && Accepts(env, w.db, s.q) && id == s.q.rotationId && Next(env, w, s).db.rotations[id].userId == s.q.userId
    ensures id in w.db.rotations ==>
      && w.db.rotations[id].status == Pending
      && w.db.rotations[id].userId == Next(env, w, s).db.rotations[id].userId
      && (s.Issue? && Accepts(env, w.db, s.q) ==> w.db.rotations[id].userId != s.q.userId)
  {
    StepKeepsTerms(env, w, s, id);
  }

  lemma {:induction false} OnePendingPerAccount(env: Env, w: World, steps: seq<Step>)
    requires OnePending(w)
    ensures OnePending(Run(env, w, steps))
    decreases |steps|
  {
    if steps != [] {
      StepKeepsOnePending(env, w, steps[0]);
      OnePendingPerAccount(env, Next(env, w, steps[0]), steps[1..]);
    }
  }

  /** What a call that nobody interrupts answers, told from its three steps. */
  function Answer(env: Env, start: World, id: Text, a: Attempt): Outcome {
    var begun := BeginStep(start, id, a);
    if !CanFinish(begun, id) then Unavailable
    else
      var finished := FinishStep(env, begun, id);
      if |finished.log| > |start.log| then
        Rotated(begun.db.rotations[id].newWallet, |Sessions.Unrevoked(start.db.sessions, begun.db.rotations[id].userId)|)
      else if id in finished.calls && finished.calls[id].phase.Aborted? then Rejected(finished.calls[id].phase.reason)
      else Unavailable
  }

  /** A `complete` call that nobody interrupts is its three steps in a row, tables and answer. */
  lemma AloneIsThreeSteps(env: Env, db: Db, id: Text, a: Attempt)
    ensures var start := World(db, map[], map[], [], 0);
            && CompleteAlone(env, db, id, a).0 == RecordStep(FinishStep(env, BeginStep(start, id, a), id), id).db
            && CompleteAlone(env, db, id, a).1 == Answer(env, start, id, a)
  {
  }

  // ---------- two families of runs from nothing ----------

  /** A request that `initiate` does not refuse for itself. */
  predicate WellAsked(env: Env, q: Request) { env.valid(q.newWallet) && q.newWallet != q.wallet && q.origin.Some? }

  /** An attempt at the rotation issued for `q`, in time, with the two signatures it asks for. */
  predicate WellSigned(env: Env, q: Request, a: Attempt)
    requires q.origin.Some?
  {
    var r := NewRotation(env, q);
    && a.userId == q.userId && a.wallet == q.wallet && a.now < r.expiresAt
    && a.site.network == q.site.network && a.origin == q.origin
    && env.verify(q.wallet, r.currentMessage, a.currentSignature)
    && env.verify(q.newWallet, r.newMessage, a.newSignature)
  }

  /** After `q`'s account signed up with its wallet in `w`, was issued the rotation and consumed it. */
  ghost predicate Begun(env: Env, w: World, w': World, q: Request, a: Attempt)
    requires q.origin.Some?
  {
    var id := q.rotationId;
    && w'.db.users == w.db.users[q.userId := q.wallet] && w'.db.slotTaken == w.db.slotTaken && w'.log == w.log
    && w'.db.rotations.Keys == w.db.rotations.Keys + {id}
    && CanFinish(w', id) && w'.calls[id] == Call(a, Consumed)
    && w'.db.rotations[id] == NewRotation(env, q).(consumedAt := Some(a.now))
  }

  function SignedUp(env: Env, w: World, q: Request): World { Next(env, w, SignUp(q.userId, q.wallet)) }

  function Started(env: Env, w: World, q: Request, a: Attempt): World {
    Next(env, Next(env, SignedUp(env, w, q), Issue(q)), Begin(q.rotationId, a))
  }

  lemma StartedIsBegun(env: Env, w: World, q: Request, a: Attempt)
    requires WellAsked(env, q) && WellSigned(env, q, a)
    requires q.userId !in w.db.users && q.wallet !in w.db.users.Values && q.rotationId !in w.db.rotations
    ensures Begun(env, w, Started(env, w, q, a), q, a)
  {
    var signed := SignedUp(env, w, q);
    assert Accepts(env, signed.db, q);
    var issued := Next(env, signed, Issue(q));
    assert issued.db.rotations[q.rotationId] == NewRotation(env, q);
    assert Consumable(issued.db, q.rotationId, a.userId, a.now);
  }

  lemma WellSignedPasses(env: Env, q: Request, a: Attempt, r: Rotation)
    requires q.origin.Some? && WellSigned(env, q, a) && SameTerms(NewRotation(env, q), r)
    ensures Check(env, r, a) == None
  {
  }

  lemma RunFive(env: Env, w: World, a: Step, b: Step, c: Step, d: Step, e: Step)
    ensures Run(env, w, [a, b, c, d, e]) == Next(env, Next(env, Next(env, Next(env, Next(env, w, a), b), c), d), e)
  {
    var v := Next(env, w, a);
    var u := Next(env, v, b);
    var t := Next(env, u, c);
    var s := Next(env, t, d);
    assert [a, b, c, d, e][1..] == [b, c, d, e] && [b, c, d, e][1..] == [c, d, e];
    assert [c, d, e][1..] == [d, e] && [d, e][1..] == [e] && [e][1..] == [];
    assert Run(env, w, [a, b, c, d, e]) == Run(env, v, [b, c, d, e]);
    assert Run(env, v, [b, c, d, e]) == Run(env, u, [c, d, e]);
    assert Run(env, u, [c, d, e]) == Run(env, t, [d, e]);
    assert Run(env, t, [d, e]) == Run(env, s, [e]);
    assert Run(env, s, [e]) == Run(env, Next(env, s, e), []);
  }

  /** From nothing: sign up, ask for a rotation, consume it, ask for another, finish the first. The
      first was superseded, and commits all the same. */
  lemma SupersededRunCommits(env: Env, q: Request, a: Attempt, newer: Request)
    requires WellAsked(env, q) && WellSigned(env, q, a)
    requires WellAsked(env, newer) && newer.userId == q.userId && newer.rotationId != q.rotationId
    ensures var w := Run(env, EMPTY, [SignUp(q.userId, q.wallet), Issue(q), Begin(q.rotationId, a), Issue(newer), Finish(q.rotationId)]);
            && w.db.users == map[q.userId := q.newWallet]
            && w.log == [Completion(q.userId, q.rotationId, q.wallet, q.newWallet)]
            && q.rotationId in w.db.rotations && w.db.rotations[q.rotationId].status == Completed
  {
    RunFive(env, EMPTY, SignUp(q.userId, q.wallet), Issue(q), Begin(q.rotationId, a), Issue(newer), Finish(q.rotationId));
    StartedIsBegun(env, EMPTY, q, a);
    SupersededFinishes(env, Started(env, EMPTY, q, a), q, a, newer);
  }

  lemma SupersededFinishes(env: Env, begun: World, q: Request, a: Attempt, newer: Request)
    requires WellAsked(env, q) && WellSigned(env, q, a) && Begun(env, EMPTY, begun, q, a)
    requires WellAsked(env, newer) && newer.userId == q.userId && newer.rotationId != q.rotationId
    ensures var w := Next(env, Next(env, begun, Issue(newer)), Finish(q.rotationId));
            && w.db.users == map[q.userId := q.newWallet]
            && w.log == [Completion(q.userId, q.rotationId, q.wallet, q.newWallet)]
            && q.rotationId in w.db.rotations && w.db.rotations[q.rotationId].status == Completed
  {
    SupersededUnfinished(env, begun, q, a, newer);
    UnobstructedCommits(env, Next(env, begun, Issue(newer)), q, a);
  }

  /** `q`'s rotation can be finished by its consumer `a`, under its own terms. */
  ghost predicate Unfinished(env: Env, w: World, q: Request, a: Attempt)
    requires q.origin.Some?
  {
    && CanFinish(w, q.rotationId) && w.calls[q.rotationId].attempt == a
    && SameTerms(NewRotation(env, q), w.db.rotations[q.rotationId])
    && w.db.users == map[q.userId := q.wallet] && !w.db.slotTaken && w.log == []
  }

  lemma SupersededUnfinished(env: Env, begun: World, q: Request, a: Attempt, newer: Request)
    requires WellAsked(env, q) && Begun(env, EMPTY, begun, q, a)
    requires WellAsked(env, newer) && newer.userId == q.userId && newer.rotationId != q.rotationId
    ensures Unfinished(env, Next(env, begun, Issue(newer)), q, a)
  {
    assert Accepts(env, begun.db, newer);
    var superseded := Next(env, begun, Issue(newer));
    assert superseded.db.rotations[q.rotationId] == Cancel(begun.db.rotations[q.rotationId]);
  }

  lemma UnobstructedCommits(env: Env, w: World, q: Request, a: Attempt)
    requires WellAsked(env, q) && WellSigned(env, q, a) && Unfinished(env, w, q, a)
    ensures var w' := Next(env, w, Finish(q.rotationId));
            && w'.db.users == map[q.userId := q.newWallet]
            && w'.log == [Completion(q.userId, q.rotationId, q.wallet, q.newWallet)]
            && q.rotationId in w'.db.rotations && w'.db.rotations[q.rotationId].status == Completed
  {
    var id := q.rotationId;
    WellSignedPasses(env, q, a, w.db.rotations[id]);
    assert q.newWallet !in w.db.users.Values;
    assert Obstacle(env, w, id).None?;
    assert Next(env, w, Finish(id)) == CommitStep(w, id);
  }

  lemma RunFour(env: Env, w: World, a: Step, b: Step, c: Step, d: Step)
    ensures Run(env, w, [a, b, c, d]) == Next(env, Next(env, Next(env, Next(env, w, a), b), c), d)
  {
    var v := Next(env, w, a);
    var u := Next(env, v, b);
    var t := Next(env, u, c);
    assert [a, b, c, d][1..] == [b, c, d] && [b, c, d][1..] == [c, d] && [c, d][1..] == [d] && [d][1..] == [];
    assert Run(env, w, [a, b, c, d]) == Run(env, v, [b, c, d]);
    assert Run(env, v, [b, c, d]) == Run(env, u, [c, d]);
    assert Run(env, u, [c, d]) == Run(env, t, [d]);
    assert Run(env, t, [d]) == Run(env, Next(env, t, d), []);
  }

  /** From nothing: one account rotates; another then signs up, asks for a wallet that nobody holds,
      signs correctly, and is refused as if it were taken. */
  lemma SecondAccountIsRefused(env: Env, q: Request, a: Attempt, q': Request, a': Attempt)
    requires WellAsked(env, q) && WellSigned(env, q, a) && WellAsked(env, q') && WellSigned(env, q', a')
    requires q.userId != q'.userId && q.rotationId != q'.rotationId && q.newWallet != q'.wallet && q.newWallet != q'.newWallet
    ensures var w := Run(env, EMPTY, [SignUp(q.userId, q.wallet), Issue(q), Begin(q.rotationId, a), Finish(q.rotationId)]);
            var w' := Run(env, w, [SignUp(q'.userId, q'.wallet), Issue(q'), Begin(q'.rotationId, a'), Finish(q'.rotationId), Record(q'.rotationId)]);
            && w'.db.users == map[q.userId := q.newWallet, q'.userId := q'.wallet] && q'.newWallet !in w'.db.users.Values
            && q'.rotationId in w'.db.rotations && w'.db.rotations[q'.rotationId].status == Failed
            && w'.db.rotations[q'.rotationId].failure == Some(ReplacementUnavailable)
  {
    RunFour(env, EMPTY, SignUp(q.userId, q.wallet), Issue(q), Begin(q.rotationId, a), Finish(q.rotationId));
    StartedIsBegun(env, EMPTY, q, a);
    FirstCommits(env, Started(env, EMPTY, q, a), q, a);
    var w := Next(env, Started(env, EMPTY, q, a), Finish(q.rotationId));
    RunFive(env, w, SignUp(q'.userId, q'.wallet), Issue(q'), Begin(q'.rotationId, a'), Finish(q'.rotationId), Record(q'.rotationId));
    StartedIsBegun(env, w, q', a');
    var again := Started(env, w, q', a');
    assert again.db.users == map[q.userId := q.newWallet, q'.userId := q'.wallet];
    RefusedBySlot(env, again, q', a');
  }

  lemma FirstCommits(env: Env, begun: World, q: Request, a: Attempt)
    requires WellAsked(env, q) && WellSigned(env, q, a) && Begun(env, EMPTY, begun, q, a)
    ensures var w := Next(env, begun, Finish(q.rotationId));
            w.db.users == map[q.userId := q.newWallet] && w.db.slotTaken && w.db.rotations.Keys == {q.rotationId}
  {
    WellSignedPasses(env, q, a, begun.db.rotations[q.rotationId]);
    assert q.newWallet !in begun.db.users.Values;
    assert Next(env, begun, Finish(q.rotationId)) == CommitStep(begun, q.rotationId);
  }

  lemma RefusedBySlot(env: Env, begun: World, q: Request, a: Attempt)
    requires q.origin.Some? && WellSigned(env, q, a) && begun.db.slotTaken
    requires q.userId in begun.db.users && begun.db.users[q.userId] == q.wallet && q.newWallet !in begun.db.users.Values
    requires CanFinish(begun, q.rotationId) && begun.calls[q.rotationId] == Call(a, Consumed)
    requires begun.db.rotations[q.rotationId] == NewRotation(env, q).(consumedAt := Some(a.now))
    ensures var w := Next(env, Next(env, begun, Finish(q.rotationId)), Record(q.rotationId));
            && w.db.users == begun.db.users
            && q.rotationId in w.db.rotations && w.db.rotations[q.rotationId].status == Failed
            && w.db.rotations[q.rotationId].failure == Some(ReplacementUnavailable)
  {
    var id := q.rotationId;
    WellSignedPasses(env, q, a, begun.db.rotations[id]);
    assert Obstacle(env, begun, id) == Some(ReplacementUnavailable);
    var finished := Next(env, begun, Finish(id));
    assert finished.calls[id].phase == Aborted(ReplacementUnavailable) && finished.db == begun.db;
    assert Next(env, finished, Record(id)).db == Fail(begun.db, id, ReplacementUnavailable);
  }
}
