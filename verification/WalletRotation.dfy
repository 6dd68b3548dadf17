/** Wallet rotation: a two-key, single-use protocol run by any number of interleaved callers. */
module WalletRotation {
  import opened Text
  import Sessions

  // ---------- the messages to sign ----------

  datatype Signer = CurrentSigner | ReplacementSigner

  datatype Binding = Binding(
    rotationId: Text, nonce: Text, origin: Text, userId: Text, currentWallet: Text, newWallet: Text, expiresAt: Text)

  const NEWLINE := 10

  function SignerLine(signer: Signer): Text {
    if signer.CurrentSigner? then Ascii("Signer: current wallet") else Ascii("Signer: replacement wallet")
  }

  const HEADING: Text := Ascii("EarnProof wallet rotation")
  const DOMAIN: Text := Ascii("Domain: ")
  const ORIGIN: Text := Ascii("Origin: ")
  const NETWORK: Text := Ascii("Network: ")
  const ACCOUNT: Text := Ascii("Account: ")
  const CURRENT_WALLET: Text := Ascii("Current Wallet: ")
  const REPLACEMENT_WALLET: Text := Ascii("Replacement Wallet: ")
  const ROTATION: Text := Ascii("Rotation: ")
  const NONCE: Text := Ascii("Nonce: ")
  const EXPIRES_AT: Text := Ascii("Expires At: ")

  function MessageLines(appUrl: Text, network: Text, b: Binding, signer: Signer): seq<Text> {
    [ HEADING,
      SignerLine(signer),
      DOMAIN + appUrl,
      ORIGIN + b.origin,
      NETWORK + network,
      ACCOUNT + b.userId,
      CURRENT_WALLET + b.currentWallet,
      REPLACEMENT_WALLET + b.newWallet,
      ROTATION + b.rotationId,
      NONCE + b.nonce,
      EXPIRES_AT + b.expiresAt ]
  }

  function BuildMessage(appUrl: Text, network: Text, b: Binding, signer: Signer): Text {
    Join(MessageLines(appUrl, network, b, signer), NEWLINE)
  }

  lemma Regroup(a: Text, b: Text, c: Text, d: Text, e: Text)
    ensures a + b + (c + d + e) == (a + b + c + d) + e
  {
  }

  lemma JoinHead(lines: seq<Text>)
    requires |lines| > 2
    ensures lines[0] + [NEWLINE] + lines[1] + [NEWLINE] <= Join(lines, NEWLINE)
  {
    var tail := lines[1..];
    assert tail[0] == lines[1] && |tail| > 1;
    Regroup(lines[0], [NEWLINE], lines[1], [NEWLINE], Join(tail[1..], NEWLINE));
  }

  /** No message for the current wallet is a message for a replacement wallet, whatever the
      two rotations: a signature for one role cannot be presented for the other. */
  lemma RolesNeverShareAMessage(url: Text, network: Text, b: Binding, url': Text, network': Text, b': Binding)
    ensures BuildMessage(url, network, b, CurrentSigner) != BuildMessage(url', network', b', ReplacementSigner)
  {
    var m, n := BuildMessage(url, network, b, CurrentSigner), BuildMessage(url', network', b', ReplacementSigner);
    var x, y := MessageLines(url, network, b, CurrentSigner), MessageLines(url', network', b', ReplacementSigner);
    JoinHead(x);
    JoinHead(y);
    var i := |HEADING| + 1 + 8;
    var p, q := x[0] + [NEWLINE] + x[1] + [NEWLINE], y[0] + [NEWLINE] + y[1] + [NEWLINE];
    assert p[i] == x[1][8] == 'c' as int;
    assert q[i] == y[1][8] == 'r' as int;
    assert m[i] == p[i] && n[i] == q[i];
  }

  ghost predicate OneLine(t: Text) { NEWLINE !in t }

  ghost predicate OneLineBinding(b: Binding) {
    && OneLine(b.rotationId) && OneLine(b.nonce) && OneLine(b.origin) && OneLine(b.userId)
    && OneLine(b.currentWallet) && OneLine(b.newWallet) && OneLine(b.expiresAt)
  }

  lemma LiteralIsOneLine(tag: string)
    requires forall i :: 0 <= i < |tag| ==> '\n' != tag[i] < 128 as char
    ensures OneLine(Ascii(tag))
  {
  }

  lemma FixedLinesAreOneLine(signer: Signer)
    ensures OneLine(HEADING) && OneLine(SignerLine(signer))
  {
    LiteralIsOneLine("EarnProof wallet rotation");
    LiteralIsOneLine("Signer: current wallet");
    LiteralIsOneLine("Signer: replacement wallet");
  }

  lemma TagsAreOneLine()
    ensures OneLine(DOMAIN) && OneLine(ORIGIN) && OneLine(NETWORK) && OneLine(ACCOUNT)
    ensures OneLine(CURRENT_WALLET) && OneLine(REPLACEMENT_WALLET)
    ensures OneLine(ROTATION) && OneLine(NONCE) && OneLine(EXPIRES_AT)
  {
    LiteralIsOneLine("Domain: ");
    LiteralIsOneLine("Origin: ");
    LiteralIsOneLine("Network: ");
    LiteralIsOneLine("Account: ");
    LiteralIsOneLine("Current Wallet: ");
    LiteralIsOneLine("Replacement Wallet: ");
    LiteralIsOneLine("Rotation: ");
    LiteralIsOneLine("Nonce: ");
    LiteralIsOneLine("Expires At: ");
  }

  lemma LinesAreOneLine(url: Text, network: Text, b: Binding, signer: Signer)
    requires OneLine(url) && OneLine(network) && OneLineBinding(b)
    ensures Lacks(MessageLines(url, network, b, signer), NEWLINE)
  {
    FixedLinesAreOneLine(signer);
    TagsAreOneLine();
  }

  lemma PrefixCancels(tag: Text, a: Text, b: Text)
    requires tag + a == tag + b
    ensures a == b
  {
    assert a == (tag + a)[|tag|..] && b == (tag + b)[|tag|..];
  }

  /** Fields without line breaks: a message determines everything it binds. */
  lemma MessageBindsEverything(url: Text, network: Text, b: Binding, s: Signer, url': Text, network': Text, b': Binding, s': Signer)
    requires OneLine(url) && OneLine(network) && OneLineBinding(b)
    requires OneLine(url') && OneLine(network') && OneLineBinding(b')
    requires BuildMessage(url, network, b, s) == BuildMessage(url', network', b', s')
    ensures url == url' && network == network' && b == b' && s == s'
  {
    var x, y := MessageLines(url, network, b, s), MessageLines(url', network', b', s');
    LinesAreOneLine(url, network, b, s);
    LinesAreOneLine(url', network', b', s');
    JoinInjective(x, y, NEWLINE);
    SignerLineInjective(s, s');
    LinesBind(url, network, b, s, url', network', b', s');
  }

  lemma SignerLineInjective(s: Signer, t: Signer)
    requires SignerLine(s) == SignerLine(t)
    ensures s == t
  {
    assert |SignerLine(CurrentSigner)| != |SignerLine(ReplacementSigner)|;
  }

  lemma LinesBind(url: Text, network: Text, b: Binding, s: Signer, url': Text, network': Text, b': Binding, s': Signer)
    requires MessageLines(url, network, b, s) == MessageLines(url', network', b', s')
    ensures url == url' && network == network' && b == b' && SignerLine(s) == SignerLine(s')
  {
    var x, y := MessageLines(url, network, b, s), MessageLines(url', network', b', s');
    assert x[1] == y[1];
    assert x[2] == y[2];
    PrefixCancels(DOMAIN, url, url');
    assert x[3] == y[3];
    PrefixCancels(ORIGIN, b.origin, b'.origin);
    assert x[4] == y[4];
    PrefixCancels(NETWORK, network, network');
    assert x[5] == y[5];
    PrefixCancels(ACCOUNT, b.userId, b'.userId);
    assert x[6] == y[6];
    PrefixCancels(CURRENT_WALLET, b.currentWallet, b'.currentWallet);
    assert x[7] == y[7];
    PrefixCancels(REPLACEMENT_WALLET, b.newWallet, b'.newWallet);
    assert x[8] == y[8];
    PrefixCancels(ROTATION, b.rotationId, b'.rotationId);
    assert x[9] == y[9];
    PrefixCancels(NONCE, b.nonce, b'.nonce);
    assert x[10] == y[10];
    PrefixCancels(EXPIRES_AT, b.expiresAt, b'.expiresAt);
  }

  // ---------- the tables ----------

  datatype Status = Pending | Completed | Failed | Cancelled

  datatype Failure =
    | NetworkMismatch | OriginMismatch | IdentityChanged | CurrentSignatureInvalid
    | ReplacementSignatureInvalid | ReplacementUnavailable | Superseded

  datatype Rotation = Rotation(
    userId: Text, currentWallet: Text, newWallet: Text, currentMessage: Text, newMessage: Text,
    network: Text, origin: Text, expiresAt: int,
    status: Status, failure: Option<Failure>, consumedAt: Option<int>, completedAt: Option<int>)

  /** `slotTaken`: some audit row already holds the default chain position, which the
      commit's own audit row also asks for and which is unique. */
  datatype Db = Db(
    users: map<Text, Text>, rotations: map<Text, Rotation>, sessions: Sessions.Table, slotTaken: bool)

  const TTL_MS := 300000

  /** Signature check, address format and the ISO form of an instant. */
  datatype Env = Env(verify: (Text, Text, Text) -> bool, valid: Text -> bool, iso: int -> Text)

  /** The deployment that serves a request. */
  datatype Site = Site(appUrl: Text, network: Text)

  /** `origin` is None when the request's origin does not parse. */
  datatype Request = Request(
    site: Site, userId: Text, wallet: Text, newWallet: Text, origin: Option<Text>, rotationId: Text, nonce: Text, now: int)

  datatype Attempt = Attempt(
    site: Site, userId: Text, wallet: Text, currentSignature: Text, newSignature: Text, origin: Option<Text>, now: int)

  // ---------- the atomic steps of the two operations ----------

  function Cancel(r: Rotation): Rotation { r.(status := Cancelled, failure := Some(Superseded)) }

  function CancelPending(rotations: map<Text, Rotation>, userId: Text): map<Text, Rotation> {
    map id | id in rotations ::
      if rotations[id].userId == userId && rotations[id].status == Pending then Cancel(rotations[id]) else rotations[id]
  }

  function NewRotation(env: Env, q: Request): Rotation
    requires q.origin.Some?
  {
    var expiresAt := q.now + TTL_MS;
    var b := Binding(q.rotationId, q.nonce, q.origin.value, q.userId, q.wallet, q.newWallet, env.iso(expiresAt));
    Rotation(q.userId, q.wallet, q.newWallet,
             BuildMessage(q.site.appUrl, q.site.network, b, CurrentSigner),
             BuildMessage(q.site.appUrl, q.site.network, b, ReplacementSigner),
             q.site.network, q.origin.value, expiresAt, Pending, None, None, None)
  }

  /** The row offers what was asked for, for five minutes, under one message per key. */
  ghost predicate Issues(env: Env, r: Rotation, q: Request) {
    && q.origin.Some? && r.userId == q.userId && r.currentWallet == q.wallet && r.newWallet == q.newWallet
    && r.network == q.site.network && r.origin == q.origin.value && r.expiresAt == q.now + 5 * 60 * 1000
    && r.currentMessage == MessageFor(env, q, CurrentSigner) && r.newMessage == MessageFor(env, q, ReplacementSigner)
  }

  /** The message that the key of one role signs for a request. */
  ghost function MessageFor(env: Env, q: Request, signer: Signer): Text
    requires q.origin.Some?
  {
    BuildMessage(q.site.appUrl, q.site.network,
                 Binding(q.rotationId, q.nonce, q.origin.value, q.userId, q.wallet, q.newWallet, env.iso(q.now + 5 * 60 * 1000)),
                 signer)
  }

  predicate Accepts(env: Env, db: Db, q: Request) {
    env.valid(q.newWallet) && q.newWallet != q.wallet && q.origin.Some? && q.userId in db.users && q.rotationId !in db.rotations
  }

  function Initiate(env: Env, db: Db, q: Request): Db {
    if Accepts(env, db, q) then
      db.(rotations := CancelPending(db.rotations, q.userId)[q.rotationId := NewRotation(env, q)])
    else db
  }

  predicate Consumable(db: Db, id: Text, userId: Text, now: int) {
    && id in db.rotations
    && var r := db.rotations[id];
       r.userId == userId && r.status == Pending && r.consumedAt.None? && r.expiresAt > now
  }

  function Consume(db: Db, id: Text, now: int): Db
    requires id in db.rotations
  {
    db.(rotations := db.rotations[id := db.rotations[id].(consumedAt := Some(now))])
  }

  function Check(env: Env, r: Rotation, a: Attempt): Option<Failure> {
    if r.network != a.site.network then Some(NetworkMismatch)
    else if a.origin != Some(r.origin) then Some(OriginMismatch)
    else if r.currentWallet != a.wallet then Some(IdentityChanged)
    else if !env.verify(r.currentWallet, r.currentMessage, a.currentSignature) then Some(CurrentSignatureInvalid)
    else if !env.verify(r.newWallet, r.newMessage, a.newSignature) then Some(ReplacementSignatureInvalid)
    else None
  }

  /** Why the commit transaction aborts, if it does; an aborted transaction leaves no trace. */
  function Refusal(db: Db, r: Rotation): Option<Failure> {
    if r.newWallet in db.users.Values then Some(ReplacementUnavailable)
    else if r.userId !in db.users || db.users[r.userId] != r.currentWallet then Some(IdentityChanged)
    else if db.slotTaken then Some(ReplacementUnavailable)
    else None
  }

  function Commit(db: Db, id: Text, now: int): Db
    requires id in db.rotations
  {
    var r := db.rotations[id];
    var completed := db.rotations[id := r.(status := Completed, completedAt := Some(now))];
    Db(db.users[r.userId := r.newWallet], CancelPending(completed, r.userId), Sessions.RevokeAllOf(db.sessions, r.userId, now), true)
  }

  function Fail(db: Db, id: Text, reason: Failure): Db
    requires id in db.rotations
  {
    if db.rotations[id].status != Pending then db
    else db.(rotations := db.rotations[id := db.rotations[id].(status := Failed, failure := Some(reason))])
  }

  // ---------- the service ----------

  datatype Outcome = Rotated(wallet: Text, sessionsRevoked: nat) | Unavailable | Rejected(reason: Failure)

  /** `complete` when nothing else happens between its statements. */
  function CompleteAlone(env: Env, db: Db, id: Text, a: Attempt): (Db, Outcome) {
    if !Consumable(db, id, a.userId, a.now) then (db, Unavailable)
    else
      var spent := Consume(db, id, a.now);
      var r := spent.rotations[id];
      var failure := Check(env, r, a);
      if failure.Some? then (Fail(spent, id, failure.value), Rejected(failure.value))
      else
        var refusal := Refusal(spent, r);
        if refusal.Some? then (Fail(spent, id, refusal.value), Rejected(refusal.value))
        else (Commit(spent, id, a.now), Rotated(r.newWallet, |Sessions.Unrevoked(db.sessions, r.userId)|))
  }

  /** A row that a new request or a completion of the account supersedes. */
  predicate Supersedes(r: Rotation, userId: Text) { r.userId == userId && r.status == Pending }

  /** MAIN: the answer to a call that nobody interrupts, reason by reason in the order they are found,
      and what the tables hold afterwards. */
  lemma CompleteIsExact(env: Env, db: Db, id: Text, a: Attempt)
    ensures var (after, outcome) := CompleteAlone(env, db, id, a);
            var open := && id in db.rotations && db.rotations[id].userId == a.userId && db.rotations[id].status == Pending
                        && db.rotations[id].consumedAt.None? && a.now < db.rotations[id].expiresAt;
            && (outcome.Unavailable? <==> !open) && (outcome.Unavailable? ==> after == db)
            && (open ==> AnswersExactly(env, db, id, a, outcome))
            && (outcome.Rejected? ==>
                  after == db.(rotations := db.rotations[id := db.rotations[id].(
                    consumedAt := Some(a.now), status := Failed, failure := Some(outcome.reason))]))
            && (outcome.Rotated? ==>
                  && outcome.wallet == db.rotations[id].newWallet && after.users == db.users[a.userId := outcome.wallet]
                  && outcome.sessionsRevoked == |Sessions.Unrevoked(db.sessions, a.userId)|)
  {
    if Consumable(db, id, a.userId, a.now) { AnswerIsExact(env, db, id, a); }
  }

  lemma AnswerIsExact(env: Env, db: Db, id: Text, a: Attempt)
    requires Consumable(db, id, a.userId, a.now)
    ensures AnswersExactly(env, db, id, a, CompleteAlone(env, db, id, a).1)
  {
    var r := db.rotations[id];
    assert r.newWallet in db.users.Values <==> exists u :: u in db.users && db.users[u] == r.newWallet;
  }

  ghost predicate AnswersExactly(env: Env, db: Db, id: Text, a: Attempt, outcome: Outcome)
    requires id in db.rotations
  {
    var r := db.rotations[id];
    var network, origin, identity := r.network == a.site.network, a.origin == Some(r.origin), r.currentWallet == a.wallet;
    var current := env.verify(r.currentWallet, r.currentMessage, a.currentSignature);
    var signed := network && origin && identity && current && env.verify(r.newWallet, r.newMessage, a.newSignature);
    var unbound := forall u :: u in db.users ==> db.users[u] != r.newWallet;
    var held := r.userId in db.users && db.users[r.userId] == r.currentWallet;
    && (outcome == Rejected(NetworkMismatch) <==> !network)
    && (outcome == Rejected(OriginMismatch) <==> network && !origin)
    && (outcome == Rejected(CurrentSignatureInvalid) <==> network && origin && identity && !current)
    && (outcome == Rejected(ReplacementSignatureInvalid) <==> network && origin && identity && current && !signed)
    && (outcome == Rejected(IdentityChanged) <==> (network && origin && !identity) || (signed && unbound && !held))
    && (outcome == Rejected(ReplacementUnavailable) <==> signed && (!unbound || (held && db.slotTaken)))
    && (outcome.Rotated? <==> signed && unbound && held && !db.slotTaken)
  }

  class RotationTables {
    var users: map<Text, Text>
    var rotations: map<Text, Rotation>
    var sessions: Sessions.Table
    var slotTaken: bool

    function State(): Db
      reads this
    {
      Db(users, rotations, sessions, slotTaken)
    }

    method InitiateRotation(env: Env, q: Request) returns (ok: bool)
      modifies this
      ensures ok == Accepts(env, old(State()), q)
      ensures State() == Initiate(env, old(State()), q)
      ensures users == old(users) && sessions == old(sessions) && slotTaken == old(slotTaken)
      ensures ok ==> rotations.Keys == old(rotations).Keys + {q.rotationId} && Issues(env, rotations[q.rotationId], q)
      ensures ok ==> forall k :: k in old(rotations) ==>
        rotations[k] == if Supersedes(old(rotations)[k], q.userId)
                        then old(rotations)[k].(status := Cancelled, failure := Some(Superseded)) else old(rotations)[k]
    {
      if !env.valid(q.newWallet) || q.newWallet == q.wallet || q.origin.None? {
        return false;
      }
      if q.userId !in users || q.rotationId in rotations {
        return false;
      }
      var row := NewRotation(env, q);
      rotations := CancelPending(rotations, q.userId);
      rotations := rotations[q.rotationId := row];
      ok := true;
    }

    method RecordFailure(id: Text, reason: Failure)
      requires id in rotations
      modifies this`rotations
      ensures State() == Fail(old(State()), id, reason)
    {
      if rotations[id].status == Pending {
        rotations := rotations[id := rotations[id].(status := Failed, failure := Some(reason))];
      }
    }

    /** The transaction: its writes are kept only when none of them is refused. */
    method CommitRotation(id: Text, now: int) returns (refusal: Option<Failure>, revoked: nat)
      requires id in rotations
      modifies this
      ensures refusal == Refusal(old(State()), old(State()).rotations[id])
      ensures State() == if refusal.None? then Commit(old(State()), id, now) else old(State())
      ensures refusal.None? ==>
        var r := old(rotations)[id];
        && users == old(users)[r.userId := r.newWallet] && slotTaken
        && revoked == |Sessions.Unrevoked(old(sessions), r.userId)| && Sessions.Unrevoked(sessions, r.userId) == {}
        && sessions.Keys == old(sessions).Keys
        && (forall k :: k in sessions && sessions[k] != old(sessions)[k] ==>
              k in Sessions.Unrevoked(old(sessions), r.userId) && sessions[k] == old(sessions)[k].(revokedAt := Some(now)))
        && rotations.Keys == old(rotations).Keys && rotations[id] == r.(status := Completed, completedAt := Some(now))
        && (forall k :: k in rotations && k != id ==>
              rotations[k] == if Supersedes(old(rotations)[k], r.userId)
                              then old(rotations)[k].(status := Cancelled, failure := Some(Superseded)) else old(rotations)[k])
    {
      var r := rotations[id];
      if r.newWallet in users.Values {
        return Some(ReplacementUnavailable), 0;
      }
      if r.userId !in users || users[r.userId] != r.currentWallet {
        return Some(IdentityChanged), 0;
      }
      var usersNow := users[r.userId := r.newWallet];
      revoked := |Sessions.Unrevoked(sessions, r.userId)|;
      var sessionsNow := Sessions.RevokeAllOf(sessions, r.userId, now);
      var rotationsNow := rotations[id := r.(status := Completed, completedAt := Some(now))];
      rotationsNow := CancelPending(rotationsNow, r.userId);
      if slotTaken {
        return Some(ReplacementUnavailable), 0;
      }
      users, sessions, rotations, slotTaken := usersNow, sessionsNow, rotationsNow, true;
      refusal := None;
    }

    method Complete(env: Env, id: Text, a: Attempt) returns (outcome: Outcome)
      modifies this
      ensures (State(), outcome) == CompleteAlone(env, old(State()), id, a)
    {
      if !Consumable(State(), id, a.userId, a.now) {
        return Unavailable;
      }
      rotations := rotations[id := rotations[id].(consumedAt := Some(a.now))];
      var r := rotations[id];
      var failure := Check(env, r, a);
      if failure.Some? {
        RecordFailure(id, failure.value);
        return Rejected(failure.value);
      }
      var refusal, revoked := CommitRotation(id, a.now);
      if refusal.Some? {
        RecordFailure(id, refusal.value);
        return Rejected(refusal.value);
      }
      outcome := Rotated(r.newWallet, revoked);
    }
  }
}
