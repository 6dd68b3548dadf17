/** Persisted sessions: rotation chains, revocation, and every interleaving of the operations. */
module Sessions {
  import opened Text

  datatype Session = Session(
    userId: Text, tokenHash: Text, expiresAt: int, revokedAt: Option<int>, rotatedTo: Option<Text>)

  type Table = map<Text, Session>

  // ---------- the statements ----------

  function Revoked(s: Session, now: int): Session { s.(revokedAt := Some(now)) }

  /** An update of every row of `ids`; the others stay. */
  function RevokeThese(rows: Table, ids: set<Text>, now: int): Table {
    map id | id in rows :: if id in ids then Revoked(rows[id], now) else rows[id]
  }

  function Unrevoked(rows: Table, userId: Text): set<Text> {
    set id | id in rows && rows[id].userId == userId && rows[id].revokedAt.None?
  }

  function RevokeAllOf(rows: Table, userId: Text, now: int): Table { RevokeThese(rows, Unrevoked(rows, userId), now) }

  /** Deleting a row clears the links to it. */
  function WithoutExpired(rows: Table, olderThan: int): Table {
    map id | id in rows && rows[id].expiresAt >= olderThan :: Unlink(rows, rows[id], olderThan)
  }

  function Unlink(rows: Table, s: Session, olderThan: int): Session {
    if s.rotatedTo.Some? && s.rotatedTo.value in rows && rows[s.rotatedTo.value].expiresAt < olderThan
    then s.(rotatedTo := None)
    else s
  }

  /** Both primary key and token hash are unique. */
  predicate Insertable(rows: Table, id: Text, tokenHash: Text) {
    id !in rows && forall k :: k in rows ==> rows[k].tokenHash != tokenHash
  }

  /** What the transaction's first read demands of the session to rotate. */
  predicate Rotatable(rows: Table, id: Text, userId: Text, now: int) {
    id in rows && rows[id].userId == userId && rows[id].revokedAt.None? && rows[id].expiresAt > now
  }

  /** What its conditional update demands when it commits. */
  predicate StillHeld(rows: Table, id: Text, userId: Text) {
    id in rows && rows[id].userId == userId && rows[id].revokedAt.None?
  }

  function Replace(rows: Table, id: Text, newId: Text, replacement: Session, now: int): Table
    requires id in rows
  {
    rows[newId := replacement][id := rows[id].(revokedAt := Some(now), rotatedTo := Some(newId))]
  }

  const DEFAULT_TTL_SECONDS := 43200

  function ExpiryAfter(ttlSeconds: Option<int>, now: int): int {
    now + (if ttlSeconds.Some? then ttlSeconds.value else DEFAULT_TTL_SECONDS) * 1000
  }

  datatype Rotation = Rotated(expiresAt: int) | UnknownSession | AlreadyRevoked | SessionExpired | Clash

  // ---------- validation ----------

  datatype Verdict = Malformed | NotFound | WasRevoked | Expired | Accepted(id: Text, userId: Text)

  function Judge(id: Text, s: Session, now: int): Verdict {
    if s.revokedAt.Some? then WasRevoked
    else if s.expiresAt <= now then Expired
    else Accepted(id, s.userId)
  }

  ghost predicate HashesUnique(rows: Table) {
    forall i, j :: i in rows && j in rows && i != j ==> rows[i].tokenHash != rows[j].tokenHash
  }

  class SessionTable {
    var rows: Table

    method Create(id: Text, userId: Text, tokenHash: Text, ttlSeconds: Option<int>, now: int) returns (ok: bool, expiresAt: int)
      modifies this
      ensures ok <==> id !in old(rows) && forall k :: k in old(rows) ==> old(rows)[k].tokenHash != tokenHash
      ensures expiresAt == now + 1000 * (match ttlSeconds case Some(seconds) => seconds case None => 12 * 60 * 60)
      ensures ok ==>
        && rows.Keys == old(rows).Keys + {id} && (forall k :: k in old(rows) ==> rows[k] == old(rows)[k])
        && rows[id].userId == userId && rows[id].tokenHash == tokenHash && rows[id].expiresAt == expiresAt
        && rows[id].revokedAt.None? && rows[id].rotatedTo.None?
      ensures !ok ==> rows == old(rows)
      ensures rows == Next(Alone(old(rows)), Step.Create(id, userId, tokenHash, expiresAt)).rows
    {
      expiresAt := ExpiryAfter(ttlSeconds, now);
      ok := Insertable(rows, id, tokenHash);
      if ok {
        rows := rows[id := Session(userId, tokenHash, expiresAt, None, None)];
      }
    }

    /** `tokenHash` is None when the token has the wrong shape. */
    method Validate(tokenHash: Option<Text>, now: int) returns (v: Verdict)
      requires HashesUnique(rows)
      ensures tokenHash.None? <==> v == Malformed
      ensures tokenHash.Some? ==>
        (v == NotFound <==> forall id :: id in rows ==> rows[id].tokenHash != tokenHash.value)
      ensures tokenHash.Some? ==>
        forall id :: id in rows && rows[id].tokenHash == tokenHash.value ==>
          && (v == WasRevoked <==> rows[id].revokedAt.Some?)
          && (v == Expired <==> rows[id].revokedAt.None? && rows[id].expiresAt <= now)
          && (v == Accepted(id, rows[id].userId) <==> rows[id].revokedAt.None? && now < rows[id].expiresAt)
      ensures v.Accepted? <==> tokenHash.Some? && Validates(rows, tokenHash.value, now)
    {
      if tokenHash.None? {
        return Malformed;
      }
      var left := rows.Keys;
      v := NotFound;
      while left != {}
        invariant left <= rows.Keys
        invariant v == NotFound
        invariant forall id :: id in rows && id !in left ==> rows[id].tokenHash != tokenHash.value
      {
        var id :| id in left;
        if rows[id].tokenHash == tokenHash.value {
          assert forall k :: k in rows && rows[k].tokenHash == tokenHash.value ==> k == id;
          return Judge(id, rows[id], now);
        }
        left := left - {id};
      }
    }

    method Revoke(id: Text, now: int)
      modifies this
      ensures rows == if id in old(rows) && old(rows)[id].revokedAt.None?
                      then old(rows)[id := old(rows)[id].(revokedAt := Some(now))] else old(rows)
      ensures rows == Next(Alone(old(rows)), Step.Revoke(id, now)).rows
    {
      if id in rows && rows[id].revokedAt.None? {
        rows := rows[id := Revoked(rows[id], now)];
      }
    }

    /** Nothing of the account is left unrevoked; only its unrevoked sessions change, and only there. */
    method RevokeAll(userId: Text, now: int)
      modifies this
      ensures rows.Keys == old(rows).Keys && Unrevoked(rows, userId) == {}
      ensures forall id :: id in rows && rows[id] != old(rows)[id] ==>
        id in Unrevoked(old(rows), userId) && rows[id] == old(rows)[id].(revokedAt := Some(now))
      ensures rows == Next(Alone(old(rows)), Step.RevokeAll(userId, now)).rows
    {
      rows := RevokeThese(rows, Unrevoked(rows, userId), now);
    }

    /** Only the current session is left unrevoked; the others that were are counted. */
    method RevokeOthers(userId: Text, current: Text, now: int) returns (ok: bool, count: nat)
      modifies this
      ensures ok <==> current in old(rows) && old(rows)[current].userId == userId && old(rows)[current].revokedAt.None?
      ensures ok ==> Unrevoked(rows, userId) == {current} && rows[current] == old(rows)[current]
      ensures forall id :: id in old(rows) ==> id in rows && (rows[id] != old(rows)[id] ==>
        id in Unrevoked(old(rows), userId) && rows[id] == old(rows)[id].(revokedAt := Some(now)))
      ensures count == |Unrevoked(old(rows), userId)| - |Unrevoked(rows, userId)|
      ensures rows == Run(Alone(old(rows)), [Read(0, RevokingOthers(userId, current), userId, now), Write(0, now)]).rows
    {
      RunPair(Alone(rows), Read(0, RevokingOthers(userId, current), userId, now), Write(0, now));
      ok, count := StillHeld(rows, current, userId), 0;
      if ok {
        var others := Unrevoked(rows, userId) - {current};
        count := |others|;
        assert Unrevoked(rows, userId) == others + {current};
        rows := RevokeThese(rows, others, now);
        assert Unrevoked(rows, userId) == {current};
      }
    }

    method RevokeOther(id: Text, userId: Text, now: int) returns (ok: bool)
      modifies this
      ensures ok <==> id in old(rows) && old(rows)[id].userId == userId && old(rows)[id].revokedAt.None?
      ensures rows == if ok then old(rows)[id := old(rows)[id].(revokedAt := Some(now))] else old(rows)
      ensures rows == Run(Alone(old(rows)), [Read(0, RevokingOne(id), userId, now), Write(0, now)]).rows
    {
      ok := StillHeld(rows, id, userId);
      if ok {
        rows := rows[id := Revoked(rows[id], now)];
      }
      RunPair(Alone(old(rows)), Read(0, RevokingOne(id), userId, now), Write(0, now));
    }

    /** The transaction: the insert is kept only when the conditional update matches. */
    method Rotate(id: Text, userId: Text, newId: Text, tokenHash: Text, ttlSeconds: Option<int>, now: int) returns (result: Rotation)
      modifies this
      ensures result.UnknownSession? <==> id !in old(rows) || old(rows)[id].userId != userId
      ensures result.AlreadyRevoked? <==> id in old(rows) && old(rows)[id].userId == userId && old(rows)[id].revokedAt.Some?
      ensures result.SessionExpired? <==>
        id in old(rows) && old(rows)[id].userId == userId && old(rows)[id].revokedAt.None? && old(rows)[id].expiresAt <= now
      ensures result.Clash? ==> newId in old(rows) || exists k :: k in old(rows) && old(rows)[k].tokenHash == tokenHash
      ensures result.Rotated? ==>
        && result.expiresAt == now + 1000 * (match ttlSeconds case Some(seconds) => seconds case None => 12 * 60 * 60)
        && rows.Keys == old(rows).Keys + {newId} && newId !in old(rows)
        && (forall k :: k in old(rows) ==> old(rows)[k].tokenHash != tokenHash)
        && rows[newId] == Session(userId, tokenHash, result.expiresAt, None, None)
        && rows[id] == old(rows)[id].(revokedAt := Some(now), rotatedTo := Some(newId))
        && forall k :: k in old(rows) && k != id ==> rows[k] == old(rows)[k]
      ensures !result.Rotated? ==> rows == old(rows)
      ensures var request := Rotating(id, userId, newId, tokenHash, ExpiryAfter(ttlSeconds, now));
              rows == Run(Alone(old(rows)), [Read(0, request, userId, now), Write(0, now)]).rows
    {
      var expiresAt := ExpiryAfter(ttlSeconds, now);
      RunPair(Alone(rows), Read(0, Rotating(id, userId, newId, tokenHash, expiresAt), userId, now), Write(0, now));
      if id !in rows || rows[id].userId != userId {
        return UnknownSession;
      }
      if rows[id].revokedAt.Some? {
        return AlreadyRevoked;
      }
      if rows[id].expiresAt <= now {
        return SessionExpired;
      }
      if !Insertable(rows, newId, tokenHash) {
        return Clash;
      }
      rows := rows[newId := Session(userId, tokenHash, expiresAt, None, None)];
      rows := rows[id := rows[id].(revokedAt := Some(now), rotatedTo := Some(newId))];
      result := Rotated(expiresAt);
    }

    method DeleteExpired(olderThan: int) returns (count: nat)
      modifies this
      ensures forall id :: id in rows <==> id in old(rows) && old(rows)[id].expiresAt >= olderThan
      ensures forall id :: id in rows ==>
        var was, link := old(rows)[id], old(rows)[id].rotatedTo;
        rows[id] == if link.Some? && link.value in old(rows) && link.value !in rows then was.(rotatedTo := None) else was
      ensures rows == Next(Alone(old(rows)), Step.DeleteExpired(olderThan)).rows
      ensures count == |old(rows)| - |rows|
    {
      var kept := WithoutExpired(rows, olderThan);
      assert kept.Keys <= rows.Keys;
      Fewer(kept.Keys, rows.Keys);
      count := |rows.Keys| - |kept.Keys|;
      rows := kept;
    }
  }

  lemma RunPair(w: World, a: Step, b: Step)
    ensures Run(w, [a, b]) == Next(Next(w, a), b)
  {
    assert [a, b][1..] == [b];
    assert Run(Next(w, a), [b]) == Run(Next(Next(w, a), b), [b][1..]);
  }

  lemma Fewer(a: set<Text>, b: set<Text>)
    requires a <= b
    ensures |a| <= |b|
  {
    assert b == a + (b - a);
    assert |b| == |a| + |b - a|;
  }

  // ---------- runs ----------

  /** A call between its read and its write. */
  datatype Call =
    | Rotating(id: Text, userId: Text, newId: Text, tokenHash: Text, expiresAt: int)
    | RevokingOne(id: Text)
    | RevokingOthers(userId: Text, current: Text)

  /** `births` numbers every session ever created, `tokens` says which session a token hash was
      issued to, and `rotations` lists the committed ones. */
  datatype World = World(
    rows: Table, births: map<Text, nat>, tokens: map<Text, Text>, issued: nat, calls: map<nat, Call>, rotations: seq<(Text, Text)>)

  const EMPTY := World(map[], map[], map[], 0, map[], [])

  /** A table without its history: where a call that nobody interrupts starts. */
  function Alone(rows: Table): World { World(rows, map[], map[], 0, map[], []) }

  datatype Step =
    | Create(id: Text, userId: Text, tokenHash: Text, expiresAt: int)
    | Revoke(id: Text, now: int)
    | RevokeAll(userId: Text, now: int)
    | DeleteExpired(olderThan: int)
    | Read(call: nat, request: Call, owner: Text, now: int)
    | Write(call: nat, now: int)

  /** Ids and tokens are random: one that was ever issued does not come up again. */
  predicate Fresh(w: World, id: Text, tokenHash: Text) {
    id !in w.births && tokenHash !in w.tokens && Insertable(w.rows, id, tokenHash)
  }

  predicate Permitted(rows: Table, request: Call, owner: Text, now: int) {
    match request
    case Rotating(id, userId, _, _, _) => owner == userId && Rotatable(rows, id, userId, now)
    case RevokingOne(id) => StillHeld(rows, id, owner)
    case RevokingOthers(userId, current) => owner == userId && StillHeld(rows, current, userId)
  }

  function Insert(w: World, id: Text, s: Session): World {
    w.(rows := w.rows[id := s], births := w.births[id := w.issued], tokens := w.tokens[s.tokenHash := id],
       issued := w.issued + 1)
  }

  function CreateStep(w: World, id: Text, s: Session): World {
    if Fresh(w, id, s.tokenHash) then Insert(w, id, s) else w
  }

  function Successor(c: Call): Session
    requires c.Rotating?
  {
    Session(c.userId, c.tokenHash, c.expiresAt, None, None)
  }

  predicate Lands(w: World, c: Call)
    requires c.Rotating?
  {
    StillHeld(w.rows, c.id, c.userId) && Fresh(w, c.newId, c.tokenHash)
  }

  function RotateStep(w: World, c: Call, now: int): World
    requires c.Rotating?
  {
    if !Lands(w, c) then w
    else World(Replace(w.rows, c.id, c.newId, Successor(c), now), w.births[c.newId := w.issued],
               w.tokens[c.tokenHash := c.newId], w.issued + 1, w.calls,
               w.rotations + [(c.id, c.newId)])
  }

  function WriteStep(w: World, c: Call, now: int): World {
    match c
    case Rotating(_, _, _, _, _) => RotateStep(w, c, now)
    case RevokingOne(id) => w.(rows := RevokeThese(w.rows, {id}, now))
    case RevokingOthers(userId, current) => w.(rows := RevokeThese(w.rows, Unrevoked(w.rows, userId) - {current}, now))
  }

  function Next(w: World, s: Step): World {
    match s
    case Create(id, userId, tokenHash, expiresAt) => CreateStep(w, id, Session(userId, tokenHash, expiresAt, None, None))
    case Revoke(id, now) =>
      if id in w.rows && w.rows[id].revokedAt.None? then w.(rows := RevokeThese(w.rows, {id}, now)) else w
    case RevokeAll(userId, now) => w.(rows := RevokeAllOf(w.rows, userId, now))
    case DeleteExpired(olderThan) => w.(rows := WithoutExpired(w.rows, olderThan))
    case Read(call, request, owner, now) =>
      if Permitted(w.rows, request, owner, now) then w.(calls := w.calls[call := request]) else w
    case Write(call, now) =>
      if call in w.calls then WriteStep(w.(calls := w.calls - {call}), w.calls[call], now) else w
  }

  function Run(w: World, steps: seq<Step>): World
    decreases |steps|
  {
    if steps == [] then w else Run(Next(w, steps[0]), steps[1..])
  }

  // ---------- the invariant ----------

  /** A link is a committed rotation to a later session of the same account, and only from a revoked one. */
  ghost predicate LinkOk(w: World, id: Text)
    requires id in w.rows
  {
    var s := w.rows[id];
    s.rotatedTo.Some? ==>
      && s.revokedAt.Some?
      && s.rotatedTo.value in w.rows
      && w.rows[s.rotatedTo.value].userId == s.userId
      && Earlier(w.births, id, s.rotatedTo.value)
      && (id, s.rotatedTo.value) in w.rotations
  }

  predicate Earlier(births: map<Text, nat>, a: Text, b: Text) { a in births && b in births && births[a] < births[b] }

  ghost predicate LinksOk(w: World) { forall id :: id in w.rows ==> LinkOk(w, id) }

  ghost predicate LinksDisjoint(rows: Table) {
    forall i, j :: i in rows && j in rows && i != j && rows[i].rotatedTo.Some? ==> rows[i].rotatedTo != rows[j].rotatedTo
  }

  ghost predicate Numbered(w: World) {
    && (forall id :: id in w.rows ==> id in w.births)
    && forall id :: id in w.births ==> w.births[id] < w.issued
  }

  /** No session is rotated twice, and a rotated session is revoked for good. */
  ghost predicate RotatedOnce(w: World) {
    && (forall i, j :: 0 <= i < j < |w.rotations| ==> w.rotations[i].0 != w.rotations[j].0)
    && forall r :: r in w.rotations ==> Gone(w, r.0)
  }

  ghost predicate TokensKnown(w: World) {
    forall id :: id in w.rows ==> w.rows[id].tokenHash in w.tokens && w.tokens[w.rows[id].tokenHash] == id
  }

  ghost predicate Gone(w: World, id: Text) { id in w.births && (id in w.rows ==> w.rows[id].revokedAt.Some?) }

  ghost predicate Ok(w: World) {
    LinksOk(w) && LinksDisjoint(w.rows) && Numbered(w) && RotatedOnce(w) && HashesUnique(w.rows) && TokensKnown(w)
  }

  // ---------- every step keeps it ----------

  lemma InsertLinks(w: World, id: Text, s: Session)
    requires LinksOk(w) && LinksDisjoint(w.rows) && id !in w.rows && id !in w.births && s.rotatedTo.None?
    ensures LinksOk(Insert(w, id, s)) && LinksDisjoint(Insert(w, id, s).rows)
  {
    var w' := Insert(w, id, s);
    forall k | k in w'.rows
      ensures LinkOk(w', k)
    {
      if k != id { assert LinkOk(w, k); }
    }
  }

  lemma InsertHistory(w: World, id: Text, s: Session)
    requires RotatedOnce(w) && id !in w.births
    ensures RotatedOnce(Insert(w, id, s))
  {
    var w' := Insert(w, id, s);
    forall r | r in w'.rotations
      ensures Gone(w', r.0)
    {
      assert Gone(w, r.0);
    }
  }

  lemma InsertTokens(w: World, id: Text, s: Session)
    requires TokensKnown(w) && HashesUnique(w.rows) && Fresh(w, id, s.tokenHash)
    ensures TokensKnown(Insert(w, id, s)) && HashesUnique(Insert(w, id, s).rows)
  {
  }

  lemma InsertKeeps(w: World, id: Text, s: Session)
    requires Ok(w) && Fresh(w, id, s.tokenHash) && s.rotatedTo.None?
    ensures Ok(Insert(w, id, s))
  {
    InsertLinks(w, id, s);
    InsertHistory(w, id, s);
    InsertTokens(w, id, s);
  }

  /** Revoking any rows and clearing any links to deleted ones. */
  ghost predicate Weakens(rows: Table, rows': Table) {
    && rows'.Keys <= rows.Keys
    && forall id :: id in rows' ==> WeakensRow(rows, rows', id)
  }

  ghost predicate WeakensRow(rows: Table, rows': Table, id: Text)
    requires id in rows' && id in rows
  {
    var s, s' := rows[id], rows'[id];
    && s'.userId == s.userId && s'.tokenHash == s.tokenHash
    && (s.revokedAt.Some? ==> s'.revokedAt.Some?)
    && (s'.rotatedTo.Some? ==> s'.rotatedTo == s.rotatedTo && s'.rotatedTo.value in rows')
  }

  lemma RevokeWeakens(w: World, ids: set<Text>, now: int)
    requires Ok(w)
    ensures Weakens(w.rows, RevokeThese(w.rows, ids, now))
  {
    var rows' := RevokeThese(w.rows, ids, now);
    forall id | id in rows'
      ensures WeakensRow(w.rows, rows', id)
    {
      assert LinkOk(w, id);
    }
  }

  lemma DeleteWeakens(w: World, olderThan: int)
    requires Ok(w)
    ensures Weakens(w.rows, WithoutExpired(w.rows, olderThan))
  {
    var rows' := WithoutExpired(w.rows, olderThan);
    forall id | id in rows'
      ensures WeakensRow(w.rows, rows', id)
    {
      assert LinkOk(w, id);
    }
  }

  lemma WeakenKeeps(w: World, rows': Table)
    requires Ok(w) && Weakens(w.rows, rows')
    ensures Ok(w.(rows := rows'))
  {
    var w' := w.(rows := rows');
    forall id | id in rows'
      ensures LinkOk(w', id)
    {
      assert LinkOk(w, id) && WeakensRow(w.rows, rows', id);
      if rows'[id].rotatedTo.Some? {
        assert WeakensRow(w.rows, rows', rows'[id].rotatedTo.value);
      }
    }
    forall i, j | i in rows' && j in rows' && i != j && rows'[i].rotatedTo.Some?
      ensures rows'[i].rotatedTo != rows'[j].rotatedTo
    {
      assert WeakensRow(w.rows, rows', i) && WeakensRow(w.rows, rows', j);
    }
    forall i, j | i in rows' && j in rows' && i != j
      ensures rows'[i].tokenHash != rows'[j].tokenHash
    {
      assert WeakensRow(w.rows, rows', i) && WeakensRow(w.rows, rows', j);
    }
    forall r | r in w'.rotations
      ensures Gone(w', r.0)
    {
      assert Gone(w, r.0);
      if r.0 in rows' { assert WeakensRow(w.rows, rows', r.0); }
    }
  }

  /** The second half of a rotation: revoke the old session and link it to the one just inserted. */
  function Link(w: World, id: Text, newId: Text, now: int): World
    requires id in w.rows
  {
    w.(rows := w.rows[id := w.rows[id].(revokedAt := Some(now), rotatedTo := Some(newId))],
       rotations := w.rotations + [(id, newId)])
  }

  ghost predicate Unlinked(rows: Table, newId: Text) {
    forall k :: k in rows ==> rows[k].rotatedTo != Some(newId)
  }

  lemma FreshIsUnlinked(w: World, id: Text)
    requires Ok(w) && id !in w.rows
    ensures Unlinked(w.rows, id)
  {
    forall k | k in w.rows
      ensures w.rows[k].rotatedTo != Some(id)
    {
      assert LinkOk(w, k);
    }
  }

  lemma LinkLinks(w: World, id: Text, newId: Text, now: int)
    requires LinksOk(w) && LinksDisjoint(w.rows) && id in w.rows && newId in w.rows && Unlinked(w.rows, newId)
    requires w.rows[newId].userId == w.rows[id].userId && Earlier(w.births, id, newId)
    ensures LinksOk(Link(w, id, newId, now)) && LinksDisjoint(Link(w, id, newId, now).rows)
  {
    var w' := Link(w, id, newId, now);
    assert w'.rotations[|w.rotations|] == (id, newId);
    forall k | k in w'.rows
      ensures LinkOk(w', k)
    {
      assert LinkOk(w, k);
    }
  }

  lemma LinkHistory(w: World, id: Text, newId: Text, now: int)
    requires RotatedOnce(w) && id in w.rows && id in w.births && w.rows[id].revokedAt.None?
    ensures RotatedOnce(Link(w, id, newId, now))
  {
    var w' := Link(w, id, newId, now);
    forall r | r in w'.rotations
      ensures Gone(w', r.0)
    {
      if r in w.rotations { assert Gone(w, r.0); }
    }
    forall i | 0 <= i < |w.rotations|
      ensures w.rotations[i].0 != id
    {
      assert w.rotations[i] in w.rotations;
      assert Gone(w, w.rotations[i].0);
    }
  }

  lemma LinkKeeps(w: World, id: Text, newId: Text, now: int)
    requires Ok(w) && id in w.rows && w.rows[id].revokedAt.None? && newId in w.rows && Unlinked(w.rows, newId)
    requires w.rows[newId].userId == w.rows[id].userId && Earlier(w.births, id, newId)
    ensures Ok(Link(w, id, newId, now))
  {
    LinkLinks(w, id, newId, now);
    LinkHistory(w, id, newId, now);
  }

  lemma RotateIsInsertThenLink(w: World, c: Call, now: int)
    requires c.Rotating? && Lands(w, c)
    ensures c.id in w.rows && c.id != c.newId
    ensures RotateStep(w, c, now) == Link(Insert(w, c.newId, Successor(c)), c.id, c.newId, now)
  {
  }

  lemma RotateKeeps(w: World, c: Call, now: int)
    requires Ok(w) && c.Rotating?
    ensures Ok(RotateStep(w, c, now))
  {
    if Lands(w, c) {
      var mid := Insert(w, c.newId, Successor(c));
      RotateIsInsertThenLink(w, c, now);
      FreshIsUnlinked(w, c.newId);
      InsertKeeps(w, c.newId, Successor(c));
      assert Unlinked(mid.rows, c.newId);
      assert Earlier(mid.births, c.id, c.newId);
      LinkKeeps(mid, c.id, c.newId, now);
    }
  }

  lemma OnlyCallsChange(w: World, calls: map<nat, Call>)
    requires Ok(w)
    ensures Ok(w.(calls := calls))
  {
    var w' := w.(calls := calls);
    forall id | id in w'.rows
      ensures LinkOk(w', id)
    {
      assert LinkOk(w, id);
    }
    forall r | r in w'.rotations
      ensures Gone(w', r.0)
    {
      assert Gone(w, r.0);
    }
  }

  lemma WriteKeeps(w: World, c: Call, now: int)
    requires Ok(w)
    ensures Ok(WriteStep(w, c, now))
  {
    match c
    case Rotating(_, _, _, _, _) => RotateKeeps(w, c, now);
    case RevokingOne(id) =>
      RevokeWeakens(w, {id}, now);
      WeakenKeeps(w, RevokeThese(w.rows, {id}, now));
    case RevokingOthers(userId, current) =>
      RevokeWeakens(w, Unrevoked(w.rows, userId) - {current}, now);
      WeakenKeeps(w, RevokeThese(w.rows, Unrevoked(w.rows, userId) - {current}, now));
  }

  lemma NextKeeps(w: World, s: Step)
    requires Ok(w)
    ensures Ok(Next(w, s))
  {
    match s
    case Create(id, userId, tokenHash, expiresAt) =>
      if Fresh(w, id, tokenHash) { InsertKeeps(w, id, Session(userId, tokenHash, expiresAt, None, None)); }
    case Revoke(id, now) =>
      RevokeWeakens(w, {id}, now);
      WeakenKeeps(w, RevokeThese(w.rows, {id}, now));
    case RevokeAll(userId, now) =>
      RevokeWeakens(w, Unrevoked(w.rows, userId), now);
      WeakenKeeps(w, RevokeThese(w.rows, Unrevoked(w.rows, userId), now));
    case DeleteExpired(olderThan) =>
      DeleteWeakens(w, olderThan);
      WeakenKeeps(w, WithoutExpired(w.rows, olderThan));
    case Read(call, request, owner, now) => OnlyCallsChange(w, w.calls[call := request]);
    case Write(call, now) =>
      if call in w.calls {
        OnlyCallsChange(w, w.calls - {call});
        WriteKeeps(w.(calls := w.calls - {call}), w.calls[call], now);
      }
  }

  lemma {:induction false} RunKeeps(w: World, steps: seq<Step>)
    requires Ok(w)
    ensures Ok(Run(w, steps))
    decreases |steps|
  {
    if steps != [] {
      NextKeeps(w, steps[0]);
      RunKeeps(Next(w, steps[0]), steps[1..]);
    }
  }

  // ---------- rotation chains ----------

  /** Sessions in rotation order, each linked to the next. */
  ghost predicate IsChain(rows: Table, chain: seq<Text>) {
    && |chain| > 0
    && (forall i :: 0 <= i < |chain| ==> chain[i] in rows)
    && forall i :: 0 <= i < |chain| - 1 ==> LinkedAt(rows, chain, i)
  }

  ghost predicate LinkedAt(rows: Table, chain: seq<Text>, i: int)
    requires 0 <= i < |chain| - 1
  {
    chain[i] in rows && rows[chain[i]].rotatedTo == Some(chain[i + 1])
  }

  lemma ChainInit(rows: Table, chain: seq<Text>)
    requires IsChain(rows, chain) && |chain| > 1
    ensures IsChain(rows, chain[..|chain| - 1])
  {
    var init := chain[..|chain| - 1];
    forall i | 0 <= i < |init| - 1
      ensures LinkedAt(rows, init, i)
    {
      assert LinkedAt(rows, chain, i);
    }
  }

  /** Along a chain sessions get younger, stay with one account, and all but the last are revoked. */
  lemma {:induction false} ChainDescends(w: World, chain: seq<Text>, i: nat, j: nat)
    requires Ok(w) && IsChain(w.rows, chain) && i < j < |chain|
    ensures Earlier(w.births, chain[i], chain[j])
    ensures w.rows[chain[i]].userId == w.rows[chain[j]].userId
    ensures w.rows[chain[i]].revokedAt.Some?
    decreases j - i
  {
    assert LinkedAt(w.rows, chain, i);
    assert LinkOk(w, chain[i]);
    if i + 1 < j {
      ChainDescends(w, chain, i + 1, j);
    }
  }

  /** In every reachable state a chain visits no session twice, belongs to one account, and
      only its last session can be used. */
  lemma ChainsAreSimple(steps: seq<Step>, chain: seq<Text>)
    requires IsChain(Run(EMPTY, steps).rows, chain)
    ensures forall i, j :: 0 <= i < j < |chain| ==> chain[i] != chain[j]
    ensures forall i :: 0 <= i < |chain| ==> Run(EMPTY, steps).rows[chain[i]].userId == Run(EMPTY, steps).rows[chain[0]].userId
    ensures forall i :: 0 <= i < |chain| - 1 ==> Run(EMPTY, steps).rows[chain[i]].revokedAt.Some?
  {
    var w := Run(EMPTY, steps);
    RunKeeps(EMPTY, steps);
    forall i, j | 0 <= i < j < |chain|
      ensures chain[i] != chain[j] && w.rows[chain[i]].revokedAt.Some? && w.rows[chain[i]].userId == w.rows[chain[j]].userId
    {
      ChainDescends(w, chain, i, j);
    }
    forall i | 0 <= i < |chain| - 1
      ensures w.rows[chain[i]].revokedAt.Some?
    {
      ChainDescends(w, chain, i, i + 1);
    }
  }

  predicate IsSuffix(a: seq<Text>, b: seq<Text>) { |a| <= |b| && a == b[|b| - |a|..] }

  lemma SuffixExtends(a: seq<Text>, b: seq<Text>, last: Text)
    requires IsSuffix(a, b)
    ensures IsSuffix(a + [last], b + [last])
  {
    assert (b + [last])[|b| - |a|..] == b[|b| - |a|..] + [last];
  }

  /** Before a common end the two chains have a common end again. */
  lemma SamePredecessor(rows: Table, a: seq<Text>, b: seq<Text>)
    requires LinksDisjoint(rows) && IsChain(rows, a) && IsChain(rows, b) && |a| > 1 && |b| > 1 && a[|a| - 1] == b[|b| - 1]
    ensures a[|a| - 2] == b[|b| - 2]
  {
    assert LinkedAt(rows, a, |a| - 2) && LinkedAt(rows, b, |b| - 2);
  }

  lemma {:induction false} ChainsShareEnds(rows: Table, a: seq<Text>, b: seq<Text>)
    requires LinksDisjoint(rows) && IsChain(rows, a) && IsChain(rows, b) && a[|a| - 1] == b[|b| - 1]
    ensures IsSuffix(a, b) || IsSuffix(b, a)
    decreases |a|
  {
    if |a| == 1 {
      assert a == b[|b| - 1..];
    } else if |b| == 1 {
      assert b == a[|a| - 1..];
    } else {
      var last, a', b' := a[|a| - 1], a[..|a| - 1], b[..|b| - 1];
      SamePredecessor(rows, a, b);
      ChainInit(rows, a);
      ChainInit(rows, b);
      ChainsShareEnds(rows, a', b');
      ExtendEither(a', b', last);
      assert a == a' + [last] && b == b' + [last];
    }
  }

  lemma ExtendEither(a: seq<Text>, b: seq<Text>, last: Text)
    requires IsSuffix(a, b) || IsSuffix(b, a)
    ensures IsSuffix(a + [last], b + [last]) || IsSuffix(b + [last], a + [last])
  {
    if IsSuffix(a, b) { SuffixExtends(a, b, last); } else { SuffixExtends(b, a, last); }
  }

  /** Chains never merge: in every reachable state, of two that end in the same session one is a suffix of the other. */
  lemma ChainsNeverMerge(steps: seq<Step>, a: seq<Text>, b: seq<Text>)
    requires IsChain(Run(EMPTY, steps).rows, a) && IsChain(Run(EMPTY, steps).rows, b) && a[|a| - 1] == b[|b| - 1]
    ensures IsSuffix(a, b) || IsSuffix(b, a)
  {
    RunKeeps(EMPTY, steps);
    ChainsShareEnds(Run(EMPTY, steps).rows, a, b);
  }

  // ---------- rotation, revocation, validation ----------

  /** A rotation that lands swaps one usable session for one other; one that does not changes nothing. */
  lemma RotationKeepsTheCount(w: World, c: Call, now: int)
    requires Ok(w) && c.Rotating?
    ensures var before, after := Unrevoked(w.rows, c.userId), Unrevoked(RotateStep(w, c, now).rows, c.userId);
            && |after| == |before|
            && after == (if Lands(w, c) then before - {c.id} + {c.newId} else before)
  {
    if Lands(w, c) {
      var before, after := Unrevoked(w.rows, c.userId), Unrevoked(RotateStep(w, c, now).rows, c.userId);
      assert after == before - {c.id} + {c.newId};
      assert c.id in before && c.newId !in before;
      assert |before - {c.id}| == |before| - 1;
      assert |(before - {c.id}) + {c.newId}| == |before - {c.id}| + 1;
    }
  }

  lemma StepKeepsGone(w: World, s: Step, id: Text)
    requires Gone(w, id)
    ensures Gone(Next(w, s), id)
  {
  }

  /** A revoked session stays revoked, or disappears, through every run. */
  lemma {:induction false} RevokedForever(w: World, steps: seq<Step>, id: Text)
    requires Gone(w, id)
    ensures Gone(Run(w, steps), id)
    decreases |steps|
  {
    if steps != [] {
      StepKeepsGone(w, steps[0], id);
      RevokedForever(Next(w, steps[0]), steps[1..], id);
    }
  }

  lemma StepKeepsTokens(w: World, s: Step, h: Text)
    requires h in w.tokens
    ensures h in Next(w, s).tokens && Next(w, s).tokens[h] == w.tokens[h]
  {
  }

  lemma {:induction false} TokensStay(w: World, steps: seq<Step>, h: Text)
    requires h in w.tokens
    ensures h in Run(w, steps).tokens && Run(w, steps).tokens[h] == w.tokens[h]
    decreases |steps|
  {
    if steps != [] {
      StepKeepsTokens(w, steps[0], h);
      TokensStay(Next(w, steps[0]), steps[1..], h);
    }
  }

  /** What validating a token whose hash is `h` can say: the verdict on the row that holds it. */
  ghost predicate Validates(rows: Table, h: Text, now: int) {
    exists id :: id in rows && rows[id].tokenHash == h && rows[id].revokedAt.None? && now < rows[id].expiresAt
  }

  /** The token of a revoked session never validates again, whatever is deleted or created since. */
  lemma RevokedTokenNeverValidates(w: World, steps: seq<Step>, id: Text, now: int)
    requires Ok(w) && id in w.rows && w.rows[id].revokedAt.Some?
    ensures !Validates(Run(w, steps).rows, w.rows[id].tokenHash, now)
  {
    var h, end := w.rows[id].tokenHash, Run(w, steps);
    RunKeeps(w, steps);
    RevokedForever(w, steps, id);
    TokensStay(w, steps, h);
    forall k | k in end.rows && end.rows[k].tokenHash == h
      ensures !Judge(k, end.rows[k], now).Accepted?
    {
      assert end.tokens[h] == k;
    }
  }

  /** However many rotations of one session are in flight, at most one commits in the whole run. */
  lemma OneSuccessorPerSession(steps: seq<Step>, i: nat, j: nat)
    requires i < j < |Run(EMPTY, steps).rotations|
    ensures Run(EMPTY, steps).rotations[i].0 != Run(EMPTY, steps).rotations[j].0
  {
    RunKeeps(EMPTY, steps);
  }

  /** The loser of a race: after one rotation of a session landed, another changes no row, ever. */
  lemma LosingRotationLeavesNoTrace(w: World, first: Call, second: Call, between: seq<Step>, now: int, later: int)
    requires Ok(w) && first.Rotating? && second.Rotating? && first.id == second.id && Lands(w, first)
    ensures var after := Run(RotateStep(w, first, now), between);
            RotateStep(after, second, later) == after
  {
    var landed := RotateStep(w, first, now);
    assert Gone(landed, first.id);
    RevokedForever(landed, between, first.id);
  }

  /** Cleanup that deletes only what has expired already logs nobody out, and lets nobody in. */
  lemma CleanupIsInvisible(rows: Table, olderThan: int, now: int, id: Text)
    requires olderThan <= now && id in rows
    ensures var left := WithoutExpired(rows, olderThan);
            && (id in left <==> rows[id].expiresAt >= olderThan)
            && (Judge(id, rows[id], now).Accepted? <==> rows[id].revokedAt.None? && now < rows[id].expiresAt)
            && (Judge(id, rows[id], now).Accepted? <==> id in left && Judge(id, left[id], now).Accepted?)
            && (id in left ==> Judge(id, left[id], now) == Judge(id, rows[id], now))
  {
  }

  /** "Log out everywhere" leaves no usable session; "log out elsewhere" at most the current one. */
  lemma RevocationIsComplete(rows: Table, userId: Text, current: Text, now: int)
    ensures Unrevoked(RevokeAllOf(rows, userId, now), userId) == {}
    ensures Unrevoked(RevokeThese(rows, Unrevoked(rows, userId) - {current}, now), userId) == Unrevoked(rows, userId) * {current}
  {
  }
}
