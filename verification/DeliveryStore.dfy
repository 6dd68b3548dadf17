/** The bounded, insertion-ordered store of processed delivery ids. */
module DeliveryStore {
  import opened Text

  /** One entry of the store's map. */
  datatype Seen = Seen(id: Text, at: int)

  datatype Limits = Limits(ttl: int, maxEntries: int)

  predicate Expired(e: Seen, now: int, ttl: int) { now - e.at > ttl }

  // ---------- the map, in insertion order ----------

  /** The early-exit sweep: entries are dropped up to the first live one. */
  function Sweep(seen: seq<Seen>, now: int, ttl: int): seq<Seen> {
    if seen != [] && Expired(seen[0], now, ttl) then Sweep(seen[1..], now, ttl) else seen
  }

  /** `Map.get` */
  function Lookup(seen: seq<Seen>, id: Text): Option<int> {
    if seen == [] then None else if seen[0].id == id then Some(seen[0].at) else Lookup(seen[1..], id)
  }

  /** `Map.set`: an existing key keeps its position. */
  function Put(seen: seq<Seen>, id: Text, now: int): seq<Seen> {
    if seen == [] then [Seen(id, now)]
    else if seen[0].id == id then [Seen(id, now)] + seen[1..]
    else [seen[0]] + Put(seen[1..], id, now)
  }

  function Newest<T>(s: seq<T>, n: int): seq<T> {
    if |s| <= n then s else if n <= 0 then [] else s[|s| - n..]
  }

  predicate IsDuplicate(seen: seq<Seen>, id: Text, now: int, limits: Limits) {
    var previous := Lookup(Sweep(seen, now, limits.ttl), id);
    previous.Some? && now - previous.value <= limits.ttl
  }

  /** The map after `register`. */
  function Registered(seen: seq<Seen>, id: Text, now: int, limits: Limits): seq<Seen> {
    var swept := Sweep(seen, now, limits.ttl);
    if IsDuplicate(seen, id, now, limits) then swept else Newest(Put(swept, id, now), limits.maxEntries)
  }

  class DeliveryIdStore {
    var seen: seq<Seen>
    const limits: Limits

    constructor (ttlSeconds: Option<int>, maxEntries: Option<int>)
      ensures seen == []
      ensures limits.ttl == (if ttlSeconds.Some? then ttlSeconds.value else 86400)
      ensures limits.maxEntries == (if maxEntries.Some? then maxEntries.value else 100000)
    {
      seen := [];
      limits := Limits(if ttlSeconds.Some? then ttlSeconds.value else 24 * 60 * 60,
                       if maxEntries.Some? then maxEntries.value else 100000);
    }

    method Register(deliveryId: Text, now: int) returns (isNew: bool)
      modifies this
      ensures isNew == !IsDuplicate(old(seen), deliveryId, now, limits)
      ensures seen == Registered(old(seen), deliveryId, now, limits)
    {
      EvictExpired(now);
      var previous := Lookup(seen, deliveryId);
      if previous.Some? && now - previous.value <= limits.ttl {
        return false;
      }
      seen := Put(seen, deliveryId, now);
      ghost var put := seen;
      while |seen| > limits.maxEntries
        invariant Newest(seen, limits.maxEntries) == Newest(put, limits.maxEntries)
        decreases |seen|
      {
        if |seen| == 0 { break; }
        seen := seen[1..];
      }
      return true;
    }

    method EvictExpired(now: int)
      modifies this
      ensures seen == Sweep(old(seen), now, limits.ttl)
    {
      while |seen| > 0
        invariant Sweep(seen, now, limits.ttl) == Sweep(old(seen), now, limits.ttl)
        decreases |seen|
      {
        if Expired(seen[0], now, limits.ttl) {
          seen := seen[1..];
          continue;
        }
        break;
      }
    }
  }

  // ---------- what the store remembers ----------

  ghost predicate InOrder(log: seq<Seen>) {
    forall i, j :: 0 <= i < j < |log| ==> log[i].at <= log[j].at
  }

  /** The entries still alive, by definition. */
  function Alive(log: seq<Seen>, now: int, ttl: int): seq<Seen> {
    if log == [] then []
    else if Expired(log[0], now, ttl) then Alive(log[1..], now, ttl)
    else [log[0]] + Alive(log[1..], now, ttl)
  }

  /** Of everything ever accepted, what should be remembered: the newest `maxEntries`, alive. */
  function Remembered(log: seq<Seen>, now: int, limits: Limits): seq<Seen> {
    Alive(Newest(log, limits.maxEntries), now, limits.ttl)
  }

  ghost predicate Contains(seen: seq<Seen>, id: Text) { exists e :: e in seen && e.id == id }

  lemma {:induction false} AliveElements(log: seq<Seen>, now: int, ttl: int)
    ensures forall e :: e in Alive(log, now, ttl) <==> e in log && !Expired(e, now, ttl)
  {
    if log != [] {
      AliveElements(log[1..], now, ttl);
      assert log == [log[0]] + log[1..];
    }
  }

  lemma {:induction false} AllAlive(log: seq<Seen>, now: int, ttl: int)
    requires forall i :: 0 <= i < |log| ==> !Expired(log[i], now, ttl)
    ensures Alive(log, now, ttl) == log
  {
    if log != [] { AllAlive(log[1..], now, ttl); }
  }

  /** On entries in time order the early-exit sweep removes exactly the expired ones. */
  lemma {:induction false} SweepIsExact(seen: seq<Seen>, now: int, ttl: int)
    requires InOrder(seen)
    ensures Sweep(seen, now, ttl) == Alive(seen, now, ttl)
  {
    if seen != [] {
      if Expired(seen[0], now, ttl) {
        SweepIsExact(seen[1..], now, ttl);
      } else {
        AllAlive(seen, now, ttl);
      }
    }
  }

  /** No expired entry stands behind a live one. */
  ghost predicate ExpiredFirst(seen: seq<Seen>, now: int, ttl: int) {
    forall i, j :: 0 <= i < j < |seen| && Expired(seen[j], now, ttl) ==> Expired(seen[i], now, ttl)
  }

  lemma {:induction false} AliveIsShorter(log: seq<Seen>, now: int, ttl: int, i: nat)
    requires i < |log| && Expired(log[i], now, ttl)
    ensures |Alive(log, now, ttl)| < |log|
  {
    AliveLength(log[1..], now, ttl);
    if i > 0 { AliveIsShorter(log[1..], now, ttl, i - 1); }
  }

  lemma {:induction false} AliveLength(log: seq<Seen>, now: int, ttl: int)
    ensures |Alive(log, now, ttl)| <= |log|
  {
    if log != [] { AliveLength(log[1..], now, ttl); }
  }

  /** The sweep removes exactly the expired entries if and only if none of them stands behind a live one. */
  lemma {:induction false} SweepIsExactIff(seen: seq<Seen>, now: int, ttl: int)
    ensures Sweep(seen, now, ttl) == Alive(seen, now, ttl) <==> ExpiredFirst(seen, now, ttl)
  {
    if seen != [] {
      if Expired(seen[0], now, ttl) {
        SweepIsExactIff(seen[1..], now, ttl);
        if ExpiredFirst(seen[1..], now, ttl) {
          forall i, j | 0 <= i < j < |seen| && Expired(seen[j], now, ttl)
            ensures Expired(seen[i], now, ttl)
          {
            if i > 0 { assert seen[1..][i - 1] == seen[i] && seen[1..][j - 1] == seen[j]; }
          }
        }
      } else if i :| 0 <= i < |seen| && Expired(seen[i], now, ttl) {
        AliveIsShorter(seen, now, ttl, i);
        assert !ExpiredFirst(seen, now, ttl);
      } else {
        AllAlive(seen, now, ttl);
      }
    }
  }

  lemma {:induction false} LookupFinds(seen: seq<Seen>, id: Text)
    ensures Lookup(seen, id).Some? <==> Contains(seen, id)
    ensures Lookup(seen, id).Some? ==> Seen(id, Lookup(seen, id).value) in seen
  {
    if seen != [] {
      LookupFinds(seen[1..], id);
      assert seen == [seen[0]] + seen[1..];
    }
  }

  lemma {:induction false} PutNew(seen: seq<Seen>, id: Text, now: int)
    requires !Contains(seen, id)
    ensures Put(seen, id, now) == seen + [Seen(id, now)]
  {
    if seen != [] {
      assert seen[0] in seen && forall e :: e in seen[1..] ==> e in seen;
      PutNew(seen[1..], id, now);
    }
  }

  lemma {:induction false} AliveSnoc(log: seq<Seen>, e: Seen, now: int, ttl: int)
    requires !Expired(e, now, ttl)
    ensures Alive(log + [e], now, ttl) == Alive(log, now, ttl) + [e]
  {
    var all := log + [e];
    if log == [] {
      assert all[1..] == [];
    } else {
      AliveSnoc(log[1..], e, now, ttl);
      assert all[0] == log[0] && all[1..] == log[1..] + [e];
    }
  }

  lemma {:induction false} AliveLater(log: seq<Seen>, before: int, now: int, ttl: int)
    requires before <= now
    ensures Alive(Alive(log, before, ttl), now, ttl) == Alive(log, now, ttl)
  {
    if log != [] {
      AliveLater(log[1..], before, now, ttl);
      var rest := Alive(log[1..], before, ttl);
      if !Expired(log[0], before, ttl) {
        assert Alive(log, before, ttl)[0] == log[0] && Alive(log, before, ttl)[1..] == rest;
      } else {
        assert Alive(log, before, ttl) == rest;
      }
    }
  }

  lemma NewestInOrder(log: seq<Seen>, n: int)
    requires InOrder(log)
    ensures InOrder(Newest(log, n))
  {
  }

  lemma {:induction false} AliveInOrder(log: seq<Seen>, now: int, ttl: int)
    requires InOrder(log)
    ensures InOrder(Alive(log, now, ttl))
  {
    if log != [] {
      AliveInOrder(log[1..], now, ttl);
      AliveElements(log[1..], now, ttl);
      var rest := Alive(log[1..], now, ttl);
      forall i | 0 <= i < |rest| ensures log[0].at <= rest[i].at {
        assert rest[i] in log[1..];
      }
    }
  }

  /** On entries in order, the alive ones are the newest ones: a suffix. */
  lemma {:induction false} AliveIsNewest(log: seq<Seen>, now: int, ttl: int)
    requires InOrder(log)
    ensures Alive(log, now, ttl) == Newest(log, |Alive(log, now, ttl)|)
    ensures |Alive(log, now, ttl)| <= |log|
  {
    if log != [] {
      if Expired(log[0], now, ttl) {
        AliveIsNewest(log[1..], now, ttl);
      } else {
        AllAlive(log, now, ttl);
      }
    }
  }

  lemma NewestSnoc<T>(s: seq<T>, x: T, n: int)
    requires n >= 1
    ensures Newest(s + [x], n) == Newest(s, n - 1) + [x]
  {
  }

  /** Remembering one more entry: cutting to the newest and to the alive commute with appending. */
  lemma RememberNext(log: seq<Seen>, e: Seen, limits: Limits)
    requires InOrder(log) && limits.maxEntries >= 1 && limits.ttl >= 0
    ensures Newest(Remembered(log, e.at, limits) + [e], limits.maxEntries) == Remembered(log + [e], e.at, limits)
  {
    var n, ttl := limits.maxEntries, limits.ttl;
    NewestSnoc(log, e, n);
    AliveSnoc(Newest(log, n - 1), e, e.at, ttl);
    NewestSnoc(Remembered(log, e.at, limits), e, n);
    NewestAlive(log, e.at, ttl, n);
  }

  lemma NewestAlive(log: seq<Seen>, now: int, ttl: int, n: int)
    requires InOrder(log) && n >= 1
    ensures Newest(Alive(Newest(log, n), now, ttl), n - 1) == Alive(Newest(log, n - 1), now, ttl)
  {
    var kept, fewer := Newest(log, n), Newest(log, n - 1);
    NewestInOrder(log, n);
    if |log| >= n {
      assert fewer == kept[1..];
      AliveIsNewest(fewer, now, ttl);
      if !Expired(kept[0], now, ttl) {
        AllAlive(kept, now, ttl);
        AllAlive(fewer, now, ttl);
      }
    } else {
      AliveIsNewest(kept, now, ttl);
    }
  }

  // ---------- whole runs ----------

  /** The map after registering every arrival of `run` in turn. */
  function SeenAfter(run: seq<Seen>, limits: Limits): seq<Seen> {
    if run == [] then []
    else
      var last := run[|run| - 1];
      Registered(SeenAfter(run[..|run| - 1], limits), last.id, last.at, limits)
  }

  /** The arrivals accepted in `run`, in order. */
  function Accepted(run: seq<Seen>, limits: Limits): seq<Seen> {
    if run == [] then []
    else
      var front, last := run[..|run| - 1], run[|run| - 1];
      if IsDuplicate(SeenAfter(front, limits), last.id, last.at, limits) then Accepted(front, limits)
      else Accepted(front, limits) + [last]
  }

  ghost predicate ValidLimits(limits: Limits) { limits.ttl >= 0 && limits.maxEntries >= 1 }

  lemma {:induction false} AcceptedInOrder(run: seq<Seen>, limits: Limits)
    requires InOrder(run)
    ensures InOrder(Accepted(run, limits))
    ensures forall e :: e in Accepted(run, limits) ==> e in run
  {
    if run != [] {
      var front, last := run[..|run| - 1], run[|run| - 1];
      AcceptedInOrder(front, limits);
      var log := Accepted(front, limits);
      assert forall e :: e in front ==> e in run && e.at <= last.at;
      assert forall i :: 0 <= i < |log| ==> log[i] in log;
    }
  }

  /** The sweep at `now` turns what is remembered at an earlier time into what is remembered now. */
  lemma SweptIsRemembered(log: seq<Seen>, before: int, now: int, limits: Limits)
    requires InOrder(log) && before <= now
    ensures Sweep(Remembered(log, before, limits), now, limits.ttl) == Remembered(log, now, limits)
  {
    NewestInOrder(log, limits.maxEntries);
    AliveInOrder(Newest(log, limits.maxEntries), before, limits.ttl);
    SweepIsExact(Remembered(log, before, limits), now, limits.ttl);
    AliveLater(Newest(log, limits.maxEntries), before, now, limits.ttl);
  }

  lemma DuplicateIff(log: seq<Seen>, before: int, id: Text, now: int, limits: Limits)
    requires InOrder(log) && before <= now
    ensures IsDuplicate(Remembered(log, before, limits), id, now, limits) <==> Contains(Remembered(log, now, limits), id)
  {
    SweptIsRemembered(log, before, now, limits);
    LookupFinds(Remembered(log, now, limits), id);
    AliveElements(Newest(log, limits.maxEntries), now, limits.ttl);
  }

  /** After any run on a nondecreasing clock the map holds exactly what should be remembered. */
  lemma {:induction false} StoreRemembers(run: seq<Seen>, limits: Limits)
    requires InOrder(run) && ValidLimits(limits) && run != []
    ensures SeenAfter(run, limits) == Remembered(Accepted(run, limits), run[|run| - 1].at, limits)
  {
    var front, last := run[..|run| - 1], run[|run| - 1];
    var log := Accepted(front, limits);
    AcceptedInOrder(front, limits);
    var before := if front == [] then last.at else front[|front| - 1].at;
    if front != [] { StoreRemembers(front, limits); }
    SweptIsRemembered(log, before, last.at, limits);
    DuplicateIff(log, before, last.id, last.at, limits);
    var seen := Remembered(log, last.at, limits);
    if !IsDuplicate(SeenAfter(front, limits), last.id, last.at, limits) {
      PutNew(seen, last.id, last.at);
      RememberNext(log, last, limits);
    }
  }

  /** MAIN: `register` refuses an id exactly when it is among the last `maxEntries` accepted
      entries with age at most the TTL. */
  lemma RefusedIff(run: seq<Seen>, id: Text, now: int, limits: Limits)
    requires InOrder(run) && ValidLimits(limits) && (run != [] ==> run[|run| - 1].at <= now)
    ensures IsDuplicate(SeenAfter(run, limits), id, now, limits) <==>
              exists e :: e in Newest(Accepted(run, limits), limits.maxEntries) && e.id == id && now - e.at <= limits.ttl
  {
    var log := Accepted(run, limits);
    AcceptedInOrder(run, limits);
    var before := if run == [] then now else run[|run| - 1].at;
    if run != [] { StoreRemembers(run, limits); }
    DuplicateIff(log, before, id, now, limits);
    AliveElements(Newest(log, limits.maxEntries), now, limits.ttl);
    if Contains(Remembered(log, now, limits), id) {
      var e :| e in Remembered(log, now, limits) && e.id == id;
      assert e in Newest(log, limits.maxEntries);
    }
    if e :| e in Newest(log, limits.maxEntries) && e.id == id && now - e.at <= limits.ttl {
      assert e in Remembered(log, now, limits);
    }
  }

  /** The map stays in time order and within its bound. */
  lemma StoreIsBounded(run: seq<Seen>, limits: Limits)
    requires InOrder(run) && ValidLimits(limits)
    ensures |SeenAfter(run, limits)| <= limits.maxEntries && InOrder(SeenAfter(run, limits))
  {
    if run != [] {
      StoreRemembers(run, limits);
      var log, now := Accepted(run, limits), run[|run| - 1].at;
      AcceptedInOrder(run, limits);
      NewestInOrder(log, limits.maxEntries);
      AliveInOrder(Newest(log, limits.maxEntries), now, limits.ttl);
      AliveIsNewest(Newest(log, limits.maxEntries), now, limits.ttl);
    }
  }
}
