/** The webhook receiver: verify, then register, then deliver. */
module Receiver {
  import opened Text
  import opened WebhookSignature
  import opened DeliveryStore

  /** A request as the handler meets it, with its two readings of the clock: one to verify
      it and one to register it. */
  datatype Request = Request(delivery: Delivery, verifyAt: int, registerAt: int)

  datatype Config = Config(hmac: Hmac, secrets: seq<Text>, tolerance: int, limits: Limits)

  datatype Outcome = Delivered | Duplicate | Refused(reason: Reason)

  function Verification(cfg: Config, q: Request): Result {
    Verify(cfg.hmac, cfg.secrets, q.delivery, q.verifyAt, cfg.tolerance)
  }

  /** The outcome of one request, given the ids already seen. */
  function Decide(cfg: Config, seen: seq<Seen>, q: Request): Outcome {
    match Verification(cfg, q)
    case Rejected(reason) => Refused(reason)
    case Verified(id, _) => if IsDuplicate(seen, id, q.registerAt, cfg.limits) then Duplicate else Delivered
  }

  function SeenNext(cfg: Config, seen: seq<Seen>, q: Request): seq<Seen> {
    match Verification(cfg, q)
    case Rejected(_) => seen
    case Verified(id, _) => Registered(seen, id, q.registerAt, cfg.limits)
  }

  /** The running receiver: its store, and the deliveries handed to `onDelivery`. */
  class WebhookReceiver {
    const cfg: Config
    const store: DeliveryIdStore
    var delivered: seq<(Text, seq<Byte>)>

    constructor (cfg: Config, store: DeliveryIdStore)
      requires store.limits == cfg.limits
      ensures this.cfg == cfg && this.store == store && delivered == []
    {
      this.cfg, this.store, delivered := cfg, store, [];
    }

    method Handle(q: Request) returns (outcome: Outcome)
      requires store.limits == cfg.limits
      modifies this, store
      ensures outcome == Decide(cfg, old(store.seen), q)
      ensures store.seen == SeenNext(cfg, old(store.seen), q)
      ensures delivered == old(delivered)
                + if outcome.Delivered? then [(Verification(cfg, q).deliveryId, q.delivery.rawBody)] else []
    {
      var verification := VerifyWebhookSignature(cfg.hmac, cfg.secrets, q.delivery, q.verifyAt, Some(cfg.tolerance));
      if verification.Rejected? {
        return Refused(verification.reason);
      }
      var isNew := store.Register(verification.deliveryId, q.registerAt);
      if !isNew {
        return Duplicate;
      }
      delivered := delivered + [(verification.deliveryId, q.delivery.rawBody)];
      return Delivered;
    }
  }

  // ---------- runs ----------

  /** The registrations a run makes: its verified requests. */
  function Arrivals(cfg: Config, run: seq<Request>): seq<Seen> {
    if run == [] then []
    else
      var front, last := Arrivals(cfg, run[..|run| - 1]), run[|run| - 1];
      match Verification(cfg, last)
      case Rejected(_) => front
      case Verified(id, _) => front + [Seen(id, last.registerAt)]
  }

  /** What the store holds after a run. */
  function StoreAfter(cfg: Config, run: seq<Request>): seq<Seen> {
    if run == [] then [] else SeenNext(cfg, StoreAfter(cfg, run[..|run| - 1]), run[|run| - 1])
  }

  /** The outcome of request `i` of a run. */
  function OutcomeAt(cfg: Config, run: seq<Request>, i: nat): Outcome
    requires i < |run|
  {
    Decide(cfg, StoreAfter(cfg, run[..i]), run[i])
  }

  function DeliveredCount(cfg: Config, run: seq<Request>): nat {
    if run == [] then 0
    else DeliveredCount(cfg, run[..|run| - 1]) + if OutcomeAt(cfg, run, |run| - 1).Delivered? then 1 else 0
  }

  /** The clock never goes back, and at most `lag` passes between a request's two readings. */
  ghost predicate ClockOk(run: seq<Request>, lag: int) {
    && (forall i :: 0 <= i < |run| ==> run[i].verifyAt <= run[i].registerAt <= run[i].verifyAt + lag)
    && (forall i, j :: 0 <= i < j < |run| ==> run[i].registerAt <= run[j].verifyAt)
  }

  lemma {:induction false} StoreAfterRun(cfg: Config, run: seq<Request>)
    ensures StoreAfter(cfg, run) == SeenAfter(Arrivals(cfg, run), cfg.limits)
  {
    if run != [] {
      var front, last := run[..|run| - 1], run[|run| - 1];
      StoreAfterRun(cfg, front);
      var arrivals := Arrivals(cfg, run);
      if Verification(cfg, last).Verified? {
        assert arrivals[..|arrivals| - 1] == Arrivals(cfg, front);
      }
    }
  }

  lemma {:induction false} ArrivalsInOrder(cfg: Config, run: seq<Request>, lag: int)
    requires ClockOk(run, lag)
    ensures InOrder(Arrivals(cfg, run))
    ensures forall e :: e in Arrivals(cfg, run) ==> exists k :: 0 <= k < |run| && run[k].registerAt == e.at
  {
    if run != [] {
      var front, last := run[..|run| - 1], run[|run| - 1];
      ArrivalsInOrder(cfg, front, lag);
      var before := Arrivals(cfg, front);
      forall e | e in before ensures e.at <= last.registerAt && exists k :: 0 <= k < |run| && run[k].registerAt == e.at {
        var k :| 0 <= k < |front| && front[k].registerAt == e.at;
        assert run[k].registerAt == e.at;
      }
      assert forall i :: 0 <= i < |before| ==> before[i] in before;
    }
  }

  /** The log of accepted registrations after a run. */
  function Log(cfg: Config, run: seq<Request>): seq<Seen> { Accepted(Arrivals(cfg, run), cfg.limits) }

  /** One more request extends the log exactly when it is delivered. */
  lemma LogStep(cfg: Config, run: seq<Request>)
    requires run != []
    ensures var front, last := run[..|run| - 1], run[|run| - 1];
            Log(cfg, run) == Log(cfg, front)
              + if OutcomeAt(cfg, run, |run| - 1).Delivered?
                then [Seen(Verification(cfg, last).deliveryId, last.registerAt)] else []
  {
    var front, last := run[..|run| - 1], run[|run| - 1];
    StoreAfterRun(cfg, front);
    var arrivals := Arrivals(cfg, run);
    if Verification(cfg, last).Verified? {
      assert arrivals[..|arrivals| - 1] == Arrivals(cfg, front);
    }
  }

  lemma {:induction false} LogLength(cfg: Config, run: seq<Request>)
    ensures |Log(cfg, run)| == DeliveredCount(cfg, run)
  {
    if run != [] {
      LogLength(cfg, run[..|run| - 1]);
      LogStep(cfg, run);
    }
  }

  lemma {:induction false} LogGrows(cfg: Config, run: seq<Request>, i: nat, j: nat)
    requires i <= j <= |run|
    ensures Log(cfg, run[..i]) <= Log(cfg, run[..j])
  {
    if i < j {
      LogGrows(cfg, run, i, j - 1);
      LogStep(cfg, run[..j]);
      assert run[..j][..j - 1] == run[..j - 1];
    }
  }

  lemma OutcomePrefix(cfg: Config, run: seq<Request>, i: nat)
    requires i < |run|
    ensures OutcomeAt(cfg, run[..i + 1], i) == OutcomeAt(cfg, run, i)
  {
    assert run[..i + 1][..i] == run[..i];
  }

  /** The delivered request `i` is in the log, at the position counting the deliveries before it. */
  lemma DeliveredIsLogged(cfg: Config, run: seq<Request>, i: nat, j: nat)
    requires i < j <= |run| && OutcomeAt(cfg, run, i).Delivered?
    ensures var p := DeliveredCount(cfg, run[..i + 1]) - 1;
            && 0 <= p < |Log(cfg, run[..j])|
            && Log(cfg, run[..j])[p] == Seen(Verification(cfg, run[i]).deliveryId, run[i].registerAt)
  {
    OutcomePrefix(cfg, run, i);
    assert run[..i + 1][..i] == run[..i];
    LogStep(cfg, run[..i + 1]);
    LogLength(cfg, run[..i + 1]);
    LogGrows(cfg, run, i + 1, j);
  }

  lemma ClockPrefix(run: seq<Request>, lag: int, j: nat)
    requires ClockOk(run, lag) && j <= |run|
    ensures ClockOk(run[..j], lag)
  {
  }

  /** MAIN: at most once. If the TTL is at least twice the tolerance plus the lag between the two
      clock readings, a (timestamp, delivery id) pair that reaches `onDelivery` again does so
      only after at least `maxEntries` other deliveries. */
  lemma AtMostOnce(cfg: Config, run: seq<Request>, lag: int, i: nat, j: nat)
    requires ClockOk(run, lag) && ValidLimits(cfg.limits) && cfg.limits.ttl >= 2 * cfg.tolerance + lag
    requires i < j < |run| && OutcomeAt(cfg, run, i).Delivered? && OutcomeAt(cfg, run, j).Delivered?
    requires Verification(cfg, run[i]) == Verification(cfg, run[j])
    ensures DeliveredCount(cfg, run[..j]) - DeliveredCount(cfg, run[..i + 1]) >= cfg.limits.maxEntries
  {
    var front := run[..j];
    var v := Verification(cfg, run[i]);
    var log, n := Log(cfg, front), cfg.limits.maxEntries;
    WithinTolerance(cfg, run[i]);
    WithinTolerance(cfg, run[j]);
    DeliveredIsLogged(cfg, run, i, j);
    LogLength(cfg, front);
    ClockPrefix(run, lag, j);
    ArrivalsInOrder(cfg, front, lag);
    ArrivalsBefore(cfg, run, lag, j);
    StoreAfterRun(cfg, front);
    var p := DeliveredCount(cfg, run[..i + 1]) - 1;
    if |log| - p <= n { InNewest(log, p, n); }
    RefusedIff(Arrivals(cfg, front), v.deliveryId, run[j].registerAt, cfg.limits);
  }

  lemma InNewest<T>(s: seq<T>, p: nat, n: int)
    requires p < |s| && |s| - p <= n
    ensures s[p] in Newest(s, n)
  {
    assert s[p] == Newest(s, n)[if |s| <= n then p else p - (|s| - n)];
  }

  lemma WithinTolerance(cfg: Config, q: Request)
    requires Verification(cfg, q).Verified?
    ensures Abs(q.verifyAt - Verification(cfg, q).timestamp) <= cfg.tolerance
  {
    var v := Verification(cfg, q);
    VerifiedIff(cfg.hmac, cfg.secrets, q.delivery, q.verifyAt, cfg.tolerance, v.deliveryId, v.timestamp);
  }

  lemma ArrivalsBefore(cfg: Config, run: seq<Request>, lag: int, j: nat)
    requires ClockOk(run, lag) && j < |run|
    ensures var a := Arrivals(cfg, run[..j]); a != [] ==> a[|a| - 1].at <= run[j].registerAt
  {
    ClockPrefix(run, lag, j);
    ArrivalsInOrder(cfg, run[..j], lag);
    var a := Arrivals(cfg, run[..j]);
    if a != [] {
      assert a[|a| - 1] in a;
      var k :| 0 <= k < j && run[..j][k].registerAt == a[|a| - 1].at;
      assert run[k].registerAt <= run[j].verifyAt;
    }
  }

  /** The bound on the TTL is exact: the same signed request sent at both ends of its tolerance
      is delivered twice exactly when the TTL is smaller. */
  lemma BoundIsTight(cfg: Config, secret: Text, timestamp: nat, deliveryId: Text, rawBody: seq<Byte>, lag: nat)
    requires secret in cfg.secrets && deliveryId != [] && IsTrimmed(deliveryId) && timestamp <= MAX_SAFE_INTEGER
    requires cfg.tolerance >= 0 && ValidLimits(cfg.limits)
    ensures var d := Delivery(rawBody, Some(ComputeSignatureHeader(cfg.hmac, secret, timestamp, deliveryId, rawBody)),
                              Some(Decimal(timestamp)), Some(deliveryId));
            var run := [Request(d, timestamp - cfg.tolerance, timestamp - cfg.tolerance),
                        Request(d, timestamp + cfg.tolerance, timestamp + cfg.tolerance + lag)];
            && ClockOk(run, lag) && OutcomeAt(cfg, run, 0) == Delivered
            && (OutcomeAt(cfg, run, 1) == Delivered <==> cfg.limits.ttl < 2 * cfg.tolerance + lag)
  {
    var header := ComputeSignatureHeader(cfg.hmac, secret, timestamp, deliveryId, rawBody);
    var d := Delivery(rawBody, Some(header), Some(Decimal(timestamp)), Some(deliveryId));
    var first := Request(d, timestamp - cfg.tolerance, timestamp - cfg.tolerance);
    var second := Request(d, timestamp + cfg.tolerance, timestamp + cfg.tolerance + lag);
    SignThenVerify(cfg.hmac, cfg.secrets, secret, timestamp, deliveryId, rawBody, first.verifyAt, cfg.tolerance);
    SignThenVerify(cfg.hmac, cfg.secrets, secret, timestamp, deliveryId, rawBody, second.verifyAt, cfg.tolerance);
    TwoRequests(cfg, first, second, deliveryId, timestamp);
  }

  /** The first verified request of a run is delivered and remembered. */
  lemma FirstIsStored(cfg: Config, first: Request, second: Request)
    requires ValidLimits(cfg.limits) && Verification(cfg, first).Verified?
    ensures OutcomeAt(cfg, [first, second], 0) == Delivered
    ensures [first, second][..1] == [first]
    ensures StoreAfter(cfg, [first]) == [Seen(Verification(cfg, first).deliveryId, first.registerAt)]
  {
    var run, id := [first, second], Verification(cfg, first).deliveryId;
    var e := Seen(id, first.registerAt);
    assert run[..0] == [] && [first][..0] == [];
    assert Sweep([], first.registerAt, cfg.limits.ttl) == [] && Lookup([], id) == None;
    assert Put([], id, first.registerAt) == [e] && Newest([e], cfg.limits.maxEntries) == [e];
    assert StoreAfter(cfg, []) == [];
  }

  lemma SweepOne(e: Seen, now: int, ttl: int)
    ensures Sweep([e], now, ttl) == if Expired(e, now, ttl) then [] else [e]
  {
    assert [e][1..] == [];
    assert Sweep([], now, ttl) == [];
  }

  lemma LookupOne(e: Seen, id: Text)
    ensures Lookup([], id) == None && Lookup([e], id) == if e.id == id then Some(e.at) else None
  {
    assert [e][1..] == [];
  }

  lemma TwoRequests(cfg: Config, first: Request, second: Request, id: Text, timestamp: nat)
    requires ValidLimits(cfg.limits) && first.registerAt <= second.registerAt
    requires Verification(cfg, first) == Verified(id, timestamp) && Verification(cfg, second) == Verified(id, timestamp)
    ensures OutcomeAt(cfg, [first, second], 0) == Delivered
    ensures OutcomeAt(cfg, [first, second], 1) == Delivered <==> second.registerAt - first.registerAt > cfg.limits.ttl
  {
    FirstIsStored(cfg, first, second);
    SweepOne(Seen(id, first.registerAt), second.registerAt, cfg.limits.ttl);
    LookupOne(Seen(id, first.registerAt), id);
  }

  // ---------- one signed message ----------

  /** The bytes whose signature a verified request presented. */
  function SignedBytes(cfg: Config, q: Request): seq<Byte>
    requires Verification(cfg, q).Verified?
  {
    var v := Verification(cfg, q);
    SigningBase(v.timestamp, v.deliveryId, q.delivery.rawBody)
  }

  /** Verified over these bytes, with an id that an HTTP header can carry. */
  ghost predicate Reads(cfg: Config, q: Request, base: seq<Byte>) {
    Verification(cfg, q).Verified? && IsHeaderText(Verification(cfg, q).deliveryId) && SignedBytes(cfg, q) == base
  }

  lemma VerifiedIsDeliveryId(cfg: Config, q: Request)
    requires Verification(cfg, q).Verified? && IsHeaderText(Verification(cfg, q).deliveryId)
    ensures IsDeliveryId(Verification(cfg, q).deliveryId)
  {
    var v := Verification(cfg, q);
    VerifiedIff(cfg.hmac, cfg.secrets, q.delivery, q.verifyAt, cfg.tolerance, v.deliveryId, v.timestamp);
  }

  /** Two readings of the same bytes under the same id are the same verification. */
  lemma SameIdSameVerification(cfg: Config, p: Request, q: Request, base: seq<Byte>)
    requires Reads(cfg, p, base) && Reads(cfg, q, base)
    requires Verification(cfg, p).deliveryId == Verification(cfg, q).deliveryId
    ensures Verification(cfg, p) == Verification(cfg, q)
  {
    var u, v := Verification(cfg, p), Verification(cfg, q);
    HeaderIsPaired(u.deliveryId);
    SigningBaseInjective(u.timestamp, u.deliveryId, p.delivery.rawBody, v.timestamp, v.deliveryId, q.delivery.rawBody);
  }

  /** A request that reads a message under another id shows the message to be ambiguous. */
  lemma OtherIdIsAmbiguous(cfg: Config, q: Request, t: nat, id: Text, body: seq<Byte>)
    requires Reads(cfg, q, SigningBase(t, id, body)) && IsHeaderText(id) && Verification(cfg, q).deliveryId != id
    ensures Ambiguous(id, body)
  {
    var v := Verification(cfg, q);
    HeaderIsPaired(id);
    HeaderIsPaired(v.deliveryId);
    SigningBaseInjective(v.timestamp, v.deliveryId, q.delivery.rawBody, t, id, body);
    VerifiedIsDeliveryId(cfg, q);
    assert OtherReading(t, id, body, v.deliveryId, q.delivery.rawBody);
    AmbiguousDeliveryIff(t, id, body);
  }

  /** MAIN: a signed message that can be read in one way only is delivered again only after at
      least `maxEntries` other deliveries. */
  lemma AtMostOncePerMessage(cfg: Config, run: seq<Request>, lag: int, i: nat, j: nat)
    requires ClockOk(run, lag) && ValidLimits(cfg.limits) && cfg.limits.ttl >= 2 * cfg.tolerance + lag
    requires i < j < |run| && OutcomeAt(cfg, run, i).Delivered? && OutcomeAt(cfg, run, j).Delivered?
    requires IsHeaderText(Verification(cfg, run[i]).deliveryId) && Reads(cfg, run[j], SignedBytes(cfg, run[i]))
    requires !Ambiguous(Verification(cfg, run[i]).deliveryId, run[i].delivery.rawBody)
    ensures DeliveredCount(cfg, run[..j]) - DeliveredCount(cfg, run[..i + 1]) >= cfg.limits.maxEntries
  {
    var v := Verification(cfg, run[i]);
    if Verification(cfg, run[j]).deliveryId == v.deliveryId {
      SameIdSameVerification(cfg, run[i], run[j], SignedBytes(cfg, run[i]));
      AtMostOnce(cfg, run, lag, i, j);
    } else {
      OtherIdIsAmbiguous(cfg, run[j], v.timestamp, v.deliveryId, run[i].delivery.rawBody);
    }
  }

  /** Two requests with one signature over one message, delivered one right after the other. */
  ghost predicate DeliveredTwice(cfg: Config, base: seq<Byte>, header: Text, lag: int, first: Request, second: Request) {
    && ClockOk([first, second], lag)
    && first.delivery.signatureHeader == Some(header) && second.delivery.signatureHeader == Some(header)
    && Reads(cfg, first, base) && Reads(cfg, second, base)
    && OutcomeAt(cfg, [first, second], 0).Delivered? && OutcomeAt(cfg, [first, second], 1).Delivered?
  }

  lemma TwiceIsTwoIds(cfg: Config, base: seq<Byte>, header: Text, lag: nat, first: Request, second: Request)
    requires ValidLimits(cfg.limits) && cfg.limits.ttl >= 2 * cfg.tolerance + lag
    requires DeliveredTwice(cfg, base, header, lag, first, second)
    ensures Verification(cfg, first).deliveryId != Verification(cfg, second).deliveryId
  {
    var run, i: nat, j: nat := [first, second], 0, 1;
    if Verification(cfg, first).deliveryId == Verification(cfg, second).deliveryId {
      SameIdSameVerification(cfg, first, second, base);
      AtMostOnce(cfg, run, lag, i, j);
    }
  }

  lemma TwiceMeansAmbiguous(cfg: Config, t: nat, id: Text, body: seq<Byte>, header: Text, lag: nat, first: Request, second: Request)
    requires ValidLimits(cfg.limits) && cfg.limits.ttl >= 2 * cfg.tolerance + lag && IsHeaderText(id)
    requires DeliveredTwice(cfg, SigningBase(t, id, body), header, lag, first, second)
    ensures Ambiguous(id, body)
  {
    TwiceIsTwoIds(cfg, SigningBase(t, id, body), header, lag, first, second);
    if Verification(cfg, first).deliveryId != id {
      OtherIdIsAmbiguous(cfg, first, t, id, body);
    } else {
      OtherIdIsAmbiguous(cfg, second, t, id, body);
    }
  }

  lemma TwoIds(cfg: Config, first: Request, second: Request)
    requires ValidLimits(cfg.limits) && Verification(cfg, first).Verified? && Verification(cfg, second).Verified?
    requires Verification(cfg, first).deliveryId != Verification(cfg, second).deliveryId
    ensures OutcomeAt(cfg, [first, second], 0) == Delivered && OutcomeAt(cfg, [first, second], 1) == Delivered
  {
    var e := Seen(Verification(cfg, first).deliveryId, first.registerAt);
    FirstIsStored(cfg, first, second);
    SweepOne(e, second.registerAt, cfg.limits.ttl);
    LookupOne(e, Verification(cfg, second).deliveryId);
  }

  /** The request a sender makes of a message, handled at the instant it was signed for. */
  function Sent(cfg: Config, secret: Text, t: nat, id: Text, body: seq<Byte>): Request {
    Request(Delivery(body, Some(ComputeSignatureHeader(cfg.hmac, secret, t, id, body)), Some(Decimal(t)), Some(id)), t, t)
  }

  lemma SentReads(cfg: Config, secret: Text, t: nat, id: Text, body: seq<Byte>)
    requires secret in cfg.secrets && IsDeliveryId(id) && t <= MAX_SAFE_INTEGER && cfg.tolerance >= 0
    ensures Verification(cfg, Sent(cfg, secret, t, id, body)) == Verified(id, t)
    ensures Reads(cfg, Sent(cfg, secret, t, id, body), SigningBase(t, id, body))
  {
    SignThenVerify(cfg.hmac, cfg.secrets, secret, t, id, body, t, cfg.tolerance);
  }

  lemma AmbiguousIsDeliveredTwice(cfg: Config, secret: Text, t: nat, id: Text, body: seq<Byte>, lag: nat)
      returns (first: Request, second: Request)
    requires secret in cfg.secrets && IsDeliveryId(id) && t <= MAX_SAFE_INTEGER && cfg.tolerance >= 0
    requires ValidLimits(cfg.limits) && Ambiguous(id, body)
    ensures DeliveredTwice(cfg, SigningBase(t, id, body), ComputeSignatureHeader(cfg.hmac, secret, t, id, body), lag, first, second)
  {
    HeaderIsPaired(id);
    AmbiguousDeliveryIff(t, id, body);
    var id': Text, body': seq<Byte> :| OtherReading(t, id, body, id', body') && IsDeliveryId(id');
    SigningBaseInjective(t, id, body, t, id', body');
    first, second := Sent(cfg, secret, t, id, body), Sent(cfg, secret, t, id', body');
    SentTwice(cfg, secret, t, id, body, id', body', lag);
  }

  lemma SentTwice(cfg: Config, secret: Text, t: nat, id: Text, body: seq<Byte>, id': Text, body': seq<Byte>, lag: nat)
    requires secret in cfg.secrets && t <= MAX_SAFE_INTEGER && cfg.tolerance >= 0 && ValidLimits(cfg.limits)
    requires IsDeliveryId(id) && IsDeliveryId(id') && id != id' && SigningBase(t, id', body') == SigningBase(t, id, body)
    ensures DeliveredTwice(cfg, SigningBase(t, id, body), ComputeSignatureHeader(cfg.hmac, secret, t, id, body), lag,
                           Sent(cfg, secret, t, id, body), Sent(cfg, secret, t, id', body'))
  {
    SentReads(cfg, secret, t, id, body);
    SentReads(cfg, secret, t, id', body');
    TwoIds(cfg, Sent(cfg, secret, t, id, body), Sent(cfg, secret, t, id', body'));
  }

  /** MAIN: even with a TTL that is long enough, one signature over one message is delivered twice
      in a row exactly when the message is ambiguous. */
  lemma DeliveredTwiceIff(cfg: Config, secret: Text, t: nat, id: Text, body: seq<Byte>, lag: nat)
    requires secret in cfg.secrets && IsDeliveryId(id) && t <= MAX_SAFE_INTEGER && cfg.tolerance >= 0
    requires ValidLimits(cfg.limits) && cfg.limits.ttl >= 2 * cfg.tolerance + lag
    ensures var base, header := SigningBase(t, id, body), ComputeSignatureHeader(cfg.hmac, secret, t, id, body);
            (exists first, second :: DeliveredTwice(cfg, base, header, lag, first, second)) <==> Ambiguous(id, body)
  {
    var base, header := SigningBase(t, id, body), ComputeSignatureHeader(cfg.hmac, secret, t, id, body);
    if exists first, second :: DeliveredTwice(cfg, base, header, lag, first, second) {
      var first, second :| DeliveredTwice(cfg, base, header, lag, first, second);
      TwiceMeansAmbiguous(cfg, t, id, body, header, lag, first, second);
    }
    if Ambiguous(id, body) {
      var first, second := AmbiguousIsDeliveredTwice(cfg, secret, t, id, body, lag);
    }
  }

  // ---------- refused requests leave no trace ----------

  function Genuine(cfg: Config, run: seq<Request>): seq<Request> {
    if run == [] then []
    else
      var front, last := Genuine(cfg, run[..|run| - 1]), run[|run| - 1];
      if Verification(cfg, last).Verified? then front + [last] else front
  }

  function Outcomes(cfg: Config, run: seq<Request>): seq<Outcome> {
    if run == [] then [] else Outcomes(cfg, run[..|run| - 1]) + [OutcomeAt(cfg, run, |run| - 1)]
  }

  function NotRefused(outcomes: seq<Outcome>): seq<Outcome> {
    if outcomes == [] then []
    else
      var front, last := NotRefused(outcomes[..|outcomes| - 1]), outcomes[|outcomes| - 1];
      if last.Refused? then front else front + [last]
  }

  /** MAIN: removing every request that fails verification changes no other outcome. */
  lemma {:induction false} RefusedLeaveNoTrace(cfg: Config, run: seq<Request>)
    ensures Outcomes(cfg, Genuine(cfg, run)) == NotRefused(Outcomes(cfg, run))
    ensures StoreAfter(cfg, Genuine(cfg, run)) == StoreAfter(cfg, run)
  {
    if run != [] {
      var front, last := run[..|run| - 1], run[|run| - 1];
      RefusedLeaveNoTrace(cfg, front);
      var kept, outcomes := Genuine(cfg, run), Outcomes(cfg, run);
      assert outcomes[..|outcomes| - 1] == Outcomes(cfg, front);
      if Verification(cfg, last).Verified? {
        assert kept[..|kept| - 1] == Genuine(cfg, front);
      }
    }
  }
}
