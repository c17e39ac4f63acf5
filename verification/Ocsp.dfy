/** ocsp/checker.go: the verdict on one OCSP exchange and the freshness of its
    response (sections 3.2 and 4.2.2.1 of RFC 6960). */
module Ocsp {
  import opened Wrappers
  import opened Bytes
  import opened Certificates
  import opened GoTime

  datatype Options = Options(requestTimeout: int, skew: int, maxAge: int)

  const DEFAULT_REQUEST_TIMEOUT := 5 * SECOND
  const DEFAULT_SKEW := 900 * SECOND
  const DEFAULT_MAX_AGE := 120 * SECOND

  /** NewChecker: non-positive durations fall back to the defaults. */
  function NewChecker(o: Options): (c: Options)
    ensures c.requestTimeout > 0 && c.skew > 0 && c.maxAge > 0
    ensures o.requestTimeout > 0 ==> c.requestTimeout == o.requestTimeout
    ensures o.skew > 0 ==> c.skew == o.skew
    ensures o.maxAge > 0 ==> c.maxAge == o.maxAge
    ensures o.requestTimeout <= 0 ==> c.requestTimeout == 5_000_000_000
    ensures o.skew <= 0 ==> c.skew == 900_000_000_000
    ensures o.maxAge <= 0 ==> c.maxAge == 120_000_000_000
  {
    Options(if o.requestTimeout <= 0 then DEFAULT_REQUEST_TIMEOUT else o.requestTimeout,
            if o.skew <= 0 then DEFAULT_SKEW else o.skew,
            if o.maxAge <= 0 then DEFAULT_MAX_AGE else o.maxAge)
  }

  datatype Status = Good | RevokedStatus | UnknownStatus

  /** A verified response; an absent nextUpdate is the zero time in Go. */
  datatype Response = Response(status: Status, nonce: Option<seq<Byte>>, thisUpdate: int, nextUpdate: Option<int>)

  datatype Staleness = InFuture | PastNextUpdate | TooOld

  /** checkFreshness, with the saturating difference and the wrapping sum: None is fresh. */
  function CheckFreshness(o: Options, r: Response, now: int): (err: Option<Staleness>) {
    if r.thisUpdate > now + o.skew then Some(InFuture)
    else if r.nextUpdate.Some? && r.nextUpdate.value < now - o.skew then Some(PastNextUpdate)
    else if Sub(now, r.thisUpdate) > Wrap(o.maxAge + o.skew) then Some(TooOld)
    else None
  }

  /** The options a checker can hold. */
  predicate Configured(o: Options) {
    0 < o.skew <= MAX_INT64 && 0 < o.maxAge <= MAX_INT64
  }

  /** Every answer of checkFreshness, in plain integers: a response from beyond the skew
      ahead, one whose next update is more than the skew ago, one too old. The age limit
      is the sum of the two bounds; at the largest duration there is none, and past it
      the limit has wrapped around. */
  lemma {:induction false} FreshnessExactly(o: Options, r: Response, now: int)
    requires Configured(o)
    ensures var limit := if o.maxAge + o.skew <= 0x7FFF_FFFF_FFFF_FFFF then o.maxAge + o.skew
                         else o.maxAge + o.skew - 0x1_0000_0000_0000_0000;
      CheckFreshness(o, r, now) ==
        if r.thisUpdate - o.skew > now then Some(InFuture)
        else if r.nextUpdate.Some? && now > r.nextUpdate.value + o.skew then Some(PastNextUpdate)
        else if limit != 0x7FFF_FFFF_FFFF_FFFF && now - r.thisUpdate > limit then Some(TooOld)
        else None
  {
    SubExceeds(now, r.thisUpdate, Wrap(o.maxAge + o.skew));
  }

  /** The last instant at which the response is fresh, if there is one. */
  function LastFresh(o: Options, r: Response): (t: Option<int>) {
    var age := Wrap(o.maxAge + o.skew);
    var byAge := if age == MAX_INT64 then None else Some(r.thisUpdate + age);
    var byNext := if r.nextUpdate.None? then None else Some(r.nextUpdate.value + o.skew);
    if byAge.None? then byNext
    else if byNext.None? then byAge
    else Some(if byAge.value <= byNext.value then byAge.value else byNext.value)
  }

  /** The accepting instants form one closed interval, for every configuration: it
      starts the skew before thisUpdate and ends at the earlier of the two limits. */
  lemma {:induction false} FreshnessInterval(o: Options, r: Response, now: int)
    requires Configured(o)
    ensures CheckFreshness(o, r, now).None? <==>
      && r.thisUpdate - o.skew <= now
      && (LastFresh(o, r).None? || now <= LastFresh(o, r).value)
  {
  }

  /** While the sum of the two bounds stays below the largest duration, the age
      check is the exact integer comparison. */
  lemma {:induction false} ExactAge(o: Options, r: Response, now: int)
    requires Configured(o) && o.maxAge + o.skew < MAX_INT64
    ensures Sub(now, r.thisUpdate) > Wrap(o.maxAge + o.skew) <==> now - r.thisUpdate > o.maxAge + o.skew
  {
  }

  predicate Wider(o: Options, p: Options) {
    o.skew <= p.skew && o.maxAge <= p.maxAge
  }

  /** Wider bounds accept every response the narrower ones accept, exactly as long
      as the wider sum does not overflow; when it does, the limit turns negative
      and a response of the current instant is refused. */
  lemma {:induction false} WiderAcceptsMore(p: Options)
    requires Configured(p)
    ensures p.maxAge + p.skew <= MAX_INT64 <==>
      forall o, r, now :: Configured(o) && Wider(o, p) && CheckFreshness(o, r, now).None? ==> CheckFreshness(p, r, now).None?
  {
    if p.maxAge + p.skew <= MAX_INT64 {
      forall o, r, now | Configured(o) && Wider(o, p) && CheckFreshness(o, r, now).None?
        ensures CheckFreshness(p, r, now).None?
      {
        FreshnessInterval(o, r, now);
        FreshnessInterval(p, r, now);
      }
    } else {
      var narrow, r := Options(1, 1, 1), Response(Good, None, 0, None);
      assert Wrap(p.maxAge + p.skew) < 0;
      assert CheckFreshness(narrow, r, 0).None?;
      assert CheckFreshness(p, r, 0) == Some(TooOld);
    }
  }

  /** Check, given the nonce it sent (none if disabled) and the verified response
      it received (none if any step before failed): None is success. */
  function Check(o: Options, sent: Option<seq<Byte>>, received: Option<Response>, now: int): (err: Option<Error>) {
    if received.None? then Some(OcspFailed) else
    var r := received.value;
    if sent.Some? && r.nonce.Some? && r.nonce.value != sent.value then Some(OcspFailed)
    else if CheckFreshness(o, r, now).Some? then Some(OcspFailed)
    else match r.status
         case Good => None
         case RevokedStatus => Some(Revoked)
         case UnknownStatus => Some(OcspFailed)
  }

  /** Every answer of Check: a definite one comes exactly from a fresh response with a
      known status that does not echo a different nonce, and it is the status. */
  lemma {:induction false} CheckExactly(o: Options, sent: Option<seq<Byte>>, received: Option<Response>, now: int)
    requires Configured(o)
    ensures Check(o, sent, received, now) == None <==> Definite(o, sent, received, now) && received.value.status == Good
    ensures Check(o, sent, received, now) == Some(Revoked) <==> Definite(o, sent, received, now) && received.value.status == RevokedStatus
    ensures Check(o, sent, received, now) in [None, Some(Revoked), Some(OcspFailed)]
  {
    if received.Some? {
      FreshnessInterval(o, received.value, now);
    }
  }

  ghost predicate Definite(o: Options, sent: Option<seq<Byte>>, received: Option<Response>, now: int) {
    && received.Some? && received.value.status != UnknownStatus
    && (sent.Some? && received.value.nonce.Some? ==> received.value.nonce.value == sent.value)
    && received.value.thisUpdate - o.skew <= now
    && (LastFresh(o, received.value).None? || now <= LastFresh(o, received.value).value)
  }
}
