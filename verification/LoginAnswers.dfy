/** The answer to every login of every run, read off its events: which nonce it finds
    and what its own steps see decide it, and nothing else does. */
module LoginAnswers {
  import opened Wrappers
  import opened NonceStore
  import opened Certificates
  import opened Validator
  import opened LoginProtocol
  import opened LoginTraces
  import opened LoginSafety
  import opened NonceFates
  import opened LoginRuns

  /** The positions of a login's five steps. */
  datatype Steps = Steps(take: nat, check: nat, begin: nat, read: nat, finish: nat)

  predicate InOrder(p: Steps, n: nat) {
    p.take < p.check < p.begin < p.read < p.finish < n
  }

  /** No step of the request from position n up to k. */
  ghost predicate Quiet(events: seq<Event>, r: nat, n: nat, k: nat) {
    forall i :: n <= i < k && i < |events| ==> Foreign(events[i], r)
  }

  /** Request r is a login for the session: its five steps, each once and in order,
      among any steps of other requests, of the clock and of the trust store. */
  ghost predicate Performs(events: seq<Event>, r: nat, p: Steps, session: string, token: AuthToken, lingers: bool, ocsp: Revocation) {
    && InOrder(p, |events|)
    && events[p.take] == Take(r, session, token, lingers) && events[p.check] == CheckExpiry(r) && events[p.begin] == Begin(r)
    && events[p.read] == ReadTrust(r) && events[p.finish] == Finish(r, ocsp)
    && Quiet(events, r, 0, p.take) && Quiet(events, r, p.take + 1, p.check) && Quiet(events, r, p.check + 1, p.begin)
    && Quiet(events, r, p.begin + 1, p.read) && Quiet(events, r, p.read + 1, p.finish) && Quiet(events, r, p.finish + 1, |events|)
  }

  /** A request no step mentions does not exist. */
  lemma {:induction false} Unstarted(m: Machine, clock: int, cas: seq<Certificate>, events: seq<Event>, r: nat, n: nat)
    requires n <= |events| && Quiet(events, r, 0, n)
    ensures r !in Before(m, clock, cas, events, n).requests
  {
    if n > 0 {
      Unstarted(m, clock, cas, events, r, n - 1);
      BeforeNext(m, clock, cas, events, n - 1);
    }
  }

  lemma {:induction false} BeforeNext(m: Machine, clock: int, cas: seq<Certificate>, events: seq<Event>, n: nat)
    requires n < |events|
    ensures Before(m, clock, cas, events, n + 1) == Step(m, Before(m, clock, cas, events, n), events[n])
  {
    assert events[..n + 1][..n] == events[..n];
  }

  /** Between its own steps a request waits. */
  lemma {:induction false} Waits(m: Machine, clock: int, cas: seq<Certificate>, events: seq<Event>, r: nat, n: nat, k: nat)
    requires n <= k <= |events| && r in Before(m, clock, cas, events, n).requests
    requires Quiet(events, r, n, k)
    ensures r in Before(m, clock, cas, events, k).requests
    ensures Before(m, clock, cas, events, k).requests[r] == Before(m, clock, cas, events, n).requests[r]
  {
    if n < k {
      Waits(m, clock, cas, events, r, n, k - 1);
      BeforeNext(m, clock, cas, events, k - 1);
      IdleStep(m, Before(m, clock, cas, events, k - 1), r, events[k - 1]);
    }
  }

  /** Request r is in phase ph before step n. */
  ghost predicate InPhase(m: Machine, clock: int, cas: seq<Certificate>, events: seq<Event>, r: nat, n: nat, ph: Phase)
    requires n <= |events|
  {
    var st := Before(m, clock, cas, events, n);
    r in st.requests && st.requests[r] == ph
  }

  /** A rejected request stays so, whatever happens. */
  lemma {:induction false} RejectedForever(m: Machine, clock: int, cas: seq<Certificate>, events: seq<Event>, r: nat, n: nat, err: Error)
    requires n <= |events| && InPhase(m, clock, cas, events, r, n, Rejected(err))
    ensures InPhase(m, clock, cas, events, r, |events|, Rejected(err))
    decreases |events| - n
  {
    if n < |events| {
      BeforeNext(m, clock, cas, events, n);
      IdleStep(m, Before(m, clock, cas, events, n), r, events[n]);
      RejectedForever(m, clock, cas, events, r, n + 1, err);
    }
  }

  /** A request's step k, after waiting since n: it sees the clock and the set at k. */
  lemma {:induction false} NextPhase(m: Machine, clock: int, cas: seq<Certificate>, events: seq<Event>, r: nat, n: nat, k: nat, ph: Phase)
    requires n <= k < |events| && InPhase(m, clock, cas, events, r, n, ph)
    requires Quiet(events, r, n, k)
    requires Advances(events[k]) && events[k].request == r
    ensures var st := Before(m, clock, cas, events, k);
      && InPhase(m, clock, cas, events, r, k + 1, Advance(m, st, ph, events[k]))
      && st.clock == ClockAt(clock, events, k) && st.trust == SetAt(cas, events, k) && |st.past| == Reloads(events[..k])
  {
    Waits(m, clock, cas, events, r, n, k);
    BeforeNext(m, clock, cas, events, k);
    WorldFromEvents(m, clock, cas, events[..k]);
  }

  lemma {:induction false} ChecksExpiry(m: Machine, clock: int, cas: seq<Certificate>, events: seq<Event>, r: nat, n: nat, k: nat, l: Login)
    requires n <= k < |events| && events[k] == CheckExpiry(r) && Quiet(events, r, n, k)
    requires InPhase(m, clock, cas, events, r, n, Taken(l))
    ensures var c := ClockAt(clock, events, k);
      InPhase(m, clock, cas, events, r, k + 1, if Expired(l.entry.nonce, c, m.ttl) then Rejected(NonceExpired) else Fresh(l, c))
  {
    NextPhase(m, clock, cas, events, r, n, k, Taken(l));
  }

  lemma {:induction false} Begins(m: Machine, clock: int, cas: seq<Certificate>, events: seq<Event>, r: nat, n: nat, k: nat, l: Login, c: int)
    requires n <= k < |events| && events[k] == Begin(r) && Quiet(events, r, n, k)
    requires InPhase(m, clock, cas, events, r, n, Fresh(l, c))
    ensures var now := ClockAt(clock, events, k);
      var cert := m.before(l.token, l.entry.nonce.value, now);
      InPhase(m, clock, cas, events, r, k + 1, if cert.Err? then Rejected(cert.error) else Validating(l, c, now, cert.value))
  {
    NextPhase(m, clock, cas, events, r, n, k, Fresh(l, c));
  }

  lemma {:induction false} ReadsTrust(m: Machine, clock: int, cas: seq<Certificate>, events: seq<Event>, r: nat, n: nat, k: nat,
                   l: Login, c: int, now: int, cert: Certificate)
    requires n <= k < |events| && events[k] == ReadTrust(r) && Quiet(events, r, n, k)
    requires InPhase(m, clock, cas, events, r, n, Validating(l, c, now, cert))
    ensures var err := m.chain(cert, now, SetAt(cas, events, k));
      InPhase(m, clock, cas, events, r, k + 1, if err.Some? then Rejected(err.value) else Chained(l, c, now, cert, Reloads(events[..k])))
  {
    NextPhase(m, clock, cas, events, r, n, k, Validating(l, c, now, cert));
  }

  lemma {:induction false} Finishes(m: Machine, clock: int, cas: seq<Certificate>, events: seq<Event>, r: nat, n: nat, k: nat,
                 l: Login, c: int, now: int, cert: Certificate, first: nat, ocsp: Revocation)
    requires n <= k < |events| && events[k] == Finish(r, ocsp) && Quiet(events, r, n, k) && Quiet(events, r, k + 1, |events|)
    requires InPhase(m, clock, cas, events, r, n, Chained(l, c, now, cert, first))
    ensures var err := m.after(l.token, cert, l.entry.nonce.value, SetAt(cas, events, k), ocsp);
      InPhase(m, clock, cas, events, r, |events|,
              if err.Some? then Rejected(err.value) else Accepted(l, c, now, cert, first, Reloads(events[..k]), ocsp))
  {
    NextPhase(m, clock, cas, events, r, n, k, Chained(l, c, now, cert, first));
    Waits(m, clock, cas, events, r, k + 1, |events|);
  }

  /** The Take of a login, and what it finds. */
  lemma {:induction false} FirstPhase(m: Machine, clock: int, cas: seq<Certificate>, events: seq<Event>, r: nat, p: Steps,
                   session: string, token: AuthToken, lingers: bool, ocsp: Revocation)
    requires Performs(events, r, p, session, token, lingers, ocsp)
    ensures var st := Before(m, clock, cas, events, p.take);
      InPhase(m, clock, cas, events, r, p.take + 1,
              if session in st.entries && Found(m.backend, st.entries[session], st.clock, lingers)
              then Taken(Login(session, token, st.entries[session])) else Rejected(NonceNotFound))
  {
    Unstarted(m, clock, cas, events, r, p.take);
    BeforeNext(m, clock, cas, events, p.take);
  }

  /** What login answers for a nonce, at the clocks and sets of its own steps. */
  function VerdictAt(m: Machine, clock: int, cas: seq<Certificate>, events: seq<Event>, p: Steps, nonce: ChallengeNonce, token: AuthToken, ocsp: Revocation)
    : (v: Result<Certificate, Error>)
    requires InOrder(p, |events|)
  {
    Verdict(m, nonce, token, ClockAt(clock, events, p.check), ClockAt(clock, events, p.begin),
            SetAt(cas, events, p.read), SetAt(cas, events, p.finish), ocsp)
  }

  /** The phase a login ends in, given the nonce it found, if any. */
  function Answer(m: Machine, clock: int, cas: seq<Certificate>, events: seq<Event>, p: Steps,
                  session: string, token: AuthToken, ocsp: Revocation, found: Option<Entry>): (ph: Phase)
    requires InOrder(p, |events|)
  {
    if found.None? then Rejected(NonceNotFound)
    else match VerdictAt(m, clock, cas, events, p, found.value.nonce, token, ocsp)
         case Err(err) => Rejected(err)
         case Ok(cert) => Accepted(Login(session, token, found.value), ClockAt(clock, events, p.check), ClockAt(clock, events, p.begin),
                                   cert, Reloads(events[..p.read]), Reloads(events[..p.finish]), ocsp)
  }

  /** From the chain check on. */
  lemma {:induction false} ValidatingAnswered(m: Machine, clock: int, cas: seq<Certificate>, events: seq<Event>, r: nat, n: nat, j: nat, k: nat,
                           l: Login, c: int, now: int, cert: Certificate, ocsp: Revocation)
    requires n <= j < k < |events| && events[j] == ReadTrust(r) && events[k] == Finish(r, ocsp)
    requires Quiet(events, r, n, j) && Quiet(events, r, j + 1, k) && Quiet(events, r, k + 1, |events|)
    requires InPhase(m, clock, cas, events, r, n, Validating(l, c, now, cert))
    ensures var untrusted := m.chain(cert, now, SetAt(cas, events, j));
      var err := m.after(l.token, cert, l.entry.nonce.value, SetAt(cas, events, k), ocsp);
      InPhase(m, clock, cas, events, r, |events|,
              if untrusted.Some? then Rejected(untrusted.value)
              else if err.Some? then Rejected(err.value)
              else Accepted(l, c, now, cert, Reloads(events[..j]), Reloads(events[..k]), ocsp))
  {
    ReadsTrust(m, clock, cas, events, r, n, j, l, c, now, cert);
    var untrusted := m.chain(cert, now, SetAt(cas, events, j));
    if untrusted.Some? {
      RejectedForever(m, clock, cas, events, r, j + 1, untrusted.value);
    } else {
      Finishes(m, clock, cas, events, r, j + 1, k, l, c, now, cert, Reloads(events[..j]), ocsp);
    }
  }

  /** From the start of the validation on. */
  lemma {:induction false} FreshAnswered(m: Machine, clock: int, cas: seq<Certificate>, events: seq<Event>, r: nat, p: Steps,
                      l: Login, lingers: bool, ocsp: Revocation)
    requires Performs(events, r, p, l.session, l.token, lingers, ocsp)
    requires var c := ClockAt(clock, events, p.check);
      !Expired(l.entry.nonce, c, m.ttl) && InPhase(m, clock, cas, events, r, p.check + 1, Fresh(l, c))
    ensures InPhase(m, clock, cas, events, r, |events|, Answer(m, clock, cas, events, p, l.session, l.token, ocsp, Some(l.entry)))
  {
    var c, now := ClockAt(clock, events, p.check), ClockAt(clock, events, p.begin);
    Begins(m, clock, cas, events, r, p.check + 1, p.begin, l, c);
    var cert := m.before(l.token, l.entry.nonce.value, now);
    if cert.Err? {
      RejectedForever(m, clock, cas, events, r, p.begin + 1, cert.error);
    } else {
      ValidatingAnswered(m, clock, cas, events, r, p.begin + 1, p.read, p.finish, l, c, now, cert.value, ocsp);
    }
  }

  /** A login that has taken a nonce is answered as its own four steps say. */
  lemma {:induction false} TakenAnswered(m: Machine, clock: int, cas: seq<Certificate>, events: seq<Event>, r: nat, p: Steps,
                      l: Login, lingers: bool, ocsp: Revocation)
    requires Performs(events, r, p, l.session, l.token, lingers, ocsp)
    requires InPhase(m, clock, cas, events, r, p.take + 1, Taken(l))
    ensures InPhase(m, clock, cas, events, r, |events|, Answer(m, clock, cas, events, p, l.session, l.token, ocsp, Some(l.entry)))
  {
    ChecksExpiry(m, clock, cas, events, r, p.take + 1, p.check, l);
    if Expired(l.entry.nonce, ClockAt(clock, events, p.check), m.ttl) {
      RejectedForever(m, clock, cas, events, r, p.check + 1, NonceExpired);
    } else {
      FreshAnswered(m, clock, cas, events, r, p, l, lingers, ocsp);
    }
  }

  /** The nonce a Take finds. */
  function FoundAt(m: Machine, st: State, session: string, lingers: bool): (e: Option<Entry>) {
    if session in st.entries && Found(m.backend, st.entries[session], st.clock, lingers) then Some(st.entries[session]) else None
  }

  /** Every login of every run is answered for the live nonce of its session. */
  lemma {:induction false} EveryLoginAnswered(m: Machine, clock: int, cas: seq<Certificate>, events: seq<Event>, r: nat, p: Steps,
                           session: string, token: AuthToken, lingers: bool, ocsp: Revocation)
    requires Performs(events, r, p, session, token, lingers, ocsp)
    ensures var st, found := Run(m, Initial(clock, cas), events), FoundAt(m, Before(m, clock, cas, events, p.take), session, lingers);
      r in st.requests && st.requests[r] == Answer(m, clock, cas, events, p, session, token, ocsp, found)
  {
    FirstPhase(m, clock, cas, events, r, p, session, token, lingers, ocsp);
    assert events[..|events|] == events;
    var found := FoundAt(m, Before(m, clock, cas, events, p.take), session, lingers);
    if found.None? {
      RejectedForever(m, clock, cas, events, r, p.take + 1, NonceNotFound);
    } else {
      TakenAnswered(m, clock, cas, events, r, p, Login(session, token, found.value), lingers, ocsp);
    }
  }

  /** The i-th nonce stored before the login's Take is of its session, no step has
      ended its life, and its key can be read. */
  ghost predicate Finds(m: Machine, clock: int, cas: seq<Certificate>, events: seq<Event>, take: nat, session: string, lingers: bool, i: nat)
    requires take <= |events|
  {
    var puts := Before(m, clock, cas, events, take).puts;
    && i < |puts| && puts[i].session == session
    && EndOf(m, Initial(clock, cas), events[..take], puts[i]).None?
    && Found(m.backend, puts[i], ClockAt(clock, events, take), lingers)
  }

  lemma {:induction false} FindsLive(m: Machine, clock: int, cas: seq<Certificate>, events: seq<Event>, take: nat, session: string, lingers: bool, i: nat)
    requires take <= |events|
    ensures var found := FoundAt(m, Before(m, clock, cas, events, take), session, lingers);
      Finds(m, clock, cas, events, take, session, lingers, i) <==> found.Some? && found.value.id == i
    ensures var st := Before(m, clock, cas, events, take);
      Finds(m, clock, cas, events, take, session, lingers, i) ==> FoundAt(m, st, session, lingers) == Some(st.puts[i])
  {
    var st := Before(m, clock, cas, events, take);
    Reachable(m, clock, cas, events[..take]);
    WorldFromEvents(m, clock, cas, events[..take]);
    if session in st.entries {
      assert Known(st, st.entries[session]) && st.entries[session].session == session;
    }
    if i < |st.puts| {
      FatesFromEvents(m, clock, cas, events[..take], i);
    }
  }

  /** In every run, a login is accepted exactly when a nonce stored for its session
      before its Take has not ended its life, its key can be read, and the validator
      accepts it at the clocks and sets of the login's own steps. */
  lemma {:induction false} AcceptedExactlyWhen(m: Machine, clock: int, cas: seq<Certificate>, events: seq<Event>, r: nat, p: Steps,
                            session: string, token: AuthToken, lingers: bool, ocsp: Revocation)
    requires Performs(events, r, p, session, token, lingers, ocsp)
    ensures IsAccepted(Run(m, Initial(clock, cas), events), r) <==>
      exists i: nat :: Finds(m, clock, cas, events, p.take, session, lingers, i)
        && VerdictAt(m, clock, cas, events, p, Before(m, clock, cas, events, p.take).puts[i].nonce, token, ocsp).Ok?
  {
    EveryLoginAnswered(m, clock, cas, events, r, p, session, token, lingers, ocsp);
    var found := FoundAt(m, Before(m, clock, cas, events, p.take), session, lingers);
    if found.Some? {
      FindsLive(m, clock, cas, events, p.take, session, lingers, found.value.id);
    }
    forall i: nat | Finds(m, clock, cas, events, p.take, session, lingers, i)
      ensures found == Some(Before(m, clock, cas, events, p.take).puts[i])
    {
      FindsLive(m, clock, cas, events, p.take, session, lingers, i);
    }
  }
}
