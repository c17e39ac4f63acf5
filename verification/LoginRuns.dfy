/** Particular runs: a login nobody interrupts, and the runs that show where two
    stores or two trusted sets make a difference. */
module LoginRuns {
  import opened Wrappers
  import opened NonceStore
  import opened Certificates
  import opened Validator
  import opened LoginProtocol
  import opened LoginSafety
  import opened StoreEquivalence
  import GoTime
  import Signature

  lemma {:induction false} RunFirst(m: Machine, st: State, e: Event, rest: seq<Event>)
    ensures Run(m, st, [e] + rest) == Run(m, Step(m, st, e), rest)
  {
    var events := [e] + rest;
    if rest == [] {
      assert events[..0] == [];
    } else {
      var init := rest[..|rest| - 1];
      RunFirst(m, st, e, init);
      assert events[..|events| - 1] == [e] + init;
    }
  }

  lemma {:induction false} RunConcat(m: Machine, st: State, a: seq<Event>, b: seq<Event>)
    ensures Run(m, st, a + b) == Run(m, Run(m, st, a), b)
  {
    if b == [] {
      assert a + b == a;
    } else {
      RunConcat(m, st, a, b[..|b| - 1]);
      assert (a + b)[..|a + b| - 1] == a + b[..|b| - 1];
    }
  }

  // ------------------------------------------------ one login, in any interleaving

  /** A step of other requests, of the clock or of the trust store. */
  predicate Foreign(e: Event, r: nat) {
    e.Tick? || e.Reload? || e.request != r
  }

  /** A request keeps its phase while others step, and for good once rejected. */
  lemma {:induction false} IdleStep(m: Machine, st: State, r: nat, e: Event)
    requires r in st.requests && (Foreign(e, r) || st.requests[r].Rejected?)
    ensures r in Step(m, st, e).requests && Step(m, st, e).requests[r] == st.requests[r]
  {
  }

  lemma {:induction false} Idle(m: Machine, st: State, r: nat, mid: seq<Event>)
    requires r in st.requests && forall e :: e in mid ==> Foreign(e, r)
    ensures r in Run(m, st, mid).requests && Run(m, st, mid).requests[r] == st.requests[r]
  {
    if mid != [] {
      var init, e := mid[..|mid| - 1], mid[|mid| - 1];
      assert e in mid && forall x :: x in init ==> x in mid;
      Idle(m, st, r, init);
      IdleStep(m, Run(m, st, init), r, e);
    }
  }

  /** Other steps first, and then step e. */
  function Then(m: Machine, st: State, mid: seq<Event>, e: Event): (st': State) {
    Step(m, Run(m, st, mid), e)
  }

  /** However long a request waits, its next step sees the state of that moment. */
  lemma {:induction false} Stage(m: Machine, st: State, r: nat, mid: seq<Event>, e: Event)
    requires r in st.requests && forall x :: x in mid ==> Foreign(x, r)
    requires Advances(e) && e.request == r
    ensures var st' := Then(m, st, mid, e);
      r in st'.requests && st'.requests[r] == Advance(m, Run(m, st, mid), st.requests[r], e)
  {
    Idle(m, st, r, mid);
  }

  /** What login answers for a nonce it has taken, at given readings of the clock and
      of the trusted set. */
  function Verdict(m: Machine, nonce: ChallengeNonce, token: AuthToken, checkedAt: int, now: int,
                   first: Snapshot, second: Snapshot, ocsp: Revocation): (r: Result<Certificate, Error>)
  {
    if Expired(nonce, checkedAt, m.ttl) then Err(NonceExpired) else
    var cert := m.before(token, nonce.value, now);
    if cert.Err? then cert else
    var untrusted := m.chain(cert.value, now, first);
    if untrusted.Some? then Err(untrusted.value) else
    var err := m.after(token, cert.value, nonce.value, second, ocsp);
    if err.Some? then Err(err.value) else cert
  }

  /** The phase a login ends in whose four steps saw these states. */
  function Ending(m: Machine, l: Login, a: State, b: State, c: State, d: State, ocsp: Revocation): (ph: Phase) {
    match Verdict(m, l.entry.nonce, l.token, a.clock, b.clock, c.trust, d.trust, ocsp)
    case Err(err) => Rejected(err)
    case Ok(cert) => Accepted(l, a.clock, b.clock, cert, |c.past|, |d.past|, ocsp)
  }

  lemma {:induction false} FourSteps(m: Machine, r: nat, l: Login, a: State, b: State, c: State, d: State, ocsp: Revocation)
    ensures Advance(m, d, Advance(m, c, Advance(m, b, Advance(m, a, Taken(l), CheckExpiry(r)), Begin(r)), ReadTrust(r)), Finish(r, ocsp))
         == Ending(m, l, a, b, c, d, ocsp)
  {
  }

  /** Whatever happens between its steps, a login that has taken a nonce is answered
      as the clock and the trusted sets at its own four steps say. */
  lemma {:induction false} InterleavedLogin(m: Machine, st: State, r: nat, m1: seq<Event>, m2: seq<Event>, m3: seq<Event>, m4: seq<Event>, ocsp: Revocation)
    requires r in st.requests && st.requests[r].Taken?
    requires forall e :: e in m1 || e in m2 || e in m3 || e in m4 ==> Foreign(e, r)
    ensures var a := Run(m, st, m1);
      var b := Run(m, Step(m, a, CheckExpiry(r)), m2);
      var c := Run(m, Step(m, b, Begin(r)), m3);
      var d := Run(m, Step(m, c, ReadTrust(r)), m4);
      var st' := Step(m, d, Finish(r, ocsp));
      && st' == Run(m, st, m1 + [CheckExpiry(r)] + m2 + [Begin(r)] + m3 + [ReadTrust(r)] + m4 + [Finish(r, ocsp)])
      && r in st'.requests && st'.requests[r] == Ending(m, st.requests[r].login, a, b, c, d, ocsp)
  {
    var l := st.requests[r].login;
    var a := Run(m, st, m1);
    Stage(m, st, r, m1, CheckExpiry(r));
    var st1 := Step(m, a, CheckExpiry(r));
    var b := Run(m, st1, m2);
    Stage(m, st1, r, m2, Begin(r));
    var st2 := Step(m, b, Begin(r));
    var c := Run(m, st2, m3);
    Stage(m, st2, r, m3, ReadTrust(r));
    var st3 := Step(m, c, ReadTrust(r));
    var d := Run(m, st3, m4);
    Stage(m, st3, r, m4, Finish(r, ocsp));
    FourSteps(m, r, l, a, b, c, d, ocsp);
    RunThen(m, st, [], m1, CheckExpiry(r));
    assert [] + m1 + [CheckExpiry(r)] == m1 + [CheckExpiry(r)];
    RunThen(m, st, m1 + [CheckExpiry(r)], m2, Begin(r));
    RunThen(m, st, m1 + [CheckExpiry(r)] + m2 + [Begin(r)], m3, ReadTrust(r));
    RunThen(m, st, m1 + [CheckExpiry(r)] + m2 + [Begin(r)] + m3 + [ReadTrust(r)], m4, Finish(r, ocsp));
  }

  lemma {:induction false} RunThen(m: Machine, st: State, before: seq<Event>, mid: seq<Event>, e: Event)
    ensures Run(m, st, before + mid + [e]) == Then(m, Run(m, st, before), mid, e)
  {
    RunConcat(m, st, before, mid);
    var events := before + mid + [e];
    assert events[..|events| - 1] == before + mid;
  }

  // ------------------------------------------------ nobody else around

  /** challenge, without interruption. */
  function ChallengeEvents(c: nat, session: string, value: string): (events: seq<Event>) {
    [Stamp(c, session, value), Put(c)]
  }

  /** The steps of login after it has taken its nonce, without interruption. */
  function LoginSteps(r: nat, ocsp: Revocation): (events: seq<Event>) {
    [CheckExpiry(r), Begin(r), ReadTrust(r), Finish(r, ocsp)]
  }

  /** login, without interruption. */
  function LoginEvents(r: nat, session: string, token: AuthToken, lingers: bool, ocsp: Revocation): (events: seq<Event>) {
    [Take(r, session, token, lingers)] + LoginSteps(r, ocsp)
  }

  /** The steps of a login change nothing but its phase. */
  lemma {:induction false} OnlyAdvances(m: Machine, st: State, events: seq<Event>)
    requires forall e :: e in events ==> Advances(e)
    ensures Run(m, st, events) == st.(requests := Run(m, st, events).requests)
  {
    if events != [] {
      var init, e := events[..|events| - 1], events[|events| - 1];
      assert e in events && forall x :: x in init ==> x in events;
      OnlyAdvances(m, st, init);
    }
  }

  lemma {:induction false} RejectedStays(m: Machine, st: State, r: nat, events: seq<Event>)
    requires r in st.requests && st.requests[r].Rejected?
    requires forall e :: e in events ==> Advances(e)
    ensures r in Run(m, st, events).requests && Run(m, st, events).requests[r] == st.requests[r]
  {
    if events != [] {
      var init, e := events[..|events| - 1], events[|events| - 1];
      assert e in events && forall x :: x in init ==> x in events;
      RejectedStays(m, st, r, init);
      IdleStep(m, Run(m, st, init), r, e);
    }
  }

  lemma {:induction false} StepsAtOnce(m: Machine, st: State, r: nat, ocsp: Revocation)
    requires r in st.requests && st.requests[r].Taken?
    ensures var st' := Run(m, st, LoginSteps(r, ocsp));
      r in st'.requests && st'.requests[r] == Ending(m, st.requests[r].login, st, st, st, st, ocsp)
  {
    InterleavedLogin(m, st, r, [], [], [], [], ocsp);
    assert [] + [CheckExpiry(r)] + [] + [Begin(r)] + [] + [ReadTrust(r)] + [] + [Finish(r, ocsp)] == LoginSteps(r, ocsp);
  }

  /** An uninterrupted login for a live nonce answers as its verdict says, whatever
      other requests are in flight, and the nonce is gone; for a session without a
      live nonce it answers that none was found. */
  lemma {:induction false} UninterruptedLogin(m: Machine, st: State, r: nat, session: string, token: AuthToken, lingers: bool, ocsp: Revocation)
    requires r !in st.requests
    ensures var st' := Run(m, st, LoginEvents(r, session, token, lingers, ocsp));
      && session !in st'.entries
      && r in st'.requests
      && st'.requests[r] == if session in st.entries && Found(m.backend, st.entries[session], st.clock, lingers)
                            then Ending(m, Login(session, token, st.entries[session]), st, st, st, st, ocsp)
                            else Rejected(NonceNotFound)
  {
    var rest := LoginSteps(r, ocsp);
    var st1 := Step(m, st, Take(r, session, token, lingers));
    RunFirst(m, st, Take(r, session, token, lingers), rest);
    OnlyAdvances(m, st1, rest);
    if st1.requests[r].Taken? {
      StepsAtOnce(m, st1, r, ocsp);
    } else {
      RejectedStays(m, st1, r, rest);
    }
  }

  /** A challenge makes its nonce the live one of its session, aged zero. */
  lemma {:induction false} UninterruptedChallenge(m: Machine, st: State, c: nat, session: string, value: string)
    requires c !in st.requests
    ensures var st' := Run(m, st, ChallengeEvents(c, session, value));
      var e := Entry(|st.puts|, c, session, ChallengeNonce(value, st.clock), st.clock);
      && st'.clock == st.clock && st'.past == st.past && st'.trust == st.trust
      && st'.puts == st.puts + [e]
      && session in st'.entries && st'.entries[session] == e
      && st'.requests == st.requests[c := Stored(e)]
      && st'.entries.Keys == st.entries.Keys - SweptSessions(m.backend, st) + {session}
  {
    var st1 := Step(m, st, Stamp(c, session, value));
    RunFirst(m, st, Stamp(c, session, value), [Put(c)]);
    RunFirst(m, st1, Put(c), []);
    assert [Stamp(c, session, value)] + [Put(c)] == ChallengeEvents(c, session, value);
    assert [Put(c)] + [] == [Put(c)];
    PutAfterStamp(m, st, c, session, value);
  }

  lemma {:induction false} PutAfterStamp(m: Machine, st: State, c: nat, session: string, value: string)
    requires c !in st.requests
    ensures var st' := Step(m, Step(m, st, Stamp(c, session, value)), Put(c));
      var e := Entry(|st.puts|, c, session, ChallengeNonce(value, st.clock), st.clock);
      && st'.clock == st.clock && st'.past == st.past && st'.trust == st.trust
      && st'.puts == st.puts + [e]
      && session in st'.entries && st'.entries[session] == e
      && st'.requests == st.requests[c := Stored(e)]
      && st'.entries.Keys == st.entries.Keys - SweptSessions(m.backend, st) + {session}
  {
  }

  /** The validator accepts this token for this nonce at this instant, under one set. */
  predicate ValidatorAccepts(m: Machine, value: string, token: AuthToken, now: int, s: Snapshot, ocsp: Revocation) {
    var cert := m.before(token, value, now);
    cert.Ok? && m.chain(cert.value, now, s).None? && m.after(token, cert.value, value, s, ocsp).None?
  }

  /** A login of a token the validator accepts is accepted exactly when its session's
      nonce is there and has not expired. */
  lemma {:induction false} AcceptedExactly(m: Machine, st: State, r: nat, session: string, token: AuthToken, lingers: bool, ocsp: Revocation)
    requires r !in st.requests
    requires session in st.entries ==> ValidatorAccepts(m, st.entries[session].nonce.value, token, st.clock, st.trust, ocsp)
    ensures IsAccepted(Run(m, st, LoginEvents(r, session, token, lingers, ocsp)), r) <==>
      && session in st.entries && Found(m.backend, st.entries[session], st.clock, lingers)
      && !Expired(st.entries[session].nonce, st.clock, m.ttl)
  {
    UninterruptedLogin(m, st, r, session, token, lingers, ocsp);
  }

  /** A challenge for session "a" as request 0, then a pause. */
  function ChallengeThenWait(value: string, d: nat): (events: seq<Event>) {
    ChallengeEvents(0, "a", value) + [Tick(d)]
  }

  lemma {:induction false} AfterWait(m: Machine, clock: int, cas: seq<Certificate>, value: string, d: nat)
    ensures var st := Run(m, Initial(clock, cas), ChallengeThenWait(value, d));
      var e := Entry(0, 0, "a", ChallengeNonce(value, clock), clock);
      && st.clock == clock + d && st.past == [] && st.trust == SnapshotOf(cas)
      && st.puts == [e] && st.entries == map["a" := e] && st.requests == map[0 := Stored(e)]
  {
    var st0 := Initial(clock, cas);
    UninterruptedChallenge(m, st0, 0, "a", value);
    RunConcat(m, st0, ChallengeEvents(0, "a", value), [Tick(d)]);
    RunFirst(m, Run(m, st0, ChallengeEvents(0, "a", value)), Tick(d), []);
    assert [Tick(d)] + [] == [Tick(d)];
    var st1 := Run(m, st0, ChallengeEvents(0, "a", value));
    assert st1.entries.Keys == {"a"};
    assert st1.entries == map["a" := st1.entries["a"]];
  }

  /** At the very deadline: memory accepts a nonce of exactly the lifetime, Redis
      only if its key lingers. */
  lemma {:induction false} AtTheDeadline(m: Machine, lingers: bool, clock: int, cas: seq<Certificate>, value: string, token: AuthToken, ocsp: Revocation)
    requires 0 <= m.ttl <= GoTime.MAX_INT64
    requires ValidatorAccepts(m, value, token, clock + m.ttl, SnapshotOf(cas), ocsp)
    ensures var events := ChallengeThenWait(value, m.ttl) + LoginEvents(1, "a", token, lingers, ocsp);
      && IsAccepted(On(m, SweepsOnPut(m.ttl), clock, cas, events), 1)
      && (IsAccepted(On(m, KeyExpiry(m.ttl), clock, cas, events), 1) <==> lingers)
  {
    LoginAfterWait(m, SweepsOnPut(m.ttl), clock, cas, value, m.ttl, token, lingers, ocsp);
    LoginAfterWait(m, KeyExpiry(m.ttl), clock, cas, value, m.ttl, token, lingers, ocsp);
  }

  lemma {:induction false} LoginAfterWait(m: Machine, b: Backend, clock: int, cas: seq<Certificate>, value: string, d: nat, token: AuthToken, lingers: bool, ocsp: Revocation)
    requires d <= m.ttl <= GoTime.MAX_INT64
    requires ValidatorAccepts(m, value, token, clock + d, SnapshotOf(cas), ocsp)
    ensures var st := On(m, b, clock, cas, ChallengeThenWait(value, d) + LoginEvents(1, "a", token, lingers, ocsp));
      IsAccepted(st, 1) <==> (b.KeyExpiry? ==> Readable(clock + b.ttl, clock + d, lingers))
  {
    var mb, st0 := m.(backend := b), Initial(clock, cas);
    AfterWait(mb, clock, cas, value, d);
    var st := Run(mb, st0, ChallengeThenWait(value, d));
    RunConcat(mb, st0, ChallengeThenWait(value, d), LoginEvents(1, "a", token, lingers, ocsp));
    AcceptedExactly(mb, st, 1, "a", token, lingers, ocsp);
  }

  /** A nonce outlives the sweep of another session's challenge. */
  function SweptMeanwhile(value: string, other: string, d: nat, token: AuthToken, ocsp: Revocation): (events: seq<Event>) {
    ChallengeThenWait(value, d) + ChallengeEvents(1, "b", other) + LoginEvents(2, "a", token, false, ocsp)
  }

  lemma {:induction false} AfterOther(m: Machine, clock: int, cas: seq<Certificate>, value: string, other: string, d: nat)
    ensures var st := Run(m, Initial(clock, cas), ChallengeThenWait(value, d) + ChallengeEvents(1, "b", other));
      var e := Entry(0, 0, "a", ChallengeNonce(value, clock), clock);
      && st.clock == clock + d && st.past == [] && st.trust == SnapshotOf(cas) && 2 !in st.requests
      && ("a" in st.entries <==> (m.backend.SweepsOnPut? ==> !Expired(e.nonce, clock + d, m.backend.ttl)))
      && ("a" in st.entries ==> st.entries["a"] == e)
  {
    var st0 := Initial(clock, cas);
    AfterWait(m, clock, cas, value, d);
    var waited := Run(m, st0, ChallengeThenWait(value, d));
    UninterruptedChallenge(m, waited, 1, "b", other);
    RunConcat(m, st0, ChallengeThenWait(value, d), ChallengeEvents(1, "b", other));
    KeptAcrossChallenge(m, waited, 1, "b", other, "a");
    assert "a" !in {"b"};
    assert "a" in SweptSessions(m.backend, waited)
      <==> m.backend.SweepsOnPut? && Expired(ChallengeNonce(value, clock), clock + d, m.backend.ttl);
  }

  lemma {:induction false} LoginAfterSweep(m: Machine, b: Backend, clock: int, cas: seq<Certificate>, value: string, other: string, d: nat,
                        token: AuthToken, ocsp: Revocation)
    requires !b.KeyExpiry?
    requires d <= m.ttl <= GoTime.MAX_INT64
    requires ValidatorAccepts(m, value, token, clock + d, SnapshotOf(cas), ocsp)
    ensures var st := On(m, b, clock, cas, SweptMeanwhile(value, other, d, token, ocsp));
      IsAccepted(st, 2) <==> (b.SweepsOnPut? ==> d <= b.ttl)
  {
    var mb, st0 := m.(backend := b), Initial(clock, cas);
    var before := ChallengeThenWait(value, d) + ChallengeEvents(1, "b", other);
    AfterOther(mb, clock, cas, value, other, d);
    RunConcat(mb, st0, before, LoginEvents(2, "a", token, false, ocsp));
    AcceptedExactly(mb, Run(mb, st0, before), 2, "a", token, false, ocsp);
  }

  lemma {:induction false} KeptAcrossChallenge(m: Machine, st: State, c: nat, session: string, value: string, k: string)
    requires c !in st.requests && k in st.entries && k != session
    ensures var st' := Run(m, st, ChallengeEvents(c, session, value));
      k in st'.entries ==> st'.entries[k] == st.entries[k]
  {
    var st1 := Step(m, st, Stamp(c, session, value));
    RunFirst(m, st, Stamp(c, session, value), [Put(c)]);
    RunFirst(m, st1, Put(c), []);
    assert [Stamp(c, session, value)] + [Put(c)] == ChallengeEvents(c, session, value);
    assert [Put(c)] + [] == [Put(c)];
  }

  /** The in-memory store accepts the same logins as one that never sweeps, in every
      run, exactly when the lifetime login enforces is no longer than the store's:
      the two are configured separately when the store is replaced. */
  lemma {:induction false} SweepRefinesExactly(m: Machine, ttl: int, clock: int, cas: seq<Certificate>, value: string, other: string,
                            token: AuthToken, ocsp: Revocation)
    requires 0 < ttl && m.ttl <= GoTime.MAX_INT64
    requires m.ttl > ttl ==> ValidatorAccepts(m, value, token, clock + ttl + 1, SnapshotOf(cas), ocsp)
    ensures (forall events :: SameAccepted(On(m, SweepsOnPut(ttl), clock, cas, events), On(m, NeverSweeps, clock, cas, events)))
       <==> m.ttl <= ttl
  {
    if m.ttl <= ttl {
      forall events
        ensures SameAccepted(On(m, SweepsOnPut(ttl), clock, cas, events), On(m, NeverSweeps, clock, cas, events))
      {
        SweepRefines(m, ttl, clock, cas, events);
      }
    } else {
      var events := SweptMeanwhile(value, other, ttl + 1, token, ocsp);
      LoginAfterSweep(m, SweepsOnPut(ttl), clock, cas, value, other, ttl + 1, token, ocsp);
      LoginAfterSweep(m, NeverSweeps, clock, cas, value, other, ttl + 1, token, ocsp);
      assert !SameAccepted(On(m, SweepsOnPut(ttl), clock, cas, events), On(m, NeverSweeps, clock, cas, events));
    }
  }

  // ------------------------------------------------ one set or two

  /** The steps of a login during whose validation another set is loaded, after the
      chain check and before the issuer is looked up. */
  function ReloadedSteps(next: seq<Certificate>, ocsp: Revocation): (events: seq<Event>) {
    [CheckExpiry(1), Begin(1), ReadTrust(1), Reload(next), Finish(1, ocsp)]
  }

  /** A challenge for session "a" and such a login. */
  function ReloadedMeanwhile(value: string, token: AuthToken, next: seq<Certificate>, ocsp: Revocation): (events: seq<Event>) {
    ChallengeEvents(0, "a", value) + ([Take(1, "a", token, false)] + ReloadedSteps(next, ocsp))
  }

  lemma {:induction false} ReloadedEnding(m: Machine, st: State, next: seq<Certificate>, ocsp: Revocation)
    requires 1 in st.requests && st.requests[1].Taken? && next != []
    ensures var st' := Run(m, st, ReloadedSteps(next, ocsp));
      && 1 in st'.requests
      && st'.requests[1] == Ending(m, st.requests[1].login, st, st, st, Step(m, st, Reload(next)), ocsp)
  {
    InterleavedLogin(m, st, 1, [], [], [], [Reload(next)], ocsp);
    assert [] + [CheckExpiry(1)] + [] + [Begin(1)] + [] + [ReadTrust(1)] + [Reload(next)] + [Finish(1, ocsp)] == ReloadedSteps(next, ocsp);
    var c := Step(m, Step(m, Step(m, st, CheckExpiry(1)), Begin(1)), ReadTrust(1));
    assert Run(m, c, [Reload(next)]) == Step(m, c, Reload(next)) by {
      assert [Reload(next)][..0] == [];
    }
  }

  lemma {:induction false} AfterTake(m: Machine, clock: int, cas: seq<Certificate>, value: string, token: AuthToken)
    requires m.backend.KeyExpiry? ==> m.backend.ttl > 0
    ensures var st := Step(m, Run(m, Initial(clock, cas), ChallengeEvents(0, "a", value)), Take(1, "a", token, false));
      && st.clock == clock && st.past == [] && st.trust == SnapshotOf(cas)
      && 1 in st.requests
      && st.requests[1] == Taken(Login("a", token, Entry(0, 0, "a", ChallengeNonce(value, clock), clock)))
  {
    UninterruptedChallenge(m, Initial(clock, cas), 0, "a", value);
  }

  lemma {:induction false} ReloadedRun(m: Machine, clock: int, cas: seq<Certificate>, next: seq<Certificate>, value: string, token: AuthToken, ocsp: Revocation)
    requires next != [] && (m.backend.KeyExpiry? ==> m.backend.ttl > 0)
    ensures IsAccepted(Run(m, Initial(clock, cas), ReloadedMeanwhile(value, token, next, ocsp)), 1)
       <==> Verdict(m, ChallengeNonce(value, clock), token, clock, clock, SnapshotOf(cas), SnapshotOf(next), ocsp).Ok?
  {
    var st0, take := Initial(clock, cas), Take(1, "a", token, false);
    var st := Run(m, st0, ChallengeEvents(0, "a", value));
    AfterTake(m, clock, cas, value, token);
    RunConcat(m, st0, ChallengeEvents(0, "a", value), [take] + ReloadedSteps(next, ocsp));
    RunFirst(m, st, take, ReloadedSteps(next, ocsp));
    ReloadedEnding(m, Step(m, st, take), next, ocsp);
  }

  /** A login can be accepted although each of the two sets, alone, refuses it: the
      chain is checked against one set and the issuer taken from the next. */
  lemma {:induction false} TwoSets(b: Backend, ttl: int, cfg: Config, clock: int, cas: seq<Certificate>, next: seq<Certificate>,
                value: string, token: AuthToken, cert: Certificate, ocsp: Revocation)
    requires 0 <= ttl && (b.KeyExpiry? ==> b.ttl > 0) && next != []
    requires BeforeTrust(cfg, Some(token), value, clock) == Ok(cert)
    requires ChainError(cfg, cert, clock, SnapshotOf(cas)).None? && ChainError(cfg, cert, clock, SnapshotOf(next)).Some?
    requires AfterTrust(cfg, token, cert, value, SnapshotOf(next), ocsp).None?
    requires AfterTrust(cfg, token, cert, value, SnapshotOf(cas), ocsp).Some?
    ensures IsAccepted(Run(WebEid(b, ttl, cfg), Initial(clock, cas), ReloadedMeanwhile(value, token, next, ocsp)), 1)
    ensures Outcome(cfg, Some(token), value, clock, SnapshotOf(cas), SnapshotOf(cas), ocsp).Err?
    ensures Outcome(cfg, Some(token), value, clock, SnapshotOf(next), SnapshotOf(next), ocsp).Err?
    ensures cfg.ocspEnabled && SnapshotOf(cas) != SnapshotOf(next)
  {
    ReloadedRun(WebEid(b, ttl, cfg), clock, cas, next, value, token, ocsp);
  }

  /** A card certificate and its issuer, which has expired. */
  const LEAF := Certificate([1], 0, 10, 1, [EKU_CLIENT_AUTH], [], Signature.Rsa(Signature.RsaKey(33, 3)), "CN")
  const ISSUER := Certificate([2], 0, 4, 0, [], [], Signature.Rsa(Signature.RsaKey(35, 5)), "CA")

  /** Libraries for which a pinned certificate chains and an expired issuer does not,
      and every signature verifies. */
  function Permissive(): (cfg: Config) {
    Config(["https://rp.example"], true, [],
           Pki(_ => Some(LEAF), _ => Some([1]), _ => [], _ => None,
               (pool: set<Certificate>, cert, now, usages) => cert in pool,
               (cert, ca) => ca == ISSUER),
           Signature.Crypto((h, data) => [], (k, d, r, s) => true, (k, h, d, s) => true, (k, h, d, s) => true))
  }

  /** Such sets exist: the first pins the certificate itself and holds no issuer, the
      second holds its issuer, which no longer chains. */
  lemma {:induction false} TwoSetsExist(b: Backend)
    requires b.KeyExpiry? ==> b.ttl > 0
    ensures var token := AuthToken("", "RS256", "");
      var good: Revocation := (cert, ca) => None;
      && IsAccepted(Run(WebEid(b, 300, Permissive()), Initial(5, [LEAF]), ReloadedMeanwhile("n", token, [ISSUER], good)), 1)
      && Outcome(Permissive(), Some(token), "n", 5, SnapshotOf([LEAF]), SnapshotOf([LEAF]), good).Err?
      && Outcome(Permissive(), Some(token), "n", 5, SnapshotOf([ISSUER]), SnapshotOf([ISSUER]), good).Err?
  {
    var cfg, token := Permissive(), AuthToken("", "RS256", "");
    var good: Revocation := (cert, ca) => None;
    assert BeforeTrust(cfg, Some(token), "n", 5) == Ok(LEAF);
    assert cfg.origins[0] in cfg.origins && SignedAt(cfg, LEAF, "RS256", [1], cfg.origins[0], "n");
    assert cfg.pki.issuedBy(LEAF, [ISSUER][0]) && !cfg.pki.issuedBy(LEAF, [LEAF][0]);
    TwoSets(b, 300, cfg, 5, [LEAF], [ISSUER], "n", token, LEAF, good);
  }
}
