/** Sessions do not disturb one another: the logins of a session are accepted as if
    all other sessions' requests had never been made. */
module SessionIsolation {
  import opened Wrappers
  import opened Certificates
  import opened Validator
  import opened LoginProtocol
  import opened LoginSafety
  import opened StoreEquivalence
  import opened LoginRuns
  import GoTime

  predicate Opens(e: Event, r: nat) {
    (e.Stamp? || e.Take?) && e.request == r
  }

  function OwnerAfter(s: Option<string>, e: Event, r: nat): (s': Option<string>) {
    if s.None? && Opens(e, r) then Some(e.session) else s
  }

  /** The session of a request: that of the step that started it. */
  function Owner(events: seq<Event>, r: nat): (s: Option<string>) {
    if events == [] then None
    else
      OwnerAfter(Owner(events[..|events| - 1], r), events[|events| - 1], r)
  }

  /** The last step is one of the session's requests, or no request's. */
  predicate LastConcerns(s: string, events: seq<Event>)
    requires events != []
  {
    var e := events[|events| - 1];
    e.Tick? || e.Reload? || Owner(events, e.request) == Some(s)
  }

  /** The run without the requests of other sessions. */
  function Only(s: string, events: seq<Event>): (own: seq<Event>) {
    if events == [] then []
    else Only(s, events[..|events| - 1]) + if LastConcerns(s, events) then [events[|events| - 1]] else []
  }

  // ------------------------------------------------ what a session sees

  /** An entry without its place among all puts, which other sessions do change. */
  function Unnumbered(e: Entry): (e': Entry) {
    e.(id := 0)
  }

  function UnnumberedLogin(l: Login): (l': Login) {
    l.(entry := Unnumbered(l.entry))
  }

  function UnnumberedPhase(ph: Phase): (ph': Phase) {
    match ph
    case Stored(e) => Stored(Unnumbered(e))
    case Taken(l) => Taken(UnnumberedLogin(l))
    case Fresh(l, c) => Fresh(UnnumberedLogin(l), c)
    case Validating(l, c, now, cert) => Validating(UnnumberedLogin(l), c, now, cert)
    case Chained(l, c, now, cert, first) => Chained(UnnumberedLogin(l), c, now, cert, first)
    case Accepted(l, c, now, cert, first, second, ocsp) => Accepted(UnnumberedLogin(l), c, now, cert, first, second, ocsp)
    case _ => ph
  }

  ghost predicate SameWorldSeen(a: State, b: State) {
    a.clock == b.clock && a.past == b.past && a.trust == b.trust
  }

  ghost predicate SameNonce(s: string, a: State, b: State) {
    && (s in a.entries <==> s in b.entries)
    && (s in a.entries ==> Unnumbered(a.entries[s]) == Unnumbered(b.entries[s]))
  }

  /** Every request of the whole run has its owner's session. */
  ghost predicate Owned(events: seq<Event>, a: State) {
    && (forall r :: r in a.requests <==> Owner(events, r).Some?)
    && (forall r :: r in a.requests && a.requests[r].Stamped? ==> Owner(events, r) == Some(a.requests[r].session))
  }

  ghost predicate SameRequests(s: string, events: seq<Event>, a: State, b: State) {
    && (forall r :: r in b.requests <==> Owner(events, r) == Some(s))
    && (forall r :: r in a.requests && r in b.requests ==> UnnumberedPhase(a.requests[r]) == UnnumberedPhase(b.requests[r]))
  }

  /** Session s cannot tell the whole run from its own. */
  ghost predicate Alike(s: string, events: seq<Event>, a: State, b: State) {
    SameWorldSeen(a, b) && SameNonce(s, a, b) && Owned(events, a) && SameRequests(s, events, a, b)
  }

  lemma {:induction false} OwnerSnoc(init: seq<Event>, e: Event)
    ensures forall r :: Owner(init + [e], r) == OwnerAfter(Owner(init, r), e, r)
  {
    assert (init + [e])[..|init|] == init;
  }

  lemma {:induction false} OwnedStep(m: Machine, init: seq<Event>, e: Event, a: State)
    requires Owned(init, a)
    ensures Owned(init + [e], Step(m, a, e))
  {
    OwnerSnoc(init, e);
  }

  /** No step looks at an entry's number. */
  lemma {:induction false} AdvanceUnnumbered(m: Machine, st: State, ph: Phase, e: Event)
    ensures UnnumberedPhase(Advance(m, st, ph, e)) == Advance(m, st, UnnumberedPhase(ph), e)
  {
  }

  lemma {:induction false} KeptAdvance(m: Machine, s: string, init: seq<Event>, e: Event, a: State, b: State)
    requires Alike(s, init, a, b) && Advances(e) && e.request in a.requests && e.request in b.requests
    ensures Alike(s, init + [e], Step(m, a, e), Step(m, b, e))
  {
    OwnerSnoc(init, e);
    OwnedStep(m, init, e, a);
    AdvanceUnnumbered(m, a, a.requests[e.request], e);
    AdvanceUnnumbered(m, b, b.requests[e.request], e);
    assert Advance(m, a, UnnumberedPhase(a.requests[e.request]), e) == Advance(m, b, UnnumberedPhase(b.requests[e.request]), e);
  }

  lemma {:induction false} KeptPut(m: Machine, s: string, init: seq<Event>, r: nat, a: State, b: State)
    requires !m.backend.SweepsOnPut? && Alike(s, init, a, b) && r in a.requests && r in b.requests && a.requests[r].Stamped?
    ensures Alike(s, init + [Put(r)], Step(m, a, Put(r)), Step(m, b, Put(r)))
  {
    OwnerSnoc(init, Put(r));
    OwnedStep(m, init, Put(r), a);
    assert b.requests[r] == a.requests[r] && a.requests[r].session == s;
  }

  lemma {:induction false} KeptStamp(m: Machine, s: string, init: seq<Event>, e: Event, a: State, b: State)
    requires Alike(s, init, a, b) && e.Stamp? && e.session == s && e.request !in a.requests
    ensures Alike(s, init + [e], Step(m, a, e), Step(m, b, e))
  {
    OwnerSnoc(init, e);
    OwnedStep(m, init, e, a);
  }

  lemma {:induction false} KeptTake(m: Machine, s: string, init: seq<Event>, e: Event, a: State, b: State)
    requires Alike(s, init, a, b) && e.Take? && e.session == s && e.request !in a.requests
    ensures Alike(s, init + [e], Step(m, a, e), Step(m, b, e))
  {
    OwnerSnoc(init, e);
    OwnedStep(m, init, e, a);
    TakesAlike(m, e, a, b);
    assert SameNonce(s, Step(m, a, e), Step(m, b, e));
  }

  lemma {:induction false} TakesAlike(m: Machine, e: Event, a: State, b: State)
    requires e.Take? && SameWorldSeen(a, b) && SameNonce(e.session, a, b)
    ensures var a', b' := TakeNonce(m, a, e.request, e.session, e.token, e.lingers), TakeNonce(m, b, e.request, e.session, e.token, e.lingers);
      UnnumberedPhase(a'.requests[e.request]) == UnnumberedPhase(b'.requests[e.request])
  {
  }

  lemma {:induction false} KeptWorld(m: Machine, s: string, init: seq<Event>, e: Event, a: State, b: State)
    requires Alike(s, init, a, b) && (e.Tick? || e.Reload?)
    ensures Alike(s, init + [e], Step(m, a, e), Step(m, b, e))
  {
    OwnerSnoc(init, e);
  }

  /** A step that starts no request changes no owner. */
  lemma {:induction false} KeptNothing(s: string, init: seq<Event>, e: Event, a: State, b: State)
    requires Alike(s, init, a, b) && (e.Stamp? || e.Take? ==> e.request in a.requests)
    ensures Alike(s, init + [e], a, b)
  {
    OwnerSnoc(init, e);
  }

  lemma {:induction false} ConcernsBoth(s: string, init: seq<Event>, e: Event, a: State, b: State)
    requires Alike(s, init, a, b) && LastConcerns(s, init + [e]) && !e.Tick? && !e.Reload?
    ensures e.request in a.requests <==> e.request in b.requests
    ensures e.request !in a.requests ==> (e.Stamp? || e.Take?) && e.session == s
    ensures e.request in a.requests ==> (a.requests[e.request].Stamped? <==> b.requests[e.request].Stamped?)
  {
    OwnerSnoc(init, e);
  }

  /** A step of the session, or of the world, is taken alike in both runs. */
  lemma {:induction false} KeptStep(m: Machine, s: string, init: seq<Event>, e: Event, a: State, b: State)
    requires !m.backend.SweepsOnPut? && Alike(s, init, a, b) && LastConcerns(s, init + [e])
    ensures Alike(s, init + [e], Step(m, a, e), Step(m, b, e))
  {
    if e.Tick? || e.Reload? {
      KeptWorld(m, s, init, e, a, b);
    } else {
      ConcernsBoth(s, init, e, a, b);
      if e.request !in a.requests {
        if e.Stamp? { KeptStamp(m, s, init, e, a, b); } else { KeptTake(m, s, init, e, a, b); }
      } else if e.Put? && a.requests[e.request].Stamped? {
        KeptPut(m, s, init, e.request, a, b);
      } else if Advances(e) {
        KeptAdvance(m, s, init, e, a, b);
      } else {
        KeptNothing(s, init, e, a, b);
      }
    }
  }

  /** A step of another session leaves what this one sees. */
  lemma {:induction false} DroppedStep(m: Machine, s: string, init: seq<Event>, e: Event, a: State, b: State)
    requires !m.backend.SweepsOnPut? && Alike(s, init, a, b) && !LastConcerns(s, init + [e])
    ensures Alike(s, init + [e], Step(m, a, e), b)
  {
    OwnerSnoc(init, e);
    OwnedStep(m, init, e, a);
  }

  lemma {:induction false} AlikeRun(m: Machine, s: string, clock: int, cas: seq<Certificate>, events: seq<Event>)
    requires !m.backend.SweepsOnPut?
    ensures Alike(s, events, Run(m, Initial(clock, cas), events), Run(m, Initial(clock, cas), Only(s, events)))
  {
    if events != [] {
      var init, e := events[..|events| - 1], events[|events| - 1];
      var a, b := Run(m, Initial(clock, cas), init), Run(m, Initial(clock, cas), Only(s, init));
      AlikeRun(m, s, clock, cas, init);
      assert events == init + [e];
      if LastConcerns(s, events) {
        KeptStep(m, s, init, e, a, b);
        assert Only(s, events)[..|Only(s, init)|] == Only(s, init);
      } else {
        DroppedStep(m, s, init, e, a, b);
        assert Only(s, events) == Only(s, init);
      }
    }
  }

  // ------------------------------------------------ isolation

  /** The request ends alike, in an acceptance with the same data or in none. */
  ghost predicate SameAnswer(a: State, b: State, r: nat) {
    && (IsAccepted(a, r) <==> IsAccepted(b, r))
    && (IsAccepted(a, r) ==> UnnumberedPhase(a.requests[r]) == UnnumberedPhase(b.requests[r]))
  }

  lemma {:induction false} IsolatedUnswept(m: Machine, clock: int, cas: seq<Certificate>, events: seq<Event>, r: nat, s: string)
    requires !m.backend.SweepsOnPut? && Owner(events, r) == Some(s)
    ensures SameAnswer(Run(m, Initial(clock, cas), events), Run(m, Initial(clock, cas), Only(s, events)), r)
  {
    AlikeRun(m, s, clock, cas, events);
    var a, b := Run(m, Initial(clock, cas), events), Run(m, Initial(clock, cas), Only(s, events));
    assert r in a.requests && r in b.requests;
    AcceptedUnnumbered(a.requests[r], b.requests[r]);
  }

  lemma {:induction false} AcceptedUnnumbered(ph: Phase, ph': Phase)
    requires UnnumberedPhase(ph) == UnnumberedPhase(ph')
    ensures ph.Accepted? <==> ph'.Accepted?
  {
  }

  /** In every run, deleting all requests of other sessions leaves each request of a
      session with the same answer: over Redis always, and over the in-memory store
      when login enforces no longer a lifetime than the store's. */
  lemma {:induction false} Isolated(m: Machine, clock: int, cas: seq<Certificate>, events: seq<Event>, r: nat, s: string)
    requires m.backend.SweepsOnPut? ==> m.ttl <= m.backend.ttl
    requires Owner(events, r) == Some(s)
    ensures SameAnswer(Run(m, Initial(clock, cas), events), Run(m, Initial(clock, cas), Only(s, events)), r)
  {
    if m.backend.SweepsOnPut? {
      var plain := m.(backend := NeverSweeps);
      SweepRefines(m, m.backend.ttl, clock, cas, events);
      SweepRefines(m, m.backend.ttl, clock, cas, Only(s, events));
      IsolatedUnswept(plain, clock, cas, events, r, s);
      assert m.(backend := SweepsOnPut(m.backend.ttl)) == m;
      var a, b := Run(m, Initial(clock, cas), events), Run(plain, Initial(clock, cas), events);
      assert IsAccepted(a, r) <==> IsAccepted(b, r);
      var c, d := Run(m, Initial(clock, cas), Only(s, events)), Run(plain, Initial(clock, cas), Only(s, events));
      assert IsAccepted(c, r) <==> IsAccepted(d, r);
    } else {
      IsolatedUnswept(m, clock, cas, events, r, s);
    }
  }

  // ------------------------------------------------ and exactly then

  lemma {:induction false} OwnerStays(events: seq<Event>, n: nat, r: nat)
    requires n <= |events|
    requires Owner(events[..n], r).Some? || forall i :: n <= i < |events| ==> !Opens(events[i], r)
    ensures Owner(events, r) == Owner(events[..n], r)
  {
    if n == |events| {
      assert events[..n] == events;
    } else {
      var init := events[..|events| - 1];
      assert init[..n] == events[..n];
      OwnerStays(init, n, r);
    }
  }

  /** Steps of requests the session has already started are all kept. */
  lemma {:induction false} KeepsAll(s: string, events: seq<Event>, n: nat)
    requires n <= |events|
    requires forall i :: n <= i < |events| ==>
      events[i].Tick? || events[i].Reload? || Owner(events[..n], events[i].request) == Some(s)
    ensures Only(s, events) == Only(s, events[..n]) + events[n..]
  {
    if n == |events| {
      assert events[..n] == events;
    } else {
      var init, e := events[..|events| - 1], events[|events| - 1];
      assert init[..n] == events[..n];
      KeepsAll(s, init, n);
      if !e.Tick? && !e.Reload? {
        OwnerStays(events, n, e.request);
      }
    }
  }

  /** A step that starts a request is kept exactly when the request is the session's. */
  lemma {:induction false} KeepsOpening(s: string, events: seq<Event>, n: nat)
    requires n < |events| && (events[n].Stamp? || events[n].Take?)
    requires forall i :: 0 <= i < n ==> !Opens(events[i], events[n].request)
    ensures Owner(events[..n + 1], events[n].request) == Some(events[n].session)
    ensures Only(s, events[..n + 1]) == Only(s, events[..n]) + if events[n].session == s then [events[n]] else []
  {
    OwnerStays(events[..n], 0, events[n].request);
    assert events[..n + 1][..n] == events[..n];
  }

  /** A step of a request another session has started is dropped. */
  lemma {:induction false} DropsStep(s: string, events: seq<Event>, n: nat)
    requires n < |events| && !events[n].Tick? && !events[n].Reload?
    requires Owner(events[..n], events[n].request).Some? && Owner(events[..n], events[n].request) != Some(s)
    ensures Only(s, events[..n + 1]) == Only(s, events[..n])
  {
    assert events[..n + 1][..n] == events[..n];
  }

  /** A request of the session, from its start on, is kept. */
  lemma {:induction false} KeepsRequest(s: string, events: seq<Event>, n: nat)
    requires n < |events| && (events[n].Stamp? || events[n].Take?) && events[n].session == s
    requires forall i :: 0 <= i < n ==> !Opens(events[i], events[n].request)
    requires forall i :: n < i < |events| ==> events[i].Tick? || (!events[i].Reload? && events[i].request == events[n].request)
    ensures Only(s, events) == Only(s, events[..n]) + events[n..]
    ensures Owner(events, events[n].request) == Some(s)
  {
    KeepsOpening(s, events, n);
    KeepsAll(s, events, n + 1);
    OwnerStays(events, n + 1, events[n].request);
    assert events[n..] == [events[n]] + events[n + 1..];
  }

  /** A challenge of another session is dropped. */
  lemma {:induction false} DropsChallenge(s: string, events: seq<Event>, n: nat)
    requires n + 2 == |events| && events[n].Stamp? && events[n].session != s && events[n + 1] == Put(events[n].request)
    requires forall i :: 0 <= i < n ==> !Opens(events[i], events[n].request)
    ensures Only(s, events) == Only(s, events[..n])
  {
    KeepsOpening(s, events, n);
    DropsStep(s, events, n + 1);
    assert events[..n + 2] == events;
  }

  /** Without the other session, only the challenge, the pause and the login remain. */
  lemma {:induction false} OnlySwept(value: string, other: string, d: nat, token: AuthToken, ocsp: Revocation)
    ensures Only("a", SweptMeanwhile(value, other, d, token, ocsp)) == ChallengeThenWait(value, d) + LoginEvents(2, "a", token, false, ocsp)
    ensures Owner(SweptMeanwhile(value, other, d, token, ocsp), 2) == Some("a")
  {
    var p, login := ChallengeThenWait(value, d), LoginEvents(2, "a", token, false, ocsp);
    var q := p + ChallengeEvents(1, "b", other);
    KeepsRequest("a", p, 0);
    assert p[..0] == [] && p[0..] == p;
    DropsChallenge("a", q, 3);
    assert q[..3] == p;
    KeepsRequest("a", q + login, 5);
    assert (q + login)[..5] == q && (q + login)[5..] == login;
  }

  /** The in-memory store isolates sessions, in every run, exactly when the lifetime
      login enforces is no longer than the store's: otherwise another session's
      challenge can sweep a nonce that login would still accept. */
  lemma {:induction false} IsolatedExactly(m: Machine, clock: int, cas: seq<Certificate>, value: string, other: string, token: AuthToken, ocsp: Revocation)
    requires m.backend.SweepsOnPut? && 0 < m.backend.ttl && m.ttl <= GoTime.MAX_INT64
    requires m.ttl > m.backend.ttl ==> ValidatorAccepts(m, value, token, clock + m.backend.ttl + 1, SnapshotOf(cas), ocsp)
    ensures (forall events, r, s :: Owner(events, r) == Some(s) ==>
               SameAnswer(Run(m, Initial(clock, cas), events), Run(m, Initial(clock, cas), Only(s, events)), r))
       <==> m.ttl <= m.backend.ttl
  {
    if m.ttl <= m.backend.ttl {
      forall events, r, s | Owner(events, r) == Some(s)
        ensures SameAnswer(Run(m, Initial(clock, cas), events), Run(m, Initial(clock, cas), Only(s, events)), r)
      {
        Isolated(m, clock, cas, events, r, s);
      }
    } else {
      var d := m.backend.ttl + 1;
      var events := SweptMeanwhile(value, other, d, token, ocsp);
      OnlySwept(value, other, d, token, ocsp);
      LoginAfterSweep(m, m.backend, clock, cas, value, other, d, token, ocsp);
      WaitAccepted(m, clock, cas, value, d, token, ocsp);
      assert m.(backend := m.backend) == m;
      assert !SameAnswer(Run(m, Initial(clock, cas), events), Run(m, Initial(clock, cas), Only("a", events)), 2);
    }
  }

  lemma {:induction false} WaitAccepted(m: Machine, clock: int, cas: seq<Certificate>, value: string, d: nat, token: AuthToken, ocsp: Revocation)
    requires m.backend.SweepsOnPut? && d <= m.ttl <= GoTime.MAX_INT64
    requires ValidatorAccepts(m, value, token, clock + d, SnapshotOf(cas), ocsp)
    ensures IsAccepted(Run(m, Initial(clock, cas), ChallengeThenWait(value, d) + LoginEvents(2, "a", token, false, ocsp)), 2)
  {
    AfterWait(m, clock, cas, value, d);
    RunConcat(m, Initial(clock, cas), ChallengeThenWait(value, d), LoginEvents(2, "a", token, false, ocsp));
    AcceptedExactly(m, Run(m, Initial(clock, cas), ChallengeThenWait(value, d)), 2, "a", token, false, ocsp);
  }
}
