/** azugo/routes.go with nonce.go and certificate/trust.go: challenge and login
    requests as interleaved steps over one clock, one nonce store and one
    reloadable trust store. Each request has its own phase; a step that does not
    apply to the phase of its request changes nothing, so every sequence of
    events is a run. */
module LoginProtocol {
  import opened Wrappers
  import opened NonceStore
  import opened Certificates
  import opened Validator

  /** How the store forgets nonces nobody takes: never, by the in-memory sweep on
      Put, or by Redis key expiry. */
  datatype Backend = NeverSweeps | SweepsOnPut(ttl: int) | KeyExpiry(ttl: int)

  /** The deployment: its store, the lifetime login enforces, and the validator cut
      at its two readings of the trusted set. */
  datatype Machine = Machine(
    backend: Backend,
    ttl: int,
    before: (AuthToken, string, int) -> Result<Certificate, Error>,
    chain: (Certificate, int, Snapshot) -> Option<Error>,
    after: (AuthToken, Certificate, string, Snapshot, Revocation) -> Option<Error>)

  /** The deployment of the authentication-token validator. */
  function WebEid(backend: Backend, ttl: int, cfg: Config): (m: Machine) {
    Machine(backend, ttl,
            (token, nonce, now) => BeforeTrust(cfg, Some(token), nonce, now),
            (cert, now, set') => ChainError(cfg, cert, now, set'),
            (token, cert, nonce, set', ocsp: Revocation) => AfterTrust(cfg, token, cert, nonce, set', ocsp))
  }

  /** One Put: the challenge request that made it, its session, its nonce, its time. */
  datatype Entry = Entry(id: nat, by': nat, session: string, nonce: ChallengeNonce, at: int)

  /** Where a stored nonce that is no longer live has gone. */
  datatype Fate = Consumed(request: nat) | Replaced | Swept

  /** A login that has taken a nonce from the store. */
  datatype Login = Login(session: string, token: AuthToken, entry: Entry)

  /** The program counters of challenge (two) and login (the rest). The last two
      record the sets, counted from the first, in force at Validate's chain check and
      at its last step, which reads the set if revocation is checked. */
  datatype Phase =
    | Stamped(session: string, nonce: ChallengeNonce)
    | Stored(stored: Entry)
    | Taken(login: Login)
    | Fresh(login: Login, checkedAt: int)
    | Validating(login: Login, checkedAt: int, now: int, cert: Certificate)
    | Chained(login: Login, checkedAt: int, now: int, cert: Certificate, first: nat)
    | Accepted(login: Login, checkedAt: int, now: int, cert: Certificate, first: nat, second: nat, ocsp: Revocation)
    | Rejected(error: Error)

  datatype State = State(
    clock: int,
    entries: map<string, Entry>,
    puts: seq<Entry>,
    fates: map<nat, Fate>,
    requests: map<nat, Phase>,
    past: seq<Snapshot>,
    trust: Snapshot)

  /** The steps. A Take says whether a Redis key at its very deadline is still there. */
  datatype Event =
    | Tick(by': nat)
    | Stamp(request: nat, session: string, value: string)
    | Put(request: nat)
    | Take(request: nat, session: string, token: AuthToken, lingers: bool)
    | CheckExpiry(request: nat)
    | Begin(request: nat)
    | ReadTrust(request: nat)
    | Finish(request: nat, ocsp: Revocation)
    | Reload(cas: seq<Certificate>)

  function Initial(clock: int, cas: seq<Certificate>): (st: State) {
    State(clock, map[], [], map[], map[], [], SnapshotOf(cas))
  }

  /** The sessions whose nonce a Put at this moment sweeps. */
  function SweptSessions(b: Backend, st: State): (gone: set<string>) {
    if b.SweepsOnPut? then set k | k in st.entries && Expired(st.entries[k].nonce, st.clock, b.ttl) else {}
  }

  function Sweep(b: Backend, st: State): (st': State) {
    var gone := SweptSessions(b, st);
    st.(entries := st.entries - gone,
        fates := st.fates + map k | k in gone :: st.entries[k].id := Swept)
  }

  function Insert(st: State, r: nat, session: string, nonce: ChallengeNonce): (st': State) {
    var e := Entry(|st.puts|, r, session, nonce, st.clock);
    st.(entries := st.entries[session := e],
        puts := st.puts + [e],
        fates := if session in st.entries then st.fates[st.entries[session].id := Replaced] else st.fates,
        requests := st.requests[r := Stored(e)])
  }

  function PutNonce(m: Machine, st: State, r: nat, session: string, nonce: ChallengeNonce): (st': State) {
    Insert(Sweep(m.backend, st), r, session, nonce)
  }

  /** Whether a Take finds the entry: Redis may have expired its key. */
  predicate Found(b: Backend, e: Entry, clock: int, lingers: bool) {
    b.KeyExpiry? ==> Readable(e.at + b.ttl, clock, lingers)
  }

  function TakeNonce(m: Machine, st: State, r: nat, session: string, token: AuthToken, lingers: bool): (st': State) {
    if session !in st.entries then st.(requests := st.requests[r := Rejected(NonceNotFound)])
    else
      var e := st.entries[session];
      var found := Found(m.backend, e, st.clock, lingers);
      st.(entries := st.entries - {session},
          fates := st.fates[e.id := if found then Consumed(r) else Swept],
          requests := st.requests[r := if found then Taken(Login(session, token, e)) else Rejected(NonceNotFound)])
  }

  /** The steps of a login after it has taken its nonce. */
  predicate Advances(e: Event) {
    e.CheckExpiry? || e.Begin? || e.ReadTrust? || e.Finish?
  }

  /** The next phase of a login request, for the steps that do not touch the store. */
  function Advance(m: Machine, st: State, ph: Phase, e: Event): (ph': Phase) {
    match (ph, e)
    case (Taken(l), CheckExpiry(_)) =>
      if Expired(l.entry.nonce, st.clock, m.ttl) then Rejected(NonceExpired) else Fresh(l, st.clock)
    case (Fresh(l, c), Begin(_)) =>
      (match m.before(l.token, l.entry.nonce.value, st.clock)
       case Err(err) => Rejected(err)
       case Ok(cert) => Validating(l, c, st.clock, cert))
    case (Validating(l, c, now, cert), ReadTrust(_)) =>
      (match m.chain(cert, now, st.trust)
       case Some(err) => Rejected(err)
       case None => Chained(l, c, now, cert, |st.past|))
    case (Chained(l, c, now, cert, first), Finish(_, ocsp)) =>
      (match m.after(l.token, cert, l.entry.nonce.value, st.trust, ocsp)
       case Some(err) => Rejected(err)
       case None => Accepted(l, c, now, cert, first, |st.past|, ocsp))
    case _ => ph
  }

  function Step(m: Machine, st: State, e: Event): (st': State) {
    match e
    case Tick(d) => st.(clock := st.clock + d)
    case Reload(cas) => st.(past := if cas == [] then st.past else st.past + [st.trust], trust := Reloaded(st.trust, cas))
    case Stamp(r, session, value) =>
      if r in st.requests then st
      else st.(requests := st.requests[r := Stamped(session, ChallengeNonce(value, st.clock))])
    case Take(r, session, token, lingers) => if r in st.requests then st else TakeNonce(m, st, r, session, token, lingers)
    case Put(r) =>
      if r in st.requests && st.requests[r].Stamped?
      then PutNonce(m, st, r, st.requests[r].session, st.requests[r].nonce) else st
    case _ =>
      if e.request in st.requests
      then st.(requests := st.requests[e.request := Advance(m, st, st.requests[e.request], e)]) else st
  }

  function Run(m: Machine, st: State, events: seq<Event>): (st': State) {
    if events == [] then st else Step(m, Run(m, st, events[..|events| - 1]), events[|events| - 1])
  }

  // ---------------------------------------------------------------- invariant

  predicate HoldsNonce(ph: Phase) {
    ph.Taken? || ph.Fresh? || ph.Validating? || ph.Chained? || ph.Accepted?
  }

  /** Every trusted set so far, the one in force last. */
  function History(st: State): (h: seq<Snapshot>)
    ensures |h| == |st.past| + 1
  {
    st.past + [st.trust]
  }

  ghost predicate Known(st: State, e: Entry) {
    e.id < |st.puts| && st.puts[e.id] == e
  }

  /** A login carries a nonce that was put for its own session and that it alone consumed. */
  ghost predicate LoginOk(st: State, r: nat, l: Login) {
    Known(st, l.entry) && l.entry.session == l.session && l.entry.id in st.fates && st.fates[l.entry.id] == Consumed(r)
  }

  ghost predicate CheckOk(m: Machine, st: State, l: Login, checkedAt: int) {
    l.entry.at <= checkedAt <= st.clock && !Expired(l.entry.nonce, checkedAt, m.ttl)
  }

  ghost predicate CertOk(m: Machine, st: State, l: Login, now: int, cert: Certificate) {
    now <= st.clock && m.before(l.token, l.entry.nonce.value, now) == Ok(cert)
  }

  ghost predicate ChainOk(m: Machine, st: State, now: int, cert: Certificate, first: nat) {
    first <= |st.past| && m.chain(cert, now, History(st)[first]).None?
  }

  ghost predicate PhaseOk(m: Machine, st: State, r: nat, ph: Phase) {
    match ph
    case Stamped(_, n) => n.issuedAt <= st.clock
    case Stored(e) => Known(st, e) && e.by' == r
    case Taken(l) => LoginOk(st, r, l)
    case Fresh(l, c) => LoginOk(st, r, l) && CheckOk(m, st, l, c)
    case Validating(l, c, now, cert) => LoginOk(st, r, l) && CheckOk(m, st, l, c) && c <= now && CertOk(m, st, l, now, cert)
    case Chained(l, c, now, cert, first) =>
      LoginOk(st, r, l) && CheckOk(m, st, l, c) && c <= now && CertOk(m, st, l, now, cert) && ChainOk(m, st, now, cert, first)
    case Accepted(l, c, now, cert, first, second, ocsp) =>
      && LoginOk(st, r, l) && CheckOk(m, st, l, c) && c <= now && CertOk(m, st, l, now, cert) && ChainOk(m, st, now, cert, first)
      && first <= second <= |st.past|
      && m.after(l.token, cert, l.entry.nonce.value, History(st)[second], ocsp).None?
    case Rejected(_) => true
  }

  ghost predicate RequestsOk(m: Machine, st: State) {
    forall r :: r in st.requests ==> PhaseOk(m, st, r, st.requests[r])
  }

  /** Each put is recorded once, under the challenge request that made it. */
  ghost predicate PutsOk(st: State) {
    forall i :: 0 <= i < |st.puts| ==>
      var e := st.puts[i];
      e.id == i && e.nonce.issuedAt <= e.at <= st.clock && e.by' in st.requests && st.requests[e.by'] == Stored(e)
  }

  /** Each put is live or has met exactly one fate. */
  ghost predicate FatesOk(st: State) {
    && (forall k :: k in st.entries ==>
          Known(st, st.entries[k]) && st.entries[k].session == k && st.entries[k].id !in st.fates)
    && (forall i :: i in st.fates ==> i < |st.puts|)
    && (forall i :: 0 <= i < |st.puts| ==>
          i in st.fates || (st.puts[i].session in st.entries && st.entries[st.puts[i].session].id == i))
  }

  /** Every set is consistent, and none that follows a non-empty one is empty. */
  ghost predicate TrustOk(h: seq<Snapshot>) {
    && (forall i :: 0 <= i < |h| ==> Consistent(h[i]))
    && (forall i, j :: 0 <= i <= j < |h| && h[i].intermediates != [] ==> h[j].intermediates != [])
  }

  /** After a sweeping Put, only its own nonce can be expired at that moment. */
  ghost predicate SweepOk(m: Machine, st: State) {
    m.backend.SweepsOnPut? && st.puts != [] ==>
      var last := st.puts[|st.puts| - 1];
      forall k :: k in st.entries ==> st.entries[k].id == |st.puts| - 1 || !Expired(st.entries[k].nonce, last.at, m.backend.ttl)
  }

  ghost predicate Inv(m: Machine, st: State) {
    RequestsOk(m, st) && PutsOk(st) && FatesOk(st) && TrustOk(History(st)) && SweepOk(m, st)
  }

  /** What no step takes back. */
  ghost predicate Extends(st: State, st': State) {
    && st.clock <= st'.clock
    && st.puts <= st'.puts
    && (forall i :: i in st.fates ==> i in st'.fates && st'.fates[i] == st.fates[i])
    && History(st) <= History(st')
  }

  /** How the i-th stored nonce ended, if it has. */
  function FateOf(st: State, i: nat): (f: Option<Fate>) {
    if i in st.fates then Some(st.fates[i]) else None
  }

  lemma {:induction false} PhaseKept(m: Machine, st: State, st': State, r: nat, ph: Phase)
    requires Extends(st, st') && PhaseOk(m, st, r, ph)
    ensures PhaseOk(m, st', r, ph)
  {
  }

  lemma {:induction false} TickKeeps(m: Machine, st: State, d: nat)
    requires Inv(m, st)
    ensures Inv(m, Step(m, st, Tick(d)))
  {
    AllKept(m, st, Step(m, st, Tick(d)));
  }

  lemma {:induction false} AllKept(m: Machine, st: State, st': State)
    requires RequestsOk(m, st) && Extends(st, st') && st'.requests == st.requests
    ensures RequestsOk(m, st')
  {
    forall r | r in st'.requests ensures PhaseOk(m, st', r, st'.requests[r]) {
      PhaseKept(m, st, st', r, st.requests[r]);
    }
  }

  lemma {:induction false} ReloadKeeps(m: Machine, st: State, cas: seq<Certificate>)
    requires Inv(m, st)
    ensures Inv(m, Step(m, st, Reload(cas)))
  {
    if cas != [] {
      var st' := Step(m, st, Reload(cas));
      assert History(st') == History(st) + [SnapshotOf(cas)];
      AllKept(m, st, st');
      TrustGrows(History(st), cas);
    }
  }

  lemma {:induction false} TrustGrows(h: seq<Snapshot>, cas: seq<Certificate>)
    requires TrustOk(h) && cas != []
    ensures TrustOk(h + [SnapshotOf(cas)])
  {
  }

  /** A step that leaves every request but r alone only has to account for r. */
  lemma {:induction false} OthersKept(m: Machine, st: State, st': State, r: nat, ph: Phase)
    requires RequestsOk(m, st) && Extends(st, st')
    requires PhaseOk(m, st', r, ph)
    requires st'.requests == st.requests[r := ph]
    ensures RequestsOk(m, st')
  {
    forall q | q in st'.requests && q != r ensures PhaseOk(m, st', q, st'.requests[q]) {
      PhaseKept(m, st, st', q, st.requests[q]);
    }
  }

  lemma {:induction false} StampKeeps(m: Machine, st: State, r: nat, session: string, value: string)
    requires Inv(m, st)
    ensures Inv(m, Step(m, st, Stamp(r, session, value)))
  {
    if r !in st.requests {
      var st' := Step(m, st, Stamp(r, session, value));
      OthersKept(m, st, st', r, st'.requests[r]);
    }
  }

  /** Inv survives a change of r's phase to one that is in order, unless r is a
      finished challenge. */
  lemma {:induction false} SetPhaseKeeps(m: Machine, st: State, r: nat, ph: Phase)
    requires Inv(m, st) && r in st.requests && PhaseOk(m, st, r, ph)
    requires st.requests[r].Stored? ==> ph == st.requests[r]
    ensures Inv(m, st.(requests := st.requests[r := ph]))
  {
    var st' := st.(requests := st.requests[r := ph]);
    PhaseKept(m, st, st', r, ph);
    OthersKept(m, st, st', r, ph);
    SamePuts(st, r, ph);
  }

  lemma {:induction false} SamePuts(st: State, r: nat, ph: Phase)
    requires PutsOk(st) && r in st.requests
    requires st.requests[r].Stored? ==> ph == st.requests[r]
    ensures PutsOk(st.(requests := st.requests[r := ph]))
  {
  }

  lemma {:induction false} AdvancedPhaseOk(m: Machine, st: State, r: nat, e: Event)
    requires Inv(m, st) && r in st.requests
    ensures PhaseOk(m, st, r, Advance(m, st, st.requests[r], e))
    ensures st.requests[r].Stored? ==> Advance(m, st, st.requests[r], e) == st.requests[r]
  {
  }

  lemma {:induction false} TakeExtends(m: Machine, st: State, r: nat, session: string, token: AuthToken, lingers: bool)
    requires FatesOk(st)
    ensures FatesOk(TakeNonce(m, st, r, session, token, lingers))
    ensures Extends(st, TakeNonce(m, st, r, session, token, lingers))
  {
  }

  /** A Take ends the life of the session's live nonce and of no other: consumed by
      the request, unless its key has expired. */
  lemma {:induction false} TakeFates(m: Machine, st: State, r: nat, session: string, token: AuthToken, lingers: bool, i: nat)
    requires FatesOk(st) && i < |st.puts|
    ensures FateOf(TakeNonce(m, st, r, session, token, lingers), i) ==
      if FateOf(st, i).Some? || st.puts[i].session != session then FateOf(st, i)
      else if Found(m.backend, st.puts[i], st.clock, lingers) then Some(Consumed(r)) else Some(Swept)
  {
  }

  lemma {:induction false} TakeRequests(m: Machine, st: State, r: nat, session: string, token: AuthToken, lingers: bool)
    requires RequestsOk(m, st) && FatesOk(st) && r !in st.requests
    ensures RequestsOk(m, TakeNonce(m, st, r, session, token, lingers))
  {
    var st' := TakeNonce(m, st, r, session, token, lingers);
    TakeExtends(m, st, r, session, token, lingers);
    if session in st.entries {
      assert Known(st, st.entries[session]) && st.entries[session].session == session;
    }
    OthersKept(m, st, st', r, st'.requests[r]);
  }

  lemma {:induction false} TakePuts(m: Machine, st: State, r: nat, session: string, token: AuthToken, lingers: bool)
    requires PutsOk(st) && SweepOk(m, st) && r !in st.requests
    ensures PutsOk(TakeNonce(m, st, r, session, token, lingers)) && SweepOk(m, TakeNonce(m, st, r, session, token, lingers))
  {
  }

  lemma {:induction false} TakeKeeps(m: Machine, st: State, r: nat, session: string, token: AuthToken, lingers: bool)
    requires Inv(m, st) && r !in st.requests
    ensures Inv(m, TakeNonce(m, st, r, session, token, lingers))
  {
    TakeExtends(m, st, r, session, token, lingers);
    TakeRequests(m, st, r, session, token, lingers);
    TakePuts(m, st, r, session, token, lingers);
  }

  lemma {:induction false} SweepExtends(b: Backend, st: State)
    requires FatesOk(st)
    ensures FatesOk(Sweep(b, st)) && Extends(st, Sweep(b, st))
  {
  }

  /** A sweep ends the life of exactly the expired live nonces. */
  lemma {:induction false} SweepFates(b: Backend, st: State, i: nat)
    requires FatesOk(st) && i < |st.puts|
    ensures FateOf(Sweep(b, st), i) ==
      if FateOf(st, i).None? && b.SweepsOnPut? && Expired(st.puts[i].nonce, st.clock, b.ttl) then Some(Swept)
      else FateOf(st, i)
  {
  }

  lemma {:induction false} InsertLive(st: State, r: nat, session: string, nonce: ChallengeNonce, k: string)
    requires FatesOk(st) && k in Insert(st, r, session, nonce).entries
    ensures var st' := Insert(st, r, session, nonce);
      Known(st', st'.entries[k]) && st'.entries[k].session == k && st'.entries[k].id !in st'.fates
  {
    if k != session {
      DistinctIds(st, k);
    }
  }

  lemma {:induction false} InsertExtends(st: State, r: nat, session: string, nonce: ChallengeNonce)
    requires FatesOk(st)
    ensures FatesOk(Insert(st, r, session, nonce)) && Extends(st, Insert(st, r, session, nonce))
  {
    var st' := Insert(st, r, session, nonce);
    forall k | k in st'.entries
      ensures Known(st', st'.entries[k]) && st'.entries[k].session == k && st'.entries[k].id !in st'.fates
    {
      InsertLive(st, r, session, nonce, k);
    }
    forall i | 0 <= i < |st.puts| && i !in st'.fates
      ensures st.puts[i].session in st'.entries && st'.entries[st.puts[i].session].id == i
    {
      InsertFates(st, r, session, nonce, i);
    }
  }

  /** Storing a nonce replaces the live nonce of that session and of no other. */
  lemma {:induction false} InsertFates(st: State, r: nat, session: string, nonce: ChallengeNonce, i: nat)
    requires FatesOk(st) && i <= |st.puts|
    ensures FateOf(Insert(st, r, session, nonce), i) ==
      if i < |st.puts| && FateOf(st, i).None? && st.puts[i].session == session then Some(Replaced) else FateOf(st, i)
    ensures i == |st.puts| ==> FateOf(Insert(st, r, session, nonce), i).None?
  {
  }

  /** No two sessions share a live nonce. */
  lemma {:induction false} DistinctIds(st: State, k: string)
    requires FatesOk(st) && k in st.entries
    ensures forall s :: s in st.entries && st.entries[s].id == st.entries[k].id ==> s == k
  {
  }

  lemma {:induction false} PutRequests(m: Machine, st: State, r: nat, session: string, nonce: ChallengeNonce)
    requires RequestsOk(m, st) && FatesOk(st)
    ensures RequestsOk(m, PutNonce(m, st, r, session, nonce))
  {
    var st1, st' := Sweep(m.backend, st), PutNonce(m, st, r, session, nonce);
    SweepExtends(m.backend, st);
    InsertExtends(st1, r, session, nonce);
    ExtendsTransitive(st, st1, st');
    OthersKept(m, st, st', r, st'.requests[r]);
  }

  lemma {:induction false} ExtendsTransitive(a: State, b: State, c: State)
    requires Extends(a, b) && Extends(b, c)
    ensures Extends(a, c)
  {
  }

  lemma {:induction false} PutSweep(m: Machine, st: State, r: nat, session: string, nonce: ChallengeNonce)
    ensures SweepOk(m, PutNonce(m, st, r, session, nonce))
  {
  }

  lemma {:induction false} PutKeeps(m: Machine, st: State, r: nat)
    requires Inv(m, st) && r in st.requests && st.requests[r].Stamped?
    ensures Inv(m, PutNonce(m, st, r, st.requests[r].session, st.requests[r].nonce))
  {
    var session, nonce := st.requests[r].session, st.requests[r].nonce;
    SweepExtends(m.backend, st);
    InsertExtends(Sweep(m.backend, st), r, session, nonce);
    PutRequests(m, st, r, session, nonce);
    PutPuts(m, st, r);
    PutSweep(m, st, r, session, nonce);
  }

  lemma {:induction false} PutPuts(m: Machine, st: State, r: nat)
    requires RequestsOk(m, st) && PutsOk(st) && r in st.requests && st.requests[r].Stamped?
    ensures PutsOk(PutNonce(m, st, r, st.requests[r].session, st.requests[r].nonce))
  {
  }

  lemma {:induction false} StepKeeps(m: Machine, st: State, e: Event)
    requires Inv(m, st)
    ensures Inv(m, Step(m, st, e))
  {
    match e
    case Tick(d) => TickKeeps(m, st, d);
    case Reload(cas) => ReloadKeeps(m, st, cas);
    case Stamp(r, session, value) => StampKeeps(m, st, r, session, value);
    case Take(r, session, token, lingers) => if r !in st.requests { TakeKeeps(m, st, r, session, token, lingers); }
    case Put(r) => if r in st.requests && st.requests[r].Stamped? { PutKeeps(m, st, r); }
    case _ =>
      if e.request in st.requests {
        AdvancedPhaseOk(m, st, e.request, e);
        SetPhaseKeeps(m, st, e.request, Advance(m, st, st.requests[e.request], e));
      }
  }

  /** The invariant holds at the end of every run. */
  lemma {:induction false} RunKeeps(m: Machine, st: State, events: seq<Event>)
    requires Inv(m, st)
    ensures Inv(m, Run(m, st, events))
  {
    if events != [] {
      RunKeeps(m, st, events[..|events| - 1]);
      StepKeeps(m, Run(m, st, events[..|events| - 1]), events[|events| - 1]);
    }
  }

  lemma {:induction false} Reachable(m: Machine, clock: int, cas: seq<Certificate>, events: seq<Event>)
    ensures Inv(m, Run(m, Initial(clock, cas), events))
  {
    RunKeeps(m, Initial(clock, cas), events);
  }
}
