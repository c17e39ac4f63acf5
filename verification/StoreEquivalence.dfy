/** The stores compared over whole runs: the same events, on a store that never
    sweeps, on the in-memory store and on the Redis store. */
module StoreEquivalence {
  import opened NonceStore
  import opened Certificates
  import opened Validator
  import opened LoginProtocol
  import opened LoginSafety
  import GoTime

  /** The run of the events on a given store. */
  function On(m: Machine, b: Backend, clock: int, cas: seq<Certificate>, events: seq<Event>): (st: State) {
    Run(m.(backend := b), Initial(clock, cas), events)
  }

  /** The parts of the state that no store changes. */
  ghost predicate SameWorld(a: State, b: State) {
    a.clock == b.clock && a.puts == b.puts && a.past == b.past && a.trust == b.trust && a.requests.Keys == b.requests.Keys
  }

  // ------------------------------------------------ sweeping and never sweeping

  /** A login the sweep turned away would have been refused as expired. */
  ghost predicate PhaseSwept(m: Machine, clock: int, a: Phase, b: Phase) {
    || a == b
    || (a.Rejected? && (b.Rejected? || (b.Taken? && Expired(b.login.entry.nonce, clock, m.ttl))))
  }

  /** The swept map lacks only nonces that have expired. */
  ghost predicate EntriesSwept(ttl: int, a: State, b: State) {
    && (forall k :: k in a.entries ==> k in b.entries && b.entries[k] == a.entries[k])
    && (forall k :: k in b.entries && k !in a.entries ==> Expired(b.entries[k].nonce, b.clock, ttl))
  }

  ghost predicate Swept(m: Machine, ttl: int, a: State, b: State) {
    && SameWorld(a, b)
    && EntriesSwept(ttl, a, b)
    && (forall r :: r in a.requests ==> PhaseSwept(m, b.clock, a.requests[r], b.requests[r]))
  }

  lemma {:induction false} SweptPut(m: Machine, ttl: int, a: State, b: State, r: nat)
    requires Swept(m, ttl, a, b)
    ensures Swept(m, ttl, Step(m.(backend := SweepsOnPut(ttl)), a, Put(r)), Step(m.(backend := NeverSweeps), b, Put(r)))
  {
    if r in a.requests && a.requests[r].Stamped? {
      assert PhaseSwept(m, b.clock, a.requests[r], b.requests[r]);
      assert SweptSessions(NeverSweeps, b) == {};
    } else if r in b.requests {
      assert PhaseSwept(m, b.clock, a.requests[r], b.requests[r]);
    }
  }

  lemma {:induction false} SweptTake(m: Machine, ttl: int, a: State, b: State, r: nat, session: string, token: AuthToken, lingers: bool)
    requires Swept(m, ttl, a, b) && m.ttl <= ttl && r !in a.requests
    ensures Swept(m, ttl, TakeNonce(m.(backend := SweepsOnPut(ttl)), a, r, session, token, lingers),
                  TakeNonce(m.(backend := NeverSweeps), b, r, session, token, lingers))
  {
    if session in b.entries && session !in a.entries {
      ExpiredMonotone(b.entries[session].nonce, b.clock, b.clock, ttl, m.ttl);
    }
    var a' := TakeNonce(m.(backend := SweepsOnPut(ttl)), a, r, session, token, lingers);
    var b' := TakeNonce(m.(backend := NeverSweeps), b, r, session, token, lingers);
    assert EntriesSwept(ttl, a', b');
    assert PhaseSwept(m, b.clock, a'.requests[r], b'.requests[r]);
  }

  lemma {:induction false} SweptTick(m: Machine, ttl: int, a: State, b: State, d: nat)
    requires Swept(m, ttl, a, b)
    ensures Swept(m, ttl, Step(m.(backend := SweepsOnPut(ttl)), a, Tick(d)), Step(m.(backend := NeverSweeps), b, Tick(d)))
  {
  }

  lemma {:induction false} AdvanceSwept(m: Machine, ttl: int, a: State, b: State, ph: Phase, ph': Phase, e: Event)
    requires SameWorld(a, b) && PhaseSwept(m, b.clock, ph, ph')
    ensures PhaseSwept(m, b.clock, Advance(m.(backend := SweepsOnPut(ttl)), a, ph, e), Advance(m.(backend := NeverSweeps), b, ph', e))
  {
  }

  lemma {:induction false} SweptAdvance(m: Machine, ttl: int, a: State, b: State, e: Event)
    requires Swept(m, ttl, a, b) && Advances(e)
    ensures Swept(m, ttl, Step(m.(backend := SweepsOnPut(ttl)), a, e), Step(m.(backend := NeverSweeps), b, e))
  {
    if e.request in a.requests {
      AdvanceSwept(m, ttl, a, b, a.requests[e.request], b.requests[e.request], e);
    }
  }

  lemma {:induction false} SweptWorld(m: Machine, ttl: int, a: State, b: State, e: Event)
    requires Swept(m, ttl, a, b) && (e.Stamp? || e.Reload?)
    ensures Swept(m, ttl, Step(m.(backend := SweepsOnPut(ttl)), a, e), Step(m.(backend := NeverSweeps), b, e))
  {
  }

  lemma {:induction false} SweptRun(m: Machine, ttl: int, clock: int, cas: seq<Certificate>, events: seq<Event>)
    requires m.ttl <= ttl
    ensures Swept(m, ttl, On(m, SweepsOnPut(ttl), clock, cas, events), On(m, NeverSweeps, clock, cas, events))
  {
    if events != [] {
      var init, e := events[..|events| - 1], events[|events| - 1];
      SweptRun(m, ttl, clock, cas, init);
      var a, b := On(m, SweepsOnPut(ttl), clock, cas, init), On(m, NeverSweeps, clock, cas, init);
      match e
      case Tick(d) => SweptTick(m, ttl, a, b, d);
      case Put(r) => SweptPut(m, ttl, a, b, r);
      case Take(r, session, token, lingers) =>
        if r !in a.requests { SweptTake(m, ttl, a, b, r, session, token, lingers); }
      case _ => if Advances(e) { SweptAdvance(m, ttl, a, b, e); } else { SweptWorld(m, ttl, a, b, e); }
    }
  }

  /** Both runs accept the same logins, with the same tokens, nonces and times. */
  ghost predicate SameAccepted(a: State, b: State) {
    forall r :: (IsAccepted(a, r) <==> IsAccepted(b, r)) && (IsAccepted(a, r) ==> a.requests[r] == b.requests[r])
  }

  /** The lazily swept store refines the store that never sweeps, as long as login
      enforces no longer a lifetime than the store keeps nonces. */
  lemma {:induction false} SweepRefines(m: Machine, ttl: int, clock: int, cas: seq<Certificate>, events: seq<Event>)
    requires m.ttl <= ttl
    ensures SameAccepted(On(m, SweepsOnPut(ttl), clock, cas, events), On(m, NeverSweeps, clock, cas, events))
  {
    SweptRun(m, ttl, clock, cas, events);
    var a, b := On(m, SweepsOnPut(ttl), clock, cas, events), On(m, NeverSweeps, clock, cas, events);
    forall r | r in a.requests
      ensures (IsAccepted(a, r) <==> IsAccepted(b, r)) && (IsAccepted(a, r) ==> a.requests[r] == b.requests[r])
    {
      assert PhaseSwept(m, b.clock, a.requests[r], b.requests[r]);
    }
  }

  // ------------------------------------------------ key expiry and never sweeping

  /** The nonce had been stored for at least the lifetime when login looked at it. */
  ghost predicate Late(ttl: int, clock: int, ph: Phase) {
    HoldsNonce(ph) && (if ph.Taken? then clock else ph.checkedAt) - ph.login.entry.at >= ttl
  }

  ghost predicate PhaseExpired(ttl: int, clock: int, a: Phase, b: Phase) {
    a == b || (a.Rejected? && (b.Rejected? || Late(ttl, clock, b)))
  }

  ghost predicate KeysExpired(ttl: int, a: State, b: State) {
    && SameWorld(a, b) && a.entries == b.entries
    && (forall r :: r in a.requests ==> PhaseExpired(ttl, b.clock, a.requests[r], b.requests[r]))
  }

  lemma {:induction false} AdvanceExpired(m: Machine, ttl: int, a: State, b: State, ph: Phase, ph': Phase, e: Event)
    requires SameWorld(a, b) && PhaseExpired(ttl, b.clock, ph, ph')
    ensures PhaseExpired(ttl, b.clock, Advance(m.(backend := KeyExpiry(ttl)), a, ph, e),
                         Advance(m.(backend := NeverSweeps), b, ph', e))
  {
  }

  lemma {:induction false} ExpiredPut(m: Machine, ttl: int, a: State, b: State, r: nat)
    requires KeysExpired(ttl, a, b)
    ensures KeysExpired(ttl, Step(m.(backend := KeyExpiry(ttl)), a, Put(r)), Step(m.(backend := NeverSweeps), b, Put(r)))
  {
  }

  lemma {:induction false} ExpiredAdvance(m: Machine, ttl: int, a: State, b: State, e: Event)
    requires KeysExpired(ttl, a, b) && Advances(e)
    ensures KeysExpired(ttl, Step(m.(backend := KeyExpiry(ttl)), a, e), Step(m.(backend := NeverSweeps), b, e))
  {
    if e.request in a.requests {
      AdvanceExpired(m, ttl, a, b, a.requests[e.request], b.requests[e.request], e);
    }
  }

  lemma {:induction false} ExpiredWorld(m: Machine, ttl: int, a: State, b: State, e: Event)
    requires KeysExpired(ttl, a, b) && (e.Stamp? || e.Reload?)
    ensures KeysExpired(ttl, Step(m.(backend := KeyExpiry(ttl)), a, e), Step(m.(backend := NeverSweeps), b, e))
  {
  }

  lemma {:induction false} ExpiredTake(m: Machine, ttl: int, a: State, b: State, r: nat, session: string, token: AuthToken, lingers: bool)
    requires KeysExpired(ttl, a, b)
    ensures KeysExpired(ttl, TakeNonce(m.(backend := KeyExpiry(ttl)), a, r, session, token, lingers),
                        TakeNonce(m.(backend := NeverSweeps), b, r, session, token, lingers))
  {
  }

  lemma {:induction false} ExpiredTick(m: Machine, ttl: int, a: State, b: State, d: nat)
    requires KeysExpired(ttl, a, b)
    ensures KeysExpired(ttl, Step(m.(backend := KeyExpiry(ttl)), a, Tick(d)), Step(m.(backend := NeverSweeps), b, Tick(d)))
  {
  }

  lemma {:induction false} KeysExpiredRun(m: Machine, ttl: int, clock: int, cas: seq<Certificate>, events: seq<Event>)
    ensures KeysExpired(ttl, On(m, KeyExpiry(ttl), clock, cas, events), On(m, NeverSweeps, clock, cas, events))
  {
    if events != [] {
      var init, e := events[..|events| - 1], events[|events| - 1];
      KeysExpiredRun(m, ttl, clock, cas, init);
      var a, b := On(m, KeyExpiry(ttl), clock, cas, init), On(m, NeverSweeps, clock, cas, init);
      match e
      case Tick(d) => ExpiredTick(m, ttl, a, b, d);
      case Put(r) => ExpiredPut(m, ttl, a, b, r);
      case Take(r, session, token, lingers) =>
        if r !in a.requests { ExpiredTake(m, ttl, a, b, r, session, token, lingers); }
      case _ => if Advances(e) { ExpiredAdvance(m, ttl, a, b, e); } else { ExpiredWorld(m, ttl, a, b, e); }
    }
  }

  /** The age of the nonce of an accepted login when its expiry was checked. */
  function Age(ph: Phase): (d: int)
    requires ph.Accepted?
  {
    ph.checkedAt - ph.login.entry.nonce.issuedAt
  }

  /** Redis and memory, with one lifetime everywhere: what Redis accepts memory
      accepts, what memory accepts of an age below the lifetime Redis accepts, so
      they can differ only for a nonce of exactly that age. */
  lemma {:induction false} RedisAgreesWithMemory(m: Machine, clock: int, cas: seq<Certificate>, events: seq<Event>, r: nat)
    ensures var redis, memory := On(m, KeyExpiry(m.ttl), clock, cas, events), On(m, SweepsOnPut(m.ttl), clock, cas, events);
      && (IsAccepted(redis, r) ==> IsAccepted(memory, r) && memory.requests[r] == redis.requests[r])
      && (IsAccepted(memory, r) && Age(memory.requests[r]) < m.ttl ==>
            IsAccepted(redis, r) && redis.requests[r] == memory.requests[r])
      && (IsAccepted(memory, r) && !IsAccepted(redis, r) && GoTime.IsInt64(m.ttl) && m.ttl != GoTime.MAX_INT64 ==>
            Age(memory.requests[r]) == m.ttl)
  {
    var redis, memory := On(m, KeyExpiry(m.ttl), clock, cas, events), On(m, SweepsOnPut(m.ttl), clock, cas, events);
    var plain := On(m, NeverSweeps, clock, cas, events);
    SweepRefines(m, m.ttl, clock, cas, events);
    KeysExpiredRun(m, m.ttl, clock, cas, events);
    assert IsAccepted(memory, r) <==> IsAccepted(plain, r);
    if r in plain.requests {
      assert PhaseExpired(m.ttl, plain.clock, redis.requests[r], plain.requests[r]);
    }
    if IsAccepted(plain, r) {
      AcceptedAge(m.(backend := NeverSweeps), clock, cas, events, r);
    }
  }

  lemma {:induction false} AcceptedAge(m: Machine, clock: int, cas: seq<Certificate>, events: seq<Event>, r: nat)
    requires IsAccepted(Run(m, Initial(clock, cas), events), r)
    ensures var ph := Run(m, Initial(clock, cas), events).requests[r];
      && ph.login.entry.nonce.issuedAt <= ph.login.entry.at
      && (GoTime.IsInt64(m.ttl) && m.ttl != GoTime.MAX_INT64 ==> Age(ph) <= m.ttl)
  {
    var st := Run(m, Initial(clock, cas), events);
    Reachable(m, clock, cas, events);
    var ph := st.requests[r];
    assert PhaseOk(m, st, r, ph);
    assert st.puts[ph.login.entry.id] == ph.login.entry;
    if GoTime.IsInt64(m.ttl) {
      GoTime.SubExceeds(ph.checkedAt, ph.login.entry.nonce.issuedAt, m.ttl);
    }
  }
}
