/** Runs read back from their events: the clock and the trusted set at every step,
    and the steps that brought a request to the phase it is in. */
module LoginTraces {
  import opened Wrappers
  import opened NonceStore
  import opened Certificates
  import opened LoginProtocol

  // ---------------------------------------------------- the world, from events

  /** The time the ticks add up to. */
  function Elapsed(events: seq<Event>): (d: nat) {
    if events == [] then 0
    else
      var e := events[|events| - 1];
      Elapsed(events[..|events| - 1]) + if e.Tick? then e.by' else 0
  }

  predicate EffectiveReload(e: Event) {
    e.Reload? && e.cas != []
  }

  /** The certificates loaded last; an empty list is never loaded. */
  function Loaded(cas: seq<Certificate>, events: seq<Event>): (last: seq<Certificate>) {
    if events == [] then cas
    else
      var e := events[|events| - 1];
      if EffectiveReload(e) then e.cas else Loaded(cas, events[..|events| - 1])
  }

  function Reloads(events: seq<Event>): (n: nat) {
    if events == [] then 0
    else Reloads(events[..|events| - 1]) + if EffectiveReload(events[|events| - 1]) then 1 else 0
  }

  /** Clock and trusted set are functions of the ticks and reloads so far. */
  lemma {:induction false} WorldFromEvents(m: Machine, clock: int, cas: seq<Certificate>, events: seq<Event>)
    ensures var st := Run(m, Initial(clock, cas), events);
      && st.clock == clock + Elapsed(events)
      && st.trust == SnapshotOf(Loaded(cas, events))
      && |st.past| == Reloads(events)
  {
    if events != [] {
      WorldFromEvents(m, clock, cas, events[..|events| - 1]);
      WorldStep(m, Run(m, Initial(clock, cas), events[..|events| - 1]), events[|events| - 1]);
    }
  }

  lemma {:induction false} WorldStep(m: Machine, st: State, e: Event)
    ensures var st' := Step(m, st, e);
      && st'.clock == st.clock + (if e.Tick? then e.by' else 0)
      && st'.trust == (if EffectiveReload(e) then SnapshotOf(e.cas) else st.trust)
      && |st'.past| == |st.past| + if EffectiveReload(e) then 1 else 0
  {
  }

  ghost predicate NoReload(events: seq<Event>) {
    forall e :: e in events ==> !EffectiveReload(e)
  }

  /** The number of reloads grows from one step to a later one exactly when a reload
      takes effect between them; without one the same list stays loaded. */
  lemma {:induction false} ReloadsBetween(cas: seq<Certificate>, events: seq<Event>, i: nat, j: nat)
    requires i <= j <= |events|
    ensures Reloads(events[..i]) <= Reloads(events[..j])
    ensures Reloads(events[..i]) == Reloads(events[..j]) <==> NoReload(events[i..j])
    ensures NoReload(events[i..j]) ==> Loaded(cas, events[..i]) == Loaded(cas, events[..j])
  {
    if i < j {
      ReloadsBetween(cas, events, i, j - 1);
      assert events[..j][..j - 1] == events[..j - 1];
      assert events[i..j] == events[i..j - 1] + [events[j - 1]];
    }
  }

  // ---------------------------------------------------- how a phase was entered

  /** In state st, step e takes request r to phase ph. */
  ghost predicate Enters(m: Machine, st: State, e: Event, r: nat, ph: Phase) {
    match ph
    case Stamped(s, n) => e == Stamp(r, s, n.value) && n.issuedAt == st.clock
    case Stored(x) =>
      e == Put(r) && r in st.requests && st.requests[r] == Stamped(x.session, x.nonce) && x.by' == r && x.at == st.clock
    case Taken(l) =>
      && e.Take? && e.request == r && e.session == l.session && e.token == l.token
      && l.session in st.entries && st.entries[l.session] == l.entry
    case Fresh(l, c) =>
      && e == CheckExpiry(r) && r in st.requests && st.requests[r] == Taken(l)
      && c == st.clock && !Expired(l.entry.nonce, c, m.ttl)
    case Validating(l, c, now, cert) =>
      && e == Begin(r) && r in st.requests && st.requests[r] == Fresh(l, c)
      && now == st.clock && m.before(l.token, l.entry.nonce.value, now) == Ok(cert)
    case Chained(l, c, now, cert, first) =>
      && e == ReadTrust(r) && r in st.requests && st.requests[r] == Validating(l, c, now, cert)
      && first == |st.past| && m.chain(cert, now, st.trust).None?
    case Accepted(l, c, now, cert, first, second, ocsp) =>
      && e == Finish(r, ocsp) && r in st.requests && st.requests[r] == Chained(l, c, now, cert, first)
      && second == |st.past| && m.after(l.token, cert, l.entry.nonce.value, st.trust, ocsp).None?
    case Rejected(_) => true
  }

  lemma {:induction false} StepEnters(m: Machine, st: State, e: Event, r: nat)
    requires r in Step(m, st, e).requests
    requires r in st.requests ==> st.requests[r] != Step(m, st, e).requests[r]
    ensures Enters(m, st, e, r, Step(m, st, e).requests[r])
  {
  }

  /** Every phase was entered by a step of the run. */
  lemma {:induction false} Entered(m: Machine, s: State, events: seq<Event>, r: nat) returns (k: nat)
    requires s.requests == map[] && r in Run(m, s, events).requests
    ensures k < |events| && Enters(m, Run(m, s, events[..k]), events[k], r, Run(m, s, events).requests[r])
  {
    var n := |events| - 1;
    var before := Run(m, s, events[..n]);
    if r in before.requests && before.requests[r] == Run(m, s, events).requests[r] {
      k := Entered(m, s, events[..n], r);
      assert events[..n][..k] == events[..k];
    } else {
      k := n;
      StepEnters(m, before, events[n], r);
    }
  }

  // ---------------------------------------------------- the trace of a login

  /** The positions of the steps behind an accepted login: two of the challenge and
      five of the login. */
  datatype Trace = Trace(stamp: nat, put: nat, take: nat, check: nat, begin: nat, read: nat, finish: nat)

  predicate Ordered(t: Trace, n: nat) {
    t.stamp < t.put < t.take < t.check < t.begin < t.read < t.finish < n
  }

  function ClockAt(clock: int, events: seq<Event>, i: nat): (now: int)
    requires i <= |events|
  {
    clock + Elapsed(events[..i])
  }

  function SetAt(cas: seq<Certificate>, events: seq<Event>, i: nat): (s: Snapshot)
    requires i <= |events|
  {
    SnapshotOf(Loaded(cas, events[..i]))
  }

  /** The challenge: stamped and stored at the recorded times, for that session. */
  ghost predicate ChallengeTraced(clock: int, events: seq<Event>, e: Entry, t: Trace)
    requires Ordered(t, |events|)
  {
    && events[t.stamp] == Stamp(e.by', e.session, e.nonce.value) && e.nonce.issuedAt == ClockAt(clock, events, t.stamp)
    && events[t.put] == Put(e.by') && e.at == ClockAt(clock, events, t.put)
  }

  /** The login: each recorded time is the clock at its step, and each reading of the
      trusted set returned the one in force at its step. */
  ghost predicate LoginTraced(m: Machine, clock: int, cas: seq<Certificate>, events: seq<Event>, r: nat, a: Phase, t: Trace)
    requires a.Accepted? && Ordered(t, |events|)
  {
    var l, value := a.login, a.login.entry.nonce.value;
    && events[t.take].Take? && events[t.take] == Take(r, l.session, l.token, events[t.take].lingers)
    && events[t.check] == CheckExpiry(r) && a.checkedAt == ClockAt(clock, events, t.check)
    && !Expired(l.entry.nonce, a.checkedAt, m.ttl)
    && events[t.begin] == Begin(r) && a.now == ClockAt(clock, events, t.begin)
    && m.before(l.token, value, a.now) == Ok(a.cert)
    && events[t.read] == ReadTrust(r) && a.first == Reloads(events[..t.read])
    && m.chain(a.cert, a.now, SetAt(cas, events, t.read)).None?
    && events[t.finish] == Finish(r, a.ocsp) && a.second == Reloads(events[..t.finish])
    && m.after(l.token, a.cert, value, SetAt(cas, events, t.finish), a.ocsp).None?
  }

  ghost predicate Traced(m: Machine, clock: int, cas: seq<Certificate>, events: seq<Event>, r: nat, a: Phase, t: Trace)
    requires a.Accepted?
  {
    && Ordered(t, |events|)
    && ChallengeTraced(clock, events, a.login.entry, t)
    && LoginTraced(m, clock, cas, events, r, a, t)
    && var live := Before(m, clock, cas, events, t.take).entries;
       a.login.session in live && live[a.login.session] == a.login.entry
  }

  /** The state before step i. */
  function Before(m: Machine, clock: int, cas: seq<Certificate>, events: seq<Event>, i: nat): (st: State)
    requires i <= |events|
  {
    Run(m, Initial(clock, cas), events[..i])
  }

  /** The phase r is in before step n was entered by an earlier step. */
  lemma {:induction false} EnteredBefore(m: Machine, clock: int, cas: seq<Certificate>, events: seq<Event>, n: nat, r: nat) returns (k: nat)
    requires n <= |events| && r in Before(m, clock, cas, events, n).requests
    ensures k < n
    ensures Enters(m, Before(m, clock, cas, events, k), events[k], r, Before(m, clock, cas, events, n).requests[r])
    ensures var st := Before(m, clock, cas, events, k);
      && st.clock == ClockAt(clock, events, k) && st.trust == SetAt(cas, events, k) && |st.past| == Reloads(events[..k])
  {
    k := Entered(m, Initial(clock, cas), events[..n], r);
    assert events[..n][..k] == events[..k];
    WorldFromEvents(m, clock, cas, events[..k]);
  }

  /** A nonce live before step n was stamped and then stored for its session. */
  lemma {:induction false} LiveTrace(m: Machine, clock: int, cas: seq<Certificate>, events: seq<Event>, n: nat, session: string)
    returns (stamp: nat, put: nat)
    requires n <= |events| && session in Before(m, clock, cas, events, n).entries
    ensures stamp < put < n
    ensures var e := Before(m, clock, cas, events, n).entries[session];
      && e.session == session
      && events[stamp] == Stamp(e.by', session, e.nonce.value) && e.nonce.issuedAt == ClockAt(clock, events, stamp)
      && events[put] == Put(e.by') && e.at == ClockAt(clock, events, put)
  {
    Reachable(m, clock, cas, events[..n]);
    var st := Before(m, clock, cas, events, n);
    var e := st.entries[session];
    assert st.puts[e.id] == e;
    put := EnteredBefore(m, clock, cas, events, n, e.by');
    stamp := EnteredBefore(m, clock, cas, events, put, e.by');
  }

  /** Every accepted login has a trace. */
  lemma {:induction false} LoginTrace(m: Machine, clock: int, cas: seq<Certificate>, events: seq<Event>, r: nat)
    returns (t: Trace)
    requires var st := Run(m, Initial(clock, cas), events); r in st.requests && st.requests[r].Accepted?
    ensures Traced(m, clock, cas, events, r, Run(m, Initial(clock, cas), events).requests[r], t)
  {
    assert events[..|events|] == events;
    var finish := EnteredBefore(m, clock, cas, events, |events|, r);
    var read := EnteredBefore(m, clock, cas, events, finish, r);
    var begin := EnteredBefore(m, clock, cas, events, read, r);
    var check := EnteredBefore(m, clock, cas, events, begin, r);
    var take := EnteredBefore(m, clock, cas, events, check, r);
    var session := Run(m, Initial(clock, cas), events).requests[r].login.session;
    var stamp, put := LiveTrace(m, clock, cas, events, take, session);
    t := Trace(stamp, put, take, check, begin, read, finish);
  }
}
