/** What holds at the end of every run of the login protocol, over any store. */
module LoginSafety {
  import opened Wrappers
  import opened Bytes
  import opened Certificates
  import opened Validator
  import opened LoginProtocol
  import opened LoginTraces
  import GoTime
  import Signature

  ghost predicate IsAccepted(st: State, r: nat) {
    r in st.requests && st.requests[r].Accepted?
  }

  // ---------------------------------------------------- accepted logins

  /** The pieces of a pipeline that succeeded, put back together. */
  lemma {:induction false} OutcomeOk(cfg: Config, token: AuthToken, nonce: string, now: int, cert: Certificate,
                  first: Snapshot, second: Snapshot, ocsp: Revocation)
    requires BeforeTrust(cfg, Some(token), nonce, now) == Ok(cert)
    requires ChainError(cfg, cert, now, first).None?
    requires AfterTrust(cfg, token, cert, nonce, second, ocsp).None?
    ensures Outcome(cfg, Some(token), nonce, now, first, second, ocsp) == Ok(cert)
    ensures cfg.pki.decodeCertificate(token.unverifiedCertificate) == Some(cert)
    ensures var sig := cfg.pki.decodeSignature(token.signature);
      sig.Some? && SignedAtSome(cfg, cert, token.algorithm, sig.value, nonce)
  {
  }

  /** A token the validator accepts bears one of the nine names, and its signature value
      is genuine over a configured origin and the nonce. */
  lemma {:induction false} OutcomeGenuine(cfg: Config, token: AuthToken, cert: Certificate, nonce: string)
    returns (family: string, h: Signature.Hash)
    requires SignatureError(cfg, token, cert, nonce).None?
    ensures Signature.Names(token.algorithm, family, h)
    ensures var sig := cfg.pki.decodeSignature(token.signature);
      sig.Some? && GenuineAtSome(cfg, cert.key, family, h, sig.value, nonce)
  {
    family, h := Signature.SupportedIsNamed(token.algorithm);
    SignatureCheckExactly(cfg, token, cert, nonce, family, h);
  }

  /** The nonce of an accepted login was put by its challenge and consumed by it alone. */
  lemma {:induction false} AcceptedEntry(m: Machine, clock: int, cas: seq<Certificate>, events: seq<Event>, r: nat)
    requires IsAccepted(Run(m, Initial(clock, cas), events), r)
    ensures var st := Run(m, Initial(clock, cas), events);
      var l, e := st.requests[r].login, st.requests[r].login.entry;
      && e.session == l.session && e.by' in st.requests && st.requests[e.by'] == Stored(e)
      && e.id in st.fates && st.fates[e.id] == Consumed(r)
  {
    var st := Run(m, Initial(clock, cas), events);
    Reachable(m, clock, cas, events);
    assert PhaseOk(m, st, r, st.requests[r]);
    var e := st.requests[r].login.entry;
    assert st.puts[e.id] == e;
  }

  /** In every interleaving, the steps of an accepted login and of the challenge whose
      nonce it consumed stand in the run in order: the challenge was for the same
      session, the nonce was live when taken, its age at the expiry check is at most
      the lifetime, the token's signature covers it together with a configured origin,
      and the validator answered Ok at the time of its first step, for the sets in
      force when it read them. */
  lemma {:induction false} AcceptedLogin(b: Backend, ttl: int, cfg: Config, clock: int, cas: seq<Certificate>, events: seq<Event>, r: nat)
    returns (t: Trace, family: string, h: Signature.Hash)
    requires IsAccepted(Run(WebEid(b, ttl, cfg), Initial(clock, cas), events), r)
    ensures var st := Run(WebEid(b, ttl, cfg), Initial(clock, cas), events);
      var a := st.requests[r];
      var e, token := a.login.entry, a.login.token;
      var sig := cfg.pki.decodeSignature(token.signature);
      && Traced(WebEid(b, ttl, cfg), clock, cas, events, r, a, t)
      && e.session == a.login.session && e.by' in st.requests && st.requests[e.by'] == Stored(e)
      && e.id in st.fates && st.fates[e.id] == Consumed(r)
      && (GoTime.IsInt64(ttl) && ttl != GoTime.MAX_INT64 ==>
            ClockAt(clock, events, t.check) - ClockAt(clock, events, t.stamp) <= ttl)
      && cfg.pki.decodeCertificate(token.unverifiedCertificate) == Some(a.cert)
      && sig.Some? && SignedAtSome(cfg, a.cert, token.algorithm, sig.value, e.nonce.value)
      && Signature.Names(token.algorithm, family, h) && GenuineAtSome(cfg, a.cert.key, family, h, sig.value, e.nonce.value)
      && Outcome(cfg, Some(token), e.nonce.value, ClockAt(clock, events, t.begin),
                 SetAt(cas, events, t.read), SetAt(cas, events, t.finish), a.ocsp) == Ok(a.cert)
  {
    var m := WebEid(b, ttl, cfg);
    AcceptedEntry(m, clock, cas, events, r);
    t := LoginTrace(m, clock, cas, events, r);
    var a := Run(m, Initial(clock, cas), events).requests[r];
    if GoTime.IsInt64(ttl) {
      GoTime.SubExceeds(a.checkedAt, a.login.entry.nonce.issuedAt, ttl);
    }
    OutcomeOk(cfg, a.login.token, a.login.entry.nonce.value, a.now, a.cert,
              SetAt(cas, events, t.read), SetAt(cas, events, t.finish), a.ocsp);
    family, h := OutcomeGenuine(cfg, a.login.token, a.cert, a.login.entry.nonce.value);
  }

  /** Two accepted logins consumed nonces of different challenges. */
  lemma {:induction false} AcceptedOneToOne(m: Machine, clock: int, cas: seq<Certificate>, events: seq<Event>, r: nat, q: nat)
    requires var st := Run(m, Initial(clock, cas), events); IsAccepted(st, r) && IsAccepted(st, q)
    requires r != q
    ensures var st := Run(m, Initial(clock, cas), events);
      st.requests[r].login.entry.by' != st.requests[q].login.entry.by'
  {
    AcceptedEntry(m, clock, cas, events, r);
    AcceptedEntry(m, clock, cas, events, q);
  }

  /** The steps at which a validation reads the trusted set: it looks up the issuer
      only for the revocation check. */
  function Readings(cfg: Config, t: Trace): (steps: set<nat>) {
    if cfg.ocspEnabled then {t.read, t.finish} else {t.read}
  }

  /** All readings saw one set: as many reloads had taken effect at each. */
  ghost predicate OneSetRead(cfg: Config, events: seq<Event>, t: Trace)
    requires Ordered(t, |events|)
  {
    forall i, j :: i in Readings(cfg, t) && j in Readings(cfg, t) ==> Reloads(events[..i]) == Reloads(events[..j])
  }

  lemma {:induction false} OneSetReadExactly(cfg: Config, cas: seq<Certificate>, events: seq<Event>, t: Trace)
    requires Ordered(t, |events|)
    ensures OneSetRead(cfg, events, t) <==> !cfg.ocspEnabled || NoReload(events[t.read..t.finish])
  {
    ReloadsBetween(cas, events, t.read, t.finish);
    assert cfg.ocspEnabled ==> t.read in Readings(cfg, t) && t.finish in Readings(cfg, t);
  }

  /** An accepted login used one set exactly when revocation is not checked or no
      reload took effect between the two readings; the validator then answers Ok for
      the set it started with. */
  lemma {:induction false} SameSetExactly(b: Backend, ttl: int, cfg: Config, clock: int, cas: seq<Certificate>, events: seq<Event>, r: nat, t: Trace)
    requires IsAccepted(Run(WebEid(b, ttl, cfg), Initial(clock, cas), events), r)
    requires Traced(WebEid(b, ttl, cfg), clock, cas, events, r, Run(WebEid(b, ttl, cfg), Initial(clock, cas), events).requests[r], t)
    ensures OneSetRead(cfg, events, t) <==> !cfg.ocspEnabled || NoReload(events[t.read..t.finish])
    ensures var a := Run(WebEid(b, ttl, cfg), Initial(clock, cas), events).requests[r];
      && (a.first == a.second <==> NoReload(events[t.read..t.finish]))
      && (OneSetRead(cfg, events, t) ==>
            Outcome(cfg, Some(a.login.token), a.login.entry.nonce.value, ClockAt(clock, events, t.begin),
                    SetAt(cas, events, t.read), SetAt(cas, events, t.read), a.ocsp) == Ok(a.cert))
  {
    var a := Run(WebEid(b, ttl, cfg), Initial(clock, cas), events).requests[r];
    var token, value, first, second := a.login.token, a.login.entry.nonce.value, SetAt(cas, events, t.read), SetAt(cas, events, t.finish);
    ReloadsBetween(cas, events, t.read, t.finish);
    OneSetReadExactly(cfg, cas, events, t);
    OutcomeOk(cfg, token, value, a.now, a.cert, first, second, a.ocsp);
    if !cfg.ocspEnabled {
      OneReadingWithoutOcsp(cfg, Some(token), value, a.now, first, second, first, a.ocsp);
    }
  }

  // ---------------------------------------------------- no token twice

  /** The values the generator produced in the run. */
  function Generated(events: seq<Event>): (values: set<string>) {
    set i | 0 <= i < |events| && events[i].Stamp? :: events[i].value
  }

  /** A signature value verifies for at most one of the messages of a run: those made
      of a configured origin and a generated value. */
  ghost predicate OneMessagePerSignature(cfg: Config, events: seq<Event>) {
    forall cert, algorithm, sig, o, p, n, n' ::
      o in cfg.origins && p in cfg.origins && n in Generated(events) && n' in Generated(events)
      && SignedAt(cfg, cert, algorithm, sig, o, n) && SignedAt(cfg, cert, algorithm, sig, p, n') ==>
        var h := Signature.HashFor(algorithm).value; Datagram(cfg, h, o, n) == Datagram(cfg, h, p, n')
  }

  /** The generator never repeats a value. */
  ghost predicate DistinctValues(events: seq<Event>) {
    forall i, j :: 0 <= i < j < |events| && events[i].Stamp? && events[j].Stamp? ==> events[i].value != events[j].value
  }

  /** No two generated values share a hash. */
  ghost predicate NoCollisions(cfg: Config, events: seq<Event>) {
    forall h, n, n' :: n in Generated(events) && n' in Generated(events) && n != n' ==>
      cfg.crypto.sum(h, cfg.pki.utf8(n)) != cfg.crypto.sum(h, cfg.pki.utf8(n'))
  }

  /** With hashes of one length, a datagram determines the hash of its nonce. */
  lemma {:induction false} DatagramInjective(cfg: Config, h: Signature.Hash, o: string, p: string, n: string, n': string)
    requires Signature.FixedLength(cfg.crypto)
    requires Datagram(cfg, h, o, n) == Datagram(cfg, h, p, n')
    ensures cfg.crypto.sum(h, cfg.pki.utf8(n)) == cfg.crypto.sum(h, cfg.pki.utf8(n'))
  {
    var d, k := Datagram(cfg, h, o, n), Signature.Size(h);
    assert d[k..] == cfg.crypto.sum(h, cfg.pki.utf8(n));
    assert Datagram(cfg, h, p, n')[k..] == cfg.crypto.sum(h, cfg.pki.utf8(n'));
  }

  /** One signature covers one nonce of the run, under whatever origins it is tried. */
  lemma {:induction false} SignatureCoversOneNonce(cfg: Config, events: seq<Event>, cert: Certificate, algorithm: string, sig: seq<Byte>,
                            n: string, n': string)
    requires Signature.FixedLength(cfg.crypto) && OneMessagePerSignature(cfg, events) && NoCollisions(cfg, events)
    requires n in Generated(events) && n' in Generated(events)
    requires SignedAtSome(cfg, cert, algorithm, sig, n) && SignedAtSome(cfg, cert, algorithm, sig, n')
    ensures n == n'
  {
    var o :| o in cfg.origins && SignedAt(cfg, cert, algorithm, sig, o, n);
    var p :| p in cfg.origins && SignedAt(cfg, cert, algorithm, sig, p, n');
    DatagramInjective(cfg, Signature.HashFor(algorithm).value, o, p, n, n');
  }

  /** The certificate, algorithm and signature bytes of an accepted token, however
      they were spelled. */
  function Credential(cfg: Config, a: Phase): (c: (Certificate, string, Option<seq<Byte>>))
    requires a.Accepted?
  {
    (a.cert, a.login.token.algorithm, cfg.pki.decodeSignature(a.login.token.signature))
  }

  /** No authentication token is accepted twice, in any run, not even spelled anew. */
  lemma {:induction false} NoTokenTwice(b: Backend, ttl: int, cfg: Config, clock: int, cas: seq<Certificate>, events: seq<Event>, r: nat, q: nat)
    requires Signature.FixedLength(cfg.crypto) && OneMessagePerSignature(cfg, events)
    requires DistinctValues(events) && NoCollisions(cfg, events)
    requires var st := Run(WebEid(b, ttl, cfg), Initial(clock, cas), events);
      IsAccepted(st, r) && IsAccepted(st, q) && Credential(cfg, st.requests[r]) == Credential(cfg, st.requests[q])
    ensures r == q
  {
    var m := WebEid(b, ttl, cfg);
    var st := Run(m, Initial(clock, cas), events);
    var t, _, _ := AcceptedLogin(b, ttl, cfg, clock, cas, events, r);
    var u, _, _ := AcceptedLogin(b, ttl, cfg, clock, cas, events, q);
    var a, e, f := st.requests[r], st.requests[r].login.entry, st.requests[q].login.entry;
    assert events[t.stamp] in events && events[u.stamp] in events;
    SignatureCoversOneNonce(cfg, events, a.cert, a.login.token.algorithm, Credential(cfg, a).2.value, e.nonce.value, f.nonce.value);
    assert events[t.stamp].value == events[u.stamp].value;
    assert t.stamp == u.stamp;
    if r != q {
      AcceptedOneToOne(m, clock, cas, events, r, q);
    }
  }

  // ---------------------------------------------------- trusted sets

  lemma {:induction false} LoadedStays(cas: seq<Certificate>, events: seq<Event>, i: nat, j: nat)
    requires i <= j <= |events| && Loaded(cas, events[..i]) != []
    ensures Loaded(cas, events[..j]) != []
  {
    if i < j {
      LoadedStays(cas, events, i, j - 1);
      assert events[..j][..j - 1] == events[..j - 1];
    }
  }

  /** Before every step the set in force is that of the last effective reload, pool
      and list alike; once it holds an authority it always will; a refused reload
      changes nothing at all. */
  lemma {:induction false} TrustNeverEmptied(m: Machine, clock: int, cas: seq<Certificate>, events: seq<Event>, i: nat, j: nat)
    requires i <= j <= |events|
    ensures Before(m, clock, cas, events, i).trust == SetAt(cas, events, i) && Consistent(SetAt(cas, events, i))
    ensures SetAt(cas, events, i).intermediates != [] ==> SetAt(cas, events, j).intermediates != []
    ensures var st := Before(m, clock, cas, events, i); Step(m, st, Reload([])) == st
  {
    WorldFromEvents(m, clock, cas, events[..i]);
    if Loaded(cas, events[..i]) != [] {
      LoadedStays(cas, events, i, j);
    }
  }
}
