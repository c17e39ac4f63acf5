/** azugo/routes.go: the challenge and login handlers as they run on their own, and
    the tie between these objects and the interleaved protocol. */
module Handler {
  import opened Wrappers
  import opened NonceStore
  import opened Certificates
  import opened Validator
  import opened LoginProtocol
  import opened LoginRuns

  /** What challenge answers instead of a nonce. */
  datatype ChallengeError = NoEntropy | NotStored(StoreError)

  /** What login answers instead of a subject. */
  datatype LoginError = BadBody | FromStore(StoreError) | FromLogin(Error)

  class Handler {
    const store: InMemoryStore
    const trust: TrustStore
    const ttl: int
    const cfg: Config

    constructor (store: InMemoryStore, trust: TrustStore, ttl: int, cfg: Config)
      ensures this.store == store && this.trust == trust && this.ttl == ttl && this.cfg == cfg
    {
      this.store, this.trust, this.ttl, this.cfg := store, trust, ttl, cfg;
    }

    /** challenge, through GenerateAndStoreNonce: the nonce is stamped when it is
        generated and stored, with a sweep, at a later reading of the clock. */
    method Challenge(session: Result<string, StoreError>, random: Option<string>, stampedAt: int, putAt: int)
      returns (r: Result<string, ChallengeError>)
      modifies store
      ensures r == if random.None? then Err(NoEntropy) else if session.Err? then Err(NotStored(session.error)) else Ok(random.value)
      ensures r.Ok? ==>
        store.entries == Unexpired(old(store.entries), putAt, store.ttl)[session.value := ChallengeNonce(random.value, stampedAt)]
      ensures r.Err? ==> store.entries == old(store.entries)
    {
      if random.None? {
        return Err(NoEntropy);
      }
      var nonce := ChallengeNonce(random.value, stampedAt);
      var err := store.Put(session, nonce, putAt);
      return if err.Some? then Err(NotStored(err.value)) else Ok(nonce.value);
    }

    /** login: the nonce is taken before anything about the token is looked at, so it
        is spent by every attempt that reaches the store, successful or not. */
    method Login(session: Result<string, StoreError>, body: Option<AuthToken>, checkedAt: int, now: int, ocsp: Revocation)
      returns (r: Result<Certificate, LoginError>)
      modifies store
      ensures body.None? ==> r == Err(BadBody) && store.entries == old(store.entries)
      ensures body.Some? && session.Err? ==> r == Err(FromStore(session.error)) && store.entries == old(store.entries)
      ensures body.Some? && session.Ok? ==>
        && store.entries == old(store.entries) - {session.value}
        && r == if session.value !in old(store.entries) then Err(FromStore(NotFound))
                else if Expired(old(store.entries)[session.value], checkedAt, ttl) then Err(FromLogin(NonceExpired))
                else match Outcome(cfg, body, old(store.entries)[session.value].value, now, trust.snap, trust.snap, ocsp)
                     case Ok(cert) => Ok(cert)
                     case Err(e) => Err(FromLogin(e))
    {
      if body.None? {
        return Err(BadBody);
      }
      var stored := store.GetAndRemove(session);
      if stored.Err? {
        return Err(FromStore(stored.error));
      }
      if Expired(stored.value, checkedAt, ttl) {
        return Err(FromLogin(NonceExpired));
      }
      var cert := Validate(cfg, body, stored.value.value, now, trust.snap, trust.snap, ocsp);
      return if cert.Err? then Err(FromLogin(cert.error)) else Ok(cert.value);
    }

    /** ReloadTrust, for the certificates the configured path yielded: on any error
        the previous set stays in force. */
    method ReloadTrust(loaded: Option<seq<Certificate>>) returns (count: Option<nat>)
      requires trust.Valid()
      modifies trust
      ensures trust.Valid()
      ensures count.Some? <==> loaded.Some? && loaded.value != []
      ensures count.Some? ==> trust.snap == SnapshotOf(loaded.value) && count.value == |trust.snap.intermediates|
      ensures count.None? ==> trust.snap == old(trust.snap)
    {
      if loaded.None? {
        return None;
      }
      var ok := trust.Reload(loaded.value);
      return if ok then Some(|loaded.value|) else None;
    }
  }

  /** Login's answer at given readings of the clock and of the trusted set is the
      protocol's verdict. */
  lemma {:induction false} VerdictIsOutcome(b: Backend, ttl: int, cfg: Config, nonce: ChallengeNonce, token: AuthToken, checkedAt: int, now: int,
                         first: Snapshot, second: Snapshot, ocsp: Revocation)
    ensures Verdict(WebEid(b, ttl, cfg), nonce, token, checkedAt, now, first, second, ocsp) ==
      if Expired(nonce, checkedAt, ttl) then Err(NonceExpired)
      else Outcome(cfg, Some(token), nonce.value, now, first, second, ocsp)
  {
  }

  /** The protocol's Reload leaves the set the trust store's method leaves. */
  lemma {:induction false} ReloadTie(m: Machine, st: State, cas: seq<Certificate>)
    ensures Step(m, st, Reload(cas)).trust == Reloaded(st.trust, cas)
    ensures Step(m, st, Reload(cas)) == st <==> cas == []
  {
  }

  /** The map the in-memory store would hold. */
  function Nonces(entries: map<string, Entry>): (m: map<string, ChallengeNonce>) {
    map k | k in entries :: entries[k].nonce
  }

  /** The protocol's Put does to that map what the object's method does. */
  lemma {:induction false} MemoryPutTie(m: Machine, st: State, r: nat, session: string, nonce: ChallengeNonce)
    requires m.backend.SweepsOnPut?
    ensures Nonces(PutNonce(m, st, r, session, nonce).entries)
         == Unexpired(Nonces(st.entries), st.clock, m.backend.ttl)[session := nonce]
  {
  }

  /** And so does its Take. */
  lemma {:induction false} MemoryTakeTie(m: Machine, st: State, r: nat, session: string, token: AuthToken, lingers: bool)
    requires m.backend.SweepsOnPut?
    ensures Nonces(TakeNonce(m, st, r, session, token, lingers).entries) == Nonces(st.entries) - {session}
    ensures var ph := TakeNonce(m, st, r, session, token, lingers).requests[r];
      if session in Nonces(st.entries) then ph.Taken? && ph.login.entry.nonce == Nonces(st.entries)[session]
      else ph == Rejected(NonceNotFound)
  {
  }

  /** The keys a Redis store would hold for the same entries. */
  function Cells<P>(entries: map<string, Entry>, ttl: int, marshal: ChallengeNonce -> P): (m: map<string, Cell<P>>) {
    map k | k in entries :: Cell(marshal(entries[k].nonce), entries[k].at + ttl)
  }

  /** The protocol's Put and Take do to those keys what the client's SET and GETDEL do. */
  lemma {:induction false} RedisStoreTie<P>(m: Machine, st: State, r: nat, session: string, nonce: ChallengeNonce, token: AuthToken,
                         lingers: bool, marshal: ChallengeNonce -> P)
    requires m.backend.KeyExpiry?
    ensures Cells(PutNonce(m, st, r, session, nonce).entries, m.backend.ttl, marshal)
         == Cells(st.entries, m.backend.ttl, marshal)[session := Cell(marshal(nonce), st.clock + m.backend.ttl)]
    ensures Cells(TakeNonce(m, st, r, session, token, lingers).entries, m.backend.ttl, marshal)
         == Cells(st.entries, m.backend.ttl, marshal) - {session}
    ensures var ph, cells := TakeNonce(m, st, r, session, token, lingers).requests[r], Cells(st.entries, m.backend.ttl, marshal);
      if session in cells && Readable(cells[session].deadline, st.clock, lingers)
      then ph.Taken? && marshal(ph.login.entry.nonce) == cells[session].payload
      else ph == Rejected(NonceNotFound)
  {
    assert SweptSessions(m.backend, st) == {};
    assert st.entries - {} == st.entries;
  }
}
