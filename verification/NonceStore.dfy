/** store.go, store_memory.go, redisstore/store.go and nonce.go: challenge nonces
    and the two stores that keep them, one per browser session. */
module NonceStore {
  import opened Wrappers
  import GoTime

  const DEFAULT_NONCE_TTL := 300 * GoTime.SECOND

  datatype ChallengeNonce = ChallengeNonce(value: string, issuedAt: int)

  datatype StoreError = NoSession | NotFound | Unavailable

  predicate Expired(n: ChallengeNonce, now: int, ttl: int) {
    GoTime.Sub(now, n.issuedAt) > ttl
  }

  /** A nonce once expired stays expired, and stays so for every shorter lifetime. */
  lemma {:induction false} ExpiredMonotone(n: ChallengeNonce, now: int, later: int, ttl: int, shorter: int)
    requires now <= later && shorter <= ttl
    ensures Expired(n, now, ttl) ==> Expired(n, later, shorter)
  {
  }

  /** The entries a sweep at that moment leaves. */
  function Unexpired(entries: map<string, ChallengeNonce>, now: int, ttl: int): (kept: map<string, ChallengeNonce>) {
    map k | k in entries && !Expired(entries[k], now, ttl) :: entries[k]
  }

  class InMemoryStore {
    const ttl: int
    var entries: map<string, ChallengeNonce>

    constructor (ttl: int)
      ensures this.ttl == (if ttl <= 0 then 300_000_000_000 else ttl)
      ensures entries == map[]
    {
      this.ttl := if ttl <= 0 then DEFAULT_NONCE_TTL else ttl;
      entries := map[];
    }

    /** sweepLocked: deletes expired entries while ranging over the map in any order. */
    method SweepLocked(now: int)
      modifies this
      ensures entries == Unexpired(old(entries), now, ttl)
    {
      var todo := entries.Keys;
      while todo != {}
        invariant todo <= entries.Keys <= old(entries).Keys
        invariant forall k :: k in entries ==> entries[k] == old(entries)[k]
        invariant forall k :: k in old(entries) && k !in todo ==> (k in entries <==> !Expired(old(entries)[k], now, ttl))
        decreases todo
      {
        var k :| k in todo;
        if Expired(entries[k], now, ttl) {
          entries := entries - {k};
        }
        todo := todo - {k};
      }
    }

    method Put(session: Result<string, StoreError>, nonce: ChallengeNonce, now: int) returns (err: Option<StoreError>)
      modifies this
      ensures session.Err? ==> err == Some(session.error) && entries == old(entries)
      ensures session.Ok? ==> err == None && entries == Unexpired(old(entries), now, ttl)[session.value := nonce]
    {
      if session.Err? {
        return Some(session.error);
      }
      SweepLocked(now);
      entries := entries[session.value := nonce];
      return None;
    }

    method GetAndRemove(session: Result<string, StoreError>) returns (r: Result<ChallengeNonce, StoreError>)
      modifies this
      ensures session.Err? ==> r == Err(session.error) && entries == old(entries)
      ensures session.Ok? ==>
        && entries == old(entries) - {session.value}
        && r == (if session.value in old(entries) then Ok(old(entries)[session.value]) else Err(NotFound))
    {
      if session.Err? {
        return Err(session.error);
      }
      if session.value !in entries {
        assert entries == entries - {session.value};
        return Err(NotFound);
      }
      r := Ok(entries[session.value]);
      entries := entries - {session.value};
    }
  }

  /** A Redis value and the instant its key expires. */
  datatype Cell<P> = Cell(payload: P, deadline: int)

  /** Whether a key can still be read: certainly before its deadline, certainly not
      after it, and at the deadline itself as the server chooses. */
  predicate Readable(deadline: int, now: int, lingers: bool) {
    now < deadline || (lingers && now == deadline)
  }

  /** The Client contract: SET with an expiry and an atomic GETDEL; `up` says
      whether the server answers, `lingers` what it chooses at a key's deadline. */
  class RedisClient<P> {
    var keys: map<string, Cell<P>>

    constructor ()
      ensures keys == map[]
    {
      keys := map[];
    }

    method Set(key: string, value: P, ttl: int, now: int, up: bool) returns (ok: bool)
      modifies this
      ensures ok == up
      ensures keys == if up then old(keys)[key := Cell(value, now + ttl)] else old(keys)
    {
      if up {
        keys := keys[key := Cell(value, now + ttl)];
      }
      return up;
    }

    method GetDel(key: string, now: int, lingers: bool, up: bool) returns (r: Result<Option<P>, StoreError>)
      modifies this
      ensures !up ==> r == Err(Unavailable) && keys == old(keys)
      ensures up ==>
        && keys == old(keys) - {key}
        && r == Ok(if key in old(keys) && Readable(old(keys)[key].deadline, now, lingers)
                   then Some(old(keys)[key].payload) else None)
    {
      if !up {
        return Err(Unavailable);
      }
      r := Ok(if key in keys && Readable(keys[key].deadline, now, lingers) then Some(keys[key].payload) else None);
      keys := keys - {key};
    }
  }

  /** redisstore.Store, for a JSON encoding of nonces into payloads. */
  class RedisStore<P> {
    const client: RedisClient<P>
    const ttl: int
    const prefix: string
    const marshal: ChallengeNonce -> P
    const unmarshal: P -> Option<ChallengeNonce>

    constructor (client: RedisClient<P>, ttl: int, prefix: string,
                 marshal: ChallengeNonce -> P, unmarshal: P -> Option<ChallengeNonce>)
      ensures this.client == client && this.prefix == prefix
      ensures this.ttl == (if ttl <= 0 then 300_000_000_000 else ttl)
      ensures this.marshal == marshal && this.unmarshal == unmarshal
    {
      this.client, this.prefix := client, prefix;
      this.ttl := if ttl <= 0 then DEFAULT_NONCE_TTL else ttl;
      this.marshal, this.unmarshal := marshal, unmarshal;
    }

    /** The session's key holds that nonce, encoded, until that instant. */
    ghost predicate Holds(session: string, nonce: ChallengeNonce, deadline: int)
      reads client
    {
      prefix + session in client.keys && client.keys[prefix + session] == Cell(marshal(nonce), deadline)
    }

    method Put(session: Result<string, StoreError>, nonce: ChallengeNonce, now: int, up: bool)
      returns (err: Option<StoreError>)
      modifies client
      ensures session.Err? ==> err == Some(session.error)
      ensures session.Ok? ==> err == if up then None else Some(Unavailable)
      ensures err.None? ==> Holds(session.value, nonce, now + ttl)
      ensures err.None? ==> forall k :: k != prefix + session.value ==>
        (k in client.keys <==> k in old(client.keys)) && (k in client.keys ==> client.keys[k] == old(client.keys)[k])
      ensures err.Some? ==> client.keys == old(client.keys)
    {
      if session.Err? {
        return Some(session.error);
      }
      var ok := client.Set(prefix + session.value, marshal(nonce), ttl, now, up);
      return if ok then None else Some(Unavailable);
    }

    /** Every failure to produce a nonce is reported as not found, and the key is
        gone once the server has answered. */
    method GetAndRemove(session: Result<string, StoreError>, now: int, lingers: bool, up: bool)
      returns (r: Result<ChallengeNonce, StoreError>)
      modifies client
      ensures session.Err? ==> r == Err(session.error)
      ensures session.Err? || !up ==> client.keys == old(client.keys)
      ensures session.Ok? && up ==> client.keys == old(client.keys) - {prefix + session.value}
      ensures session.Ok? ==> var key := prefix + session.value;
        && (r.Ok? <==> up && key in old(client.keys) && Readable(old(client.keys)[key].deadline, now, lingers)
                       && unmarshal(old(client.keys)[key].payload).Some?)
        && (r.Ok? ==> unmarshal(old(client.keys)[key].payload) == Some(r.value))
        && (r.Err? ==> r == Err(NotFound))
      ensures session.Ok? ==> forall n, d :: old(Holds(session.value, n, d)) && unmarshal(marshal(n)) == Some(n) ==>
        r == if up && Readable(d, now, lingers) then Ok(n) else Err(NotFound)
    {
      if session.Err? {
        return Err(session.error);
      }
      var raw := client.GetDel(prefix + session.value, now, lingers, up);
      if raw.Err? || raw.value.None? {
        return Err(NotFound);
      }
      var sn := unmarshal(raw.value.value);
      return if sn.None? then Err(NotFound) else Ok(sn.value);
    }
  }
}
