/** assertion/assertion.go: the signed identity assertion, a compact JWS
    (section 7.1 of RFC 7515) signed with ES256 (section 3.4 of RFC 7518). */
module Assertion {
  import opened Wrappers
  import opened Bytes
  import opened Text
  import opened Signature
  import Base64Url
  import GoTime

  const P256_BYTE_LEN: nat := 32

  datatype Subject = Subject(
    nationalId: string, country: string, givenName: string, familyName: string, loa: string)

  datatype Claims = Claims(
    issuer: string, audience: string, subject: string, issuedAt: int, expiry: int, jwtId: string,
    nationalId: string, country: string, givenName: string, familyName: string, loa: string,
    loginMethod: string)

  datatype Header = Header(alg: string, typ: string, kid: string)

  /** encoding/json on the two documents of a token, and the UTF-8 bytes of a string. */
  datatype Codec = Codec(
    utf8: string -> seq<Byte>,
    marshalHeader: Header -> seq<Byte>,
    unmarshalHeader: seq<Byte> -> Option<Header>,
    marshalClaims: Claims -> seq<Byte>,
    unmarshalClaims: seq<Byte> -> Option<Claims>)

  ghost predicate JsonRoundTrips(j: Codec) {
    && (forall h :: j.unmarshalHeader(j.marshalHeader(h)) == Some(h))
    && (forall c :: j.unmarshalClaims(j.marshalClaims(c)) == Some(c))
  }

  /** A signing key: its id, its public half, and ecdsa.Sign with the entropy of one call. */
  datatype SigningKey = SigningKey(kid: string, pub: EcKey, sign: seq<Byte> -> Option<(nat, nat)>)

  /** What ecdsa.Sign promises: r and s below the order of P-256, and they verify. */
  ghost predicate SignsFor(c: Crypto, key: SigningKey) {
    forall d :: key.sign(d).Some? ==>
      var (r, s) := key.sign(d).value;
      r < Pow256(P256_BYTE_LEN) && s < Pow256(P256_BYTE_LEN) && c.ecdsaVerify(key.pub, d, r, s)
  }

  datatype Issuer = Issuer(key: SigningKey, iss: string, aud: string, ttl: int)

  datatype IssueError = NationalIdRequired | NoEntropy

  /** The claims Issue mints at time now. */
  function ClaimsFor(i: Issuer, s: Subject, jti: string, now: int): (c: Claims) {
    Claims(i.iss, i.aud, s.nationalId, GoTime.Unix(now), GoTime.Unix(now + i.ttl), jti,
           s.nationalId, s.country, s.givenName, s.familyName, s.loa, "webEid")
  }

  function SigningInput(j: Codec, kid: string, claims: Claims): (s: string) {
    Base64Url.Encode(j.marshalHeader(Header("ES256", "JWT", kid))) + "." + Base64Url.Encode(j.marshalClaims(claims))
  }

  /** The token for given signature halves. */
  function Compact(input: string, r: nat, s: nat): (t: string) {
    input + "." + Base64Url.Encode(ToBytes(r, P256_BYTE_LEN) + ToBytes(s, P256_BYTE_LEN))
  }

  /** The signature buffer of sign: both integers written in place into its halves. */
  method SignatureBytes(r: nat, s: nat) returns (sig: seq<Byte>)
    requires r < Pow256(P256_BYTE_LEN) && s < Pow256(P256_BYTE_LEN)
    ensures sig == ToBytes(r, P256_BYTE_LEN) + ToBytes(s, P256_BYTE_LEN)
  {
    var buf := new Byte[2 * P256_BYTE_LEN](i => 0);
    FillBytes(buf, 0, P256_BYTE_LEN, r);
    assert buf[..P256_BYTE_LEN] == ToBytes(r, P256_BYTE_LEN) && buf[2 * P256_BYTE_LEN..] == [];
    FillBytes(buf, P256_BYTE_LEN, 2 * P256_BYTE_LEN, s);
    sig := buf[..];
  }

  /** sign. */
  method Sign(c: Crypto, j: Codec, key: SigningKey, claims: Claims) returns (r: Result<string, IssueError>)
    requires SignsFor(c, key)
    ensures r == Signed(c, j, key, claims)
  {
    var input := SigningInput(j, key.kid, claims);
    var rs := key.sign(c.sum(SHA256, j.utf8(input)));
    if rs.None? {
      return Err(NoEntropy);
    }
    var sig := SignatureBytes(rs.value.0, rs.value.1);
    return Ok(input + "." + Base64Url.Encode(sig));
  }

  function Signed(c: Crypto, j: Codec, key: SigningKey, claims: Claims): (r: Result<string, IssueError>) {
    var input := SigningInput(j, key.kid, claims);
    match key.sign(c.sum(SHA256, j.utf8(input)))
    case None => Err(NoEntropy)
    case Some((x, y)) => Ok(Compact(input, x, y))
  }

  /** Issue, for the jti the generator returned, if it returned one. */
  function Issue(c: Crypto, j: Codec, i: Issuer, s: Subject, jti: Option<string>, now: int)
    : (r: Result<string, IssueError>)
  {
    if s.nationalId == "" then Err(NationalIdRequired)
    else if jti.None? then Err(NoEntropy)
    else Signed(c, j, i.key, ClaimsFor(i, s, jti.value, now))
  }

  datatype Verifier = Verifier(keys: map<string, EcKey>, iss: string, aud: string, leeway: int)

  datatype VerifyError =
    InvalidToken | Algorithm | UnknownKey | BadSignature | WrongIssuer | WrongAudience | Expired | NotYetValid

  /** The time checks at the end of Verify: None is success. */
  function TimeVerdict(c: Claims, leeway: int, now: int): (e: Option<VerifyError>) {
    if c.expiry != 0 && now > c.expiry * GoTime.SECOND + leeway then Some(Expired)
    else if c.issuedAt != 0 && now + leeway < c.issuedAt * GoTime.SECOND then Some(NotYetValid)
    else None
  }

  function Verify(c: Crypto, j: Codec, v: Verifier, token: string, now: int): (r: Result<Claims, VerifyError>) {
    var parts := Split(token, '.');
    if |parts| != 3 then Err(InvalidToken) else VerifyParts(c, j, v, parts[0], parts[1], parts[2], now)
  }

  function VerifyParts(c: Crypto, j: Codec, v: Verifier, header: string, body: string, signature: string, now: int)
    : (r: Result<Claims, VerifyError>)
  {
    var pub := KeyNamedBy(j, v.keys, header);
    if pub.Err? then Err(pub.error) else
    var rs := SignatureIntegers(signature);
    if rs.None? then Err(InvalidToken) else
    if !c.ecdsaVerify(pub.value, c.sum(SHA256, j.utf8(header + "." + body)), rs.value.0, rs.value.1)
    then Err(BadSignature)
    else CheckedClaims(j, v, body, now)
  }

  function KeyNamedBy(j: Codec, keys: map<string, EcKey>, header: string): (r: Result<EcKey, VerifyError>) {
    var hdrBytes := Base64Url.Decode(header);
    if hdrBytes.None? then Err(InvalidToken) else
    var hdr := j.unmarshalHeader(hdrBytes.value);
    if hdr.None? then Err(InvalidToken) else
    if hdr.value.alg != "ES256" then Err(Algorithm) else
    if hdr.value.kid !in keys then Err(UnknownKey)
    else Ok(keys[hdr.value.kid])
  }

  function SignatureIntegers(signature: string): (rs: Option<(nat, nat)>) {
    var sig := Base64Url.Decode(signature);
    if sig.None? || |sig.value| != 2 * P256_BYTE_LEN then None
    else Some((ToNat(sig.value[..P256_BYTE_LEN]), ToNat(sig.value[P256_BYTE_LEN..])))
  }

  function CheckedClaims(j: Codec, v: Verifier, body: string, now: int): (r: Result<Claims, VerifyError>) {
    var payload := Base64Url.Decode(body);
    if payload.None? then Err(InvalidToken) else
    var claims := j.unmarshalClaims(payload.value);
    if claims.None? then Err(InvalidToken) else
    if claims.value.issuer != v.iss then Err(WrongIssuer) else
    if claims.value.audience != v.aud then Err(WrongAudience) else
    var late := TimeVerdict(claims.value, v.leeway, now);
    if late.Some? then Err(late.value) else Ok(claims.value)
  }

  lemma {:induction false} SplitCompact(a: string, b: string, d: string)
    requires '.' !in a && '.' !in b && '.' !in d
    ensures Split(a + "." + b + "." + d, '.') == [a, b, d]
  {
    SplitFirst(a, b + "." + d, '.');
    SplitFirst(b, d, '.');
    SplitWithout(d, '.');
    assert a + "." + b + "." + d == a + "." + (b + "." + d);
  }

  /** Decoding inverts the fixed-width encoding of the signature. */
  lemma {:induction false} SignatureRoundTrip(r: nat, s: nat)
    requires r < Pow256(P256_BYTE_LEN) && s < Pow256(P256_BYTE_LEN)
    ensures SignatureIntegers(Base64Url.Encode(ToBytes(r, P256_BYTE_LEN) + ToBytes(s, P256_BYTE_LEN))) == Some((r, s))
  {
    var sig := ToBytes(r, P256_BYTE_LEN) + ToBytes(s, P256_BYTE_LEN);
    Base64Url.DecodeEncode(sig);
    assert sig[..P256_BYTE_LEN] == ToBytes(r, P256_BYTE_LEN);
    assert sig[P256_BYTE_LEN..] == ToBytes(s, P256_BYTE_LEN);
    ToNatToBytes(r, P256_BYTE_LEN);
    ToNatToBytes(s, P256_BYTE_LEN);
  }

  lemma {:induction false} HeaderRoundTrip(j: Codec, keys: map<string, EcKey>, kid: string)
    requires JsonRoundTrips(j) && kid in keys
    ensures KeyNamedBy(j, keys, Base64Url.Encode(j.marshalHeader(Header("ES256", "JWT", kid)))) == Ok(keys[kid])
  {
    Base64Url.DecodeEncode(j.marshalHeader(Header("ES256", "JWT", kid)));
  }

  lemma {:induction false} ClaimsRoundTrip(j: Codec, v: Verifier, claims: Claims, now: int)
    requires JsonRoundTrips(j)
    requires claims.issuer == v.iss && claims.audience == v.aud
    ensures CheckedClaims(j, v, Base64Url.Encode(j.marshalClaims(claims)), now)
      == match TimeVerdict(claims, v.leeway, now) case None => Ok(claims) case Some(e) => Err(e)
  {
    Base64Url.DecodeEncode(j.marshalClaims(claims));
  }

  /** A compact token splits back into the three encodings it was made of. */
  lemma {:induction false} SplitToken(j: Codec, kid: string, claims: Claims, x: nat, y: nat)
    ensures Split(Compact(SigningInput(j, kid, claims), x, y), '.')
      == [Base64Url.Encode(j.marshalHeader(Header("ES256", "JWT", kid))),
          Base64Url.Encode(j.marshalClaims(claims)),
          Base64Url.Encode(ToBytes(x, P256_BYTE_LEN) + ToBytes(y, P256_BYTE_LEN))]
  {
    var hdr, payload := j.marshalHeader(Header("ES256", "JWT", kid)), j.marshalClaims(claims);
    var sig := ToBytes(x, P256_BYTE_LEN) + ToBytes(y, P256_BYTE_LEN);
    Base64Url.DecodeEncode(hdr);
    Base64Url.DecodeEncode(payload);
    Base64Url.DecodeEncode(sig);
    SplitCompact(Base64Url.Encode(hdr), Base64Url.Encode(payload), Base64Url.Encode(sig));
  }

  /** A token whose signature integers verify yields its claims. */
  lemma {:induction false} VerifyCompact(c: Crypto, j: Codec, v: Verifier, kid: string, claims: Claims, x: nat, y: nat, now: int)
    requires JsonRoundTrips(j)
    requires kid in v.keys
    requires x < Pow256(P256_BYTE_LEN) && y < Pow256(P256_BYTE_LEN)
    requires c.ecdsaVerify(v.keys[kid], c.sum(SHA256, j.utf8(SigningInput(j, kid, claims))), x, y)
    requires claims.issuer == v.iss && claims.audience == v.aud
    ensures Verify(c, j, v, Compact(SigningInput(j, kid, claims), x, y), now)
      == match TimeVerdict(claims, v.leeway, now) case None => Ok(claims) case Some(e) => Err(e)
  {
    SplitToken(j, kid, claims, x, y);
    HeaderRoundTrip(j, v.keys, kid);
    SignatureRoundTrip(x, y);
    ClaimsRoundTrip(j, v, claims, now);
  }

  // What a token says, read off by the positions of its dots.

  function FirstIndex(s: string, c: char): (i: nat)
    ensures i <= |s|
  {
    if s == [] || s[0] == c then 0 else 1 + FirstIndex(s[1..], c)
  }

  function LastIndex(s: string, c: char): (i: int)
    ensures -1 <= i < |s|
    ensures i >= 0 ==> s[i] == c
  {
    if s == [] then -1 else if s[|s| - 1] == c then |s| - 1 else LastIndex(s[..|s| - 1], c)
  }

  /** Everything before the last dot: the bytes the signature covers. */
  function SignedPart(token: string): (s: string) {
    if LastIndex(token, '.') < 0 then [] else token[..LastIndex(token, '.')]
  }

  function SignaturePart(token: string): (s: string) {
    token[LastIndex(token, '.') + 1..]
  }

  function HeaderOf(j: Codec, signed: string): (h: Option<Header>) {
    match Base64Url.Decode(signed[..FirstIndex(signed, '.')])
    case None => None
    case Some(b) => j.unmarshalHeader(b)
  }

  function ClaimsOf(j: Codec, signed: string): (c: Option<Claims>) {
    if FirstIndex(signed, '.') == |signed| then None else
    match Base64Url.Decode(signed[FirstIndex(signed, '.') + 1..])
    case None => None
    case Some(b) => j.unmarshalClaims(b)
  }

  /** The key set holds a key, named by the signed header, that verifies the
      signature part over exactly the signed part. */
  predicate SignatureHolds(c: Crypto, j: Codec, keys: map<string, EcKey>, token: string) {
    var signed := SignedPart(token);
    var hdr := HeaderOf(j, signed);
    var rs := SignatureIntegers(SignaturePart(token));
    && hdr.Some? && hdr.value.alg == "ES256" && hdr.value.kid in keys
    && rs.Some?
    && c.ecdsaVerify(keys[hdr.value.kid], c.sum(SHA256, j.utf8(signed)), rs.value.0, rs.value.1)
  }

  lemma {:induction false} LastIndexAt(a: string, d: string, c: char)
    requires c !in d
    ensures LastIndex(a + [c] + d, c) == |a|
  {
    var s := a + [c] + d;
    if d != [] {
      LastIndexAt(a, d[..|d| - 1], c);
      assert s[..|s| - 1] == a + [c] + d[..|d| - 1];
    }
  }

  lemma {:induction false} FirstIndexAt(a: string, d: string, c: char)
    requires c !in a
    ensures FirstIndex(a + [c] + d, c) == |a|
  {
    if a != [] {
      FirstIndexAt(a[1..], d, c);
      assert (a + [c] + d)[1..] == a[1..] + [c] + d;
    }
  }

  lemma {:induction false} JoinThree(parts: seq<string>)
    requires |parts| == 3
    ensures Join(parts, '.') == parts[0] + "." + parts[1] + "." + parts[2]
  {
    assert Join(parts[1..], '.') == parts[1] + "." + Join(parts[1..][1..], '.');
    assert parts[1..][1..] == [parts[2]];
    assert parts[0] + "." + (parts[1] + "." + parts[2]) == parts[0] + "." + parts[1] + "." + parts[2];
  }

  /** A token with two dots falls into the three parts its dots delimit. */
  lemma {:induction false} ThreeParts(token: string)
    requires Count(token, '.') == 2
    ensures var parts := Split(token, '.'); var signed := SignedPart(token);
      && |parts| == 3
      && signed == parts[0] + "." + parts[1]
      && SignaturePart(token) == parts[2]
      && FirstIndex(signed, '.') == |parts[0]|
      && signed[..|parts[0]|] == parts[0]
      && signed[|parts[0]| + 1..] == parts[1]
  {
    var parts := Split(token, '.');
    SplitParts(token, '.');
    JoinSplit(token, '.');
    JoinThree(parts);
    LastIndexAt(parts[0] + "." + parts[1], parts[2], '.');
    FirstIndexAt(parts[0], parts[1], '.');
  }

  /** Verify accepts a string, with given claims, exactly when the string has two
      dots, the signature holds over everything before the last one, and those
      same bytes decode to the claims, which pass the issuer, audience and time
      checks. */
  lemma {:induction false} VerifyExactly(c: Crypto, j: Codec, v: Verifier, token: string, now: int, claims: Claims)
    ensures Verify(c, j, v, token, now) == Ok(claims) <==>
      && Count(token, '.') == 2
      && SignatureHolds(c, j, v.keys, token)
      && ClaimsOf(j, SignedPart(token)) == Some(claims)
      && claims.issuer == v.iss && claims.audience == v.aud
      && TimeVerdict(claims, v.leeway, now).None?
  {
    SplitParts(token, '.');
    if Count(token, '.') == 2 {
      ThreeParts(token);
    }
  }

  /** Every answer of Verify, on the token's own parts and in the order of its checks:
      the first that fails gives the error. */
  lemma {:induction false} VerifyFirstFailure(c: Crypto, j: Codec, v: Verifier, token: string, now: int)
    ensures var signed := SignedPart(token);
      var hdr, claims, sig := HeaderOf(j, signed), ClaimsOf(j, signed), Base64Url.Decode(SignaturePart(token));
      Verify(c, j, v, token, now) ==
        if Count(token, '.') != 2 || hdr.None? then Err(InvalidToken)
        else if hdr.value.alg != "ES256" then Err(Algorithm)
        else if hdr.value.kid !in v.keys then Err(UnknownKey)
        else if sig.None? || |sig.value| != 64 then Err(InvalidToken)
        else if !c.ecdsaVerify(v.keys[hdr.value.kid], c.sum(SHA256, j.utf8(signed)), ToNat(sig.value[..32]), ToNat(sig.value[32..]))
        then Err(BadSignature)
        else if claims.None? then Err(InvalidToken)
        else if claims.value.issuer != v.iss then Err(WrongIssuer)
        else if claims.value.audience != v.aud then Err(WrongAudience)
        else if claims.value.expiry != 0 && now > claims.value.expiry * 1_000_000_000 + v.leeway then Err(Expired)
        else if claims.value.issuedAt != 0 && now + v.leeway < claims.value.issuedAt * 1_000_000_000 then Err(NotYetValid)
        else Ok(claims.value)
  {
    SplitParts(token, '.');
    if Count(token, '.') == 2 {
      ThreeParts(token);
    }
  }

  /** Accepted tokens that agree up to their last dot yield the same claims, for
      any verifiers and instants. */
  lemma {:induction false} SameSignedPartSameClaims(c: Crypto, j: Codec, v: Verifier, w: Verifier, t: string, u: string, now: int, then': int)
    requires SignedPart(t) == SignedPart(u)
    requires Verify(c, j, v, t, now).Ok? && Verify(c, j, w, u, then').Ok?
    ensures Verify(c, j, v, t, now) == Verify(c, j, w, u, then')
  {
    VerifyExactly(c, j, v, t, now, Verify(c, j, v, t, now).value);
    VerifyExactly(c, j, w, u, then', Verify(c, j, w, u, then').value);
  }

  // Issue, and back.

  /** Signing succeeds exactly when the signer does: for the integers it returned for
      the SHA-256 of header and claims, joined by a dot, the token has three parts, the
      encodings of the header, of the claims and of both integers at full width. */
  lemma {:induction false} SignedExactly(c: Crypto, j: Codec, key: SigningKey, claims: Claims)
    ensures var hdr, payload := Base64Url.Encode(j.marshalHeader(Header("ES256", "JWT", key.kid))), Base64Url.Encode(j.marshalClaims(claims));
      var rs := key.sign(c.sum(SHA256, j.utf8(hdr + "." + payload)));
      && (rs.None? ==> Signed(c, j, key, claims) == Err(NoEntropy))
      && (rs.Some? ==>
            && Signed(c, j, key, claims).Ok?
            && Split(Signed(c, j, key, claims).value, '.')
               == [hdr, payload, Base64Url.Encode(ToBytes(rs.value.0, P256_BYTE_LEN) + ToBytes(rs.value.1, P256_BYTE_LEN))])
  {
    var rs := key.sign(c.sum(SHA256, j.utf8(SigningInput(j, key.kid, claims))));
    if rs.Some? {
      SplitToken(j, key.kid, claims, rs.value.0, rs.value.1);
    }
  }

  /** Issue refuses a subject without a national id first and a failing id generator
      second; otherwise it signs the issuer's names, the subject's data, the id and the
      two times in whole seconds, each in its own claim. */
  lemma {:induction false} IssueExactly(c: Crypto, j: Codec, i: Issuer, s: Subject, jti: Option<string>, issuedAt: int)
    ensures s.nationalId == "" ==> Issue(c, j, i, s, jti, issuedAt) == Err(NationalIdRequired)
    ensures s.nationalId != "" && jti.None? ==> Issue(c, j, i, s, jti, issuedAt) == Err(NoEntropy)
    ensures s.nationalId != "" && jti.Some? ==>
      Issue(c, j, i, s, jti, issuedAt) == Signed(
        c, j, i.key,
        Claims(i.iss, i.aud, s.nationalId, issuedAt / 1_000_000_000, (issuedAt + i.ttl) / 1_000_000_000, jti.value,
               s.nationalId, s.country, s.givenName, s.familyName, s.loa, "webEid"))
  {
  }

  lemma {:induction false} IssuedVerdict(c: Crypto, j: Codec, i: Issuer, s: Subject, jti: Option<string>, issuedAt: int,
                      v: Verifier, now: int)
    requires JsonRoundTrips(j) && SignsFor(c, i.key)
    requires i.key.kid in v.keys && v.keys[i.key.kid] == i.key.pub
    requires v.iss == i.iss && v.aud == i.aud
    requires Issue(c, j, i, s, jti, issuedAt).Ok?
    ensures jti.Some? && s.nationalId != ""
    ensures var claims := ClaimsFor(i, s, jti.value, issuedAt);
      Verify(c, j, v, Issue(c, j, i, s, jti, issuedAt).value, now) ==
        match TimeVerdict(claims, v.leeway, now) case None => Ok(claims) case Some(e) => Err(e)
  {
    var claims := ClaimsFor(i, s, jti.value, issuedAt);
    var d := c.sum(SHA256, j.utf8(SigningInput(j, i.key.kid, claims)));
    assert i.key.sign(d).Some?;
    VerifyCompact(c, j, v, i.key.kid, claims, i.key.sign(d).value.0, i.key.sign(d).value.1, now);
  }

  /** Verify undoes Issue: an issued token yields exactly the issuer's names, the
      subject's data, the id and the two times in whole seconds, or the verdict of the
      time checks on them, whatever other keys the set holds. */
  lemma {:induction false} IssueThenVerify(c: Crypto, j: Codec, i: Issuer, s: Subject, jti: Option<string>, issuedAt: int,
                        v: Verifier, now: int)
    requires JsonRoundTrips(j) && SignsFor(c, i.key)
    requires i.key.kid in v.keys && v.keys[i.key.kid] == i.key.pub
    requires v.iss == i.iss && v.aud == i.aud
    requires Issue(c, j, i, s, jti, issuedAt).Ok?
    ensures jti.Some? && s.nationalId != ""
    ensures var iat, exp := issuedAt / 1_000_000_000, (issuedAt + i.ttl) / 1_000_000_000;
      Verify(c, j, v, Issue(c, j, i, s, jti, issuedAt).value, now) ==
        if exp != 0 && now > exp * 1_000_000_000 + v.leeway then Err(Expired)
        else if iat != 0 && now + v.leeway < iat * 1_000_000_000 then Err(NotYetValid)
        else Ok(Claims(i.iss, i.aud, s.nationalId, iat, exp, jti.value,
                       s.nationalId, s.country, s.givenName, s.familyName, s.loa, "webEid"))
  {
    IssuedVerdict(c, j, i, s, jti, issuedAt, v, now);
    VerdictWritten(i, s, jti.value, issuedAt, v.leeway, now);
  }

  /** The minted claims and their time checks, written out. */
  lemma {:induction false} VerdictWritten(i: Issuer, s: Subject, jti: string, issuedAt: int, leeway: int, now: int)
    ensures var iat, exp := issuedAt / 1_000_000_000, (issuedAt + i.ttl) / 1_000_000_000;
      var claims := ClaimsFor(i, s, jti, issuedAt);
      (match TimeVerdict(claims, leeway, now) case None => Ok(claims) case Some(e) => Err(e)) ==
        if exp != 0 && now > exp * 1_000_000_000 + leeway then Err(Expired)
        else if iat != 0 && now + leeway < iat * 1_000_000_000 then Err(NotYetValid)
        else Ok(Claims(i.iss, i.aud, s.nationalId, iat, exp, jti,
                       s.nationalId, s.country, s.givenName, s.familyName, s.loa, "webEid"))
  {
  }

  /** Exactly when the time checks pass: an absent (zero) claim is not checked, and
      expiry is reported before a start in the future. */
  lemma {:induction false} TimeChecksPass(c: Claims, leeway: int, now: int)
    ensures TimeVerdict(c, leeway, now).None? <==>
      && (c.issuedAt == 0 || c.issuedAt * GoTime.SECOND - leeway <= now)
      && (c.expiry == 0 || now <= c.expiry * GoTime.SECOND + leeway)
    ensures TimeVerdict(c, leeway, now) == Some(Expired) <==> c.expiry != 0 && now > c.expiry * GoTime.SECOND + leeway
  {
  }

  /** The acceptance window of claims minted at t with lifetime ttl, through the
      truncation of both instants to whole seconds. */
  lemma {:induction false} TimeWindow(c: Claims, t: int, ttl: int, leeway: int, now: int)
    requires c.issuedAt == t / 1_000_000_000 != 0 && c.expiry == (t + ttl) / 1_000_000_000 != 0
    ensures t - leeway <= now <= t + ttl + leeway - 1_000_000_000 ==> TimeVerdict(c, leeway, now).None?
    ensures now > t + ttl + leeway || now <= t - leeway - 1_000_000_000 ==> TimeVerdict(c, leeway, now).Some?
    ensures t % 1_000_000_000 == 0 && (t + ttl) % 1_000_000_000 == 0 ==>
      (TimeVerdict(c, leeway, now).None? <==> t - leeway <= now <= t + ttl + leeway)
  {
    TimeChecksPass(c, leeway, now);
  }

  /** The same of an issued token: inside the window Verify returns its claims, outside
      it refuses the token, for every verifier that knows the key. */
  lemma {:induction false} IssuedWindow(c: Crypto, j: Codec, i: Issuer, s: Subject, jti: Option<string>, t: int, v: Verifier, now: int)
    requires JsonRoundTrips(j) && SignsFor(c, i.key)
    requires i.key.kid in v.keys && v.keys[i.key.kid] == i.key.pub
    requires v.iss == i.iss && v.aud == i.aud
    requires Issue(c, j, i, s, jti, t).Ok? && t / 1_000_000_000 != 0 && (t + i.ttl) / 1_000_000_000 != 0
    ensures var r := Verify(c, j, v, Issue(c, j, i, s, jti, t).value, now);
      && (t - v.leeway <= now <= t + i.ttl + v.leeway - 1_000_000_000 ==> r.Ok?)
      && (now > t + i.ttl + v.leeway || now <= t - v.leeway - 1_000_000_000 ==> r == Err(Expired) || r == Err(NotYetValid))
  {
    IssueThenVerify(c, j, i, s, jti, t, v, now);
  }
}
