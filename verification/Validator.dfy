/** validator.go: the authentication-token validation pipeline. */
module Validator {
  import opened Wrappers
  import opened Bytes
  import opened Certificates
  import Signature
  import Oid

  datatype AuthToken = AuthToken(unverifiedCertificate: string, algorithm: string, signature: string)

  /** The validator's configuration and the libraries under it. */
  datatype Config = Config(
    origins: seq<string>, ocspEnabled: bool, disallowed: seq<Oid.OID>,
    pki: Pki, crypto: Signature.Crypto)

  /** The revocation checker's answer for a certificate and its issuer: None is good. */
  type Revocation = (Certificate, Certificate) -> Option<Error>

  /** hash(origin) || hash(challenge nonce). */
  function Datagram(cfg: Config, h: Signature.Hash, origin: string, nonce: string): (d: seq<Byte>) {
    cfg.crypto.sum(h, cfg.pki.utf8(origin)) + cfg.crypto.sum(h, cfg.pki.utf8(nonce))
  }

  /** The signature value verifies for the nonce under one given origin. */
  predicate SignedAt(cfg: Config, cert: Certificate, algorithm: string, sig: seq<Byte>, origin: string, nonce: string) {
    var h := Signature.HashFor(algorithm);
    h.Some?
    && Signature.Verify(cfg.crypto, cert.key, algorithm, Datagram(cfg, h.value, origin, nonce), sig).None?
  }

  predicate SignedAtSome(cfg: Config, cert: Certificate, algorithm: string, sig: seq<Byte>, nonce: string) {
    exists o :: o in cfg.origins && SignedAt(cfg, cert, algorithm, sig, o, nonce)
  }

  function SignatureError(cfg: Config, token: AuthToken, cert: Certificate, nonce: string): (err: Option<Error>) {
    var sig := cfg.pki.decodeSignature(token.signature);
    if Signature.HashFor(token.algorithm).None? then Some(UnsupportedFormat)
    else if sig.None? then Some(TokenParse)
    else if SignedAtSome(cfg, cert, token.algorithm, sig.value, nonce) then None
    else Some(SignatureInvalid)
  }

  /** verifySignature: tries each configured origin until one verifies. */
  method VerifySignature(cfg: Config, token: AuthToken, cert: Certificate, nonce: string) returns (err: Option<Error>)
    ensures err == SignatureError(cfg, token, cert, nonce)
    ensures var h, sig := Signature.HashFor(token.algorithm), cfg.pki.decodeSignature(token.signature);
      err.None? <==> h.Some? && sig.Some? && exists o :: o in cfg.origins && Signature.Verify(
        cfg.crypto, cert.key, token.algorithm,
        cfg.crypto.sum(h.value, cfg.pki.utf8(o)) + cfg.crypto.sum(h.value, cfg.pki.utf8(nonce)), sig.value).None?
  {
    var h := Signature.HashFor(token.algorithm);
    if h.None? {
      return Some(UnsupportedFormat);
    }
    var sig := cfg.pki.decodeSignature(token.signature);
    if sig.None? {
      return Some(TokenParse);
    }
    var nonceHash := cfg.crypto.sum(h.value, cfg.pki.utf8(nonce));
    for i := 0 to |cfg.origins|
      invariant forall k :: 0 <= k < i ==> !SignedAt(cfg, cert, token.algorithm, sig.value, cfg.origins[k], nonce)
    {
      var signedData := cfg.crypto.sum(h.value, cfg.pki.utf8(cfg.origins[i])) + nonceHash;
      if Signature.Verify(cfg.crypto, cert.key, token.algorithm, signedData, sig.value).None? {
        assert SignedAt(cfg, cert, token.algorithm, sig.value, cfg.origins[i], nonce);
        return None;
      }
    }
    return Some(SignatureInvalid);
  }

  /** The signature value is genuine, in terms of the primitives, over the hash of some
      configured origin followed by the hash of the nonce. */
  ghost predicate GenuineAtSome(cfg: Config, key: Signature.PublicKey, family: string, h: Signature.Hash, sig: seq<Byte>, nonce: string) {
    exists o :: o in cfg.origins &&
      Signature.Genuine(cfg.crypto, key, family, h, cfg.crypto.sum(h, cfg.pki.utf8(o)) + cfg.crypto.sum(h, cfg.pki.utf8(nonce)), sig)
  }

  lemma {:induction false} SignedAtGenuine(cfg: Config, cert: Certificate, algorithm: string, family: string, h: Signature.Hash, sig: seq<Byte>, o: string, nonce: string)
    requires Signature.Names(algorithm, family, h)
    ensures SignedAt(cfg, cert, algorithm, sig, o, nonce) <==>
      Signature.Genuine(cfg.crypto, cert.key, family, h, cfg.crypto.sum(h, cfg.pki.utf8(o)) + cfg.crypto.sum(h, cfg.pki.utf8(nonce)), sig)
  {
    Signature.NamedHash(algorithm, family, h);
    Signature.TokenVerifierExactly(cfg.crypto, cert.key, algorithm, family, h, Datagram(cfg, h, o, nonce), sig);
  }

  /** What the signature check means, for each of the nine names; an unreadable value
      is a parse error and any other name is unsupported. */
  lemma {:induction false} SignatureCheckExactly(cfg: Config, token: AuthToken, cert: Certificate, nonce: string, family: string, h: Signature.Hash)
    requires Signature.Names(token.algorithm, family, h)
    ensures var sig := cfg.pki.decodeSignature(token.signature);
      SignatureError(cfg, token, cert, nonce) ==
        if sig.None? then Some(TokenParse)
        else if GenuineAtSome(cfg, cert.key, family, h, sig.value, nonce) then None
        else Some(SignatureInvalid)
  {
    Signature.NamedHash(token.algorithm, family, h);
    var sig := cfg.pki.decodeSignature(token.signature);
    if sig.Some? {
      forall o | o in cfg.origins
        ensures SignedAt(cfg, cert, token.algorithm, sig.value, o, nonce) <==>
          Signature.Genuine(cfg.crypto, cert.key, family, h, cfg.crypto.sum(h, cfg.pki.utf8(o)) + cfg.crypto.sum(h, cfg.pki.utf8(nonce)), sig.value)
      {
        SignedAtGenuine(cfg, cert, token.algorithm, family, h, sig.value, o, nonce);
      }
    }
  }

  /** On a curve: the value encodes a pair that ecdsa.Verify accepts for the hash of
      the two hashes, origin first. */
  lemma {:induction false} CurveSignatureExactly(cfg: Config, token: AuthToken, cert: Certificate, nonce: string, family: string, h: Signature.Hash)
    requires Signature.Names(token.algorithm, family, h) && cert.key.Ecdsa?
    ensures SignatureError(cfg, token, cert, nonce).None? <==>
      exists o, r: nat, s: nat :: o in cfg.origins && cfg.pki.decodeSignature(token.signature).Some?
        && Signature.Encodes(cfg.pki.decodeSignature(token.signature).value, (cert.key.ec.bitSize + 7) / 8, r, s)
        && cfg.crypto.ecdsaVerify(
             cert.key.ec,
             cfg.crypto.sum(h, cfg.crypto.sum(h, cfg.pki.utf8(o)) + cfg.crypto.sum(h, cfg.pki.utf8(nonce))), r, s)
  {
    SignatureCheckExactly(cfg, token, cert, nonce, family, h);
  }

  /** On an RSA key: PSS for the PS names, PKCS #1 v1.5 for the others, over the same. */
  lemma {:induction false} RsaSignatureExactly(cfg: Config, token: AuthToken, cert: Certificate, nonce: string, family: string, h: Signature.Hash)
    requires Signature.Names(token.algorithm, family, h) && cert.key.Rsa?
    ensures SignatureError(cfg, token, cert, nonce).None? <==>
      exists o :: o in cfg.origins && cfg.pki.decodeSignature(token.signature).Some? &&
        var sig := cfg.pki.decodeSignature(token.signature).value;
        var digest := cfg.crypto.sum(h, cfg.crypto.sum(h, cfg.pki.utf8(o)) + cfg.crypto.sum(h, cfg.pki.utf8(nonce)));
        if family == "PS" then cfg.crypto.verifyPSS(cert.key.rsa, h, digest, sig)
        else cfg.crypto.verifyPKCS1v15(cert.key.rsa, h, digest, sig)
  {
    SignatureCheckExactly(cfg, token, cert, nonce, family, h);
  }

  /** Validate up to the chain check, which it does not include. */
  function BeforeTrust(cfg: Config, token: Option<AuthToken>, nonce: string, now: int): (r: Result<Certificate, Error>) {
    if token.None? then Err(TokenParse) else
    if nonce == "" then Err(NonceNotFound) else
    var cert := cfg.pki.decodeCertificate(token.value.unverifiedCertificate);
    if cert.None? then Err(TokenParse) else
    var validity := CheckValidity(cert.value, now);
    if validity.Some? then Err(validity.value) else
    if !ForAuthentication(cert.value) then Err(WrongPurpose) else
    if !PolicyAllowed(cfg.pki, cert.value, cfg.disallowed) then Err(DisallowedPolicy)
    else Ok(cert.value)
  }

  /** Validate's first reading of the trusted set. */
  function ChainError(cfg: Config, cert: Certificate, now: int, s: Snapshot): (err: Option<Error>) {
    if Trusts(cfg.pki, s, cert, now, [EKU_CLIENT_AUTH]) then None else Some(NotTrusted)
  }

  /** Validate's second reading of the trusted set: the issuer whose responder is asked. */
  function RevocationError(cfg: Config, cert: Certificate, s: Snapshot, ocsp: Revocation): (err: Option<Error>) {
    if !cfg.ocspEnabled then None
    else match Issuer(cfg.pki, s.intermediates, cert)
         case None => Some(NotTrusted)
         case Some(ca) => ocsp(cert, ca)
  }

  /** Validate from the second reading on. */
  function AfterTrust(cfg: Config, token: AuthToken, cert: Certificate, nonce: string, s: Snapshot, ocsp: Revocation)
    : (err: Option<Error>)
  {
    var revoked := RevocationError(cfg, cert, s, ocsp);
    if revoked.Some? then revoked else
    var forged := SignatureError(cfg, token, cert, nonce);
    if forged.Some? then forged else
    if cert.commonName == "" then Some(TokenParse) else None
  }

  function Outcome(cfg: Config, token: Option<AuthToken>, nonce: string, now: int,
                   first: Snapshot, second: Snapshot, ocsp: Revocation): (r: Result<Certificate, Error>)
  {
    var cert := BeforeTrust(cfg, token, nonce, now);
    if cert.Err? then cert else
    var untrusted := ChainError(cfg, cert.value, now, first);
    if untrusted.Some? then Err(untrusted.value) else
    var err := AfterTrust(cfg, token.value, cert.value, nonce, second, ocsp);
    if err.Some? then Err(err.value) else cert
  }

  /** Validate, with the sets its two readings of the trust store returned. */
  method Validate(cfg: Config, token: Option<AuthToken>, nonce: string, now: int,
                  first: Snapshot, second: Snapshot, ocsp: Revocation) returns (r: Result<Certificate, Error>)
    ensures r == Outcome(cfg, token, nonce, now, first, second, ocsp)
  {
    if token.None? { return Err(TokenParse); }
    if nonce == "" { return Err(NonceNotFound); }
    var decoded := cfg.pki.decodeCertificate(token.value.unverifiedCertificate);
    if decoded.None? { return Err(TokenParse); }
    var cert := decoded.value;
    var err := CheckValidity(cert, now);
    if err.Some? { return Err(err.value); }
    err := CheckKeyUsageForAuthentication(cert);
    if err.Some? { return Err(err.value); }
    err := CheckDisallowedPolicies(cfg.pki, cert, cfg.disallowed);
    if err.Some? { return Err(err.value); }
    if !Trusts(cfg.pki, first, cert, now, [EKU_CLIENT_AUTH]) { return Err(NotTrusted); }
    if cfg.ocspEnabled {
      var issuer := Issuer(cfg.pki, second.intermediates, cert);
      if issuer.None? { return Err(NotTrusted); }
      err := ocsp(cert, issuer.value);
      if err.Some? { return Err(err.value); }
    }
    err := VerifySignature(cfg, token.value, cert, nonce);
    if err.Some? { return Err(err.value); }
    if cert.commonName == "" { return Err(TokenParse); }
    return Ok(cert);
  }

  function Unless(holds: bool, e: Error): (f: Option<Error>) {
    if holds then None else Some(e)
  }

  /** The checks of the pipeline, in order, each stated on its own. */
  function Checks(cfg: Config, token: AuthToken, cert: Certificate, nonce: string, now: int,
                  first: Snapshot, second: Snapshot, ocsp: Revocation): (checks: seq<Option<Error>>)
  {
    var issuer := Issuer(cfg.pki, second.intermediates, cert);
    var sig := cfg.pki.decodeSignature(token.signature);
    [ Unless(cert.notBefore <= now, CertNotYetValid),
      Unless(now <= cert.notAfter, CertExpired),
      Unless(ForAuthentication(cert), WrongPurpose),
      Unless(PolicyAllowed(cfg.pki, cert, cfg.disallowed), DisallowedPolicy),
      Unless(cfg.pki.chains(first.pool, cert, now, [EKU_CLIENT_AUTH]), NotTrusted),
      Unless(cfg.ocspEnabled ==> issuer.Some?, NotTrusted),
      if cfg.ocspEnabled && issuer.Some? then ocsp(cert, issuer.value) else None,
      Unless(Signature.HashFor(token.algorithm).Some?, UnsupportedFormat),
      Unless(sig.Some?, TokenParse),
      Unless(sig.Some? && SignedAtSome(cfg, cert, token.algorithm, sig.value, nonce), SignatureInvalid),
      Unless(cert.commonName != "", TokenParse) ]
  }

  /** The first failure in a list of checks. */
  function FirstFailure(checks: seq<Option<Error>>): (f: Option<Error>)
    ensures f.None? <==> forall i :: 0 <= i < |checks| ==> checks[i].None?
    ensures f.Some? ==> exists i :: 0 <= i < |checks| && checks[i] == f && forall k :: 0 <= k < i ==> checks[k].None?
  {
    if checks == [] then None
    else if checks[0].Some? then checks[0]
    else
      var rest := FirstFailure(checks[1..]);
      assert forall i :: 1 <= i < |checks| ==> checks[i] == checks[1..][i - 1];
      assert rest.Some? ==>
        var i :| 0 <= i < |checks[1..]| && checks[1..][i] == rest && forall k :: 0 <= k < i ==> checks[1..][k].None?;
        checks[i + 1] == rest && forall k :: 0 <= k < i + 1 ==> checks[k].None?;
      rest
  }

  /** The pipeline succeeds exactly when every check holds, and otherwise reports
      the first check that fails; the three guards before decoding come first. */
  lemma {:induction false} ValidateExactly(cfg: Config, token: AuthToken, nonce: string, now: int,
                        first: Snapshot, second: Snapshot, ocsp: Revocation)
    ensures Outcome(cfg, None, nonce, now, first, second, ocsp) == Err(TokenParse)
    ensures var cert := cfg.pki.decodeCertificate(token.unverifiedCertificate);
      Outcome(cfg, Some(token), nonce, now, first, second, ocsp) ==
        if nonce == "" then Err(NonceNotFound)
        else if cert.None? then Err(TokenParse)
        else match FirstFailure(Checks(cfg, token, cert.value, nonce, now, first, second, ocsp))
             case None => Ok(cert.value)
             case Some(e) => Err(e)
  {
    var decoded := cfg.pki.decodeCertificate(token.unverifiedCertificate);
    if nonce != "" && decoded.Some? {
      var checks := Checks(cfg, token, decoded.value, nonce, now, first, second, ocsp);
      FirstOfEleven(checks);
      EarlyChecks(cfg, token, decoded.value, nonce, now, checks);
      LateChecks(cfg, token, decoded.value, nonce, second, ocsp, checks);
      assert ChainError(cfg, decoded.value, now, first) == checks[4];
      Assembled(cfg, token, decoded.value, nonce, now, first, second, ocsp, FirstOf(checks[0], checks[1], checks[2], checks[3]));
    }
  }

  lemma {:induction false} Assembled(cfg: Config, token: AuthToken, cert: Certificate, nonce: string, now: int,
                  first: Snapshot, second: Snapshot, ocsp: Revocation, early: Option<Error>)
    requires BeforeTrust(cfg, Some(token), nonce, now) == match early case None => Ok(cert) case Some(e) => Err(e)
    ensures Outcome(cfg, Some(token), nonce, now, first, second, ocsp) ==
      var chain, late := ChainError(cfg, cert, now, first), AfterTrust(cfg, token, cert, nonce, second, ocsp);
      match if early.Some? then early else if chain.Some? then chain else late
      case None => Ok(cert)
      case Some(e) => Err(e)
  {
  }

  /** The first failure among four checks. */
  function FirstOf(a: Option<Error>, b: Option<Error>, c: Option<Error>, d: Option<Error>): (f: Option<Error>) {
    if a.Some? then a else if b.Some? then b else if c.Some? then c else d
  }

  lemma {:induction false} EarlyChecks(cfg: Config, token: AuthToken, cert: Certificate, nonce: string, now: int, c: seq<Option<Error>>)
    requires |c| == 11 && nonce != ""
    requires cfg.pki.decodeCertificate(token.unverifiedCertificate) == Some(cert)
    requires c[0] == Unless(cert.notBefore <= now, CertNotYetValid) && c[1] == Unless(now <= cert.notAfter, CertExpired)
    requires c[2] == Unless(ForAuthentication(cert), WrongPurpose)
    requires c[3] == Unless(PolicyAllowed(cfg.pki, cert, cfg.disallowed), DisallowedPolicy)
    ensures BeforeTrust(cfg, Some(token), nonce, now) ==
      match FirstOf(c[0], c[1], c[2], c[3]) case None => Ok(cert) case Some(e) => Err(e)
  {
  }

  lemma {:induction false} LateChecks(cfg: Config, token: AuthToken, cert: Certificate, nonce: string, second: Snapshot, ocsp: Revocation,
                   c: seq<Option<Error>>)
    requires |c| == 11
    requires var issuer := Issuer(cfg.pki, second.intermediates, cert);
      && c[5] == Unless(cfg.ocspEnabled ==> issuer.Some?, NotTrusted)
      && c[6] == if cfg.ocspEnabled && issuer.Some? then ocsp(cert, issuer.value) else None
    requires var sig := cfg.pki.decodeSignature(token.signature);
      && c[7] == Unless(Signature.HashFor(token.algorithm).Some?, UnsupportedFormat)
      && c[8] == Unless(sig.Some?, TokenParse)
      && c[9] == Unless(sig.Some? && SignedAtSome(cfg, cert, token.algorithm, sig.value, nonce), SignatureInvalid)
    requires c[10] == Unless(cert.commonName != "", TokenParse)
    ensures AfterTrust(cfg, token, cert, nonce, second, ocsp) ==
      if c[5].Some? then c[5] else if c[6].Some? then c[6] else FirstOf(c[7], c[8], c[9], c[10])
  {
  }

  lemma {:induction false} FirstOfEleven(c: seq<Option<Error>>)
    requires |c| == 11
    ensures FirstFailure(c) ==
      var early := FirstOf(c[0], c[1], c[2], c[3]);
      if early.Some? then early else if c[4].Some? then c[4] else if c[5].Some? then c[5]
      else if c[6].Some? then c[6] else FirstOf(c[7], c[8], c[9], c[10])
  {
  }

  /** Without revocation checking the trusted set is read once: whatever is in force
      later does not matter. */
  lemma {:induction false} OneReadingWithoutOcsp(cfg: Config, token: Option<AuthToken>, nonce: string, now: int,
                              first: Snapshot, second: Snapshot, later: Snapshot, ocsp: Revocation)
    requires !cfg.ocspEnabled
    ensures Outcome(cfg, token, nonce, now, first, second, ocsp) == Outcome(cfg, token, nonce, now, first, later, ocsp)
  {
  }

  /** Only the set of origins matters: order and repetition do not change the outcome. */
  lemma {:induction false} OriginsAsSet(cfg: Config, cfg': Config, token: Option<AuthToken>, nonce: string, now: int,
                     first: Snapshot, second: Snapshot, ocsp: Revocation)
    requires cfg' == cfg.(origins := cfg'.origins)
    requires forall o :: o in cfg.origins <==> o in cfg'.origins
    ensures Outcome(cfg, token, nonce, now, first, second, ocsp) == Outcome(cfg', token, nonce, now, first, second, ocsp)
  {
    if token.Some? {
      var t := token.value;
      var cert := cfg.pki.decodeCertificate(t.unverifiedCertificate);
      var sig := cfg.pki.decodeSignature(t.signature);
      if cert.Some? && sig.Some? {
        SameOrigins(cfg, cfg', cert.value, t.algorithm, sig.value, nonce);
      }
    }
  }

  lemma {:induction false} SameOrigins(cfg: Config, cfg': Config, cert: Certificate, algorithm: string, sig: seq<Byte>, nonce: string)
    requires cfg' == cfg.(origins := cfg'.origins)
    requires forall o :: o in cfg.origins <==> o in cfg'.origins
    ensures SignedAtSome(cfg, cert, algorithm, sig, nonce) == SignedAtSome(cfg', cert, algorithm, sig, nonce)
  {
  }
}
