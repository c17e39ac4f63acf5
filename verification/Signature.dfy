/** signature/verify.go and signing/verify.go: the two signature verifiers and
    the raw r||s encoding (IEEE P1363) they share. */
module Signature {
  import opened Wrappers
  import opened Bytes
  import opened Text

  datatype Hash = SHA224 | SHA256 | SHA384 | SHA512

  /** crypto.Hash.Size. */
  function Size(h: Hash): (n: nat) {
    match h
    case SHA224 => 28
    case SHA256 => 32
    case SHA384 => 48
    case SHA512 => 64
  }

  /** An elliptic-curve point and the bit size of its curve's field. */
  datatype EcKey = EcKey(bitSize: nat, x: nat, y: nat)

  datatype RsaKey = RsaKey(n: nat, e: nat)

  datatype PublicKey = Ecdsa(ec: EcKey) | Rsa(rsa: RsaKey) | OtherKey

  /** The primitives the library takes from Go's crypto packages. */
  datatype Crypto = Crypto(
    sum: (Hash, seq<Byte>) -> seq<Byte>,
    ecdsaVerify: (EcKey, seq<Byte>, nat, nat) -> bool,
    verifyPSS: (RsaKey, Hash, seq<Byte>, seq<Byte>) -> bool,
    verifyPKCS1v15: (RsaKey, Hash, seq<Byte>, seq<Byte>) -> bool)

  datatype Error = UnsupportedFormat | SignatureInvalid

  /** jwaToHash. */
  function HashFor(algorithm: string): (r: Option<Hash>) {
    if algorithm in ["RS256", "PS256", "ES256"] then Some(SHA256)
    else if algorithm in ["RS384", "PS384", "ES384"] then Some(SHA384)
    else if algorithm in ["RS512", "PS512", "ES512"] then Some(SHA512)
    else None
  }

  /** The coordinate length in bytes of a curve. */
  function ByteLen(bitSize: nat): (n: nat) {
    (bitSize + 7) / 8
  }

  /** splitP1363. */
  function SplitP1363(bitSize: nat, sig: seq<Byte>): (rs: Option<(nat, nat)>) {
    var n := ByteLen(bitSize);
    if |sig| != 2 * n then None else Some((ToNat(sig[..n]), ToNat(sig[n..])))
  }

  /** The fixed-width encoding a card or a JWS signer emits. */
  function JoinP1363(bitSize: nat, r: nat, s: nat): (sig: seq<Byte>) {
    ToBytes(r, ByteLen(bitSize)) + ToBytes(s, ByteLen(bitSize))
  }

  /** Splitting inverts joining for every pair that fits, on every curve size. */
  lemma {:induction false} SplitJoinP1363(bitSize: nat, r: nat, s: nat)
    requires r < Pow256(ByteLen(bitSize)) && s < Pow256(ByteLen(bitSize))
    ensures SplitP1363(bitSize, JoinP1363(bitSize, r, s)) == Some((r, s))
  {
    var n := ByteLen(bitSize);
    var sig := JoinP1363(bitSize, r, s);
    assert sig[..n] == ToBytes(r, n) && sig[n..] == ToBytes(s, n);
    ToNatToBytes(r, n);
    ToNatToBytes(s, n);
  }

  /** Every signature of the right length, and no other, is the encoding of its split. */
  lemma {:induction false} JoinSplitP1363(bitSize: nat, sig: seq<Byte>)
    ensures SplitP1363(bitSize, sig).Some? <==> exists r, s :: sig == JoinP1363(bitSize, r, s)
    ensures SplitP1363(bitSize, sig).Some? ==>
      var (r, s) := SplitP1363(bitSize, sig).value;
      && r < Pow256(ByteLen(bitSize)) && s < Pow256(ByteLen(bitSize))
      && JoinP1363(bitSize, r, s) == sig
  {
    var n := ByteLen(bitSize);
    if |sig| == 2 * n {
      ToBytesToNat(sig[..n]);
      ToBytesToNat(sig[n..]);
      var (r, s) := SplitP1363(bitSize, sig).value;
      assert sig == JoinP1363(bitSize, r, s);
    }
  }

  /** Values below the group order of any curve fit, the 521-bit one included. */
  lemma {:induction false} CurveValuesFit(bitSize: nat, r: nat, s: nat)
    requires r < Pow2(bitSize) && s < Pow2(bitSize)
    ensures SplitP1363(bitSize, JoinP1363(bitSize, r, s)) == Some((r, s))
  {
    BitsFit(bitSize);
    SplitJoinP1363(bitSize, r, s);
  }

  predicate HasPrefix(s: string, p: string) {
    |p| <= |s| && s[..|p|] == p
  }

  /** The public-key operation of signature.Verify, for a known hash and padding. */
  predicate Accepts(c: Crypto, key: PublicKey, h: Hash, pss: bool, digest: seq<Byte>, sig: seq<Byte>) {
    match key
    case Rsa(k) => if pss then c.verifyPSS(k, h, digest, sig) else c.verifyPKCS1v15(k, h, digest, sig)
    case Ecdsa(k) =>
      var rs := SplitP1363(k.bitSize, sig);
      rs.Some? && c.ecdsaVerify(k, digest, rs.value.0, rs.value.1)
    case OtherKey => false
  }

  /** signature.Verify: None is success. */
  function Verify(c: Crypto, key: PublicKey, algorithm: string, signedData: seq<Byte>, sig: seq<Byte>)
    : (err: Option<Error>)
  {
    match HashFor(algorithm)
    case None => Some(UnsupportedFormat)
    case Some(h) =>
      if Accepts(c, key, h, HasPrefix(algorithm, "PS"), c.sum(h, signedData), sig) then None
      else Some(SignatureInvalid)
  }

  /** The JWA name of a family and a hash. */
  predicate Names(algorithm: string, family: string, h: Hash) {
    && (family == "RS" || family == "PS" || family == "ES")
    && ((h == SHA256 && algorithm == family + "256") || (h == SHA384 && algorithm == family + "384")
        || (h == SHA512 && algorithm == family + "512"))
  }

  /** The nine names of jwaToHash, with their hashes; every other name is unsupported. */
  lemma {:induction false} HashForExactly(algorithm: string)
    ensures HashFor("RS256") == HashFor("PS256") == HashFor("ES256") == Some(SHA256)
    ensures HashFor("RS384") == HashFor("PS384") == HashFor("ES384") == Some(SHA384)
    ensures HashFor("RS512") == HashFor("PS512") == HashFor("ES512") == Some(SHA512)
    ensures HashFor(algorithm).Some? <==>
      algorithm in {"RS256", "PS256", "ES256", "RS384", "PS384", "ES384", "RS512", "PS512", "ES512"}
  {
  }

  lemma {:induction false} NamedHash(algorithm: string, family: string, h: Hash)
    requires Names(algorithm, family, h)
    ensures HashFor(algorithm) == Some(h)
    ensures HasPrefix(algorithm, "PS") <==> family == "PS"
  {
    assert algorithm[..2] == family && algorithm[2..] in {"256", "384", "512"};
    assert algorithm == family + algorithm[2..];
    NamesSpelled(family);
  }

  lemma {:induction false} NamesSpelled(f: string)
    requires f == "RS" || f == "PS" || f == "ES"
    ensures f + "256" in {"RS256", "PS256", "ES256"}
    ensures f + "384" in {"RS384", "PS384", "ES384"}
    ensures f + "512" in {"RS512", "PS512", "ES512"}
  {
    if f == "RS" {
      assert f + "256" == "RS256" && f + "384" == "RS384" && f + "512" == "RS512";
    } else if f == "PS" {
      assert f + "256" == "PS256" && f + "384" == "PS384" && f + "512" == "PS512";
    } else {
      assert f + "256" == "ES256" && f + "384" == "ES384" && f + "512" == "ES512";
    }
  }

  lemma {:induction false} SupportedIsNamed(algorithm: string) returns (family: string, h: Hash)
    requires HashFor(algorithm).Some?
    ensures Names(algorithm, family, h)
  {
    family, h := algorithm[..2], HashFor(algorithm).value;
    assert algorithm == family + algorithm[2..];
  }

  /** A signature value that the key's scheme accepts over a message, in terms of the
      primitives: for a curve, the fixed-width encoding of a pair that verifies. */
  ghost predicate Genuine(c: Crypto, key: PublicKey, family: string, h: Hash, message: seq<Byte>, sig: seq<Byte>) {
    match key
    case Rsa(k) =>
      if family == "PS" then c.verifyPSS(k, h, c.sum(h, message), sig) else c.verifyPKCS1v15(k, h, c.sum(h, message), sig)
    case Ecdsa(k) =>
      exists r, s :: Encodes(sig, ByteLen(k.bitSize), r, s) && c.ecdsaVerify(k, c.sum(h, message), r, s)
    case OtherKey => false
  }

  /** sig is r and then s, each big-endian in n bytes. */
  ghost predicate Encodes(sig: seq<Byte>, n: nat, r: nat, s: nat) {
    r < Pow256(n) && s < Pow256(n) && sig == ToBytes(r, n) + ToBytes(s, n)
  }

  lemma {:induction false} SplitEncodes(bitSize: nat, sig: seq<Byte>, r: nat, s: nat)
    ensures SplitP1363(bitSize, sig) == Some((r, s)) <==> Encodes(sig, ByteLen(bitSize), r, s)
  {
    JoinSplitP1363(bitSize, sig);
    if Encodes(sig, ByteLen(bitSize), r, s) {
      SplitJoinP1363(bitSize, r, s);
    }
  }

  lemma {:induction false} CurveAccepts(c: Crypto, k: EcKey, digest: seq<Byte>, sig: seq<Byte>)
    ensures (var rs := SplitP1363(k.bitSize, sig); rs.Some? && c.ecdsaVerify(k, digest, rs.value.0, rs.value.1))
       <==> exists r, s :: Encodes(sig, ByteLen(k.bitSize), r, s) && c.ecdsaVerify(k, digest, r, s)
  {
    var rs := SplitP1363(k.bitSize, sig);
    if rs.Some? {
      SplitEncodes(k.bitSize, sig, rs.value.0, rs.value.1);
    }
    forall r: nat, s: nat | Encodes(sig, ByteLen(k.bitSize), r, s)
      ensures rs == Some((r, s))
    {
      SplitEncodes(k.bitSize, sig, r, s);
    }
  }

  /** signature.Verify by key and family: a PS name is RSA-PSS on an RSA key, any other
      supported name is PKCS #1 v1.5 there, and on a curve it is ECDSA over the pair
      the value encodes; the message is hashed with the hash the name ends in. */
  lemma {:induction false} TokenVerifierExactly(c: Crypto, key: PublicKey, algorithm: string, family: string, h: Hash, message: seq<Byte>, sig: seq<Byte>)
    requires Names(algorithm, family, h)
    ensures key.Rsa? && family == "PS" ==>
      (Verify(c, key, algorithm, message, sig).None? <==> c.verifyPSS(key.rsa, h, c.sum(h, message), sig))
    ensures key.Rsa? && family != "PS" ==>
      (Verify(c, key, algorithm, message, sig).None? <==> c.verifyPKCS1v15(key.rsa, h, c.sum(h, message), sig))
    ensures key.Ecdsa? ==>
      (Verify(c, key, algorithm, message, sig).None? <==>
         exists r, s :: Encodes(sig, ByteLen(key.ec.bitSize), r, s) && c.ecdsaVerify(key.ec, c.sum(h, message), r, s))
    ensures Verify(c, key, algorithm, message, sig).None? <==> Genuine(c, key, family, h, message, sig)
    ensures Verify(c, key, algorithm, message, sig) in {None, Some(SignatureInvalid)}
  {
    NamedHash(algorithm, family, h);
    if key.Ecdsa? {
      CurveAccepts(c, key.ec, c.sum(h, message), sig);
    }
  }

  /** A signing algorithm as the card reports it. */
  datatype SignatureAlgorithm = SignatureAlgorithm(
    cryptoAlgorithm: string, hashFunction: string, paddingScheme: string)

  /** hashNameToCryptoHash. */
  function HashNamed(name: string): (r: Option<Hash>) {
    match name
    case "SHA-224" => Some(SHA224)
    case "SHA-256" => Some(SHA256)
    case "SHA-384" => Some(SHA384)
    case "SHA-512" => Some(SHA512)
    case _ => None
  }

  datatype ValueError = EmptyInput | WrongLength | UnsupportedHash | DigestLength | DoesNotVerify | UnsupportedKey

  /** signing.VerifySignatureValue: None is success. */
  function VerifySignatureValue(c: Crypto, key: Option<PublicKey>, algo: SignatureAlgorithm,
                                digest: seq<Byte>, sig: seq<Byte>): (err: Option<ValueError>)
  {
    if key.None? || |digest| == 0 || |sig| == 0 then Some(EmptyInput)
    else
      match key.value
      case Ecdsa(k) =>
        var n := ByteLen(k.bitSize);
        if |sig| != 2 * n then Some(WrongLength)
        else if c.ecdsaVerify(k, digest, ToNat(sig[..n]), ToNat(sig[n..])) then None
        else Some(DoesNotVerify)
      case Rsa(k) =>
        var named := HashNamed(ToUpper(algo.hashFunction));
        if named.None? then Some(UnsupportedHash)
        else if Size(named.value) != |digest| then Some(DigestLength)
        else if (if EqualFold(algo.paddingScheme, "PSS") then c.verifyPSS(k, named.value, digest, sig)
                 else c.verifyPKCS1v15(k, named.value, digest, sig))
        then None else Some(DoesNotVerify)
      case OtherKey => Some(UnsupportedKey)
  }

  /** Digests have the length of their hash function. */
  ghost predicate FixedLength(c: Crypto) {
    forall h, data :: |c.sum(h, data)| == Size(h)
  }

  /** RSA verification refuses the empty signature. */
  ghost predicate RsaRefusesEmpty(c: Crypto) {
    forall k, h, d :: !c.verifyPSS(k, h, d, []) && !c.verifyPKCS1v15(k, h, d, [])
  }

  /** The value verifier meets the same reference as the token verifier, on any digest. */
  lemma {:induction false} ValueVerifierAccepts(c: Crypto, key: PublicKey, algo: SignatureAlgorithm, h: Hash,
                             digest: seq<Byte>, sig: seq<Byte>)
    requires RsaRefusesEmpty(c)
    requires key.Ecdsa? ==> key.ec.bitSize > 0
    requires HashNamed(ToUpper(algo.hashFunction)) == Some(h) && |digest| == Size(h)
    ensures VerifySignatureValue(c, Some(key), algo, digest, sig).None?
       <==> Accepts(c, key, h, EqualFold(algo.paddingScheme, "PSS"), digest, sig)
  {
  }

  /** The four hash names a card may use, their hashes and their digest lengths. */
  predicate CardHash(name: string, h: Hash, size: nat) {
    || (name == "SHA-224" && h == SHA224 && size == 28)
    || (name == "SHA-256" && h == SHA256 && size == 32)
    || (name == "SHA-384" && h == SHA384 && size == 48)
    || (name == "SHA-512" && h == SHA512 && size == 64)
  }

  lemma {:induction false} HashNamedExactly(hashFunction: string, name: string, h: Hash, size: nat)
    requires CardHash(name, h, size) && Raised(hashFunction, name)
    ensures HashNamed(ToUpper(hashFunction)) == Some(h) && Size(h) == size
  {
    ToUpperExactly(hashFunction, name);
  }

  /** VerifySignatureValue on an RSA key: the hash is the one named, in either case,
      the digest must have its length, and PSS is used exactly when the padding scheme
      spells it. */
  lemma {:induction false} ValueVerifierRsa(c: Crypto, k: RsaKey, algo: SignatureAlgorithm, name: string, h: Hash, size: nat, digest: seq<Byte>, sig: seq<Byte>)
    requires CardHash(name, h, size) && Raised(algo.hashFunction, name) && digest != [] && sig != []
    ensures VerifySignatureValue(c, Some(Rsa(k)), algo, digest, sig) ==
      if |digest| != size then Some(DigestLength)
      else if (if Folded(algo.paddingScheme, "PSS") then c.verifyPSS(k, h, digest, sig) else c.verifyPKCS1v15(k, h, digest, sig))
      then None else Some(DoesNotVerify)
  {
    HashNamedExactly(algo.hashFunction, name, h, size);
    EqualFoldExactly(algo.paddingScheme, "PSS");
  }

  /** VerifySignatureValue otherwise: missing input first, then on a curve the length
      of the value and the pair it encodes; other hash names and other keys are refused. */
  lemma {:induction false} ValueVerifierOther(c: Crypto, key: Option<PublicKey>, algo: SignatureAlgorithm, digest: seq<Byte>, sig: seq<Byte>)
    ensures key.None? || digest == [] || sig == [] ==> VerifySignatureValue(c, key, algo, digest, sig) == Some(EmptyInput)
    ensures key.Some? && digest != [] && sig != [] && key.value.OtherKey? ==>
      VerifySignatureValue(c, key, algo, digest, sig) == Some(UnsupportedKey)
    ensures key.Some? && digest != [] && sig != [] && key.value.Ecdsa? ==>
      var k, r := key.value.ec, VerifySignatureValue(c, key, algo, digest, sig);
      && (r == Some(WrongLength) <==> |sig| != 2 * ((k.bitSize + 7) / 8))
      && (r == None <==> exists x, y :: Encodes(sig, ByteLen(k.bitSize), x, y) && c.ecdsaVerify(k, digest, x, y))
      && r in {None, Some(WrongLength), Some(DoesNotVerify)}
    ensures key.Some? && digest != [] && sig != [] && key.value.Rsa? ==>
      (VerifySignatureValue(c, key, algo, digest, sig) == Some(UnsupportedHash) <==>
         forall name, h, size :: CardHash(name, h, size) ==> !Raised(algo.hashFunction, name))
  {
    if key.Some? && key.value.Ecdsa? {
      CurveAccepts(c, key.value.ec, digest, sig);
    }
    if key.Some? && key.value.Rsa? {
      UnsupportedExactly(algo.hashFunction);
    }
  }

  lemma {:induction false} UnsupportedExactly(hashFunction: string)
    ensures HashNamed(ToUpper(hashFunction)).None? <==>
      forall name, h, size :: CardHash(name, h, size) ==> !Raised(hashFunction, name)
  {
    forall name, h, size | CardHash(name, h, size) && Raised(hashFunction, name)
      ensures HashNamed(ToUpper(hashFunction)).Some?
    {
      HashNamedExactly(hashFunction, name, h, size);
    }
    var upper := ToUpper(hashFunction);
    if HashNamed(upper).Some? {
      ToUpperExactly(hashFunction, upper);
      var h := HashNamed(upper).value;
      assert CardHash(upper, h, Size(h));
    }
  }

  /** The card's algorithm entry describes the operation of a JWA name: it names the
      same hash, and PSS padding exactly for the PS family. */
  predicate Describes(algo: SignatureAlgorithm, family: string, h: Hash, name: string, size: nat) {
    CardHash(name, h, size) && Raised(algo.hashFunction, name) && (Folded(algo.paddingScheme, "PSS") <==> family == "PS")
  }

  /** Given the digest of the signed data, both verifiers accept the same signatures. */
  lemma {:induction false} VerifiersAgree(c: Crypto, key: PublicKey, algorithm: string, family: string, h: Hash,
                       algo: SignatureAlgorithm, name: string, size: nat, signedData: seq<Byte>, sig: seq<Byte>)
    requires FixedLength(c) && RsaRefusesEmpty(c)
    requires key.Ecdsa? ==> key.ec.bitSize > 0
    requires Names(algorithm, family, h) && Describes(algo, family, h, name, size)
    ensures Verify(c, key, algorithm, signedData, sig).None?
       <==> VerifySignatureValue(c, Some(key), algo, c.sum(h, signedData), sig).None?
  {
    NamedHash(algorithm, family, h);
    HashNamedExactly(algo.hashFunction, name, h, size);
    EqualFoldExactly(algo.paddingScheme, "PSS");
    ValueVerifierAccepts(c, key, algo, h, c.sum(h, signedData), sig);
  }
}
