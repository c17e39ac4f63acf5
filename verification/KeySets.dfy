/** assertion/assertion.go: the verification key set and its published form, a
    JWK set (sections 6.2.1.2 and 6.2.1.3 of RFC 7518). */
module KeySets {
  import opened Wrappers
  import opened Bytes
  import opened Signature
  import Base64Url
  import Assertion

  const P256_BYTE_LEN := Assertion.P256_BYTE_LEN

  /** The points of each curve, given by the bit size of its field. */
  type Curves = (nat, nat, nat) -> bool

  /** Coordinates are field elements, so they fit the curve's bit size. */
  ghost predicate CoordinatesFit(onCurve: Curves) {
    forall bits: nat, x: nat, y: nat :: onCurve(bits, x, y) ==> x < Pow2(bits) && y < Pow2(bits)
  }

  predicate OnCurve(onCurve: Curves, k: EcKey) {
    onCurve(k.bitSize, k.x, k.y)
  }

  datatype JWK = JWK(kty: string, crv: string, x: string, y: string, kid: string, use: string, alg: string)

  /** ecdsa.PublicKey.Bytes: 0x04 || X || Y, refused for a point off its curve. */
  function PointBytes(onCurve: Curves, k: EcKey): (b: Option<seq<Byte>>) {
    if !OnCurve(onCurve, k) then None
    else Some([4] + ToBytes(k.x, ByteLen(k.bitSize)) + ToBytes(k.y, ByteLen(k.bitSize)))
  }

  /** ecdsa.ParseUncompressedPublicKey for P-256. */
  function ParsePoint(onCurve: Curves, b: seq<Byte>): (k: Option<EcKey>) {
    if |b| != 1 + 2 * P256_BYTE_LEN || b[0] != 4 then None
    else
      var k := EcKey(256, ToNat(b[1..1 + P256_BYTE_LEN]), ToNat(b[1 + P256_BYTE_LEN..]));
      if OnCurve(onCurve, k) then Some(k) else None
  }

  function JwkFromPublic(onCurve: Curves, kid: string, pub: EcKey): (r: Option<JWK>) {
    match PointBytes(onCurve, pub)
    case None => None
    case Some(raw) =>
      var n := ByteLen(pub.bitSize);
      Some(JWK("EC", "P-256", Base64Url.Encode(raw[1..1 + n]), Base64Url.Encode(raw[1 + n..]), kid, "sig", "ES256"))
  }

  /** The key p256PublicKey builds, by the integers its coordinates denote. */
  function KeyAt(onCurve: Curves, xb: seq<Byte>, yb: seq<Byte>): (k: Option<EcKey>) {
    var k := EcKey(256, ToNat(xb), ToNat(yb));
    if |xb| <= P256_BYTE_LEN && |yb| <= P256_BYTE_LEN && OnCurve(onCurve, k) then Some(k) else None
  }

  lemma {:induction false} PaddedPoint(onCurve: Curves, xb: seq<Byte>, yb: seq<Byte>)
    requires |xb| <= P256_BYTE_LEN && |yb| <= P256_BYTE_LEN
    ensures ParsePoint(onCurve, [4] + LeftPad(xb, P256_BYTE_LEN) + LeftPad(yb, P256_BYTE_LEN)) == KeyAt(onCurve, xb, yb)
  {
    var px, py := LeftPad(xb, P256_BYTE_LEN), LeftPad(yb, P256_BYTE_LEN);
    var b := [4] + px + py;
    assert b[1..1 + P256_BYTE_LEN] == px && b[1 + P256_BYTE_LEN..] == py;
    LeadingZerosKeepValue(P256_BYTE_LEN - |xb|, xb);
    LeadingZerosKeepValue(P256_BYTE_LEN - |yb|, yb);
  }

  /** p256PublicKey: both coordinates are copied right-aligned into one buffer; the
      key denotes the same integers whatever leading zero bytes were stripped. */
  method P256PublicKey(onCurve: Curves, xb: seq<Byte>, yb: seq<Byte>) returns (k: Option<EcKey>)
    ensures k == KeyAt(onCurve, xb, yb)
  {
    if |xb| > P256_BYTE_LEN || |yb| > P256_BYTE_LEN {
      return None;
    }
    var buf := new Byte[1 + 2 * P256_BYTE_LEN](i => 0);
    buf[0] := 4;
    forall i | 0 <= i < |xb| {
      buf[1 + P256_BYTE_LEN - |xb| + i] := xb[i];
    }
    forall i | 0 <= i < |yb| {
      buf[1 + 2 * P256_BYTE_LEN - |yb| + i] := yb[i];
    }
    assert buf[..] == [4] + LeftPad(xb, P256_BYTE_LEN) + LeftPad(yb, P256_BYTE_LEN);
    PaddedPoint(onCurve, xb, yb);
    return ParsePoint(onCurve, buf[..]);
  }

  /** What one JWK contributes: nothing, a key, or a refusal of the whole set. */
  datatype Entry = Skipped | Refused | Key(pub: EcKey)

  function ReadJwk(onCurve: Curves, k: JWK): (e: Entry) {
    if k.kty != "EC" || k.crv != "P-256" then Skipped
    else
      var xb, yb := Base64Url.Decode(k.x), Base64Url.Decode(k.y);
      if xb.None? || yb.None? then Refused
      else match KeyAt(onCurve, xb.value, yb.value) case None => Refused case Some(pub) => Key(pub)
  }

  /** KeySet.Add on the map: an empty key id is ignored. */
  function Added(keys: map<string, EcKey>, kid: string, pub: EcKey): (m: map<string, EcKey>) {
    if kid == "" then keys else keys[kid := pub]
  }

  /** The keys of a parsed JWK set, later entries replacing earlier ones. */
  function KeysOf(onCurve: Curves, doc: seq<JWK>): (r: Option<map<string, EcKey>>) {
    if doc == [] then Some(map[])
    else
      var init, k := KeysOf(onCurve, doc[..|doc| - 1]), doc[|doc| - 1];
      if init.None? then None
      else match ReadJwk(onCurve, k)
           case Skipped => init
           case Refused => None
           case Key(pub) => Some(Added(init.value, k.kid, pub))
  }

  lemma {:induction false} RefusedPrefix(onCurve: Curves, doc: seq<JWK>, i: nat)
    requires i <= |doc| && KeysOf(onCurve, doc[..i]).None?
    ensures KeysOf(onCurve, doc).None?
    decreases |doc| - i
  {
    if i == |doc| {
      assert doc[..i] == doc;
    } else {
      assert doc[..i + 1][..i] == doc[..i];
      RefusedPrefix(onCurve, doc, i + 1);
    }
  }

  /** order lists every key id of the map once: one iteration order of the map. */
  ghost predicate Enumerates(order: seq<string>, keys: map<string, EcKey>) {
    && (forall i :: 0 <= i < |order| ==> order[i] in keys)
    && (forall i, j :: 0 <= i < j < |order| ==> order[i] != order[j])
    && (forall kid :: kid in keys ==> kid in order)
  }

  class KeySet {
    var keys: map<string, EcKey>

    ghost predicate Valid()
      reads this
    {
      "" !in keys
    }

    constructor ()
      ensures Valid() && keys == map[]
    {
      keys := map[];
    }

    method Add(kid: string, pub: EcKey)
      requires Valid()
      modifies this
      ensures Valid() && keys == Added(old(keys), kid, pub)
    {
      if kid != "" {
        keys := keys[kid := pub];
      }
    }

    /** JWKS, over an arbitrary iteration order of the map; None is an error. */
    method JWKS(onCurve: Curves) returns (r: Option<seq<JWK>>, ghost order: seq<string>)
      ensures r.Some? <==> forall kid :: kid in keys ==> OnCurve(onCurve, keys[kid])
      ensures r.Some? ==> Enumerates(order, keys) && Publishes(onCurve, keys, order, r.value)
    {
      var todo := keys.Keys;
      var out: seq<JWK> := [];
      order := [];
      while todo != {}
        invariant todo <= keys.Keys
        invariant forall i :: 0 <= i < |order| ==> order[i] in keys && order[i] !in todo
        invariant forall i, j :: 0 <= i < j < |order| ==> order[i] != order[j]
        invariant forall kid :: kid in keys ==> kid in todo || (kid in order && OnCurve(onCurve, keys[kid]))
        invariant Publishes(onCurve, keys, order, out)
        decreases todo
      {
        var kid :| kid in todo;
        var jwk := JwkFromPublic(onCurve, kid, keys[kid]);
        PublishedForm(onCurve, kid, keys[kid]);
        if jwk.None? {
          return None, order;
        }
        out := out + [jwk.value];
        order := order + [kid];
        todo := todo - {kid};
      }
      return Some(out), order;
    }

    /** KeySetFromJWKS on the document json.Unmarshal produced, if it produced one. */
    static method FromJWKS(onCurve: Curves, doc: Option<seq<JWK>>) returns (ks: KeySet?)
      ensures ks != null ==> fresh(ks) && ks.Valid()
      ensures ks != null <==> doc.Some? && KeysOf(onCurve, doc.value).Some?
      ensures ks != null ==> ks.keys == KeysOf(onCurve, doc.value).value
    {
      if doc.None? {
        return null;
      }
      var set' := new KeySet();
      var entries := doc.value;
      for i := 0 to |entries|
        invariant fresh(set') && set'.Valid()
        invariant KeysOf(onCurve, entries[..i]) == Some(set'.keys)
      {
        var k := entries[i];
        assert entries[..i + 1][..i] == entries[..i] && entries[..i + 1][i] == k;
        var e := ReadJwk(onCurve, k);
        if e.Refused? {
          RefusedPrefix(onCurve, entries, i + 1);
          return null;
        }
        if e.Key? {
          set'.Add(k.kid, e.pub);
        }
      }
      assert entries[..|entries|] == entries;
      return set';
    }
  }

  /** The published form of a key: its coordinates at the full width of its curve. */
  function Published(kid: string, pub: EcKey): (jwk: JWK) {
    var n := ByteLen(pub.bitSize);
    JWK("EC", "P-256", Base64Url.Encode(ToBytes(pub.x, n)), Base64Url.Encode(ToBytes(pub.y, n)), kid, "sig", "ES256")
  }

  /** doc is the set published in that order. */
  ghost predicate Publishes(onCurve: Curves, keys: map<string, EcKey>, order: seq<string>, doc: seq<JWK>) {
    && |doc| == |order|
    && forall i :: 0 <= i < |doc| ==>
         order[i] in keys && OnCurve(onCurve, keys[order[i]]) && doc[i] == Published(order[i], keys[order[i]])
  }

  lemma {:induction false} ReadCoordinates(onCurve: Curves, jwk: JWK, xs: seq<Byte>, ys: seq<Byte>)
    requires jwk.kty == "EC" && jwk.crv == "P-256"
    requires jwk.x == Base64Url.Encode(xs) && jwk.y == Base64Url.Encode(ys)
    ensures ReadJwk(onCurve, jwk) == match KeyAt(onCurve, xs, ys) case None => Refused case Some(pub) => Key(pub)
  {
    Base64Url.DecodeEncode(xs);
    Base64Url.DecodeEncode(ys);
  }

  lemma {:induction false} CoordinateRoundTrip(bits: nat, v: nat)
    requires v < Pow2(bits)
    ensures ToNat(ToBytes(v, ByteLen(bits))) == v
  {
    BitsFit(bits);
    ToNatToBytes(v, ByteLen(bits));
  }

  lemma {:induction false} PublishedForm(onCurve: Curves, kid: string, pub: EcKey)
    ensures JwkFromPublic(onCurve, kid, pub) == if OnCurve(onCurve, pub) then Some(Published(kid, pub)) else None
  {
    if OnCurve(onCurve, pub) {
      var n, raw := ByteLen(pub.bitSize), PointBytes(onCurve, pub).value;
      assert raw[1..1 + n] == ToBytes(pub.x, n) && raw[1 + n..] == ToBytes(pub.y, n);
    }
  }

  lemma {:induction false} ReadPublished(onCurve: Curves, kid: string, pub: EcKey)
    requires CoordinatesFit(onCurve) && OnCurve(onCurve, pub) && pub.bitSize == 256
    ensures ReadJwk(onCurve, Published(kid, pub)) == Key(pub)
  {
    var n := ByteLen(pub.bitSize);
    ReadCoordinates(onCurve, Published(kid, pub), ToBytes(pub.x, n), ToBytes(pub.y, n));
    CoordinateRoundTrip(pub.bitSize, pub.x);
    CoordinateRoundTrip(pub.bitSize, pub.y);
  }

  lemma {:induction false} KeysOfLast(onCurve: Curves, doc: seq<JWK>, pub: EcKey)
    requires doc != [] && KeysOf(onCurve, doc[..|doc| - 1]).Some? && ReadJwk(onCurve, doc[|doc| - 1]) == Key(pub)
    ensures KeysOf(onCurve, doc) == Some(Added(KeysOf(onCurve, doc[..|doc| - 1]).value, doc[|doc| - 1].kid, pub))
  {
  }

  /** The entries of the map named in order. */
  function Listed(keys: map<string, EcKey>, order: seq<string>): (m: map<string, EcKey>)
    requires forall i :: 0 <= i < |order| ==> order[i] in keys
    ensures forall kid :: kid in m <==> kid in order
    ensures forall kid :: kid in m ==> m[kid] == keys[kid]
  {
    if order == [] then map[]
    else
      assert order == order[..|order| - 1] + [order[|order| - 1]];
      Listed(keys, order[..|order| - 1])[order[|order| - 1] := keys[order[|order| - 1]]]
  }

  lemma {:induction false} KeysOfPublished(onCurve: Curves, keys: map<string, EcKey>, order: seq<string>, doc: seq<JWK>)
    requires CoordinatesFit(onCurve) && "" !in keys
    requires forall kid :: kid in keys ==> OnCurve(onCurve, keys[kid]) && keys[kid].bitSize == 256
    requires Publishes(onCurve, keys, order, doc)
    ensures KeysOf(onCurve, doc) == Some(Listed(keys, order))
  {
    if doc != [] {
      var n := |doc| - 1;
      var kid := order[n];
      KeysOfPublished(onCurve, keys, order[..n], doc[..n]);
      ReadPublished(onCurve, kid, keys[kid]);
      KeysOfLast(onCurve, doc, keys[kid]);
    }
  }

  predicate IsP256(k: JWK) {
    k.kty == "EC" && k.crv == "P-256"
  }

  /** A P-256 entry whose coordinates do not decode, are longer than 32 bytes, or
      denote no point of the curve. */
  predicate Malformed(onCurve: Curves, k: JWK) {
    var xb, yb := Base64Url.Decode(k.x), Base64Url.Decode(k.y);
    IsP256(k) &&
    (xb.None? || yb.None? || |xb.value| > 32 || |yb.value| > 32 || !onCurve(256, ToNat(xb.value), ToNat(yb.value)))
  }

  /** The P-256 entry at i is the last with that id. */
  ghost predicate LastBearer(doc: seq<JWK>, kid: string, i: int) {
    && 0 <= i < |doc| && IsP256(doc[i]) && doc[i].kid == kid
    && forall k :: i < k < |doc| ==> !(IsP256(doc[k]) && doc[k].kid == kid)
  }

  lemma {:induction false} ReadJwkExactly(onCurve: Curves, k: JWK)
    ensures ReadJwk(onCurve, k).Skipped? <==> !IsP256(k)
    ensures ReadJwk(onCurve, k).Refused? <==> Malformed(onCurve, k)
    ensures IsP256(k) && !Malformed(onCurve, k) ==>
      ReadJwk(onCurve, k) == Key(EcKey(256, ToNat(Base64Url.Decode(k.x).value), ToNat(Base64Url.Decode(k.y).value)))
  {
  }

  /** A document is refused exactly when one of its P-256 entries is malformed. */
  lemma {:induction false} RefusedExactly(onCurve: Curves, doc: seq<JWK>)
    ensures KeysOf(onCurve, doc).None? <==> exists i :: 0 <= i < |doc| && Malformed(onCurve, doc[i])
  {
    if doc != [] {
      var n := |doc| - 1;
      var init, last := doc[..n], doc[n];
      RefusedExactly(onCurve, init);
      ReadJwkExactly(onCurve, last);
      assert doc == init + [last];
      assert KeysOf(onCurve, doc).None? <==> KeysOf(onCurve, init).None? || Malformed(onCurve, last);
    }
  }

  /** Otherwise the ids it binds are exactly the non-empty ones of its P-256 entries,
      each to the point of the last entry that bears it. */
  lemma {:induction false} KeysOfExactly(onCurve: Curves, doc: seq<JWK>, kid: string, i: int)
    requires KeysOf(onCurve, doc).Some?
    ensures kid in KeysOf(onCurve, doc).value ==> kid != "" && exists k :: LastBearer(doc, kid, k)
    ensures LastBearer(doc, kid, i) && kid != "" ==>
      var x, y, m := Base64Url.Decode(doc[i].x), Base64Url.Decode(doc[i].y), KeysOf(onCurve, doc).value;
      x.Some? && y.Some? && kid in m && m[kid] == EcKey(256, ToNat(x.value), ToNat(y.value))
  {
    if doc != [] {
      var n := |doc| - 1;
      var init, last := doc[..n], doc[n];
      KeysOfExactly(onCurve, init, kid, i);
      ReadJwkExactly(onCurve, last);
      assert doc == init + [last];
      if IsP256(last) && last.kid == kid {
        assert LastBearer(doc, kid, n);
      } else if kid in KeysOf(onCurve, init).value {
        var k :| LastBearer(init, kid, k);
        assert LastBearer(doc, kid, k);
      }
      if i < n && LastBearer(doc, kid, i) {
        assert LastBearer(init, kid, i);
      }
    }
  }

  /** An entry of another kind, wherever it stands, changes nothing. */
  lemma {:induction false} OtherKindsIgnored(onCurve: Curves, doc: seq<JWK>, i: nat)
    requires i < |doc| && !IsP256(doc[i])
    ensures KeysOf(onCurve, doc) == KeysOf(onCurve, doc[..i] + doc[i + 1..])
  {
    var n := |doc| - 1;
    var without := doc[..i] + doc[i + 1..];
    if i == n {
      assert without == doc[..n];
    } else {
      OtherKindsIgnored(onCurve, doc[..n], i);
      assert without[..n - 1] == doc[..n][..i] + doc[..n][i + 1..];
      assert without[n - 1] == doc[n];
    }
  }

  lemma {:induction false} OnlyP256(onCurve: Curves, doc: seq<JWK>)
    requires KeysOf(onCurve, doc).Some?
    ensures forall kid :: kid in KeysOf(onCurve, doc).value ==> KeysOf(onCurve, doc).value[kid].bitSize == 256
  {
    if doc != [] {
      OnlyP256(onCurve, doc[..|doc| - 1]);
    }
  }

  /** Reading back a published key set, in any iteration order, gives the same map
      exactly when every key is on P-256: the set accepts keys of other curves,
      but labels every published key P-256. */
  lemma {:induction false} JwksRoundTrip(onCurve: Curves, keys: map<string, EcKey>, order: seq<string>, doc: seq<JWK>)
    requires CoordinatesFit(onCurve) && "" !in keys
    requires forall kid :: kid in keys ==> OnCurve(onCurve, keys[kid])
    requires Enumerates(order, keys) && Publishes(onCurve, keys, order, doc)
    ensures KeysOf(onCurve, doc) == Some(keys) <==> forall kid :: kid in keys ==> keys[kid].bitSize == 256
  {
    if forall kid :: kid in keys ==> keys[kid].bitSize == 256 {
      KeysOfPublished(onCurve, keys, order, doc);
      assert Listed(keys, order) == keys;
    } else if KeysOf(onCurve, doc) == Some(keys) {
      OnlyP256(onCurve, doc);
      assert false;
    }
  }

  /** A published key of a larger curve makes the whole set unreadable. */
  lemma {:induction false} LargerCurveRefused(onCurve: Curves, keys: map<string, EcKey>, order: seq<string>, doc: seq<JWK>, kid: string)
    requires Enumerates(order, keys) && Publishes(onCurve, keys, order, doc)
    requires kid in keys && keys[kid].bitSize > 256
    ensures KeysOf(onCurve, doc).None?
  {
    var i :| 0 <= i < |order| && order[i] == kid;
    LargerKeyRefused(onCurve, kid, keys[kid]);
    assert doc[..i + 1][i] == doc[i];
    RefusedPrefix(onCurve, doc, i + 1);
  }

  lemma {:induction false} LargerKeyRefused(onCurve: Curves, kid: string, pub: EcKey)
    requires pub.bitSize > 256
    ensures ReadJwk(onCurve, Published(kid, pub)).Refused?
  {
    var n := ByteLen(pub.bitSize);
    ReadCoordinates(onCurve, Published(kid, pub), ToBytes(pub.x, n), ToBytes(pub.y, n));
  }

  /** Stripping any number of leading zero bytes from either published coordinate
      still yields the same key. */
  lemma {:induction false} StrippedCoordinates(onCurve: Curves, jwk: JWK, pub: EcKey, a: nat, b: nat, xs: seq<Byte>, ys: seq<Byte>)
    requires CoordinatesFit(onCurve) && OnCurve(onCurve, pub) && pub.bitSize == 256
    requires jwk.kty == "EC" && jwk.crv == "P-256"
    requires Zeros(a) + xs == ToBytes(pub.x, ByteLen(pub.bitSize))
    requires Zeros(b) + ys == ToBytes(pub.y, ByteLen(pub.bitSize))
    requires jwk.x == Base64Url.Encode(xs) && jwk.y == Base64Url.Encode(ys)
    ensures ReadJwk(onCurve, jwk) == Key(pub)
  {
    ReadCoordinates(onCurve, jwk, xs, ys);
    CoordinateRoundTrip(pub.bitSize, pub.x);
    CoordinateRoundTrip(pub.bitSize, pub.y);
    LeadingZerosKeepValue(a, xs);
    LeadingZerosKeepValue(b, ys);
    assert |xs| <= |Zeros(a) + xs| && |ys| <= |Zeros(b) + ys|;
  }

  /** End to end: an assertion verifies against the published and re-read key set of
      its issuer, in whatever order the set was published. */
  lemma {:induction false} IssuePublishVerify(c: Crypto, j: Assertion.Codec, i: Assertion.Issuer, s: Assertion.Subject, jti: Option<string>,
                           issuedAt: int, onCurve: Curves, keys: map<string, EcKey>, order: seq<string>, doc: seq<JWK>,
                           leeway: int, now: int)
    requires Assertion.JsonRoundTrips(j) && Assertion.SignsFor(c, i.key) && CoordinatesFit(onCurve)
    requires "" !in keys && i.key.kid in keys && keys[i.key.kid] == i.key.pub
    requires forall kid :: kid in keys ==> OnCurve(onCurve, keys[kid]) && keys[kid].bitSize == 256
    requires Enumerates(order, keys) && Publishes(onCurve, keys, order, doc)
    ensures KeysOf(onCurve, doc) == Some(keys)
    ensures Assertion.Issue(c, j, i, s, jti, issuedAt).Ok? ==> jti.Some?
    ensures Assertion.Issue(c, j, i, s, jti, issuedAt).Ok? ==>
      var iat, exp := issuedAt / 1_000_000_000, (issuedAt + i.ttl) / 1_000_000_000;
      var v := Assertion.Verifier(KeysOf(onCurve, doc).value, i.iss, i.aud, leeway);
      Assertion.Verify(c, j, v, Assertion.Issue(c, j, i, s, jti, issuedAt).value, now) ==
        if exp != 0 && now > exp * 1_000_000_000 + leeway then Err(Assertion.Expired)
        else if iat != 0 && now + leeway < iat * 1_000_000_000 then Err(Assertion.NotYetValid)
        else Ok(Assertion.Claims(i.iss, i.aud, s.nationalId, iat, exp, jti.value,
                                 s.nationalId, s.country, s.givenName, s.familyName, s.loa, "webEid"))
  {
    JwksRoundTrip(onCurve, keys, order, doc);
    if Assertion.Issue(c, j, i, s, jti, issuedAt).Ok? {
      Assertion.IssueThenVerify(c, j, i, s, jti, issuedAt, Assertion.Verifier(keys, i.iss, i.aud, leeway), now);
    }
  }
}
