/** certificate/checks.go and certificate/trust.go: the checks on one certificate
    and the reloadable set of trusted authorities. */
module Certificates {
  import opened Wrappers
  import opened Bytes
  import opened Oid
  import Signature

  datatype Extension = Extension(id: OID, value: seq<Byte>)

  /** The fields of a parsed X.509 certificate the library looks at. */
  datatype Certificate = Certificate(
    raw: seq<Byte>, notBefore: int, notAfter: int, keyUsage: nat, extKeyUsage: seq<nat>,
    extensions: seq<Extension>, key: Signature.PublicKey, commonName: string)

  /** What the library takes from crypto/x509, encoding/asn1 and encoding/base64. */
  datatype Pki = Pki(
    decodeCertificate: string -> Option<Certificate>,
    decodeSignature: string -> Option<seq<Byte>>,
    utf8: string -> seq<Byte>,
    parsePolicies: seq<Byte> -> Option<seq<OID>>,
    chains: (set<Certificate>, Certificate, int, seq<nat>) -> bool,
    issuedBy: (Certificate, Certificate) -> bool)

  datatype Error =
    | TokenParse | NonceNotFound | NonceExpired | CertNotYetValid | CertExpired | WrongPurpose
    | DisallowedPolicy | NotTrusted | Revoked | OcspFailed | UnsupportedFormat | SignatureInvalid

  // x509.ExtKeyUsage values, and the digital-signature bit of x509.KeyUsage.
  const EKU_ANY: nat := 0
  const EKU_CLIENT_AUTH: nat := 2

  const OID_CERTIFICATE_POLICIES: OID := [2, 5, 29, 32]

  function CheckValidity(cert: Certificate, now: int): (err: Option<Error>) {
    if now < cert.notBefore then Some(CertNotYetValid)
    else if now > cert.notAfter then Some(CertExpired)
    else None
  }

  predicate Allows(cert: Certificate, usage: nat) {
    usage in cert.extKeyUsage || EKU_ANY in cert.extKeyUsage
  }

  method HasExtKeyUsage(cert: Certificate, want: nat) returns (has: bool)
    ensures has <==> want in cert.extKeyUsage || 0 in cert.extKeyUsage
  {
    for i := 0 to |cert.extKeyUsage|
      invariant forall k :: 0 <= k < i ==> cert.extKeyUsage[k] != want && cert.extKeyUsage[k] != EKU_ANY
    {
      if cert.extKeyUsage[i] == want || cert.extKeyUsage[i] == EKU_ANY {
        return true;
      }
    }
    return false;
  }

  /** Both the digital-signature usage and a client-authentication (or any) EKU. */
  predicate ForAuthentication(cert: Certificate) {
    cert.keyUsage % 2 == 1 && Allows(cert, EKU_CLIENT_AUTH)
  }

  method CheckKeyUsageForAuthentication(cert: Certificate) returns (err: Option<Error>)
    ensures err == if cert.keyUsage % 2 == 1 && (2 in cert.extKeyUsage || 0 in cert.extKeyUsage) then None else Some(WrongPurpose)
  {
    if cert.keyUsage % 2 == 0 {
      return Some(WrongPurpose);
    }
    var has := HasExtKeyUsage(cert, EKU_CLIENT_AUTH);
    return if has then None else Some(WrongPurpose);
  }

  /** The asserted policies: those of the first Certificate Policies extension. */
  function Policies(p: Pki, exts: seq<Extension>): (r: Option<seq<OID>>) {
    if exts == [] then Some([])
    else if exts[0].id == OID_CERTIFICATE_POLICIES then p.parsePolicies(exts[0].value)
    else Policies(p, exts[1..])
  }

  lemma {:induction false} PoliciesSkip(p: Pki, exts: seq<Extension>, i: nat)
    requires i <= |exts|
    requires forall k :: 0 <= k < i ==> exts[k].id != OID_CERTIFICATE_POLICIES
    ensures Policies(p, exts) == Policies(p, exts[i..])
  {
    if i > 0 {
      PoliciesSkip(p, exts[1..], i - 1);
      assert exts[1..][i - 1..] == exts[i..];
    }
  }

  /** The extension at i is the first Certificate Policies one. */
  ghost predicate FirstPolicies(exts: seq<Extension>, i: int) {
    0 <= i < |exts| && exts[i].id == [2, 5, 29, 32] && forall k :: 0 <= k < i ==> exts[k].id != [2, 5, 29, 32]
  }

  method ExtractPolicies(p: Pki, cert: Certificate) returns (r: Option<seq<OID>>)
    ensures r == Policies(p, cert.extensions)
    ensures (forall i :: 0 <= i < |cert.extensions| ==> cert.extensions[i].id != [2, 5, 29, 32]) ==> r == Some([])
    ensures forall i :: FirstPolicies(cert.extensions, i) ==> r == p.parsePolicies(cert.extensions[i].value)
  {
    for i := 0 to |cert.extensions|
      invariant forall k :: 0 <= k < i ==> cert.extensions[k].id != OID_CERTIFICATE_POLICIES
    {
      if cert.extensions[i].id == OID_CERTIFICATE_POLICIES {
        PoliciesSkip(p, cert.extensions, i);
        return p.parsePolicies(cert.extensions[i].value);
      }
    }
    PoliciesSkip(p, cert.extensions, |cert.extensions|);
    return Some([]);
  }

  /** No disallowed policy is asserted; an unreadable extension counts as one,
      unless nothing is disallowed. */
  predicate PolicyAllowed(p: Pki, cert: Certificate, disallowed: seq<OID>) {
    disallowed == []
    || (var present := Policies(p, cert.extensions);
        present.Some? && forall k :: 0 <= k < |present.value| ==> present.value[k] !in disallowed)
  }

  method CheckDisallowedPolicies(p: Pki, cert: Certificate, disallowed: seq<OID>) returns (err: Option<Error>)
    ensures err == if PolicyAllowed(p, cert, disallowed) then None else Some(DisallowedPolicy)
    ensures disallowed == [] || (forall i :: 0 <= i < |cert.extensions| ==> cert.extensions[i].id != [2, 5, 29, 32]) ==> err == None
    ensures disallowed != [] ==> forall i :: FirstPolicies(cert.extensions, i) ==>
      var present := p.parsePolicies(cert.extensions[i].value);
      err == if present.Some? && forall k :: 0 <= k < |present.value| ==> present.value[k] !in disallowed
             then None else Some(DisallowedPolicy)
  {
    if |disallowed| == 0 {
      return None;
    }
    var policies := ExtractPolicies(p, cert);
    if policies.None? {
      return Some(DisallowedPolicy);
    }
    for i := 0 to |policies.value|
      invariant forall k :: 0 <= k < i ==> policies.value[k] !in disallowed
    {
      for j := 0 to |disallowed|
        invariant policies.value[i] !in disallowed[..j]
      {
        if policies.value[i] == disallowed[j] {
          return Some(DisallowedPolicy);
        }
      }
      assert disallowed[..|disallowed|] == disallowed;
    }
    return None;
  }

  /** One trusted set: the authorities and the verification pool built from them. */
  datatype Snapshot = Snapshot(intermediates: seq<Certificate>, pool: set<Certificate>)

  predicate Consistent(s: Snapshot) {
    s.pool == set c | c in s.intermediates
  }

  function SnapshotOf(cas: seq<Certificate>): (s: Snapshot)
    ensures s.intermediates == cas && Consistent(s)
  {
    Snapshot(cas, set c | c in cas)
  }

  method NewTrustSnapshot(cas: seq<Certificate>) returns (s: Snapshot)
    ensures s == SnapshotOf(cas)
    ensures s.intermediates == cas && s.pool == set c | c in cas
  {
    var pool: set<Certificate> := {};
    for i := 0 to |cas|
      invariant pool == set c | c in cas[..i]
    {
      assert cas[..i + 1] == cas[..i] + [cas[i]];
      pool := pool + {cas[i]};
    }
    assert cas[..|cas|] == cas;
    return Snapshot(cas, pool);
  }

  /** The authority at i is the first that signed the certificate. */
  predicate FirstIssuer(p: Pki, cas: seq<Certificate>, cert: Certificate, i: int) {
    0 <= i < |cas| && p.issuedBy(cert, cas[i]) && forall k :: 0 <= k < i ==> !p.issuedBy(cert, cas[k])
  }

  /** The first authority of the set that signed the certificate. */
  function Issuer(p: Pki, cas: seq<Certificate>, cert: Certificate): (r: Option<Certificate>)
    ensures r.Some? <==> exists i :: 0 <= i < |cas| && p.issuedBy(cert, cas[i])
    ensures r.Some? ==> exists i :: FirstIssuer(p, cas, cert, i) && r.value == cas[i]
  {
    if cas == [] then None
    else if p.issuedBy(cert, cas[0]) then Some(cas[0])
    else
      var rest := Issuer(p, cas[1..], cert);
      assert forall i :: 1 <= i < |cas| ==> cas[i] == cas[1..][i - 1];
      assert rest.Some? ==>
        var i :| FirstIssuer(p, cas[1..], cert, i) && rest.value == cas[1..][i];
        FirstIssuer(p, cas, cert, i + 1) && rest.value == cas[i + 1];
      rest
  }

  lemma {:induction false} IssuerSkip(p: Pki, cas: seq<Certificate>, cert: Certificate, i: nat)
    requires i <= |cas|
    requires forall k :: 0 <= k < i ==> !p.issuedBy(cert, cas[k])
    ensures Issuer(p, cas, cert) == Issuer(p, cas[i..], cert)
  {
    if i > 0 {
      IssuerSkip(p, cas[1..], cert, i - 1);
      assert cas[1..][i - 1..] == cas[i..];
    }
  }

  /** The chain check of one set; no usage asked for means any usage. */
  predicate Trusts(p: Pki, s: Snapshot, cert: Certificate, now: int, usages: seq<nat>) {
    p.chains(s.pool, cert, now, if usages == [] then [EKU_ANY] else usages)
  }

  class TrustStore {
    var snap: Snapshot

    ghost predicate Valid()
      reads this
    {
      Consistent(snap)
    }

    constructor (cas: seq<Certificate>)
      ensures Valid() && snap == SnapshotOf(cas)
    {
      snap := SnapshotOf(cas);
    }

    /** NewTrustStore: at least one authority is required; null is the error. */
    static method NewTrustStore(cas: seq<Certificate>) returns (ts: TrustStore?)
      ensures ts == null <==> cas == []
      ensures ts != null ==> fresh(ts) && ts.Valid() && ts.snap == SnapshotOf(cas)
    {
      if |cas| == 0 {
        return null;
      }
      ts := new TrustStore(cas);
    }

    /** NewRuntimeTrustStore: starts empty. */
    static method NewRuntimeTrustStore() returns (ts: TrustStore)
      ensures fresh(ts) && ts.Valid() && ts.snap == SnapshotOf([])
    {
      ts := new TrustStore([]);
    }

    /** Reload: the whole set is swapped at once; an empty set is refused and
        changes nothing, so a set that holds an authority always will. */
    method Reload(cas: seq<Certificate>) returns (ok: bool)
      requires Valid()
      modifies this
      ensures Valid()
      ensures ok <==> cas != []
      ensures snap == Reloaded(old(snap), cas)
      ensures old(snap.intermediates) != [] ==> snap.intermediates != []
    {
      if |cas| == 0 {
        return false;
      }
      snap := NewTrustSnapshot(cas);
      return true;
    }

    method IssuerOf(p: Pki, cert: Certificate) returns (r: Option<Certificate>)
      ensures r == Issuer(p, snap.intermediates, cert)
      ensures r.None? <==> forall i :: 0 <= i < |snap.intermediates| ==> !p.issuedBy(cert, snap.intermediates[i])
      ensures r.Some? ==> exists i :: FirstIssuer(p, snap.intermediates, cert, i) && r.value == snap.intermediates[i]
    {
      var cas := snap.intermediates;
      for i := 0 to |cas|
        invariant forall k :: 0 <= k < i ==> !p.issuedBy(cert, cas[k])
      {
        if p.issuedBy(cert, cas[i]) {
          IssuerSkip(p, cas, cert, i);
          return Some(cas[i]);
        }
      }
      IssuerSkip(p, cas, cert, |cas|);
      return None;
    }

    method Verify(p: Pki, cert: Certificate, now: int, usages: seq<nat>) returns (err: Option<Error>)
      ensures err == if Trusts(p, snap, cert, now, usages) then None else Some(NotTrusted)
      ensures err.None? <==> p.chains(snap.pool, cert, now, if usages == [] then [0] else usages)
    {
      var asked := if |usages| == 0 then [EKU_ANY] else usages;
      return if p.chains(snap.pool, cert, now, asked) then None else Some(NotTrusted);
    }
  }

  /** The set in force after a reload. */
  function Reloaded(s: Snapshot, cas: seq<Certificate>): (s': Snapshot)
    ensures Consistent(s) ==> Consistent(s')
    ensures s.intermediates != [] ==> s'.intermediates != []
  {
    if cas == [] then s else SnapshotOf(cas)
  }
}
