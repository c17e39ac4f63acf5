/** signing/hash.go and signing/signer.go: choosing the hash function and the
    algorithm for a card signature. */
module Negotiation {
  import opened Wrappers
  import opened Text
  import opened Signature

  const SUPPORTED: seq<string> := [
    "SHA-224", "SHA-256", "SHA-384", "SHA-512", "SHA3-224", "SHA3-256", "SHA3-384", "SHA3-512"]

  method IsSupportedHashFunction(name: string) returns (ok: bool)
    ensures ok <==> name in {"SHA-224", "SHA-256", "SHA-384", "SHA-512", "SHA3-224", "SHA3-256", "SHA3-384", "SHA3-512"}
    ensures ok <==> name in SUPPORTED
  {
    for i := 0 to |SUPPORTED|
      invariant name !in SUPPORTED[..i]
    {
      if SUPPORTED[i] == name {
        return true;
      }
    }
    assert SUPPORTED[..|SUPPORTED|] == SUPPORTED;
    return false;
  }

  /** The preferences NewSigner accepts: at least one, all recognised names. */
  predicate Preference(pref: seq<string>) {
    pref != [] && forall i :: 0 <= i < |pref| ==> pref[i] in SUPPORTED
  }

  method NewSigner(pref: seq<string>) returns (ok: bool)
    ensures ok <==> Preference(pref)
  {
    if |pref| == 0 {
      return false;
    }
    for i := 0 to |pref|
      invariant forall k :: 0 <= k < i ==> pref[k] in SUPPORTED
    {
      var known := IsSupportedHashFunction(pref[i]);
      if !known {
        return false;
      }
    }
    return true;
  }

  /** The card offers the hash: some entry names it, up to upper-casing. */
  predicate Offers(card: seq<SignatureAlgorithm>, name: string) {
    exists i :: 0 <= i < |card| && ToUpper(card[i].hashFunction) == ToUpper(name)
  }

  /** SelectHashFunction: first the set of offered names, then the preferences in order. */
  method SelectHashFunction(pref: seq<string>, card: seq<SignatureAlgorithm>) returns (k: Option<nat>)
    ensures k.Some? ==> k.value < |pref| && Offers(card, pref[k.value])
    ensures k.Some? ==> forall i :: 0 <= i < k.value ==> !Offers(card, pref[i])
    ensures k.None? ==> forall i :: 0 <= i < |pref| ==> !Offers(card, pref[i])
  {
    var offered: set<string> := {};
    for i := 0 to |card|
      invariant forall n :: n in offered <==> exists j :: 0 <= j < i && ToUpper(card[j].hashFunction) == n
    {
      offered := offered + {ToUpper(card[i].hashFunction)};
    }
    for i := 0 to |pref|
      invariant forall j :: 0 <= j < i ==> !Offers(card, pref[j])
    {
      if ToUpper(pref[i]) in offered {
        return Some(i);
      }
    }
    return None;
  }

  /** The entry at i is the first of the card with that hash, up to case. */
  ghost predicate FirstWith(card: seq<SignatureAlgorithm>, hash: string, i: int) {
    && 0 <= i < |card| && EqualFold(card[i].hashFunction, hash)
    && forall k :: 0 <= k < i ==> !EqualFold(card[k].hashFunction, hash)
  }

  /** pickAlgorithmForHash, with the entry made up when none matches. */
  method PickAlgorithmForHash(hash: string, card: seq<SignatureAlgorithm>) returns (a: SignatureAlgorithm)
    ensures if exists i :: 0 <= i < |card| && EqualFold(card[i].hashFunction, hash)
            then exists i :: FirstWith(card, hash, i) && a == card[i]
            else a == SignatureAlgorithm("", hash, "")
  {
    for i := 0 to |card|
      invariant forall k :: 0 <= k < i ==> !EqualFold(card[k].hashFunction, hash)
    {
      if EqualFold(card[i].hashFunction, hash) {
        assert FirstWith(card, hash, i);
        return card[i];
      }
    }
    return SignatureAlgorithm("", hash, "");
  }

  /** Free of the two letters that another character folds to or upper-cases to, but
      not both: the Kelvin sign only folds to K, the dotless i only upper-cases to I. */
  predicate FoldSafe(name: string) {
    forall i :: 0 <= i < |name| ==> name[i] != 'K' && name[i] != 'k' && name[i] != 'I' && name[i] != 'i'
  }

  lemma {:induction false} ComparisonsAgree(offered: string, want: string)
    requires Ascii(want) && FoldSafe(want)
    ensures EqualFold(offered, want) <==> ToUpper(offered) == ToUpper(want)
  {
    if |offered| == |want| {
      forall i | 0 <= i < |want|
        ensures FoldChar(offered[i]) == FoldChar(want[i]) <==> UpperChar(offered[i]) == UpperChar(want[i])
      {
      }
      if ToUpper(offered) == ToUpper(want) {
        forall i | 0 <= i < |want| ensures UpperChar(offered[i]) == UpperChar(want[i]) {
          assert ToUpper(offered)[i] == ToUpper(want)[i];
        }
      }
    }
  }

  /** The two ways the code compares names, upper-casing to select and folding to
      pick, agree on an ASCII name, against every offered name, exactly when it holds
      neither a K nor an I of either case. */
  lemma {:induction false} ComparisonsAgreeExactly(want: string)
    requires Ascii(want)
    ensures (forall offered :: EqualFold(offered, want) <==> ToUpper(offered) == ToUpper(want)) <==> FoldSafe(want)
  {
    if FoldSafe(want) {
      forall offered ensures EqualFold(offered, want) <==> ToUpper(offered) == ToUpper(want) {
        ComparisonsAgree(offered, want);
      }
    } else {
      var i :| 0 <= i < |want| && (want[i] == 'K' || want[i] == 'k' || want[i] == 'I' || want[i] == 'i');
      if want[i] == 'K' || want[i] == 'k' {
        var kelvin := want[i := '\U{212A}'];
        assert EqualFold(kelvin, want);
        assert ToUpper(kelvin)[i] != ToUpper(want)[i];
      } else {
        var dotless := want[i := '\U{131}'];
        assert !EqualFold(dotless, want);
        assert ToUpper(dotless) == ToUpper(want);
      }
    }
  }

  lemma {:induction false} SupportedAreFoldSafe(name: string)
    requires name in SUPPORTED
    ensures Ascii(name) && FoldSafe(name)
  {
  }

  /** A card offers a recognised name exactly by spelling it in any mix of cases, with
      the long s for its S at most, and both comparisons see it so. */
  lemma {:induction false} SpellingsExactly(offered: string, name: string)
    requires name in SUPPORTED
    ensures ToUpper(offered) == ToUpper(name) <==> Raised(offered, name)
    ensures EqualFold(offered, name) <==> Raised(offered, name)
  {
    SupportedAreUpper(name);
    SupportedAreFoldSafe(name);
    ToUpperExactly(offered, name);
    ComparisonsAgree(offered, name);
  }

  lemma {:induction false} SupportedAreUpper(name: string)
    requires name in SUPPORTED
    ensures UpperAscii(name)
  {
  }

  /** Folding picks the entry that upper-casing would pick, for a recognised name. */
  lemma {:induction false} FirstByUpper(card: seq<SignatureAlgorithm>, hash: string, c: int)
    requires hash in SUPPORTED && FirstWith(card, hash, c)
    ensures Earliest(card, hash, c)
  {
    SupportedAreFoldSafe(hash);
    forall i | 0 <= i <= c
      ensures EqualFold(card[i].hashFunction, hash) <==> ToUpper(card[i].hashFunction) == ToUpper(hash)
    {
      ComparisonsAgree(card[i].hashFunction, hash);
    }
  }

  lemma {:induction false} OfferedIsFound(card: seq<SignatureAlgorithm>, hash: string)
    requires hash in SUPPORTED && Offers(card, hash)
    ensures exists i :: 0 <= i < |card| && EqualFold(card[i].hashFunction, hash)
  {
    SupportedAreFoldSafe(hash);
    var i :| 0 <= i < |card| && ToUpper(card[i].hashFunction) == ToUpper(hash);
    ComparisonsAgree(card[i].hashFunction, hash);
  }

  /** The entry at c is the earliest of the card that offers the hash. */
  ghost predicate Earliest(card: seq<SignatureAlgorithm>, hash: string, c: int) {
    && 0 <= c < |card| && ToUpper(card[c].hashFunction) == ToUpper(hash)
    && forall j :: 0 <= j < c ==> ToUpper(card[j].hashFunction) != ToUpper(hash)
  }

  /** Negotiation in PrepareSigning: the earliest preferred hash the card offers and
      the earliest entry of the card with that hash; it fails exactly when no
      preferred hash is offered, and the made-up entry is never returned. */
  method Negotiate(pref: seq<string>, card: seq<SignatureAlgorithm>) returns (r: Option<(SignatureAlgorithm, string)>)
    requires Preference(pref)
    ensures r.None? <==> forall i :: 0 <= i < |pref| ==> !Offers(card, pref[i])
    ensures r.Some? ==> exists p :: 0 <= p < |pref| && r.value.1 == pref[p] && forall i :: 0 <= i < p ==> !Offers(card, pref[i])
    ensures r.Some? ==> exists c :: Earliest(card, r.value.1, c) && r.value.0 == card[c]
  {
    var k := SelectHashFunction(pref, card);
    if k.None? {
      return None;
    }
    var hash := pref[k.value];
    OfferedIsFound(card, hash);
    var a := PickAlgorithmForHash(hash, card);
    ghost var c :| FirstWith(card, hash, c) && a == card[c];
    FirstByUpper(card, hash, c);
    return Some((a, hash));
  }
}
