/** certificate/policy.go: dotted-decimal object identifiers. */
module Oid {
  import opened Wrappers
  import opened Text
  import GoTime

  type OID = seq<int>

  predicate IsDigit(c: char) {
    '0' <= c <= '9'
  }

  predicate AllDigits(s: string) {
    s != [] && forall i :: 0 <= i < |s| ==> IsDigit(s[i])
  }

  function DigitOf(c: char): (d: nat)
    requires IsDigit(c)
  {
    c as int - '0' as int
  }

  function DigitsValue(s: string): (v: nat)
    requires forall i :: 0 <= i < |s| ==> IsDigit(s[i])
  {
    if s == [] then 0
    else DigitsValue(s[..|s| - 1]) * 10 + DigitOf(s[|s| - 1])
  }

  /** strconv.Atoi on a 64-bit platform: an optional sign, then decimal digits,
      within the range of an int64. */
  function Atoi(s: string): (r: Option<int>)
    ensures r.Some? ==> GoTime.IsInt64(r.value)
  {
    var signed := s != [] && (s[0] == '+' || s[0] == '-');
    var body := if signed then s[1..] else s;
    if !AllDigits(body) then None
    else
      var v := if signed && s[0] == '-' then 0 - DigitsValue(body) else DigitsValue(body);
      if GoTime.IsInt64(v) then Some(v) else None
  }

  /** One component: a number Atoi reads and that is not negative. */
  function Component(p: string): (r: Option<int>)
    ensures r.Some? ==> 0 <= r.value <= GoTime.MAX_INT64
  {
    var n := Atoi(p);
    if n.None? || n.value < 0 then None else n
  }

  function Components(parts: seq<string>): (r: Option<OID>)
  {
    if parts == [] then Some([])
    else
      var init, last := Components(parts[..|parts| - 1]), Component(parts[|parts| - 1]);
      if init.None? || last.None? then None else Some(init.value + [last.value])
  }

  /** The OID a string denotes, if any. */
  function Denotes(s: string): (r: Option<OID>) {
    var parts := Split(TrimSpace(s), '.');
    if |parts| < 2 then None else Components(parts)
  }

  lemma {:induction false} BadPrefix(parts: seq<string>, i: nat)
    requires i <= |parts|
    requires Components(parts[..i]).None?
    ensures Components(parts).None?
    decreases |parts| - i
  {
    if i == |parts| {
      assert parts[..i] == parts;
    } else {
      assert parts[..i + 1][..i] == parts[..i];
      BadPrefix(parts, i + 1);
    }
  }

  method ParseOID(s: string) returns (r: Option<OID>)
    ensures r == Denotes(s)
  {
    var parts := Split(TrimSpace(s), '.');
    if |parts| < 2 {
      return None;
    }
    var oid: OID := [];
    for i := 0 to |parts|
      invariant Components(parts[..i]) == Some(oid)
    {
      var n := Component(parts[i]);
      assert parts[..i + 1][..i] == parts[..i] && parts[..i + 1][i] == parts[i];
      if n.None? {
        assert Components(parts[..i + 1]).None?;
        BadPrefix(parts, i + 1);
        return None;
      }
      oid := oid + [n.value];
    }
    assert parts[..|parts|] == parts;
    return Some(oid);
  }

  /** The canonical decimal spelling of a number. */
  function Decimal(n: nat): (s: string)
    ensures AllDigits(s)
  {
    if n < 10 then [('0' as int + n) as char]
    else Decimal(n / 10) + [('0' as int + n % 10) as char]
  }

  lemma {:induction false} DecimalValue(n: nat)
    ensures DigitsValue(Decimal(n)) == n
  {
    var s := Decimal(n);
    if n < 10 {
      assert s[..|s| - 1] == [];
    } else {
      DecimalValue(n / 10);
      assert s[..|s| - 1] == Decimal(n / 10);
    }
  }

  /** The components OIDs are made of: non-negative and within an int. */
  predicate Valid(oid: OID) {
    |oid| >= 2 && forall i :: 0 <= i < |oid| ==> 0 <= oid[i] <= GoTime.MAX_INT64
  }

  function Spelled(oid: OID): (parts: seq<string>)
    requires forall i :: 0 <= i < |oid| ==> oid[i] >= 0
    ensures |parts| == |oid|
    ensures forall i :: 0 <= i < |parts| ==> AllDigits(parts[i])
  {
    seq(|oid|, i requires 0 <= i < |oid| => Decimal(oid[i]))
  }

  /** asn1.ObjectIdentifier.String. */
  function Print(oid: OID): (s: string)
    requires Valid(oid)
  {
    Join(Spelled(oid), '.')
  }

  lemma {:induction false} ComponentSpelled(n: nat)
    requires n <= GoTime.MAX_INT64
    ensures Component(Decimal(n)) == Some(n)
  {
    DecimalValue(n);
    AtoiSigned(Decimal(n));
  }

  lemma {:induction false} ComponentsSpelled(oid: OID)
    requires forall i :: 0 <= i < |oid| ==> 0 <= oid[i] <= GoTime.MAX_INT64
    ensures Components(Spelled(oid)) == Some(oid)
  {
    if oid != [] {
      var n, parts := |oid| - 1, Spelled(oid);
      ComponentsSpelled(oid[..n]);
      ComponentSpelled(oid[n]);
      assert parts[n] == Decimal(oid[n]);
      assert parts[..n] == Spelled(oid[..n]);
      assert oid == oid[..n] + [oid[n]];
    }
  }

  lemma {:induction false} JoinDigits(parts: seq<string>)
    requires |parts| >= 1
    requires forall i :: 0 <= i < |parts| ==> AllDigits(parts[i])
    ensures var s := Join(parts, '.'); s != [] && IsDigit(s[0]) && IsDigit(s[|s| - 1])
  {
    if |parts| > 1 {
      JoinDigits(parts[1..]);
    }
  }

  /** Parsing inverts printing for every OID of two or more int components. */
  lemma {:induction false} ParsePrint(oid: OID)
    requires Valid(oid)
    ensures Denotes(Print(oid)) == Some(oid)
  {
    var parts := Spelled(oid);
    JoinDigits(parts);
    assert TrimSpace(Print(oid)) == Print(oid);
    forall i | 0 <= i < |parts|
      ensures '.' !in parts[i]
    {
      assert AllDigits(parts[i]);
    }
    SplitJoin(parts, '.');
    ComponentsSpelled(oid);
  }

  lemma {:induction false} ComponentsInRange(parts: seq<string>)
    requires Components(parts).Some?
    ensures |Components(parts).value| == |parts|
    ensures forall i :: 0 <= i < |parts| ==> 0 <= Components(parts).value[i] <= GoTime.MAX_INT64
  {
    if parts != [] {
      ComponentsInRange(parts[..|parts| - 1]);
    }
  }

  /** Every accepted spelling, with signs, leading zeros or outer spaces, reaches
      one canonical spelling, and two spellings of the same OID reach the same one. */
  lemma {:induction false} ParsePrintParse(s: string, t: string)
    requires Denotes(s).Some? && Denotes(t).Some?
    ensures Valid(Denotes(s).value) && Valid(Denotes(t).value)
    ensures Denotes(Print(Denotes(s).value)) == Denotes(s)
    ensures Print(Denotes(s).value) == Print(Denotes(t).value) <==> Denotes(s) == Denotes(t)
  {
    ComponentsInRange(Split(TrimSpace(s), '.'));
    ComponentsInRange(Split(TrimSpace(t), '.'));
    ParsePrint(Denotes(s).value);
    ParsePrint(Denotes(t).value);
  }

  function ZeroPadded(k: nat, n: nat): (s: string)
    ensures AllDigits(s)
  {
    seq(k, i => '0') + Decimal(n)
  }

  lemma {:induction false} AtoiSigned(body: string)
    requires AllDigits(body) && DigitsValue(body) <= GoTime.MAX_INT64
    ensures Atoi(body) == Atoi("+" + body) == Some(DigitsValue(body))
    ensures Atoi("-" + body) == Some(0 - DigitsValue(body))
  {
  }

  /** The spellings the parser tolerates: a plus sign, leading zeros, a signed zero. */
  lemma {:induction false} TolerantComponent(k: nat, n: nat)
    requires n <= GoTime.MAX_INT64
    ensures Atoi(ZeroPadded(k, n)) == Atoi("+" + ZeroPadded(k, n)) == Some(n)
    ensures Atoi("-" + ZeroPadded(k, n)) == Some(0 - n)
  {
    ZerosThen(k, Decimal(n));
    DecimalValue(n);
    AtoiSigned(ZeroPadded(k, n));
  }

  lemma {:induction false} ZerosThen(k: nat, s: string)
    requires forall i :: 0 <= i < |s| ==> IsDigit(s[i])
    ensures DigitsValue(seq(k, i => '0') + s) == DigitsValue(s)
  {
    var z := seq(k, i => '0');
    if s == [] {
      if k > 0 {
        ZerosThen(k - 1, s);
        assert (z + s)[..k - 1] == seq(k - 1, i => '0') + s;
      } else {
        assert z + s == s;
      }
    } else {
      ZerosThen(k, s[..|s| - 1]);
      assert (z + s)[..k + |s| - 1] == z + s[..|s| - 1];
    }
  }

  // What a string must look like to denote an OID.

  function Pow10(k: nat): (p: nat) {
    if k == 0 then 1 else 10 * Pow10(k - 1)
  }

  /** Digits count by their place: a leading digit weighs ten per digit behind it. */
  lemma {:induction false} PlaceValue(c: char, s: string)
    requires IsDigit(c) && forall i :: 0 <= i < |s| ==> IsDigit(s[i])
    ensures DigitsValue([c] + s) == (c as int - 48) * Pow10(|s|) + DigitsValue(s)
  {
    if s == [] {
      assert [c] + s == [c] && [c][..0] == [];
    } else {
      var init := s[..|s| - 1];
      PlaceValue(c, init);
      assert ([c] + s)[..|s|] == [c] + init;
      TenTimes(c as int - 48, Pow10(|init|));
    }
  }

  lemma {:induction false} TenTimes(d: int, p: nat)
    ensures d * (10 * p) == (d * p) * 10
  {
  }

  /** p is a numeral for n: digits, with a plus sign at most, or a minus sign on zero. */
  ghost predicate Numeral(p: string, n: int) {
    && 0 <= n <= 0x7FFF_FFFF_FFFF_FFFF
    && (|| (AllDigits(p) && DigitsValue(p) == n)
        || (p != [] && p[0] == '+' && AllDigits(p[1..]) && DigitsValue(p[1..]) == n)
        || (p != [] && p[0] == '-' && AllDigits(p[1..]) && DigitsValue(p[1..]) == n == 0))
  }

  lemma {:induction false} ComponentExactly(p: string, n: int)
    ensures Component(p) == Some(n) <==> Numeral(p, n)
  {
    if p != [] && (p[0] == '+' || p[0] == '-') {
      assert !IsDigit(p[0]);
    }
  }

  /** One numeral for each component. */
  ghost predicate Numerals(parts: seq<string>, oid: OID) {
    |oid| == |parts| && forall i :: 0 <= i < |parts| ==> Numeral(parts[i], oid[i])
  }

  lemma {:induction false} ComponentsLast(parts: seq<string>, oid: OID)
    requires |oid| == |parts| > 0
    ensures var n := |parts| - 1;
      Components(parts) == Some(oid) <==> Components(parts[..n]) == Some(oid[..n]) && Component(parts[n]) == Some(oid[n])
  {
    var n := |parts| - 1;
    assert oid == oid[..n] + [oid[n]];
    if Components(parts[..n]).Some? && Component(parts[n]).Some? {
      var x := Components(parts[..n]).value + [Component(parts[n]).value];
      assert x[..|x| - 1] == Components(parts[..n]).value;
    }
  }

  lemma {:induction false} NumeralsLast(parts: seq<string>, oid: OID)
    requires |oid| == |parts| > 0
    ensures var n := |parts| - 1; Numerals(parts, oid) <==> Numerals(parts[..n], oid[..n]) && Numeral(parts[n], oid[n])
  {
    var n := |parts| - 1;
    assert forall i :: 0 <= i < n ==> parts[..n][i] == parts[i] && oid[..n][i] == oid[i];
  }

  lemma {:induction false} ComponentsExactly(parts: seq<string>, oid: OID)
    ensures Components(parts) == Some(oid) <==> Numerals(parts, oid)
  {
    if |oid| != |parts| {
      if Components(parts).Some? { ComponentsInRange(parts); }
    } else if parts != [] {
      var n := |parts| - 1;
      ComponentsExactly(parts[..n], oid[..n]);
      ComponentExactly(parts[n], oid[n]);
      ComponentsLast(parts, oid);
      NumeralsLast(parts, oid);
    }
  }

  /** A string denotes an OID exactly when, outer white space aside, it is two or more
      numerals for its components, separated by dots. */
  lemma {:induction false} DenotesExactly(s: string, oid: OID)
    ensures var parts := Split(TrimSpace(s), '.');
      Denotes(s) == Some(oid) <==> |parts| >= 2 && Numerals(parts, oid)
  {
    ComponentsExactly(Split(TrimSpace(s), '.'), oid);
  }

  /** Outer white space does not matter. */
  lemma {:induction false} SpacedPrint(a: string, oid: OID, b: string)
    requires Valid(oid) && AllSpaces(a) && AllSpaces(b)
    ensures Denotes(a + Print(oid) + b) == Some(oid)
  {
    JoinDigits(Spelled(oid));
    TrimSpaceExactly(a, Print(oid), b);
    TrimSpaceExactly([], Print(oid), []);
    assert [] + Print(oid) + [] == Print(oid);
    ParsePrint(oid);
  }
}
