/** base64.RawURLEncoding (section 5 of RFC 4648, no padding), as Go decodes it:
    carriage returns and line feeds are skipped and unused trailing bits are
    not inspected. */
module Base64Url {
  import opened Wrappers
  import opened Bytes

  type Digit = n: int | 0 <= n < 64

  function DigitToChar(d: Digit): (c: char)
  {
    if d < 26 then ('A' as int + d) as char
    else if d < 52 then ('a' as int + d - 26) as char
    else if d < 62 then ('0' as int + d - 52) as char
    else if d == 62 then '-' else '_'
  }

  function CharToDigit(c: char): (r: Option<Digit>)
  {
    if 'A' <= c <= 'Z' then Some(c as int - 'A' as int)
    else if 'a' <= c <= 'z' then Some(c as int - 'a' as int + 26)
    else if '0' <= c <= '9' then Some(c as int - '0' as int + 52)
    else if c == '-' then Some(62)
    else if c == '_' then Some(63)
    else None
  }

  // The quantum of three bytes and four digits.
  function D0(b0: Byte): (d: Digit) { b0 / 4 }
  function D1(b0: Byte, b1: Byte): (d: Digit) { b0 % 4 * 16 + b1 / 16 }
  function D2(b1: Byte, b2: Byte): (d: Digit) { b1 % 16 * 4 + b2 / 64 }
  function D3(b2: Byte): (d: Digit) { b2 % 64 }
  function B0(d0: Digit, d1: Digit): (b: Byte) { (d0 as int) * 4 + d1 / 16 }
  function B1(d1: Digit, d2: Digit): (b: Byte) { (d1 % 16) as int * 16 + d2 / 4 }
  function B2(d2: Digit, d3: Digit): (b: Byte) { (d2 % 4) as int * 64 + d3 }

  lemma {:induction false} QuantumRoundTrip(b0: Byte, b1: Byte, b2: Byte)
    ensures B0(D0(b0), D1(b0, b1)) == b0
    ensures B1(D1(b0, b1), D2(b1, b2)) == b1
    ensures B2(D2(b1, b2), D3(b2)) == b2
  {
  }

  lemma {:induction false} QuantumRoundTripBack(d0: Digit, d1: Digit, d2: Digit, d3: Digit)
    ensures D0(B0(d0, d1)) == d0
    ensures D1(B0(d0, d1), B1(d1, d2)) == d1
    ensures D2(B1(d1, d2), B2(d2, d3)) == d2
    ensures D3(B2(d2, d3)) == d3
    ensures D1(B0(d0, d1), 0) == d1 <==> d1 % 16 == 0
    ensures D2(B1(d1, d2), 0) == d2 <==> d2 % 4 == 0
  {
  }

  function EncodeDigits(b: seq<Byte>): (ds: seq<Digit>)
  {
    if |b| == 0 then []
    else if |b| == 1 then [D0(b[0]), D1(b[0], 0)]
    else if |b| == 2 then [D0(b[0]), D1(b[0], b[1]), D2(b[1], 0)]
    else [D0(b[0]), D1(b[0], b[1]), D2(b[1], b[2]), D3(b[2])] + EncodeDigits(b[3..])
  }

  function DecodeDigits(ds: seq<Digit>): (r: Option<seq<Byte>>)
  {
    if |ds| == 0 then Some([])
    else if |ds| == 1 then None
    else if |ds| == 2 then Some([B0(ds[0], ds[1])])
    else if |ds| == 3 then Some([B0(ds[0], ds[1]), B1(ds[1], ds[2])])
    else match DecodeDigits(ds[4..])
         case None => None
         case Some(rest) => Some([B0(ds[0], ds[1]), B1(ds[1], ds[2]), B2(ds[2], ds[3])] + rest)
  }

  function Chars(ds: seq<Digit>): (s: string)
    ensures |s| == |ds|
  {
    seq(|ds|, i requires 0 <= i < |ds| => DigitToChar(ds[i]))
  }

  predicate InAlphabet(s: string) {
    forall i :: 0 <= i < |s| ==> CharToDigit(s[i]).Some?
  }

  function Digits(s: string): (ds: seq<Digit>)
    requires InAlphabet(s)
    ensures |ds| == |s|
  {
    seq(|s|, i requires 0 <= i < |s| => CharToDigit(s[i]).value)
  }

  /** s without its carriage returns and line feeds. */
  function SkipNewlines(s: string): (r: string)
  {
    if s == [] then []
    else if s[0] == '\r' || s[0] == '\n' then SkipNewlines(s[1..])
    else [s[0]] + SkipNewlines(s[1..])
  }

  function Encode(b: seq<Byte>): (s: string)
  {
    Chars(EncodeDigits(b))
  }

  function Decode(s: string): (r: Option<seq<Byte>>)
  {
    var t := SkipNewlines(s);
    if InAlphabet(t) then DecodeDigits(Digits(t)) else None
  }

  lemma {:induction false} CharsDigits(ds: seq<Digit>)
    ensures InAlphabet(Chars(ds)) && Digits(Chars(ds)) == ds
  {
  }

  lemma {:induction false} DigitsChars(s: string)
    requires InAlphabet(s)
    ensures Chars(Digits(s)) == s
  {
  }

  lemma {:induction false} AlphabetHasNoNewlines(s: string)
    requires InAlphabet(s)
    ensures SkipNewlines(s) == s
  {
    if s != [] {
      assert CharToDigit(s[0]).Some?;
      assert forall i :: 0 <= i < |s[1..]| ==> s[1..][i] == s[i + 1];
      AlphabetHasNoNewlines(s[1..]);
      assert s == [s[0]] + s[1..];
    }
  }

  lemma {:induction false} DecodeEncodeOne(b0: Byte)
    ensures DecodeDigits(EncodeDigits([b0])) == Some([b0])
  {
    var d0, d1 := D0(b0), D1(b0, 0);
    assert EncodeDigits([b0]) == [d0, d1];
    assert DecodeDigits([d0, d1]) == Some([B0(d0, d1)]);
    QuantumRoundTrip(b0, 0, 0);
  }

  lemma {:induction false} DecodeEncodeTwo(b0: Byte, b1: Byte)
    ensures DecodeDigits(EncodeDigits([b0, b1])) == Some([b0, b1])
  {
    QuantumRoundTrip(b0, b1, 0);
  }

  lemma {:induction false} DecodeQuantum(d0: Digit, d1: Digit, d2: Digit, d3: Digit, rest: seq<Digit>)
    requires DecodeDigits(rest).Some?
    ensures DecodeDigits([d0, d1, d2, d3] + rest)
         == Some([B0(d0, d1), B1(d1, d2), B2(d2, d3)] + DecodeDigits(rest).value)
  {
    assert ([d0, d1, d2, d3] + rest)[4..] == rest;
  }

  lemma {:induction false} EncodeQuantum(b0: Byte, b1: Byte, b2: Byte, rest: seq<Byte>)
    ensures EncodeDigits([b0, b1, b2] + rest) == [D0(b0), D1(b0, b1), D2(b1, b2), D3(b2)] + EncodeDigits(rest)
  {
    assert ([b0, b1, b2] + rest)[3..] == rest;
  }

  lemma {:induction false} DecodeEncodeDigits(b: seq<Byte>)
    ensures DecodeDigits(EncodeDigits(b)) == Some(b)
  {
    if |b| == 1 {
      DecodeEncodeOne(b[0]);
      assert b == [b[0]];
    } else if |b| == 2 {
      DecodeEncodeTwo(b[0], b[1]);
      assert b == [b[0], b[1]];
    } else if |b| >= 3 {
      var b0, b1, b2, rest := b[0], b[1], b[2], b[3..];
      DecodeEncodeDigits(rest);
      EncodeQuantum(b0, b1, b2, rest);
      DecodeQuantum(D0(b0), D1(b0, b1), D2(b1, b2), D3(b2), EncodeDigits(rest));
      QuantumRoundTrip(b0, b1, b2);
      assert b == [b0, b1, b2] + rest;
    }
  }

  /** Decoding inverts encoding for every byte string, and the encoding uses no
      character outside the alphabet: no dot, no padding, no newline. */
  lemma {:induction false} DecodeEncode(b: seq<Byte>)
    ensures Decode(Encode(b)) == Some(b)
    ensures '.' !in Encode(b)
  {
    CharsDigits(EncodeDigits(b));
    AlphabetHasNoNewlines(Encode(b));
    DecodeEncodeDigits(b);
    forall i | 0 <= i < |Encode(b)|
      ensures Encode(b)[i] != '.'
    {
      assert CharToDigit(Encode(b)[i]).Some?;
    }
  }

  /** The bits of the last digit that no byte uses are zero. */
  predicate ZeroTail(ds: seq<Digit>) {
    && (|ds| % 4 == 2 ==> ds[|ds| - 1] % 16 == 0)
    && (|ds| % 4 == 3 ==> ds[|ds| - 1] % 4 == 0)
  }

  /** The only length that cannot be decoded is one past a multiple of four. */
  lemma {:induction false} DecodesExactly(ds: seq<Digit>)
    ensures DecodeDigits(ds).Some? <==> |ds| % 4 != 1
  {
    if |ds| >= 4 {
      DecodesExactly(ds[4..]);
      assert |ds| % 4 == |ds[4..]| % 4;
      assert DecodeDigits(ds).Some? == DecodeDigits(ds[4..]).Some?;
    }
  }

  lemma {:induction false} EncodeDecodeTwo(ds: seq<Digit>)
    requires |ds| == 2
    ensures EncodeDigits(DecodeDigits(ds).value) == ds <==> ZeroTail(ds)
  {
    QuantumRoundTripBack(ds[0], ds[1], 0, 0);
  }

  lemma {:induction false} EncodeDecodeThree(ds: seq<Digit>)
    requires |ds| == 3
    ensures EncodeDigits(DecodeDigits(ds).value) == ds <==> ZeroTail(ds)
  {
    QuantumRoundTripBack(ds[0], ds[1], ds[2], 0);
  }

  lemma {:induction false} EncodeDecodeDigits(ds: seq<Digit>)
    requires DecodeDigits(ds).Some?
    ensures EncodeDigits(DecodeDigits(ds).value) == ds <==> ZeroTail(ds)
  {
    if |ds| == 2 {
      EncodeDecodeTwo(ds);
    } else if |ds| == 3 {
      EncodeDecodeThree(ds);
    } else if |ds| >= 4 {
      EncodeDecodeDigitsStep(ds);
      EncodeDecodeDigits(ds[4..]);
      ZeroTailStep(ds);
    }
  }

  lemma {:induction false} ZeroTailStep(ds: seq<Digit>)
    requires |ds| >= 4
    ensures ZeroTail(ds) == ZeroTail(ds[4..])
  {
  }

  lemma {:induction false} EncodeDecodeDigitsStep(ds: seq<Digit>)
    requires DecodeDigits(ds).Some? && |ds| >= 4
    ensures EncodeDigits(DecodeDigits(ds).value) == ds <==> EncodeDigits(DecodeDigits(ds[4..]).value) == ds[4..]
  {
    QuantumRoundTripBack(ds[0], ds[1], ds[2], ds[3]);
    var b := DecodeDigits(ds).value;
    assert b[3..] == DecodeDigits(ds[4..]).value;
    var p := [ds[0], ds[1], ds[2], ds[3]];
    assert EncodeDigits(b) == p + EncodeDigits(b[3..]);
    assert ds == p + ds[4..];
    PrefixedEqual(p, EncodeDigits(b[3..]), ds[4..]);
  }

  lemma {:induction false} PrefixedEqual(p: seq<Digit>, x: seq<Digit>, y: seq<Digit>)
    ensures p + x == p + y <==> x == y
  {
    assert (p + x)[|p|..] == x && (p + y)[|p|..] == y;
  }

  /** Only digits, no newline among them, and unused trailing bits that are zero. */
  predicate Canonical(s: string) {
    InAlphabet(s) && |s| % 4 != 1 && ZeroTail(Digits(s))
  }

  /** A string is the encoding of what it decodes to exactly when it holds no
      newline and its unused trailing bits are zero. */
  lemma {:induction false} EncodeDecode(s: string)
    requires Decode(s).Some?
    ensures Encode(Decode(s).value) == s <==> Canonical(s)
  {
    var t := SkipNewlines(s);
    DecodesExactly(Digits(t));
    EncodeDecodeDigits(Digits(t));
    DigitsChars(t);
    if Canonical(s) {
      AlphabetHasNoNewlines(s);
    }
    if Encode(Decode(s).value) == s {
      CharsDigits(EncodeDigits(Decode(s).value));
      AlphabetHasNoNewlines(s);
    }
  }

  // What the digits mean: the bits of the bytes, six at a time.

  /** The alphabet (table 2 of RFC 4648): four runs of consecutive characters and two
      single ones, and no other character is a digit. */
  lemma {:induction false} AlphabetExactly(d: Digit, c: char)
    ensures DigitToChar(0) == 'A' && DigitToChar(25) == 'Z' && DigitToChar(26) == 'a' && DigitToChar(51) == 'z'
    ensures DigitToChar(52) == '0' && DigitToChar(61) == '9' && DigitToChar(62) == '-' && DigitToChar(63) == '_'
    ensures d !in {25, 51, 61, 62, 63} ==> DigitToChar(d + 1) as int == DigitToChar(d) as int + 1
    ensures CharToDigit(c) == Some(d) <==> c == DigitToChar(d)
    ensures CharToDigit(c).Some? <==> IsUrlChar(c)
  {
  }

  type Bit = n: int | 0 <= n < 2

  /** The k low bits of n, the most significant first. */
  function Bits(n: nat, k: nat): (bits: seq<Bit>)
    ensures |bits| == k
    decreases n, k
  {
    if k == 0 then [] else Bits(n / 2, k - 1) + [n % 2]
  }

  lemma {:induction false} BitsJoin(hi: nat, lo: nat, k: nat, j: nat)
    requires lo < Pow2(j)
    ensures Bits(hi * Pow2(j) + lo, k + j) == Bits(hi, k) + Bits(lo, j)
  {
    if j > 0 {
      var p := hi * Pow2(j - 1);
      assert hi * Pow2(j) == 2 * p;
      BitsJoin(hi, lo / 2, k, j - 1);
    }
  }

  function Octets(b: seq<Byte>): (bits: seq<Bit>)
    ensures |bits| == 8 * |b|
  {
    if b == [] then [] else Bits(b[0], 8) + Octets(b[1..])
  }

  function Sextets(ds: seq<Digit>): (bits: seq<Bit>)
    ensures |bits| == 6 * |ds|
  {
    if ds == [] then [] else Bits(ds[0], 6) + Sextets(ds[1..])
  }

  lemma {:induction false} SmallPowers()
    ensures Pow2(2) == 4 && Pow2(4) == 16 && Pow2(6) == 64
  {
    assert Pow2(2) == 2 * Pow2(1) && Pow2(4) == 2 * Pow2(3) && Pow2(3) == 2 * Pow2(2);
    assert Pow2(6) == 2 * Pow2(5) && Pow2(5) == 2 * Pow2(4);
  }

  /** A number cut before its two, four or six low bits. */
  lemma {:induction false} Cut2(n: nat, hi: nat, lo: nat, k: nat)
    requires n == hi * 4 + lo && lo < 4
    ensures Bits(n, k + 2) == Bits(hi, k) + Bits(lo, 2)
  {
    SmallPowers();
    BitsJoin(hi, lo, k, 2);
  }

  lemma {:induction false} Cut4(n: nat, hi: nat, lo: nat, k: nat)
    requires n == hi * 16 + lo && lo < 16
    ensures Bits(n, k + 4) == Bits(hi, k) + Bits(lo, 4)
  {
    SmallPowers();
    BitsJoin(hi, lo, k, 4);
  }

  lemma {:induction false} Cut6(n: nat, hi: nat, lo: nat, k: nat)
    requires n == hi * 64 + lo && lo < 64
    ensures Bits(n, k + 6) == Bits(hi, k) + Bits(lo, 6)
  {
    SmallPowers();
    BitsJoin(hi, lo, k, 6);
  }

  lemma {:induction false} SextetsConcat(a: seq<Digit>, b: seq<Digit>)
    ensures Sextets(a + b) == Sextets(a) + Sextets(b)
  {
    if a == [] {
      assert a + b == b;
    } else {
      SextetsConcat(a[1..], b);
      assert (a + b)[1..] == a[1..] + b;
    }
  }

  lemma {:induction false} OctetsConcat(a: seq<Byte>, b: seq<Byte>)
    ensures Octets(a + b) == Octets(a) + Octets(b)
  {
    if a == [] {
      assert a + b == b;
    } else {
      OctetsConcat(a[1..], b);
      assert (a + b)[1..] == a[1..] + b;
    }
  }

  lemma {:induction false} SextetsOf(d0: Digit, d1: Digit, d2: Digit, d3: Digit)
    ensures Sextets([d0, d1]) == Bits(d0, 6) + Bits(d1, 6)
    ensures Sextets([d0, d1, d2]) == Bits(d0, 6) + Bits(d1, 6) + Bits(d2, 6)
    ensures Sextets([d0, d1, d2, d3]) == Bits(d0, 6) + Bits(d1, 6) + Bits(d2, 6) + Bits(d3, 6)
  {
    SextetsConcat([d0], [d1]);
    SextetsConcat([d0, d1], [d2]);
    SextetsConcat([d0, d1, d2], [d3]);
    assert [d0] + [d1] == [d0, d1] && [d0, d1] + [d2] == [d0, d1, d2] && [d0, d1, d2] + [d3] == [d0, d1, d2, d3];
  }

  lemma {:induction false} OctetsOf(b0: Byte, b1: Byte, b2: Byte)
    ensures Octets([b0]) == Bits(b0, 8)
    ensures Octets([b0, b1]) == Bits(b0, 8) + Bits(b1, 8)
    ensures Octets([b0, b1, b2]) == Bits(b0, 8) + Bits(b1, 8) + Bits(b2, 8)
  {
    OctetsConcat([b0], [b1]);
    OctetsConcat([b0, b1], [b2]);
    assert [b0] + [b1] == [b0, b1] && [b0, b1] + [b2] == [b0, b1, b2];
  }

  /** Three strings cut differently into four. */
  lemma {:induction false} Recut(x: seq<Bit>, y: seq<Bit>, z: seq<Bit>, a: seq<Bit>, a': seq<Bit>, b: seq<Bit>, b': seq<Bit>, c: seq<Bit>, c': seq<Bit>)
    requires x == a + a' && y == b + b' && z == c + c'
    ensures a + (a' + b) + (b' + c) + c' == x + y + z
  {
  }

  /** A full quantum holds the same bits as digits and as bytes. */
  lemma {:induction false} QuantumBits(b0: Byte, b1: Byte, b2: Byte)
    ensures Sextets([D0(b0), D1(b0, b1), D2(b1, b2), D3(b2)]) == Octets([b0, b1, b2])
  {
    SextetsOf(D0(b0), D1(b0, b1), D2(b1, b2), D3(b2));
    OctetsOf(b0, b1, b2);
    Cut4(D1(b0, b1), b0 % 4, b1 / 16, 2);
    Cut2(D2(b1, b2), b1 % 16, b2 / 64, 4);
    Cut2(b0, b0 / 4, b0 % 4, 6);
    Cut4(b1, b1 / 16, b1 % 16, 4);
    Cut6(b2, b2 / 64, b2 % 64, 2);
    Recut(Bits(b0, 8), Bits(b1, 8), Bits(b2, 8), Bits(b0 / 4, 6), Bits(b0 % 4, 2), Bits(b1 / 16, 4), Bits(b1 % 16, 4), Bits(b2 / 64, 2), Bits(b2 % 64, 6));
  }

  /** The zero bits that fill the last digit. */
  function Filling(n: nat): (bits: seq<Bit>) {
    if n % 3 == 1 then Bits(0, 4) else if n % 3 == 2 then Bits(0, 2) else []
  }

  lemma {:induction false} TailOne(b0: Byte)
    ensures Sextets([D0(b0), D1(b0, 0)]) == Octets([b0]) + Bits(0, 4)
  {
    SextetsOf(D0(b0), D1(b0, 0), 0, 0);
    OctetsOf(b0, 0, 0);
    Cut4(D1(b0, 0), b0 % 4, 0, 2);
    Cut2(b0, b0 / 4, b0 % 4, 6);
    Recut(Bits(b0, 8), Bits(0, 4), [], Bits(b0 / 4, 6), Bits(b0 % 4, 2), Bits(0, 4), [], [], []);
  }

  lemma {:induction false} TailTwo(b0: Byte, b1: Byte)
    ensures Sextets([D0(b0), D1(b0, b1), D2(b1, 0)]) == Octets([b0, b1]) + Bits(0, 2)
  {
    SextetsOf(D0(b0), D1(b0, b1), D2(b1, 0), 0);
    OctetsOf(b0, b1, 0);
    Cut4(D1(b0, b1), b0 % 4, b1 / 16, 2);
    Cut2(D2(b1, 0), b1 % 16, 0, 4);
    Cut2(b0, b0 / 4, b0 % 4, 6);
    Cut4(b1, b1 / 16, b1 % 16, 4);
    Recut(Bits(b0, 8), Bits(b1, 8), Bits(0, 2), Bits(b0 / 4, 6), Bits(b0 % 4, 2), Bits(b1 / 16, 4), Bits(b1 % 16, 4), Bits(0, 2), []);
  }

  /** Encoding cuts the bits of the bytes into digits, filled up with zero bits
      (section 4 of RFC 4648). */
  lemma {:induction false} EncodedBits(b: seq<Byte>)
    ensures Sextets(EncodeDigits(b)) == Octets(b) + Filling(|b|)
  {
    if |b| == 1 {
      TailOne(b[0]);
      assert b == [b[0]];
    } else if |b| == 2 {
      TailTwo(b[0], b[1]);
      assert b == [b[0], b[1]];
    } else if |b| >= 3 {
      EncodedBits(b[3..]);
      EncodedStep(b);
    }
  }

  lemma {:induction false} EncodedStep(b: seq<Byte>)
    requires |b| >= 3 && Sextets(EncodeDigits(b[3..])) == Octets(b[3..]) + Filling(|b| - 3)
    ensures Sextets(EncodeDigits(b)) == Octets(b) + Filling(|b|)
  {
    var q, t := [D0(b[0]), D1(b[0], b[1]), D2(b[1], b[2]), D3(b[2])], [b[0], b[1], b[2]];
    QuantumBits(b[0], b[1], b[2]);
    SextetsConcat(q, EncodeDigits(b[3..]));
    OctetsConcat(t, b[3..]);
    assert b == t + b[3..];
  }

  lemma {:induction false} RecutBack(w: seq<Bit>, x: seq<Bit>, y: seq<Bit>, z: seq<Bit>, a: seq<Bit>, a': seq<Bit>, b: seq<Bit>, b': seq<Bit>)
    requires x == a + a' && y == b + b'
    ensures (w + a) + (a' + b) + (b' + z) == w + x + y + z
    ensures (w + a) + (a' + b) <= w + x + y
    ensures w + a <= w + x
  {
  }

  lemma {:induction false} QuantumBitsBack(d0: Digit, d1: Digit, d2: Digit, d3: Digit)
    ensures Octets([B0(d0, d1), B1(d1, d2), B2(d2, d3)]) == Sextets([d0, d1, d2, d3])
    ensures Octets([B0(d0, d1), B1(d1, d2)]) <= Sextets([d0, d1, d2])
    ensures Octets([B0(d0, d1)]) <= Sextets([d0, d1])
  {
    SextetsOf(d0, d1, d2, d3);
    OctetsOf(B0(d0, d1), B1(d1, d2), B2(d2, d3));
    Cut2(B0(d0, d1), d0, d1 / 16, 6);
    Cut4(B1(d1, d2), d1 % 16, d2 / 4, 4);
    Cut6(B2(d2, d3), d2 % 4, d3, 2);
    Cut4(d1, d1 / 16, d1 % 16, 2);
    Cut2(d2, d2 / 4, d2 % 4, 4);
    RecutBack(Bits(d0, 6), Bits(d1, 6), Bits(d2, 6), Bits(d3, 6), Bits(d1 / 16, 2), Bits(d1 % 16, 4), Bits(d2 / 4, 4), Bits(d2 % 4, 2));
  }

  /** Decoding cuts the bits of the digits into bytes and drops what is left. */
  lemma {:induction false} DecodedBits(ds: seq<Digit>)
    requires |ds| % 4 != 1
    ensures var b := DecodeDigits(ds); b.Some? && |b.value| == 6 * |ds| / 8 && Octets(b.value) <= Sextets(ds)
  {
    if |ds| == 2 {
      QuantumBitsBack(ds[0], ds[1], 0, 0);
      assert ds == [ds[0], ds[1]];
    } else if |ds| == 3 {
      QuantumBitsBack(ds[0], ds[1], ds[2], 0);
      assert ds == [ds[0], ds[1], ds[2]];
    } else if |ds| >= 4 {
      DecodedBits(ds[4..]);
      DecodedStep(ds);
    }
  }

  lemma {:induction false} DecodedStep(ds: seq<Digit>)
    requires |ds| >= 4 && DecodeDigits(ds[4..]).Some? && Octets(DecodeDigits(ds[4..]).value) <= Sextets(ds[4..])
    ensures DecodeDigits(ds).Some? && |DecodeDigits(ds).value| == |DecodeDigits(ds[4..]).value| + 3
    ensures Octets(DecodeDigits(ds).value) <= Sextets(ds)
  {
    var q, t := [ds[0], ds[1], ds[2], ds[3]], [B0(ds[0], ds[1]), B1(ds[1], ds[2]), B2(ds[2], ds[3])];
    QuantumBitsBack(ds[0], ds[1], ds[2], ds[3]);
    SextetsConcat(q, ds[4..]);
    OctetsConcat(t, DecodeDigits(ds[4..]).value);
    assert ds == q + ds[4..];
  }

  /** A newline anywhere changes nothing. */
  lemma {:induction false} NewlinesIgnored(a: string, c: char, b: string)
    requires c == '\r' || c == '\n'
    ensures Decode(a + [c] + b) == Decode(a + b)
  {
    SkippedAt(a, c, b);
  }

  lemma {:induction false} SkippedAt(a: string, c: char, b: string)
    requires c == '\r' || c == '\n'
    ensures SkipNewlines(a + [c] + b) == SkipNewlines(a + b)
  {
    if a == [] {
      assert a + [c] + b == [c] + b && ([c] + b)[1..] == b && a + b == b;
    } else {
      SkippedAt(a[1..], c, b);
      assert (a + [c] + b)[1..] == a[1..] + [c] + b && (a + b)[1..] == a[1..] + b;
    }
  }

  lemma {:induction false} NoNewlinesKept(s: string)
    requires '\r' !in s && '\n' !in s
    ensures SkipNewlines(s) == s
  {
    if s != [] {
      NoNewlinesKept(s[1..]);
      assert s == [s[0]] + s[1..];
    }
  }

  predicate IsUrlChar(c: char) {
    'A' <= c <= 'Z' || 'a' <= c <= 'z' || '0' <= c <= '9' || c == '-' || c == '_'
  }

  /** Without newlines, a string decodes exactly when all its characters are of the
      alphabet and their number is not one past a multiple of four. */
  lemma {:induction false} DecodesStrings(s: string)
    requires '\r' !in s && '\n' !in s
    ensures Decode(s).Some? <==> |s| % 4 != 1 && forall i :: 0 <= i < |s| ==> IsUrlChar(s[i])
  {
    NoNewlinesKept(s);
    if InAlphabet(s) {
      DecodesExactly(Digits(s));
    }
  }
}
