/** strings.Split, strings.TrimSpace and the case mappings the library relies on. */
module Text {

  /** strings.Split for a one-character separator. */
  function Split(s: string, sep: char): (parts: seq<string>)
    ensures |parts| >= 1
  {
    if s == [] then [[]]
    else
      var rest := Split(s[1..], sep);
      if s[0] == sep then [[]] + rest else [[s[0]] + rest[0]] + rest[1..]
  }

  function Join(parts: seq<string>, sep: char): (s: string)
    requires |parts| >= 1
  {
    if |parts| == 1 then parts[0] else parts[0] + [sep] + Join(parts[1..], sep)
  }

  function Count(s: string, c: char): (n: nat) {
    if s == [] then 0 else (if s[0] == c then 1 else 0) + Count(s[1..], c)
  }

  lemma {:induction false} JoinPrepend(c: char, parts: seq<string>, sep: char)
    requires |parts| >= 1
    ensures Join([[c] + parts[0]] + parts[1..], sep) == [c] + Join(parts, sep)
  {
  }

  lemma {:induction false} JoinSplit(s: string, sep: char)
    ensures Join(Split(s, sep), sep) == s
  {
    if s != [] {
      var rest := Split(s[1..], sep);
      JoinSplit(s[1..], sep);
      JoinPrepend(s[0], rest, sep);
      if s[0] == sep {
        assert ([[]] + rest)[1..] == rest;
      }
      assert s == [s[0]] + s[1..];
    }
  }

  /** Splitting yields one more part than there are separators, and no part holds one. */
  lemma {:induction false} SplitParts(s: string, sep: char)
    ensures |Split(s, sep)| == Count(s, sep) + 1
    ensures forall i :: 0 <= i < |Split(s, sep)| ==> sep !in Split(s, sep)[i]
  {
    if s != [] {
      SplitParts(s[1..], sep);
    }
  }

  lemma {:induction false} SplitWithout(s: string, sep: char)
    requires sep !in s
    ensures Split(s, sep) == [s]
  {
    if s != [] {
      SplitWithout(s[1..], sep);
      assert s == [s[0]] + s[1..];
    }
  }

  lemma {:induction false} SplitFirst(p: string, rest: string, sep: char)
    requires sep !in p
    ensures Split(p + [sep] + rest, sep) == [p] + Split(rest, sep)
  {
    var s := p + [sep] + rest;
    if p == [] {
      assert s[1..] == rest;
    } else {
      SplitFirst(p[1..], rest, sep);
      assert s[1..] == p[1..] + [sep] + rest;
      assert p == [p[0]] + p[1..];
    }
  }

  /** Split undoes Join when no part holds the separator. */
  lemma {:induction false} SplitJoin(parts: seq<string>, sep: char)
    requires |parts| >= 1
    requires forall i :: 0 <= i < |parts| ==> sep !in parts[i]
    ensures Split(Join(parts, sep), sep) == parts
  {
    if |parts| == 1 {
      SplitWithout(parts[0], sep);
    } else {
      SplitJoin(parts[1..], sep);
      SplitFirst(parts[0], Join(parts[1..], sep), sep);
    }
  }

  /** unicode.IsSpace, the White_Space property. */
  predicate IsSpace(c: char) {
    || '\t' <= c <= '\r'
    || c in " \U{85}\U{A0}\U{1680}\U{2028}\U{2029}\U{202F}\U{205F}\U{3000}"
    || '\U{2000}' <= c <= '\U{200A}'
  }

  function TrimLeft(s: string): (t: string) {
    if s != [] && IsSpace(s[0]) then TrimLeft(s[1..]) else s
  }

  function TrimRight(s: string): (t: string) {
    if s != [] && IsSpace(s[|s| - 1]) then TrimRight(s[..|s| - 1]) else s
  }

  function TrimSpace(s: string): (t: string) {
    TrimRight(TrimLeft(s))
  }

  // Case mapping is Go's wherever the result is ASCII, so a comparison with an ASCII
  // string is Go's; elsewhere both maps are the identity.

  /** unicode.ToUpper: the long s and the dotless i have ASCII upper cases. */
  function UpperChar(c: char): (u: char) {
    if 'a' <= c <= 'z' then (c as int - 32) as char
    else if c == '\U{17F}' then 'S'
    else if c == '\U{131}' then 'I'
    else c
  }

  /** The representative of a character's simple case-folding orbit: the long s and
      the Kelvin sign share theirs with a letter, the dotless i does not. */
  function FoldChar(c: char): (u: char) {
    if c == '\U{212A}' then 'K' else if c == '\U{131}' then c else UpperChar(c)
  }

  predicate Ascii(s: string) {
    forall i :: 0 <= i < |s| ==> s[i] < '\U{80}'
  }

  /** strings.ToUpper. */
  function ToUpper(s: string): (t: string)
    ensures |t| == |s|
  {
    seq(|s|, i requires 0 <= i < |s| => UpperChar(s[i]))
  }

  /** strings.EqualFold. */
  predicate EqualFold(s: string, t: string) {
    |s| == |t| && forall i :: 0 <= i < |s| ==> FoldChar(s[i]) == FoldChar(t[i])
  }

  /** Upper-case ASCII: what an upper-cased comparison is made against. */
  predicate UpperAscii(s: string) {
    Ascii(s) && forall i :: 0 <= i < |s| ==> !('a' <= s[i] <= 'z')
  }

  /** c is u, or u in lower case. */
  predicate SameLetter(c: char, u: char) {
    c == u || ('A' <= u <= 'Z' && c as int == u as int + 32)
  }

  /** The spellings of an upper-case name that upper-casing turns into it. */
  predicate Raised(s: string, name: string) {
    |s| == |name| && forall i :: 0 <= i < |s| ==>
      SameLetter(s[i], name[i]) || (name[i] == 'S' && s[i] == '\U{17F}') || (name[i] == 'I' && s[i] == '\U{131}')
  }

  /** The spellings of an upper-case name that case folding identifies with it. */
  predicate Folded(s: string, name: string) {
    |s| == |name| && forall i :: 0 <= i < |s| ==>
      SameLetter(s[i], name[i]) || (name[i] == 'S' && s[i] == '\U{17F}') || (name[i] == 'K' && s[i] == '\U{212A}')
  }

  /** Upper-casing reaches a name exactly from its spellings in either case, and from
      the long s and the dotless i in place of their letters. */
  lemma {:induction false} ToUpperExactly(s: string, name: string)
    requires UpperAscii(name)
    ensures ToUpper(s) == name <==> Raised(s, name)
    ensures ToUpper(name) == name
  {
    if ToUpper(s) == name {
      forall i | 0 <= i < |s| ensures UpperChar(s[i]) == name[i] {
        assert ToUpper(s)[i] == name[i];
      }
    }
  }

  /** Folding identifies a name exactly with its spellings in either case, and with
      the long s and the Kelvin sign in place of their letters. */
  lemma {:induction false} EqualFoldExactly(s: string, name: string)
    requires UpperAscii(name)
    ensures EqualFold(s, name) <==> Folded(s, name)
  {
  }

  // Trimming.

  /** The code points of the White_Space property. */
  lemma {:induction false} SpacesAre(c: char)
    ensures IsSpace(c) <==>
      var n := c as int;
      9 <= n <= 13 || n in {32, 133, 160, 5760, 8232, 8233, 8239, 8287, 12288} || 8192 <= n <= 8202
  {
  }

  predicate AllSpaces(s: string) {
    forall i :: 0 <= i < |s| ==> IsSpace(s[i])
  }

  lemma {:induction false} TrimLeftDrops(a: string, s: string)
    requires AllSpaces(a)
    ensures TrimLeft(a + s) == TrimLeft(s)
  {
    if a == [] {
      assert a + s == s;
    } else {
      assert AllSpaces(a[1..]) && (a + s)[1..] == a[1..] + s;
      TrimLeftDrops(a[1..], s);
    }
  }

  lemma {:induction false} TrimRightDrops(s: string, b: string)
    requires AllSpaces(b)
    ensures TrimRight(s + b) == TrimRight(s)
  {
    if b == [] {
      assert s + b == s;
    } else {
      var init := b[..|b| - 1];
      assert AllSpaces(init) && (s + b)[..|s + b| - 1] == s + init;
      TrimRightDrops(s, init);
    }
  }

  /** TrimSpace drops exactly the outer white space: what is between, if its ends are
      not white space, is what it returns. */
  lemma {:induction false} TrimSpaceExactly(a: string, t: string, b: string)
    requires AllSpaces(a) && AllSpaces(b)
    requires t != [] ==> !IsSpace(t[0]) && !IsSpace(t[|t| - 1])
    ensures TrimSpace(a + t + b) == t
  {
    assert a + t + b == a + (t + b);
    TrimLeftDrops(a, t + b);
    if t == [] {
      assert t + b == b && b + [] == b;
      TrimLeftDrops(b, []);
    } else {
      assert TrimLeft(t + b) == t + b;
      TrimRightDrops(t, b);
    }
  }
}
