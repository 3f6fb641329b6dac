/** The string and number primitives of the Go standard library that the modelled code calls:
    searching, trimming, ASCII case folding and decimal conversion. */
module Text {

  predicate HasPrefix(s: string, p: string) {
    |p| <= |s| && s[..|p|] == p
  }

  predicate HasSuffix(s: string, p: string) {
    |p| <= |s| && s[|s| - |p|..] == p
  }

  lemma PrefixHead(s: string, p: string)
    requires p != ""
    ensures HasPrefix(s, p) ==> s != "" && s[0] == p[0]
  {
  }

  lemma SuffixAt(s: string, p: string, k: nat)
    requires k < |p|
    ensures HasSuffix(s, p) ==> |p| <= |s| && s[|s| - |p| + k] == p[k]
  {
  }

  function TrimPrefix(s: string, p: string): string {
    if HasPrefix(s, p) then s[|p|..] else s
  }

  predicate Contains(s: string, sub: string) {
    HasPrefix(s, sub) || (s != [] && Contains(s[1..], sub))
  }

  /** The first position of `c`, or -1. */
  function IndexOf(s: string, c: char): (i: int)
    ensures -1 <= i < |s|
    ensures i >= 0 ==> s[i] == c && c !in s[..i]
    ensures i < 0 ==> c !in s
  {
    if s == [] then -1
    else if s[0] == c then 0
    else
      var k := IndexOf(s[1..], c);
      if k < 0 then -1 else k + 1
  }

  /** The last position of `c`, or -1. */
  function LastIndex(s: string, c: char): (i: int)
    ensures -1 <= i < |s|
    ensures i >= 0 ==> s[i] == c && c !in s[i + 1..]
    ensures i < 0 ==> c !in s
  {
    if s == [] then -1
    else if s[|s| - 1] == c then |s| - 1
    else
      var k := LastIndex(s[..|s| - 1], c);
      assert k >= 0 ==> s[k + 1..] == s[..|s| - 1][k + 1..] + [s[|s| - 1]];
      k
  }

  /** A last occurrence is the last index. */
  lemma LastIndexIs(s: string, c: char, i: nat)
    requires i < |s| && s[i] == c && c !in s[i + 1..]
    ensures LastIndex(s, c) == i
  {
  }

  lemma {:induction false} LastIndexAtLeast(s: string, c: char, i: nat)
    requires i < |s| && s[i] == c
    ensures i <= LastIndex(s, c)
  {
    if s[|s| - 1] != c {
      LastIndexAtLeast(s[..|s| - 1], c, i);
    }
  }

  /** A first occurrence is the first index. */
  lemma IndexOfIs(s: string, c: char, i: nat)
    requires i < |s| && s[i] == c && c !in s[..i]
    ensures IndexOf(s, c) == i
  {
  }

  /** A sequence without and with its last element. */
  lemma SplitLast<T>(a: seq<T>, b: seq<T>)
    requires b != []
    ensures (a + b[..|b| - 1]) + [b[|b| - 1]] == a + b && b[..|b| - 1] + [b[|b| - 1]] == b
  {
  }

  // ----- white space and case -----

  /** Unicode's white space. */
  const SPACES: set<char> := {
    '\U{0009}', '\U{000A}', '\U{000B}', '\U{000C}', '\U{000D}', '\U{0020}', '\U{0085}', '\U{00A0}',
    '\U{1680}', '\U{2000}', '\U{2001}', '\U{2002}', '\U{2003}', '\U{2004}', '\U{2005}', '\U{2006}',
    '\U{2007}', '\U{2008}', '\U{2009}', '\U{200A}', '\U{2028}', '\U{2029}', '\U{202F}', '\U{205F}',
    '\U{3000}'
  }

  predicate IsSpace(c: char) {
    c in SPACES
  }

  function TrimLeft(s: string): (r: string)
    ensures r == [] || !IsSpace(r[0])
    ensures |r| <= |s| && r == s[|s| - |r|..]
  {
    if s != [] && IsSpace(s[0]) then TrimLeft(s[1..]) else s
  }

  function TrimRight(s: string): (r: string)
    ensures r == [] || !IsSpace(r[|r| - 1])
    ensures |r| <= |s| && r == s[..|r|]
  {
    if s != [] && IsSpace(s[|s| - 1]) then TrimRight(s[..|s| - 1]) else s
  }

  function TrimSpace(s: string): string {
    TrimRight(TrimLeft(s))
  }

  /** Nothing to trim: the string neither starts nor ends with white space. */
  predicate Trimmed(s: string) {
    s == [] || (!IsSpace(s[0]) && !IsSpace(s[|s| - 1]))
  }

  lemma TrimSpaceFixed(s: string)
    requires Trimmed(s)
    ensures TrimSpace(s) == s
  {
  }

  lemma TrimSpaceTrims(s: string)
    ensures Trimmed(TrimSpace(s))
    ensures TrimSpace(TrimSpace(s)) == TrimSpace(s)
    ensures forall c :: c in TrimSpace(s) ==> c in s
  {
    var l := TrimLeft(s);
    var r := TrimRight(l);
    assert r != [] ==> r[0] == l[0];
    TrimSpaceFixed(r);
    forall c | c in r
      ensures c in s
    {
      var i :| 0 <= i < |r| && r[i] == c;
      assert s[|s| - |l| + i] == c;
    }
  }

  lemma {:induction false} TrimLeftPast(l: string, rest: string)
    requires (forall i :: 0 <= i < |l| ==> IsSpace(l[i])) && (rest == "" || !IsSpace(rest[0]))
    ensures TrimLeft(l + rest) == rest
  {
    if l == "" {
      assert l + rest == rest;
    } else {
      assert (l + rest)[1..] == l[1..] + rest;
      TrimLeftPast(l[1..], rest);
    }
  }

  lemma {:induction false} TrimRightPast(rest: string, r: string)
    requires (forall i :: 0 <= i < |r| ==> IsSpace(r[i])) && (rest == "" || !IsSpace(rest[|rest| - 1]))
    ensures TrimRight(rest + r) == rest
  {
    if r == "" {
      assert rest + r == rest;
    } else {
      assert (rest + r)[..|rest + r| - 1] == rest + r[..|r| - 1];
      TrimRightPast(rest, r[..|r| - 1]);
    }
  }

  /** Trimming takes the white space on both sides and nothing else. */
  lemma TrimSpaceIs(l: string, core: string, r: string)
    requires (forall i :: 0 <= i < |l| ==> IsSpace(l[i])) && (forall i :: 0 <= i < |r| ==> IsSpace(r[i]))
    requires core != "" && Trimmed(core)
    ensures TrimSpace(l + core + r) == core
  {
    assert (core + r)[0] == core[0];
    assert l + core + r == l + (core + r);
    TrimLeftPast(l, core + r);
    TrimRightPast(core, r);
  }

  function LowerChar(c: char): char {
    if 'A' <= c <= 'Z' then (c as int + 32) as char else c
  }

  function ToLower(s: string): (r: string)
    ensures |r| == |s|
    ensures forall i :: 0 <= i < |s| ==> r[i] == LowerChar(s[i])
  {
    seq(|s|, i requires 0 <= i < |s| => LowerChar(s[i]))
  }

  // ----- decimal numbers -----

  predicate IsDigit(c: char) {
    '0' <= c <= '9'
  }

  predicate AllDigits(s: string) {
    forall i :: 0 <= i < |s| ==> IsDigit(s[i])
  }

  function DigitChar(d: nat): char
    requires d < 10
  {
    ('0' as int + d) as char
  }

  /** strconv.Itoa on a non-negative number. */
  function Decimal(n: nat): (s: string)
    ensures |s| > 0 && AllDigits(s)
    ensures Value(s) == n
    ensures |s| > 1 ==> s[0] != '0'
  {
    if n < 10 then [DigitChar(n)] else Decimal(n / 10) + [DigitChar(n % 10)]
  }

  /** The number a string of digits denotes; leading zeros are allowed. */
  function Value(s: string): nat
    requires AllDigits(s)
  {
    if s == [] then 0 else 10 * Value(s[..|s| - 1]) + (s[|s| - 1] as int - '0' as int)
  }

  function Zeros(k: nat): (s: string)
    ensures |s| == k && AllDigits(s) && Value(s) == 0
  {
    if k == 0 then "" else Zeros(k - 1) + "0"
  }

  lemma {:induction false} ValuePrepend(z: string, s: string)
    requires AllDigits(z) && Value(z) == 0 && AllDigits(s)
    ensures AllDigits(z + s) && Value(z + s) == Value(s)
  {
    if s == [] {
      assert z + s == z;
    } else {
      ValuePrepend(z, s[..|s| - 1]);
      assert (z + s)[..|z + s| - 1] == z + s[..|s| - 1];
    }
  }

  /** fmt.Sprintf("%06d", n): at least six digits, padded with zeros on the left. */
  function Pad6(n: nat): (s: string)
    ensures |s| >= 6 && AllDigits(s) && Value(s) == n
    ensures |s| > 6 ==> s[0] != '0'
  {
    var d := Decimal(n);
    if |d| >= 6 then d
    else
      ValuePrepend(Zeros(6 - |d|), d);
      Zeros(6 - |d|) + d
  }

  const MAX_INT64 := 0x7FFF_FFFF_FFFF_FFFF

  /** strconv.Atoi: on failure the value is 0 (syntax) or the nearest bound (range). */
  datatype IntParse = IntParse(value: int, ok: bool)

  function Atoi(s: string): IntParse {
    var negative := s != [] && s[0] == '-';
    var digits := if s != [] && (s[0] == '-' || s[0] == '+') then s[1..] else s;
    if digits == [] || !AllDigits(digits) then IntParse(0, false)
    else if negative then
      if Value(digits) > MAX_INT64 + 1 then IntParse(0 - MAX_INT64 - 1, false) else IntParse(0 - Value(digits), true)
    else
      if Value(digits) > MAX_INT64 then IntParse(MAX_INT64, false) else IntParse(Value(digits), true)
  }

  /** Every non-negative int survives Itoa followed by Atoi. */
  lemma AtoiDecimal(n: nat)
    requires n <= MAX_INT64
    ensures Atoi(Decimal(n)) == IntParse(n, true)
  {
    assert IsDigit(Decimal(n)[0]);
  }
}
