/** Version tags: which tags count as versions, the order on them, and the selection of the newest compatible
    one. Missing segments count as 0 and the rest is compared as plain text: this is the program's order, not the
    precedence of Semantic Versioning. */
module Semver {
  import opened Text

  datatype Option<T> = None | Some(value: T)

  datatype Version = Version(major: int, minor: int, patch: int, pre: string, raw: string)

  const FLOATING: set<string> := {
    "latest", "edge", "main", "master", "dev", "develop", "nightly", "stable", "alpine", "chromium-bundled"
  }

  // ----- recognising a version -----

  /** The digits a text starts with. */
  function Digits(s: string): (d: string)
    ensures |d| <= |s| && s[..|d|] == d && AllDigits(d)
    ensures |d| < |s| ==> !IsDigit(s[|d|])
  {
    if s == "" || !IsDigit(s[0]) then ""
    else
      var d := Digits(s[1..]);
      assert s[..|d| + 1] == [s[0]] + d;
      [s[0]] + d
  }

  /** A dot and a number, or nothing. */
  function Segment(s: string): (d: string)
    ensures d != "" ==> |d| + 1 <= |s| && s[0] == '.' && s[1..|d| + 1] == d
  {
    if s != "" && s[0] == '.' then Digits(s[1..]) else ""
  }

  function AfterSegment(s: string): string {
    if Segment(s) == "" then s else s[|Segment(s)| + 1..]
  }

  function Number(digits: string): int {
    Atoi(digits).value
  }

  function AfterV(tag: string): string {
    if tag != "" && (tag[0] == 'v' || tag[0] == 'V') then tag[1..] else tag
  }

  /** What follows the numbers, less one separator. */
  function Suffix(rest: string): string {
    if rest != "" && (rest[0] == '-' || rest[0] == '.') then rest[1..] else rest
  }

  /** The numbers after the major one, and what is left. */
  datatype Minors = Minors(minor: string, patch: string, rest: string)

  function MinorsOf(s: string): Minors {
    var minor, more := Segment(s), AfterSegment(s);
    if minor == "" then Minors("", "", more) else Minors(minor, Segment(more), AfterSegment(more))
  }

  /** An optional v, one to three dotted numbers, then after an optional separator any text on one line. */
  function Recognise(tag: string): Option<Version> {
    var t := AfterV(tag);
    var major := Digits(t);
    if major == "" then None
    else
      var m := MinorsOf(t[|major|..]);
      if '\n' in m.rest then None
      else Some(Version(Number(major), Number(m.minor), Number(m.patch), Suffix(m.rest), tag))
  }

  /** Floating names, digests and single-architecture tags are not versions. */
  predicate NeverVersion(t: string) {
    var lower := ToLower(t);
    || t == "" || lower in FLOATING
    || HasPrefix(lower, "sha-") || HasPrefix(lower, "sha256")
    || HasSuffix(lower, "-amd64") || HasSuffix(lower, "-arm64") || HasSuffix(lower, "-arm")
  }

  function Parse(tag: string): Option<Version> {
    var t := TrimSpace(tag);
    if NeverVersion(t) then None else Recognise(t)
  }

  /** The version remembers its trimmed tag, and reading that again gives the version again. */
  lemma ParseRaw(tag: string)
    ensures Parse(TrimSpace(tag)) == Parse(tag)
    ensures Parse(tag).Some? ==> Parse(tag).value.raw == TrimSpace(tag)
  {
    hide Recognise, NeverVersion, TrimSpace, Trimmed;
    TrimSpaceTrims(tag);
    RecogniseRaw(TrimSpace(tag));
  }

  lemma RecogniseRaw(t: string)
    ensures Recognise(t).Some? ==> Recognise(t).value.raw == t
  {
  }

  /** Digits followed by something else are read as far as they go. */
  lemma {:induction false} DigitsOf(d: string, rest: string)
    requires AllDigits(d) && (rest == "" || !IsDigit(rest[0]))
    ensures Digits(d + rest) == d && (d + rest)[|d|..] == rest
  {
    if d == "" {
      assert d + rest == rest;
    } else {
      assert AllDigits(d[1..]);
      DigitsOf(d[1..], rest);
      assert (d + rest)[1..] == d[1..] + rest;
      assert d == [d[0]] + d[1..];
    }
  }

  lemma SegmentOf(n: nat, rest: string)
    requires rest == "" || !IsDigit(rest[0])
    ensures Segment("." + Decimal(n) + rest) == Decimal(n) && AfterSegment("." + Decimal(n) + rest) == rest
  {
    hide Decimal, Digits;
    var d, s := Decimal(n), "." + Decimal(n) + rest;
    DigitsOf(d, rest);
    assert s[1..] == d + rest;
    assert s[|d| + 1..] == (d + rest)[|d|..];
  }

  /** A suffix as tags carry it: nothing, or a dash and some text. */
  function Dashed(pre: string): string {
    if pre == "" then "" else "-" + pre
  }

  function Vee(v: bool): string {
    if v then "v" else ""
  }

  lemma NumberOf(n: nat)
    requires n <= MAX_INT64
    ensures Number(Decimal(n)) == n && Decimal(n) != ""
  {
    AtoiDecimal(n);
  }

  lemma NoNumber()
    ensures Number("") == 0
  {
  }

  lemma AfterVee(v: bool, d: string, rest: string)
    requires d != "" && AllDigits(d)
    ensures AfterV(Vee(v) + (d + rest)) == d + rest
  {
    assert IsDigit(d[0]);
    assert (d + rest)[0] == d[0];
    if v {
      assert ("v" + (d + rest))[1..] == d + rest;
    } else {
      assert "" + (d + rest) == d + rest;
    }
  }

  /** A printed version is read back: its three numbers, and the text after the dash as it stands. */
  lemma ReadsPrinted(v: bool, a: nat, b: nat, c: nat, pre: string)
    requires a <= MAX_INT64 && b <= MAX_INT64 && c <= MAX_INT64 && '\n' !in pre
    ensures var t := Vee(v) + (Decimal(a) + ("." + Decimal(b) + ("." + Decimal(c) + Dashed(pre))));
      !NeverVersion(t) && Trimmed(t) ==> Parse(t) == Some(Version(a, b, c, pre, t))
  {
    hide Decimal, Digits, NeverVersion, Trimmed, TrimSpace, Number, Segment, AfterSegment, AfterV;
    var third := "." + Decimal(c) + Dashed(pre);
    var second := "." + Decimal(b) + third;
    var t := Vee(v) + (Decimal(a) + second);
    NumberOf(a);
    NumberOf(b);
    NumberOf(c);
    SegmentOf(c, Dashed(pre));
    SegmentOf(b, third);
    DigitsOf(Decimal(a), second);
    AfterVee(v, Decimal(a), second);
    assert Dashed(pre) != "" ==> Dashed(pre)[1..] == pre;
    if Trimmed(t) {
      TrimSpaceFixed(t);
    }
  }

  /** A short tag such as 18 or 18-alpine counts as 18.0.0. */
  lemma ReadsShort(v: bool, a: nat, pre: string)
    requires a <= MAX_INT64 && '\n' !in pre
    ensures var t := Vee(v) + (Decimal(a) + Dashed(pre));
      !NeverVersion(t) && Trimmed(t) ==> Parse(t) == Some(Version(a, 0, 0, pre, t))
  {
    hide Decimal, NeverVersion, Trimmed, TrimSpace, Number, AfterV;
    var t := Vee(v) + (Decimal(a) + Dashed(pre));
    NumberOf(a);
    NoNumber();
    DigitsOf(Decimal(a), Dashed(pre));
    AfterVee(v, Decimal(a), Dashed(pre));
    hide Digits;
    assert Dashed(pre) != "" ==> Dashed(pre)[1..] == pre;
    assert Segment(Dashed(pre)) == "";
    if Trimmed(t) {
      TrimSpaceFixed(t);
    }
  }

  /** White space around a tag does not matter. */
  lemma ReadsPadded(l: string, t: string, r: string)
    requires (forall i :: 0 <= i < |l| ==> IsSpace(l[i])) && (forall i :: 0 <= i < |r| ==> IsSpace(r[i]))
    requires t != "" && Trimmed(t)
    ensures Parse(l + t + r) == Parse(t)
  {
    hide TrimSpace, Trimmed, IsSpace, NeverVersion, Recognise;
    TrimSpaceIs(l, t, r);
    TrimSpaceFixed(t);
  }

  /** A version printed with its three numbers. */
  function Printed(v: bool, a: nat, b: nat, c: nat): string {
    Vee(v) + (Decimal(a) + ("." + Decimal(b) + ("." + Decimal(c))))
  }

  /** The words no tag may be to count as a version, and the endings it may not have. */
  lemma NeverVersionIff(t: string)
    ensures var lower := ToLower(t);
      NeverVersion(t) <==>
        || lower in {"", "latest", "edge", "main", "master", "dev", "develop", "nightly", "stable", "alpine", "chromium-bundled"}
        || HasPrefix(lower, "sha-") || HasPrefix(lower, "sha256")
        || HasSuffix(lower, "-amd64") || HasSuffix(lower, "-arm64") || HasSuffix(lower, "-arm")
  {
    hide ToLower;
  }

  /** Of texts that begin like a version only those with an architecture behind them do not count. */
  lemma StartsLikeVersion(t: string)
    requires t != "" && (IsDigit(t[0]) || (t[0] == 'v' && |t| > 1 && IsDigit(t[1])))
    ensures var lower := ToLower(t);
      NeverVersion(t) <==> HasSuffix(lower, "-amd64") || HasSuffix(lower, "-arm64") || HasSuffix(lower, "-arm")
  {
    var lower := ToLower(t);
    assert lower[0] == t[0];
    if lower in FLOATING {
      WordHead(lower);
    }
    hide ToLower, HasSuffix;
    PrefixHead(lower, "sha-");
    PrefixHead(lower, "sha256");
  }

  lemma WordHead(word: string)
    requires word in FLOATING
    ensures word != "" && word[0] in {'l', 'e', 'm', 'd', 'n', 's', 'a', 'c'}
  {
  }

  lemma PrintedShape(v: bool, a: nat, b: nat, c: nat)
    ensures var t := Printed(v, a, b, c);
      && t != "" && (IsDigit(t[0]) || (t[0] == 'v' && |t| > 1 && IsDigit(t[1])))
      && IsDigit(t[|t| - 1]) && Trimmed(t) && (forall i :: 0 <= i < |t| ==> IsDigit(t[i]) || t[i] == '.' || t[i] == 'v')
  {
    hide Decimal;
    var x, y, z := Decimal(a), Decimal(b), Decimal(c);
    var t := Printed(v, a, b, c);
    assert t[|t| - 1] == z[|z| - 1];
    assert t[|Vee(v)|] == x[0];
    DigitIsNoSpace();
  }

  lemma DigitIsNoSpace()
    ensures forall ch: char :: IsDigit(ch) || ch == 'v' ==> !IsSpace(ch)
  {
  }

  /** Every version printed with three numbers is read back. */
  lemma ReadsPlain(v: bool, a: nat, b: nat, c: nat)
    requires a <= MAX_INT64 && b <= MAX_INT64 && c <= MAX_INT64
    ensures Parse(Printed(v, a, b, c)) == Some(Version(a, b, c, "", Printed(v, a, b, c)))
  {
    hide Decimal, NeverVersion, ToLower, TrimSpace, Trimmed;
    var t := Printed(v, a, b, c);
    PrintedShape(v, a, b, c);
    StartsLikeVersion(t);
    NoArchitecture(t);
    ReadsPrinted(v, a, b, c, "");
    assert Vee(v) + (Decimal(a) + ("." + Decimal(b) + ("." + Decimal(c) + Dashed("")))) == t by {
      assert "." + Decimal(c) + Dashed("") == "." + Decimal(c);
    }
  }

  /** Text of digits, dots, dashes and v has no architecture behind it. */
  lemma NoArchitecture(t: string)
    requires forall i :: 0 <= i < |t| ==> IsDigit(t[i]) || t[i] == '.' || t[i] == 'v' || t[i] == '-'
    ensures var lower := ToLower(t);
      !HasSuffix(lower, "-amd64") && !HasSuffix(lower, "-arm64") && !HasSuffix(lower, "-arm")
  {
    var lower := ToLower(t);
    assert forall i :: 0 <= i < |t| ==> lower[i] == t[i];
    hide ToLower;
    SuffixAt(lower, "-amd64", 1);
    SuffixAt(lower, "-arm64", 1);
    SuffixAt(lower, "-arm", 1);
  }

  // ----- the order -----

  predicate TextLess(a: string, b: string) {
    if b == "" then false
    else if a == "" then true
    else a[0] < b[0] || (a[0] == b[0] && TextLess(a[1..], b[1..]))
  }

  predicate Less(a: Version, b: Version) {
    if a.major != b.major then a.major < b.major
    else if a.minor != b.minor then a.minor < b.minor
    else if a.patch != b.patch then a.patch < b.patch
    else if a.pre == "" && b.pre != "" then false
    else if a.pre != "" && b.pre == "" then true
    else TextLess(a.pre, b.pre)
  }

  /** Equal up to spelling. */
  predicate Same(a: Version, b: Version) {
    a.major == b.major && a.minor == b.minor && a.patch == b.patch && a.pre == b.pre
  }

  lemma {:induction false} TextOrder(a: string, b: string, c: string)
    ensures !TextLess(a, a)
    ensures TextLess(a, b) ==> !TextLess(b, a)
    ensures TextLess(a, b) || TextLess(b, a) || a == b
    ensures TextLess(a, b) && TextLess(b, c) ==> TextLess(a, c)
  {
    if a != "" {
      TextOrder(a[1..], if b == "" then "" else b[1..], if c == "" then "" else c[1..]);
      if b != "" && a[0] == b[0] && a[1..] == b[1..] {
        assert a == [a[0]] + a[1..] && b == [b[0]] + b[1..];
      }
    }
  }

  /** A strict order that is total up to spelling, on all versions. */
  lemma StrictTotalOrder(a: Version, b: Version, c: Version)
    ensures !Less(a, a)
    ensures Less(a, b) ==> !Less(b, a)
    ensures Less(a, b) || Less(b, a) || Same(a, b)
    ensures Same(a, b) ==> !Less(a, b) && (Less(a, c) <==> Less(b, c)) && (Less(c, a) <==> Less(c, b))
    ensures Less(a, b) && Less(b, c) ==> Less(a, c)
  {
    TextOrder(a.pre, b.pre, c.pre);
    TextOrder(b.pre, c.pre, a.pre);
  }

  /** Numbers are compared as numbers, the major one first; with equal numbers a release is above everything with a
      suffix, and suffixes are compared as plain text. */
  lemma LessMeans(a: Version, b: Version)
    ensures (a.major, a.minor, a.patch) != (b.major, b.minor, b.patch) ==>
      (Less(a, b) <==> a.major < b.major || (a.major == b.major && (a.minor < b.minor || (a.minor == b.minor && a.patch < b.patch))))
    ensures (a.major, a.minor, a.patch) == (b.major, b.minor, b.patch) ==>
      (Less(a, b) <==> a.pre != "" && (b.pre == "" || TextBefore(a.pre, b.pre)))
  {
    TextLessIff(a.pre, b.pre);
  }

  /** The one is the beginning of the other, or smaller where they first differ. */
  predicate TextBefore(a: string, b: string) {
    || (|a| < |b| && a == b[..|a|])
    || exists k :: 0 <= k < |a| && k < |b| && a[..k] == b[..k] && a[k] < b[k]
  }

  lemma {:induction false} TextLessIff(a: string, b: string)
    ensures TextLess(a, b) <==> TextBefore(a, b)
  {
    if a != "" && b != "" {
      TextLessIff(a[1..], b[1..]);
      if a[0] == b[0] {
        SameFirst(a, b);
      } else {
        assert a[..0] == b[..0];
        if a[0] > b[0] && TextBefore(a, b) {
          assert forall k :: 0 < k <= |a| && k <= |b| ==> a[..k][0] == a[0] && b[..k][0] == b[0];
        }
      }
    } else {
      assert a == "" ==> b[..0] == a;
    }
  }

  lemma SameFirst(a: string, b: string)
    requires a != "" && b != "" && a[0] == b[0]
    ensures TextBefore(a, b) <==> TextBefore(a[1..], b[1..])
  {
    var x, y := a[1..], b[1..];
    assert |a| < |b| ==> b[..|a|] == [b[0]] + y[..|x|];
    assert a == [a[0]] + x && b == [b[0]] + y;
    forall k | 0 <= k < |x| && k < |y|
      ensures a[..k + 1] == b[..k + 1] <==> x[..k] == y[..k]
    {
      assert a[..k + 1] == [a[0]] + x[..k] && b[..k + 1] == [b[0]] + y[..k];
    }
    if k :| 0 <= k < |x| && k < |y| && x[..k] == y[..k] && x[k] < y[k] {
      assert a[k + 1] < b[k + 1];
    }
    if k :| 0 <= k < |a| && k < |b| && a[..k] == b[..k] && a[k] < b[k] {
      assert k > 0 && x[k - 1] < y[k - 1];
    }
  }

  // ----- the newest tag -----

  /** A tag the selection looks at: it is a version and passes the filter. */
  predicate Candidate(tag: string, keep: string -> bool) {
    Parse(tag).Some? && keep(tag)
  }

  /** The index of the first candidate none other is above, or -1. */
  function Best(tags: seq<string>, keep: string -> bool): (i: int)
    ensures -1 <= i < |tags|
    ensures i >= 0 ==> Candidate(tags[i], keep)
  {
    if tags == [] then -1
    else
      var n := |tags| - 1;
      var i := Best(tags[..n], keep);
      if !Candidate(tags[n], keep) then i
      else if i < 0 || Less(Parse(tags[i]).value, Parse(tags[n]).value) then n
      else i
  }

  function Newest(tags: seq<string>, keep: string -> bool): string {
    var i := Best(tags, keep);
    if i < 0 then "" else Parse(tags[i]).value.raw
  }

  /** The selection finds a maximum among exactly the candidates, and of equal ones the first. */
  lemma {:induction false} BestIsFirstMaximum(tags: seq<string>, keep: string -> bool)
    ensures Best(tags, keep) < 0 <==> forall j :: 0 <= j < |tags| ==> !Candidate(tags[j], keep)
    ensures forall j :: 0 <= j < |tags| && Candidate(tags[j], keep) ==> !Less(Parse(tags[Best(tags, keep)]).value, Parse(tags[j]).value)
    ensures forall j :: 0 <= j < Best(tags, keep) && Candidate(tags[j], keep) ==> Less(Parse(tags[j]).value, Parse(tags[Best(tags, keep)]).value)
  {
    hide Parse, Less;
    if tags != [] {
      var n := |tags| - 1;
      BestIsFirstMaximum(tags[..n], keep);
      var i := Best(tags[..n], keep);
      if Candidate(tags[n], keep) && i >= 0 {
        var a, b := Parse(tags[i]).value, Parse(tags[n]).value;
        StrictTotalOrder(b, b, b);
        forall j | 0 <= j < n && Candidate(tags[j], keep) && Less(a, b)
          ensures Less(Parse(tags[j]).value, b) && !Less(b, Parse(tags[j]).value)
        {
          BelowAbove(Parse(tags[j]).value, a, b);
        }
      } else if Candidate(tags[n], keep) {
        StrictTotalOrder(Parse(tags[n]).value, Parse(tags[n]).value, Parse(tags[n]).value);
      }
    }
  }

  lemma BelowAbove(x: Version, a: Version, b: Version)
    requires !Less(a, x) && Less(a, b)
    ensures Less(x, b) && !Less(b, x)
  {
    StrictTotalOrder(x, a, b);
    StrictTotalOrder(x, b, a);
    hide Less, Same;
  }

  /** And it is the only such index: any first maximum is the one selected. */
  lemma FirstMaximumIsBest(tags: seq<string>, keep: string -> bool, i: nat)
    requires i < |tags| && Candidate(tags[i], keep)
    requires forall j :: 0 <= j < |tags| && Candidate(tags[j], keep) ==> !Less(Parse(tags[i]).value, Parse(tags[j]).value)
    requires forall j :: 0 <= j < i && Candidate(tags[j], keep) ==> Less(Parse(tags[j]).value, Parse(tags[i]).value)
    ensures Best(tags, keep) == i
  {
    hide Parse, Less, Best;
    BestIsFirstMaximum(tags, keep);
    var k := Best(tags, keep);
    assert k >= 0;
    assert !Less(Parse(tags[i]).value, Parse(tags[k]).value) && !Less(Parse(tags[k]).value, Parse(tags[i]).value);
  }

  /** The tag list's newest version, whatever its kind. */
  method HighestSemverTag(tags: seq<string>) returns (r: string)
    ensures r == Newest(tags, _ => true)
  {
    hide Parse, Less;
    var best := Version(0, 0, 0, "", "");
    var found := false;
    ghost var all: string -> bool := _ => true;
    var i := 0;
    while i < |tags|
      invariant 0 <= i <= |tags|
      invariant found <==> Best(tags[..i], all) >= 0
      invariant found ==> best == Parse(tags[Best(tags[..i], all)]).value
    {
      assert tags[..i + 1][..i] == tags[..i];
      var sv := Parse(tags[i]);
      if sv.Some? && (!found || Less(best, sv.value)) {
        best, found := sv.value, true;
      }
      i := i + 1;
    }
    assert tags[..i] == tags;
    NewestExt(tags, all, _ => true);
    r := if found then best.raw else "";
  }

  lemma {:induction false} NewestExt(tags: seq<string>, f: string -> bool, g: string -> bool)
    requires forall t :: f(t) == g(t)
    ensures Best(tags, f) == Best(tags, g)
  {
    hide Parse, Less;
    if tags != [] {
      NewestExt(tags[..|tags| - 1], f, g);
    }
  }

  // ----- variants -----

  const VARIANTS: seq<string> := [
    "alpine", "slim", "bookworm", "bullseye", "buster", "trixie",
    "jammy", "noble", "debian", "ubuntu", "ubi", "fips",
    "windowsservercore", "nanoserver", "windows", "amd64", "arm64", "armv7", "arm"
  ]

  /** One more character: a separator adds nothing, another one joins the last field or opens a new one. */
  function AddChar(fs: seq<string>, joins: bool, c: char, seps: set<char>): seq<string> {
    if c in seps then fs
    else if joins && fs != [] then fs[..|fs| - 1] + [fs[|fs| - 1] + [c]]
    else fs + [[c]]
  }

  predicate EndsInField(s: string, seps: set<char>) {
    s != "" && s[|s| - 1] !in seps
  }

  /** The non-empty pieces of a text between separators. */
  function Fields(s: string, seps: set<char>): seq<string> {
    if s == "" then []
    else
      var front := s[..|s| - 1];
      AddChar(Fields(front, seps), EndsInField(front, seps), s[|s| - 1], seps)
  }

  lemma FieldsEnd(s: string, seps: set<char>)
    ensures EndsInField(s, seps) ==> Fields(s, seps) != []
  {
  }

  lemma AddCharRight(x: seq<string>, fs: seq<string>, joins: bool, c: char, seps: set<char>)
    requires joins ==> fs != []
    ensures AddChar(x + fs, joins, c, seps) == x + AddChar(fs, joins, c, seps)
  {
    if joins {
      assert (x + fs)[..|x + fs| - 1] == x + fs[..|fs| - 1];
    }
  }

  /** Splitting at a separator splits the fields. */
  lemma {:induction false} FieldsJoin(a: string, c: char, b: string, seps: set<char>)
    requires c in seps
    ensures Fields(a + [c] + b, seps) == Fields(a, seps) + Fields(b, seps)
  {
    hide AddChar;
    var s := a + [c] + b;
    if b == "" {
      assert s[..|s| - 1] == a;
      SeparatorAdds(Fields(a, seps), EndsInField(a, seps), c, seps);
      assert Fields(a, seps) + [] == Fields(a, seps);
    } else {
      var n := |b| - 1;
      FieldsJoin(a, c, b[..n], seps);
      assert s[..|s| - 1] == a + [c] + b[..n];
      assert EndsInField(a + [c] + b[..n], seps) == EndsInField(b[..n], seps);
      FieldsEnd(b[..n], seps);
      AddCharRight(Fields(a, seps), Fields(b[..n], seps), EndsInField(b[..n], seps), b[n], seps);
    }
  }

  lemma SeparatorAdds(fs: seq<string>, joins: bool, c: char, seps: set<char>)
    requires c in seps
    ensures AddChar(fs, joins, c, seps) == fs
  {
  }

  /** A text without separators is one field. */
  lemma {:induction false} FieldsPlain(s: string, seps: set<char>)
    requires s != "" && forall i :: 0 <= i < |s| ==> s[i] !in seps
    ensures Fields(s, seps) == [s]
  {
    var n := |s| - 1;
    assert s[..n] + [s[n]] == s;
    if n > 0 {
      FieldsPlain(s[..n], seps);
    }
  }

  predicate TagHasToken(tag: string, token: string) {
    token in Fields(tag, {'-', '_', '.', '+'})
  }

  predicate IsRevision(pre: string) {
    exists i :: 0 <= i < |Fields(pre, {'-', '.', '_'})| && Atoi(Fields(pre, {'-', '.', '_'})[i]).ok
  }

  function VariantsAmong(lower: string, tokens: seq<string>): seq<string> {
    if tokens == [] then []
    else
      var last := tokens[|tokens| - 1];
      VariantsAmong(lower, tokens[..|tokens| - 1]) + (if TagHasToken(lower, last) then [last] else [])
  }

  function Revision(lower: string): seq<string> {
    var sv := Parse(lower);
    if sv.Some? && sv.value.pre != "" && IsRevision(sv.value.pre) then ["revision"] else []
  }

  function Variants(tag: string): seq<string> {
    var lower := ToLower(TrimSpace(tag));
    VariantsAmong(lower, VARIANTS) + Revision(lower)
  }

  method ImageTagVariants(tag: string) returns (out: seq<string>)
    ensures out == Variants(tag)
  {
    hide Parse, ToLower, Fields, IsRevision, VariantsAmong;
    var lower := ToLower(TrimSpace(tag));
    out := TokensIn(lower, VARIANTS);
    var sv := Parse(lower);
    if sv.Some? && sv.value.pre != "" {
      var fields := Fields(sv.value.pre, {'-', '.', '_'});
      var revision := IsRevisionLoop(sv.value.pre, fields);
      if revision {
        out := out + ["revision"];
      }
    }
  }

  method TokensIn(lower: string, tokens: seq<string>) returns (out: seq<string>)
    ensures out == VariantsAmong(lower, tokens)
  {
    hide TagHasToken;
    out := [];
    var i := 0;
    while i < |tokens|
      invariant 0 <= i <= |tokens| && out == VariantsAmong(lower, tokens[..i])
    {
      assert tokens[..i + 1][..i] == tokens[..i];
      if TagHasToken(lower, tokens[i]) {
        out := out + [tokens[i]];
      }
      i := i + 1;
    }
    assert tokens[..i] == tokens;
  }

  method IsRevisionLoop(pre: string, fields: seq<string>) returns (r: bool)
    requires fields == Fields(pre, {'-', '.', '_'})
    ensures r <==> IsRevision(pre)
  {
    hide Atoi;
    var i := 0;
    while i < |fields|
      invariant 0 <= i <= |fields|
      invariant forall j :: 0 <= j < i ==> !Atoi(fields[j]).ok
    {
      if Atoi(fields[i]).ok {
        return true;
      }
      i := i + 1;
    }
    r := false;
  }

  /** The variants are compared as one comma-separated text. */
  function JoinCommas(parts: seq<string>): string {
    if parts == [] then ""
    else if |parts| == 1 then parts[0]
    else JoinCommas(parts[..|parts| - 1]) + "," + parts[|parts| - 1]
  }

  predicate SameVariant(a: string, b: string) {
    JoinCommas(Variants(a)) == JoinCommas(Variants(b))
  }

  lemma VariantsTrim(tag: string)
    ensures Variants(TrimSpace(tag)) == Variants(tag)
  {
    TrimSpaceTrims(tag);
  }

  /** A word as image variants are named: lower-case letters and digits, beginning with a letter that is no v. */
  predicate Word(w: string) {
    && w != "" && 'a' <= w[0] <= 'z' && w[0] != 'v'
    && forall i :: 0 <= i < |w| ==> 'a' <= w[i] <= 'z' || IsDigit(w[i])
  }

  lemma VariantsAreWords(k: nat)
    requires k < |VARIANTS|
    ensures Word(VARIANTS[k])
  {
  }

  lemma {:induction false} NoneAmong(lower: string, tokens: seq<string>)
    requires forall k :: 0 <= k < |tokens| ==> !TagHasToken(lower, tokens[k])
    ensures VariantsAmong(lower, tokens) == []
  {
    hide TagHasToken;
    if tokens != [] {
      NoneAmong(lower, tokens[..|tokens| - 1]);
    }
  }

  lemma {:induction false} OneAmong(lower: string, tokens: seq<string>, k: nat)
    requires k < |tokens| && TagHasToken(lower, tokens[k])
    requires forall j :: 0 <= j < |tokens| && j != k ==> !TagHasToken(lower, tokens[j])
    ensures VariantsAmong(lower, tokens) == [tokens[k]]
  {
    hide TagHasToken;
    var n := |tokens| - 1;
    if k == n {
      NoneAmong(lower, tokens[..n]);
    } else {
      OneAmong(lower, tokens[..n], k);
    }
  }

  /** The variants of a tag are the known words among its pieces, and "revision" for a numbered suffix. */
  lemma {:induction false} AmongIff(lower: string, tokens: seq<string>, x: string)
    ensures x in VariantsAmong(lower, tokens) <==> x in tokens && x in Fields(lower, {'-', '_', '.', '+'})
  {
    hide Fields;
    if tokens != [] {
      var n := |tokens| - 1;
      AmongIff(lower, tokens[..n], x);
      assert tokens == tokens[..n] + [tokens[n]];
    }
  }

  lemma VariantsIff(tag: string, x: string)
    ensures var lower := ToLower(TrimSpace(tag));
      x in Variants(tag) <==>
        || (x in Fields(lower, {'-', '_', '.', '+'}) && x in {
              "alpine", "slim", "bookworm", "bullseye", "buster", "trixie", "jammy", "noble", "debian", "ubuntu", "ubi",
              "fips", "windowsservercore", "nanoserver", "windows", "amd64", "arm64", "armv7", "arm"})
        || (x == "revision" && Parse(lower).Some? && Parse(lower).value.pre != "" && IsRevision(Parse(lower).value.pre))
  {
    hide Fields, Parse, IsRevision, TrimSpace, ToLower;
    AmongIff(ToLower(TrimSpace(tag)), VARIANTS, x);
    hide VariantsAmong;
  }

  const SEPARATORS: set<char> := {'-', '_', '.', '+'}

  lemma NumberField(pre: string, n: nat)
    requires pre == "" || pre == "v"
    ensures Fields(pre + Decimal(n), SEPARATORS) == [pre + Decimal(n)]
    ensures IsDigit((pre + Decimal(n))[0]) || (pre + Decimal(n))[0] == 'v'
  {
    hide Decimal, Fields;
    FieldsPlain(pre + Decimal(n), SEPARATORS);
  }

  lemma PrintedFields(v: bool, a: nat, b: nat, c: nat)
    ensures Fields(Printed(v, a, b, c), SEPARATORS) == [Vee(v) + Decimal(a), Decimal(b), Decimal(c)]
  {
    hide Decimal, Fields;
    var x, y, z := Vee(v) + Decimal(a), Decimal(b), Decimal(c);
    NumberField(Vee(v), a);
    NumberField("", b);
    NumberField("", c);
    assert "" + y == y && "" + z == z;
    FieldsJoin(y, '.', z, SEPARATORS);
    FieldsJoin(x, '.', y + ['.'] + z, SEPARATORS);
    Dots(Vee(v), Decimal(a), y, z);
  }

  lemma Dots(p: string, x: string, y: string, z: string)
    ensures p + (x + ("." + y + ("." + z))) == (p + x) + ['.'] + (y + ['.'] + z)
  {
  }

  lemma DotsAndDash(p: string, x: string, y: string, z: string, w: string)
    ensures p + (x + ("." + y + ("." + z))) + "-" + w == p + (x + ("." + y + ("." + z + ("-" + w))))
  {
  }

  lemma WordField(w: string)
    requires Word(w)
    ensures Fields(w, SEPARATORS) == [w] && Fields(w, {'-', '.', '_'}) == [w] && ToLower(w) == w && !Atoi(w).ok && Trimmed(w)
  {
    FieldsPlain(w, SEPARATORS);
    FieldsPlain(w, {'-', '.', '_'});
    hide Fields;
    assert !IsDigit(w[0]);
    LetterIsNoSpace();
  }

  lemma LetterIsNoSpace()
    ensures forall ch: char :: 'a' <= ch <= 'z' || IsDigit(ch) ==> !IsSpace(ch)
  {
  }

  lemma LowerPrinted(v: bool, a: nat, b: nat, c: nat)
    ensures ToLower(Printed(v, a, b, c)) == Printed(v, a, b, c)
  {
    PrintedShape(v, a, b, c);
  }

  /** A plain version has no variant, and one with a known word behind it has that word and no other. */
  lemma VariantOf(v: bool, a: nat, b: nat, c: nat, k: nat)
    requires a <= MAX_INT64 && b <= MAX_INT64 && c <= MAX_INT64
    ensures Variants(Printed(v, a, b, c)) == []
    ensures k < |VARIANTS| ==> Variants(Printed(v, a, b, c) + "-" + VARIANTS[k]) == [VARIANTS[k]]
  {
    PlainVariant(v, a, b, c);
    if k < |VARIANTS| {
      WordVariant(v, a, b, c, k);
    }
  }

  lemma PlainVariant(v: bool, a: nat, b: nat, c: nat)
    requires a <= MAX_INT64 && b <= MAX_INT64 && c <= MAX_INT64
    ensures Variants(Printed(v, a, b, c)) == []
  {
    hide Decimal, Fields, ToLower, Parse, TrimSpace, Printed;
    var t := Printed(v, a, b, c);
    PrintedShape(v, a, b, c);
    TrimSpaceFixed(t);
    LowerPrinted(v, a, b, c);
    PrintedFields(v, a, b, c);
    ReadsPlain(v, a, b, c);
    forall k | 0 <= k < |VARIANTS|
      ensures !TagHasToken(t, VARIANTS[k])
    {
      VariantsAreWords(k);
      NumbersAreNoWords(v, a, b, c, VARIANTS[k]);
    }
    NoneAmong(t, VARIANTS);
  }

  lemma NumbersAreNoWords(v: bool, a: nat, b: nat, c: nat, w: string)
    requires Word(w)
    ensures w !in [Vee(v) + Decimal(a), Decimal(b), Decimal(c)]
  {
    NumberField(Vee(v), a);
    NumberField("", b);
    NumberField("", c);
    hide Decimal;
    assert "" + Decimal(b) == Decimal(b) && "" + Decimal(c) == Decimal(c);
  }

  lemma DistinctVariants(j: nat, k: nat)
    requires j < |VARIANTS| && k < |VARIANTS| && j != k
    ensures VARIANTS[j] != VARIANTS[k]
  {
  }

  lemma WordVariant(v: bool, a: nat, b: nat, c: nat, k: nat)
    requires a <= MAX_INT64 && b <= MAX_INT64 && c <= MAX_INT64 && k < |VARIANTS|
    ensures Variants(Printed(v, a, b, c) + "-" + VARIANTS[k]) == [VARIANTS[k]]
  {
    hide Decimal, Fields, ToLower, Parse, TrimSpace, Printed, Word;
    var w := VARIANTS[k];
    var t := Printed(v, a, b, c) + "-" + w;
    VariantsAreWords(k);
    WordField(w);
    TagWithWord(v, a, b, c, w);
    PrintedFields(v, a, b, c);
    FieldsJoin(Printed(v, a, b, c), '-', w, SEPARATORS);
    assert t == Printed(v, a, b, c) + ['-'] + w;
    var fields := [Vee(v) + Decimal(a), Decimal(b), Decimal(c)] + [w];
    assert Fields(t, SEPARATORS) == fields;
    assert fields[3] == w;
    forall j | 0 <= j < |VARIANTS| && j != k
      ensures !TagHasToken(t, VARIANTS[j])
    {
      VariantsAreWords(j);
      NumbersAreNoWords(v, a, b, c, VARIANTS[j]);
      DistinctVariants(j, k);
    }
    OneAmong(t, VARIANTS, k);
  }

  /** A version with a word behind it: in lower case as it stands, and the word is no revision number. */
  lemma TagWithWord(v: bool, a: nat, b: nat, c: nat, w: string)
    requires a <= MAX_INT64 && b <= MAX_INT64 && c <= MAX_INT64 && Word(w)
    ensures var t := Printed(v, a, b, c) + "-" + w;
      ToLower(TrimSpace(t)) == t && Revision(t) == []
  {
    hide Decimal, Fields, NeverVersion, Parse, TrimSpace, Printed, ToLower, Trimmed, Atoi;
    var p, t := Printed(v, a, b, c), Printed(v, a, b, c) + "-" + w;
    WordField(w);
    LowerPrinted(v, a, b, c);
    LowerJoin(p, w);
    TagTrimmed(v, a, b, c, w);
    TrimSpaceFixed(t);
    if NeverVersion(t) {
      Never(t);
    } else {
      ReadsPrinted(v, a, b, c, w);
      TagText(v, a, b, c, w);
    }
  }

  lemma TagText(v: bool, a: nat, b: nat, c: nat, w: string)
    requires Word(w)
    ensures Vee(v) + (Decimal(a) + ("." + Decimal(b) + ("." + Decimal(c) + Dashed(w)))) == Printed(v, a, b, c) + "-" + w
    ensures '\n' !in w
  {
    hide Decimal;
    DotsAndDash(Vee(v), Decimal(a), Decimal(b), Decimal(c), w);
  }

  lemma TagTrimmed(v: bool, a: nat, b: nat, c: nat, w: string)
    requires Word(w)
    ensures Trimmed(Printed(v, a, b, c) + "-" + w)
  {
    var p, t := Printed(v, a, b, c), Printed(v, a, b, c) + "-" + w;
    PrintedShape(v, a, b, c);
    hide Printed, IsSpace;
    assert t[0] == p[0] && t[|t| - 1] == w[|w| - 1];
    LetterIsNoSpace();
  }

  lemma Never(t: string)
    requires NeverVersion(t) && TrimSpace(t) == t
    ensures Parse(t).None?
  {
  }

  lemma LowerJoin(a: string, b: string)
    requires ToLower(a) == a && ToLower(b) == b
    ensures ToLower(a + "-" + b) == a + "-" + b
  {
  }

  /** A version with a number behind it is a revision, which is a variant of its own. */
  lemma RevisionOf(v: bool, a: nat, b: nat, c: nat, n: nat)
    requires a <= MAX_INT64 && b <= MAX_INT64 && c <= MAX_INT64 && n <= MAX_INT64
    ensures Variants(Printed(v, a, b, c) + "-" + Decimal(n)) == ["revision"]
  {
    hide Decimal, Fields, ToLower, TrimSpace, Printed, Trimmed, NeverVersion, Parse, Word;
    var p, d := Printed(v, a, b, c), Decimal(n);
    var t := p + "-" + d;
    NumberedShape(p, d, v, a, b, c);
    StartsLikeVersion(t);
    NoArchitecture(t);
    TrimSpaceFixed(t);
    ReadsPrinted(v, a, b, c, d);
    DotsAndDash(Vee(v), Decimal(a), Decimal(b), Decimal(c), d);
    Unfold(v, a, b, c);
    NumberIsRevision(n);
    PrintedFields(v, a, b, c);
    NumberField("", n);
    assert "" + d == d;
    FieldsJoin(p, '-', d, SEPARATORS);
    assert t == p + ['-'] + d;
    forall k | 0 <= k < |VARIANTS|
      ensures !TagHasToken(t, VARIANTS[k])
    {
      VariantsAreWords(k);
      NumbersAreNoWords(v, a, b, c, VARIANTS[k]);
      NumbersAreNoWords(false, n, n, n, VARIANTS[k]);
    }
    NoneAmong(t, VARIANTS);
  }

  lemma Unfold(v: bool, a: nat, b: nat, c: nat)
    ensures Printed(v, a, b, c) == Vee(v) + (Decimal(a) + ("." + Decimal(b) + ("." + Decimal(c))))
  {
  }

  lemma NumberedShape(p: string, d: string, v: bool, a: nat, b: nat, c: nat)
    requires p == Printed(v, a, b, c) && d != "" && AllDigits(d)
    ensures var t := p + "-" + d;
      && t != "" && (IsDigit(t[0]) || (t[0] == 'v' && |t| > 1 && IsDigit(t[1]))) && Trimmed(t) && ToLower(t) == t
      && (forall i :: 0 <= i < |t| ==> IsDigit(t[i]) || t[i] == '.' || t[i] == 'v' || t[i] == '-')
      && '\n' !in d && Dashed(d) == "-" + d
  {
    PrintedShape(v, a, b, c);
    hide Printed, IsSpace;
    var t := p + "-" + d;
    assert t[0] == p[0] && t[|t| - 1] == d[|d| - 1] && (|p| > 1 ==> t[1] == p[1]);
    DigitIsNoSpace();
  }

  lemma NumberIsRevision(n: nat)
    requires n <= MAX_INT64
    ensures IsRevision(Decimal(n))
  {
    FieldsPlain(Decimal(n), {'-', '.', '_'});
    AtoiDecimal(n);
    hide Decimal, Fields, Atoi;
    assert Fields(Decimal(n), {'-', '.', '_'})[0] == Decimal(n);
  }

  /** Whether two versions are of one variant is decided by the word behind them. */
  lemma SameVariantIff(v: bool, a: nat, b: nat, c: nat, k: nat, v': bool, a': nat, b': nat, c': nat, k': nat)
    requires a <= MAX_INT64 && b <= MAX_INT64 && c <= MAX_INT64 && a' <= MAX_INT64 && b' <= MAX_INT64 && c' <= MAX_INT64
    requires k < |VARIANTS| && k' < |VARIANTS|
    ensures SameVariant(Printed(v, a, b, c) + "-" + VARIANTS[k], Printed(v', a', b', c') + "-" + VARIANTS[k']) <==> k == k'
    ensures SameVariant(Printed(v, a, b, c), Printed(v', a', b', c'))
    ensures !SameVariant(Printed(v, a, b, c), Printed(v', a', b', c') + "-" + VARIANTS[k'])
  {
    hide Variants, Printed;
    VariantOf(v, a, b, c, k);
    VariantOf(v', a', b', c', k');
    VariantsAreWords(k');
    if k != k' {
      DistinctVariants(k, k');
    }
  }

  // ----- compatible tags -----

  /** Is the (trimmed) text a pre-release spelling? Any predicate will do. */
  type Prerelease = string -> bool

  predicate IsPrerelease(pre: Prerelease, tag: string) {
    pre(TrimSpace(tag))
  }

  /** Same major version, same image variant, and no pre-release for someone on a release. */
  predicate Compatible(pre: Prerelease, current: string, tag: string) {
    && Parse(current).Some? && Parse(tag).Some?
    && Parse(tag).value.major == Parse(current).value.major
    && SameVariant(current, tag)
    && (IsPrerelease(pre, current) || !IsPrerelease(pre, tag))
  }

  function Filter(pre: Prerelease, current: string): string -> bool {
    tag => Compatible(pre, current, tag)
  }

  function HighestCompatible(pre: Prerelease, current: string, tags: seq<string>): string {
    Newest(tags, Filter(pre, current))
  }

  method HighestCompatibleSemverTag(pre: Prerelease, current: string, tags: seq<string>) returns (r: string)
    ensures r == HighestCompatible(pre, current, tags)
  {
    hide Parse, Less, SameVariant, IsPrerelease;
    ghost var keep := Filter(pre, current);
    var cur := Parse(current);
    if cur.None? {
      NoneCompatible(pre, current, tags);
      return "";
    }
    var best := Version(0, 0, 0, "", "");
    var found := false;
    var i := 0;
    while i < |tags|
      invariant 0 <= i <= |tags|
      invariant found <==> Best(tags[..i], keep) >= 0
      invariant found ==> best == Parse(tags[Best(tags[..i], keep)]).value
    {
      assert tags[..i + 1][..i] == tags[..i];
      var sv := Parse(tags[i]);
      if sv.None? || sv.value.major != cur.value.major || !SameVariant(current, tags[i])
        || (!IsPrerelease(pre, current) && IsPrerelease(pre, tags[i])) {
        assert !Candidate(tags[i], keep);
      } else if !found || Less(best, sv.value) {
        best, found := sv.value, true;
      }
      i := i + 1;
    }
    assert tags[..i] == tags;
    r := if found then best.raw else "";
  }

  lemma NoneCompatible(pre: Prerelease, current: string, tags: seq<string>)
    requires Parse(current).None?
    ensures HighestCompatible(pre, current, tags) == ""
  {
    BestIsFirstMaximum(tags, Filter(pre, current));
  }

  /** What is selected is compatible with the current tag, and reads back as itself. */
  lemma SelectedIsCompatible(pre: Prerelease, current: string, tags: seq<string>)
    requires HighestCompatible(pre, current, tags) != ""
    ensures var best := HighestCompatible(pre, current, tags);
      && Compatible(pre, current, best) && Parse(best).value.raw == best && TrimSpace(best) == best
      && exists i :: 0 <= i < |tags| && TrimSpace(tags[i]) == best
  {
    hide Parse, Variants, Less, TrimSpace;
    var keep := Filter(pre, current);
    var tag := tags[Best(tags, keep)];
    ParseRaw(tag);
    VariantsTrim(tag);
    TrimSpaceTrims(tag);
    assert Candidate(tag, keep);
  }

  /** What makes two tags compatible, and that the selected one is: both are versions of one major and one variant,
      and a release is never exchanged for a pre-release. */
  lemma SelectedIsSafe(pre: Prerelease, current: string, tags: seq<string>)
    ensures var best := HighestCompatible(pre, current, tags);
      best != "" ==>
        && Parse(current).Some? && Parse(best).Some? && Parse(best).value.major == Parse(current).value.major
        && SameVariant(current, best) && (pre(TrimSpace(best)) ==> pre(TrimSpace(current)))
    ensures forall j :: 0 <= j < |tags| && Parse(current).Some? && Parse(tags[j]).Some?
              && Parse(tags[j]).value.major == Parse(current).value.major
              && SameVariant(current, tags[j]) && (pre(TrimSpace(tags[j])) ==> pre(TrimSpace(current)))
              ==> HighestCompatible(pre, current, tags) != "" && Parse(HighestCompatible(pre, current, tags)).Some?
                  && !Less(Parse(HighestCompatible(pre, current, tags)).value, Parse(tags[j]).value)
  {
    hide Parse, Less, SameVariant, TrimSpace, Best;
    if HighestCompatible(pre, current, tags) != "" {
      SelectedIsCompatible(pre, current, tags);
    }
    forall j: nat | j < |tags| && Parse(current).Some? && Parse(tags[j]).Some?
              && Parse(tags[j]).value.major == Parse(current).value.major
              && SameVariant(current, tags[j]) && (pre(TrimSpace(tags[j])) ==> pre(TrimSpace(current)))
      ensures HighestCompatible(pre, current, tags) != ""
           && Parse(HighestCompatible(pre, current, tags)).Some?
           && !Less(Parse(HighestCompatible(pre, current, tags)).value, Parse(tags[j]).value)
    {
      assert Compatible(pre, current, tags[j]);
      SomeSelected(pre, current, tags, j);
      SelectedIsHighest(pre, current, tags, j);
    }
  }

  lemma SomeSelected(pre: Prerelease, current: string, tags: seq<string>, j: nat)
    requires j < |tags| && Compatible(pre, current, tags[j])
    ensures HighestCompatible(pre, current, tags) != ""
  {
    NoVersionIsEmpty();
    hide Less, SameVariant, IsPrerelease, Best, Parse, TrimSpace;
    var keep := Filter(pre, current);
    assert Candidate(tags[j], keep);
    BestIsFirstMaximum(tags, keep);
    ParseRaw(tags[Best(tags, keep)]);
  }

  lemma NoVersionIsEmpty()
    ensures Parse("").None?
  {
  }

  /** Nothing compatible is above it. */
  lemma SelectedIsHighest(pre: Prerelease, current: string, tags: seq<string>, j: nat)
    requires HighestCompatible(pre, current, tags) != "" && j < |tags| && Compatible(pre, current, tags[j])
    ensures Parse(HighestCompatible(pre, current, tags)).Some?
      && !Less(Parse(HighestCompatible(pre, current, tags)).value, Parse(tags[j]).value)
  {
    var keep := Filter(pre, current);
    BestIsFirstMaximum(tags, keep);
    ParseRaw(tags[Best(tags, keep)]);
    hide Parse, Less, Best;
    assert Candidate(tags[j], keep);
  }

  /** Once the selected tag is the current one, the same list selects it again: there is nothing newer. */
  lemma SelectedIsStable(pre: Prerelease, current: string, tags: seq<string>)
    requires HighestCompatible(pre, current, tags) != ""
    ensures var best := HighestCompatible(pre, current, tags); HighestCompatible(pre, best, tags) == best
  {
    hide Parse, Less, Best, TrimSpace, Compatible;
    var best := HighestCompatible(pre, current, tags);
    var wide, narrow := Filter(pre, current), Filter(pre, best);
    var i := Best(tags, wide);
    SelectedIsCompatible(pre, current, tags);
    BestIsFirstMaximum(tags, wide);
    ParseRaw(tags[i]);
    assert best == TrimSpace(tags[i]);
    CompatibleTrimmed(pre, best, tags[i]);
    forall tag | Candidate(tag, narrow)
      ensures Candidate(tag, wide)
    {
      CompatibleTrans(pre, current, best, tag);
    }
    FirstMaximumIsBest(tags, narrow, i);
  }

  lemma CompatibleTrans(pre: Prerelease, a: string, b: string, c: string)
    requires Compatible(pre, a, b) && Compatible(pre, b, c)
    ensures Compatible(pre, a, c)
  {
    hide Parse, Variants, TrimSpace;
  }

  lemma CompatibleTrimmed(pre: Prerelease, best: string, tag: string)
    requires best == TrimSpace(tag) && Parse(tag).Some?
    ensures Parse(best) == Parse(tag) && Compatible(pre, best, tag)
  {
    ParseRaw(tag);
    VariantsTrim(tag);
    TrimSpaceTrims(tag);
    hide Parse, Variants, TrimSpace, JoinCommas;
  }

  /** Floating tags follow a channel and are never rewritten to a version. */
  predicate FloatingOrLatest(tag: string) {
    var t := ToLower(TrimSpace(tag));
    t in FLOATING || (Parse(t).None? && (t == "alpine" || t == "slim" || HasSuffix(t, "-alpine")))
  }

  /** The channels: these words in any case, and alpine or slim spellings that are no version. None of them is a
      version, so no version tag floats. */
  lemma FloatingIff(tag: string)
    ensures var t := ToLower(TrimSpace(tag));
      FloatingOrLatest(tag) <==>
        || t in {"latest", "edge", "main", "master", "dev", "develop", "nightly", "stable", "alpine", "chromium-bundled"}
        || (Parse(t).None? && (t == "slim" || HasSuffix(t, "-alpine")))
    ensures Parse(ToLower(TrimSpace(tag))).Some? ==> !FloatingOrLatest(tag)
  {
    hide TrimSpace, Recognise;
    var t := ToLower(TrimSpace(tag));
    LowerTwice(TrimSpace(tag));
    if t in FLOATING {
      TrimmedWord(t);
      Never(t);
    }
  }

  lemma LowerTwice(s: string)
    ensures ToLower(ToLower(s)) == ToLower(s)
  {
  }

  lemma TrimmedWord(t: string)
    requires t in FLOATING && ToLower(t) == t
    ensures TrimSpace(t) == t && NeverVersion(t)
  {
    hide HasSuffix, HasPrefix, ToLower;
    assert Trimmed(t);
    TrimSpaceFixed(t);
  }
}
