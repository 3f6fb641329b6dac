/** Slash-separated paths: the string form the program works on and the list of names it stands for. */
module Paths {
  import opened Text

  /** An absolute path as its names from the root down. */
  type Path = seq<string>

  predicate ValidName(n: string) {
    n != "" && n != "." && n != ".." && '/' !in n
  }

  predicate ValidPath(p: Path) {
    forall i :: 0 <= i < |p| ==> ValidName(p[i])
  }

  /** The pieces of a string between its slashes. */
  function Comps(s: string): (cs: seq<string>)
    ensures |cs| > 0
    ensures forall i :: 0 <= i < |cs| ==> '/' !in cs[i]
  {
    var i := LastIndex(s, '/');
    if i < 0 then [s] else Comps(s[..i]) + [s[i + 1..]]
  }

  /** Names joined by slashes. */
  function JoinNames(cs: seq<string>): string {
    if cs == [] then ""
    else if |cs| == 1 then cs[0]
    else JoinNames(cs[..|cs| - 1]) + "/" + cs[|cs| - 1]
  }

  /** The clean string of an absolute path. */
  function Render(p: Path): string {
    "/" + JoinNames(p)
  }

  /** Lexical cleaning: empty names and "." vanish, ".." takes back the name before it. At the root ".." is
      dropped, in a relative path it stays. */
  function Fold(cs: seq<string>, rooted: bool): seq<string> {
    if cs == [] then []
    else
      var front, last := Fold(cs[..|cs| - 1], rooted), cs[|cs| - 1];
      if last == "" || last == "." then front
      else if last != ".." then front + [last]
      else if front != [] && front[|front| - 1] != ".." then front[..|front| - 1]
      else if rooted then front
      else front + [".."]
  }

  /** filepath.Clean. */
  function Clean(s: string): string {
    if s == "" then "."
    else if s[0] == '/' then Render(Fold(Comps(s), true))
    else
      var cs := Fold(Comps(s), false);
      if cs == [] then "." else JoinNames(cs)
  }

  /** filepath.Join of two arguments. */
  function Join(a: string, b: string): string {
    if a == "" then (if b == "" then "" else Clean(b))
    else if b == "" then Clean(a)
    else Clean(a + "/" + b)
  }

  /** filepath.Base. */
  function Base(s: string): string {
    if s == "" then "."
    else
      var t := TrimSlashesRight(s);
      if t == "" then "/" else t[LastIndex(t, '/') + 1..]
  }

  function TrimSlashesRight(s: string): string {
    if s != "" && s[|s| - 1] == '/' then TrimSlashesRight(s[..|s| - 1]) else s
  }

  // ----- strings and lists of names correspond -----

  lemma CompsAt(s: string, i: nat)
    requires i < |s| && s[i] == '/' && '/' !in s[i + 1..]
    ensures Comps(s) == Comps(s[..i]) + [s[i + 1..]]
  {
    LastIndexIs(s, '/', i);
  }

  lemma {:induction false} CompsJoin(a: string, b: string)
    ensures Comps(a + "/" + b) == Comps(a) + Comps(b)
  {
    var s := a + "/" + b;
    var i := LastIndex(b, '/');
    if i < 0 {
      CompsPlain(b);
      assert s[|a|] == '/' && s[|a| + 1..] == b && s[..|a|] == a;
      CompsAt(s, |a|);
    } else {
      var k := |a| + 1 + i;
      CompsAt(b, i);
      CompsJoin(a, b[..i]);
      assert s[k] == '/' && s[k + 1..] == b[i + 1..] && s[..k] == a + "/" + b[..i];
      CompsAt(s, k);
      hide Comps;
      assert Comps(a) + (Comps(b[..i]) + [b[i + 1..]]) == Comps(a) + Comps(b[..i]) + [b[i + 1..]];
    }
  }

  lemma CompsPlain(n: string)
    requires '/' !in n
    ensures Comps(n) == [n]
  {
  }

  lemma {:induction false} CompsOfJoin(cs: seq<string>)
    requires |cs| > 0 && forall i :: 0 <= i < |cs| ==> '/' !in cs[i]
    ensures Comps(JoinNames(cs)) == cs
  {
    hide Comps;
    var n := |cs| - 1;
    CompsPlain(cs[n]);
    if n > 0 {
      CompsOfJoin(cs[..n]);
      CompsJoin(JoinNames(cs[..n]), cs[n]);
    }
  }

  lemma CompsOfRender(p: Path)
    requires ValidPath(p)
    ensures Comps(Render(p)) == [""] + (if p == [] then [""] else p)
  {
    CompsPlain("");
    CompsJoin("", JoinNames(p));
    assert "" + "/" + JoinNames(p) == Render(p);
    if p != [] {
      CompsOfJoin(p);
    }
  }

  lemma FoldSnoc(cs: seq<string>, n: string, rooted: bool)
    requires ValidName(n)
    ensures Fold(cs + [n], rooted) == Fold(cs, rooted) + [n]
  {
    assert (cs + [n])[..|cs|] == cs;
  }

  lemma {:induction false} FoldAppend(a: seq<string>, p: Path, rooted: bool)
    requires ValidPath(p)
    ensures Fold(a + p, rooted) == Fold(a, rooted) + p
  {
    hide Fold;
    if p == [] {
      assert a + p == a;
    } else {
      var n := |p| - 1;
      FoldAppend(a, p[..n], rooted);
      FoldSnoc(a + p[..n], p[n], rooted);
      assert a + p[..n] + [p[n]] == a + p;
      assert Fold(a, rooted) + p[..n] + [p[n]] == Fold(a, rooted) + p;
    }
  }

  lemma FoldEmpties(p: Path)
    requires ValidPath(p)
    ensures Fold([""] + p, true) == p && Fold([""] + p + [""], true) == p
  {
    FoldAppend([""], p, true);
    assert Fold([""], true) == [] by { assert [""][..0] == []; }
    var q := [""] + p + [""];
    assert q[..|q| - 1] == [""] + p;
    assert [] + p == p;
  }

  /** A rendered path is clean. */
  lemma CleanRender(p: Path)
    requires ValidPath(p)
    ensures Clean(Render(p)) == Render(p)
  {
    CompsOfRender(p);
    FoldEmpties(p);
    assert p == [] ==> [""] + [""] == [""] + p + [""];
  }

  /** Cleaning an absolute string yields a valid path. */
  lemma {:induction false} FoldIsValid(cs: seq<string>)
    requires forall i :: 0 <= i < |cs| ==> '/' !in cs[i]
    ensures ValidPath(Fold(cs, true))
  {
    if cs != [] {
      FoldIsValid(cs[..|cs| - 1]);
    }
  }

  /** What a further component does to an absolute path: nothing if it is empty or a dot, one step up if it is two
      dots, staying at the root there, and one step down otherwise. */
  lemma CleanStep(s: string, c: string) returns (p: Path)
    requires s != "" && s[0] == '/' && '/' !in c
    ensures ValidPath(p) && Clean(s) == Render(p)
    ensures Clean(s + "/" + c) ==
      if c == "" || c == "." then Render(p)
      else if c == ".." then Render(if p == [] then [] else p[..|p| - 1])
      else Render(p + [c])
  {
    CompsJoin(s, c);
    CompsPlain(c);
    FoldIsValid(Comps(s));
    p := Fold(Comps(s), true);
    var cs := Comps(s + "/" + c);
    assert cs[..|cs| - 1] == Comps(s) && cs[|cs| - 1] == c;
    hide Comps, Render;
    assert p != [] ==> ValidName(p[|p| - 1]);
  }

  lemma RenderSnoc(p: Path, n: string)
    ensures Render(p + [n]) == (if p == [] then "/" + n else Render(p) + "/" + n)
  {
    assert (p + [n])[..|p|] == p;
  }

  /** Stepping into a directory, as the walk does it. */
  lemma JoinChild(p: Path, n: string)
    requires ValidPath(p) && ValidName(n)
    ensures Join(Render(p), n) == Render(p + [n])
  {
    assert ValidPath(p + [n]);
    if p == [] {
      CleanDouble(n);
      assert Render(p) == "/" && p + [n] == [n];
      hide Render, Clean;
    } else {
      RenderSnoc(p, n);
      CleanRender(p + [n]);
    }
  }

  lemma CleanDouble(n: string)
    requires ValidName(n)
    ensures Clean("/" + "/" + n) == Render([n])
  {
    CompsPlain(n);
    CompsPlain("");
    CompsJoin("/", n);
    CompsJoin("", "");
    assert "" + "/" + "" == "/";
    FoldEmpties([]);
    assert [""] + [] + [""] == ["", ""];
    FoldSnoc(["", ""], n, true);
    hide Comps, Fold;
    assert Comps("/" + "/" + n) == ["", ""] + [n];
    assert [] + [n] == [n];
  }

  lemma JoinNamesSnoc(cs: seq<string>, n: string)
    requires cs != []
    ensures JoinNames(cs + [n]) == JoinNames(cs) + "/" + n
  {
    assert (cs + [n])[..|cs|] == cs;
  }

  lemma {:induction false} JoinNamesAppend(a: seq<string>, b: seq<string>)
    requires a != [] && b != []
    ensures JoinNames(a + b) == JoinNames(a) + "/" + JoinNames(b)
  {
    if |b| == 1 {
      JoinNamesSnoc(a, b[0]);
      assert b == [b[0]];
    } else {
      var n := |b| - 1;
      hide JoinNames;
      JoinNamesAppend(a, b[..n]);
      JoinNamesSnoc(a + b[..n], b[n]);
      JoinNamesSnoc(b[..n], b[n]);
      SplitLast(a, b);
    }
  }

  /** Below a path that is not the root, strings extend it by a slash and the remaining names. */
  lemma RenderBelow(p: Path, rel: Path)
    requires p != [] && rel != []
    ensures Render(p + rel) == Render(p) + "/" + JoinNames(rel)
  {
    JoinNamesAppend(p, rel);
  }

  lemma BaseRender(p: Path)
    requires ValidPath(p) && p != []
    ensures Base(Render(p)) == p[|p| - 1]
  {
    var n := |p| - 1;
    var s := Render(p);
    assert p[..n] + [p[n]] == p;
    assert ValidName(p[n]);
    RenderSnoc(p[..n], p[n]);
    hide Render, LastIndex, ValidPath;
    var k := |s| - |p[n]| - 1;
    assert s[k] == '/' && s[k + 1..] == p[n];
    assert s[|s| - 1] == p[n][|p[n]| - 1];
    LastIndexIs(s, '/', k);
  }

  // ----- prefixes -----

  /** "p is e, or lies beneath it", on lists of names. */
  predicate AtOrBelow(p: Path, e: Path) {
    e <= p
  }

  /** The program's string test means the same, except for the root, beneath which it finds nothing. */
  lemma BeneathIff(p: Path, e: Path)
    requires ValidPath(p) && ValidPath(e)
    ensures Render(p) == Render(e) || HasPrefix(Render(p), Render(e) + "/")
       <==> AtOrBelow(p, e) && (e != [] || p == [])
  {
    hide Comps, Render, HasPrefix, ValidPath;
    RenderInjective(p, e);
    if HasPrefix(Render(p), Render(e) + "/") {
      BeneathFound(p, e);
    }
    if e < p && e != [] {
      BeneathMatches(p, e);
    }
  }

  lemma BeneathFound(p: Path, e: Path)
    requires ValidPath(p) && ValidPath(e) && HasPrefix(Render(p), Render(e) + "/")
    ensures e != [] && e < p
  {
    var z := Render(p)[|Render(e)| + 1..];
    assert Render(p) == Render(e) + "/" + z;
    CompsJoin(Render(e), z);
    CompsOfRender(p);
    CompsOfRender(e);
    hide Comps, Render, HasPrefix;
    SplitPrefix(p, e, Comps(z));
  }

  lemma BeneathMatches(p: Path, e: Path)
    requires e < p && e != []
    ensures HasPrefix(Render(p), Render(e) + "/")
  {
    RenderBelow(e, p[|e|..]);
    assert e + p[|e|..] == p;
    hide Render;
  }

  lemma SplitPrefix(p: Path, e: Path, rest: seq<string>)
    requires ValidPath(p) && rest != []
    requires [""] + (if p == [] then [""] else p) == [""] + (if e == [] then [""] else e) + rest
    ensures e != [] && e < p
  {
    var l, r := [""] + (if p == [] then [""] else p), [""] + (if e == [] then [""] else e) + rest;
    assert |l| == |r| && |r| >= 3;
    assert p != [] && l[1] == p[0] && ValidName(p[0]);
    assert r[1] == if e == [] then "" else e[0];
    assert l[1..] == p && r[1..] == e + rest;
  }

  lemma RenderInjective(p: Path, q: Path)
    requires ValidPath(p) && ValidPath(q)
    ensures Render(p) == Render(q) <==> p == q
  {
    if Render(p) == Render(q) {
      CompsOfRender(p);
      CompsOfRender(q);
      var a, b := if p == [] then [""] else p, if q == [] then [""] else q;
      assert ([""] + a)[1..] == a && ([""] + b)[1..] == b;
      assert p != [] ==> ValidName(p[0]);
      assert q != [] ==> ValidName(q[0]);
    }
  }

  /** A relative path cleans to something that does not start with a slash. */
  lemma RelativeStays(s: string)
    requires s == "" || s[0] != '/'
    ensures Clean(s) != "" && Clean(s)[0] != '/'
  {
    if s != "" {
      var cs := Fold(Comps(s), false);
      FoldNames(Comps(s));
      if cs != [] {
        JoinHead(cs);
      }
    }
  }

  lemma {:induction false} FoldNames(cs: seq<string>)
    requires forall i :: 0 <= i < |cs| ==> '/' !in cs[i]
    ensures forall i :: 0 <= i < |Fold(cs, false)| ==> Fold(cs, false)[i] != "" && '/' !in Fold(cs, false)[i]
  {
    if cs != [] {
      FoldNames(cs[..|cs| - 1]);
    }
  }

  lemma {:induction false} JoinHead(cs: seq<string>)
    requires cs != [] && cs[0] != "" && '/' !in cs[0]
    ensures JoinNames(cs) != "" && JoinNames(cs)[0] != '/'
  {
    if |cs| > 1 {
      JoinHead(cs[..|cs| - 1]);
    }
  }
}
