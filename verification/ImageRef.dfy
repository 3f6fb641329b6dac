/** Image references: taking them apart into registry, repository and tag, putting a new tag on them, and the
    key under which equal references are grouped. */
module ImageRef {
  import opened Text

  datatype Ref = Ref(reg: string, repo: string, tag: string)

  datatype Name = Name(reg: string, repo: string)

  function StripDigest(ref: string): string {
    var r := TrimSpace(ref);
    var i := LastIndex(r, '@');
    if i > 0 then r[..i] else r
  }

  /** Does the text end in ":tag" rather than in a host's ":port"? */
  predicate HasTag(s: string) {
    var i := LastIndex(s, ':');
    i > 0 && '/' !in s[i + 1..]
  }

  function TagOf(s: string): string {
    if HasTag(s) then s[LastIndex(s, ':') + 1..] else "latest"
  }

  function Untagged(s: string): string {
    if HasTag(s) then s[..LastIndex(s, ':')] else s
  }

  predicate RegistryLike(host: string) {
    '.' in host || ':' in host || host == "localhost"
  }

  function Normal(reg: string): string {
    if reg == "index.docker.io" || reg == "registry-1.docker.io" then "docker.io" else reg
  }

  /** A name with an explicit registry; Docker Hub's official images may go without their namespace. */
  function Hosted(host: string, rest: string): Name {
    Name(Normal(host), if Normal(host) == "docker.io" && '/' !in rest then "library/" + rest else rest)
  }

  /** Registry and repository of an untagged reference. */
  function Named(s: string): Name {
    var i := IndexOf(s, '/');
    if i < 0 then Name("docker.io", "library/" + s)
    else if RegistryLike(s[..i]) then Hosted(s[..i], s[i + 1..])
    else Name("docker.io", s)
  }

  function ParseRef(ref: string): Ref {
    var s := StripDigest(ref);
    var n := Named(Untagged(s));
    Ref(n.reg, n.repo, TagOf(s))
  }

  /** The short spelling of a name. */
  function Spelled(n: Name): string {
    if n.reg != "docker.io" then n.reg + "/" + n.repo else TrimPrefix(n.repo, "library/")
  }

  function ImageRepoTag(image: string, newTag: string): string {
    var r := ParseRef(image);
    Spelled(Name(r.reg, r.repo)) + ":" + newTag
  }

  // ----- a new tag on an old reference -----

  /** No digest mark and no white space. */
  predicate Plain(s: string) {
    '@' !in s && forall i :: 0 <= i < |s| ==> !IsSpace(s[i])
  }

  predicate CleanTag(t: string) {
    t != "" && Plain(t) && ':' !in t && '/' !in t
  }

  /** A Docker Hub name that survives being spelled: an official image is one name, any other repository does not
      begin with something that looks like a registry. */
  predicate ReadsBack(n: Name) {
    n.reg == "docker.io" ==>
      if HasPrefix(n.repo, "library/") then
        var x := TrimPrefix(n.repo, "library/"); x != "" && '/' !in x
      else
        var i := IndexOf(n.repo, '/'); i >= 0 && !RegistryLike(n.repo[..i])
  }

  /** What every parsed name looks like. */
  lemma NamedShape(s: string)
    ensures var n := Named(s);
      && '/' !in n.reg && RegistryLike(n.reg) && Normal(n.reg) == n.reg
      && (n.reg == "docker.io" ==> '/' in n.repo)
  {
    var i := IndexOf(s, '/');
    assert "docker.io"[6] == '.';
    assert "library/"[7] == '/';
    if i >= 0 {
      assert s[i] == '/';
    }
  }

  lemma FirstSlash(a: string, b: string)
    requires '/' !in a
    ensures IndexOf(a + "/" + b, '/') == |a| && (a + "/" + b)[..|a|] == a && (a + "/" + b)[|a| + 1..] == b
  {
    var s := a + "/" + b;
    assert s[..|a|] == a && s[|a|] == '/';
    IndexOfIs(s, '/', |a|);
  }

  /** Exactly which names survive. */
  lemma NamedSpelledIff(n: Name)
    requires '/' !in n.reg && RegistryLike(n.reg) && Normal(n.reg) == n.reg && (n.reg == "docker.io" ==> '/' in n.repo)
    requires Spelled(n) != ""
    ensures Named(Spelled(n)) == n <==> ReadsBack(n)
  {
    if n.reg != "docker.io" {
      FirstSlash(n.reg, n.repo);
    } else if HasPrefix(n.repo, "library/") {
      LibrarySpelled(n);
    } else {
      var i := IndexOf(n.repo, '/');
      var host, rest := n.repo[..i], n.repo[i + 1..];
      assert n.repo == host + "/" + rest;
      if RegistryLike(host) {
        assert |Named(n.repo).repo| != |n.repo| || Named(n.repo).repo != n.repo by { HostIsLost(host, rest); }
      }
    }
  }

  lemma LibrarySpelled(n: Name)
    requires n.reg == "docker.io" && HasPrefix(n.repo, "library/") && Spelled(n) != ""
    ensures Named(Spelled(n)) == n <==> ReadsBack(n)
  {
    hide IndexOf, RegistryLike;
    var x := TrimPrefix(n.repo, "library/");
    assert n.repo == "library/" + x;
    var i := IndexOf(x, '/');
    if i >= 0 {
      var host, rest := x[..i], x[i + 1..];
      assert x == host + "/" + rest;
      assert |Named(x).repo| <= |x| + 7;
    }
  }

  /** A registry-like first component is not kept as part of the repository. */
  lemma HostIsLost(host: string, rest: string)
    requires '/' !in host && RegistryLike(host)
    ensures Named(host + "/" + rest).repo != host + "/" + rest
  {
    FirstSlash(host, rest);
    var r := Named(host + "/" + rest).repo;
    hide IndexOf;
    if r == "library/" + rest {
      assert r == "library" + "/" + rest;
      SameHead("library", host, rest);
    }
  }

  lemma SameHead(a: string, b: string, rest: string)
    ensures a + "/" + rest == b + "/" + rest ==> a == b
  {
    if a + "/" + rest == b + "/" + rest {
      assert a == (a + "/" + rest)[..|a|] && b == (b + "/" + rest)[..|b|];
    }
  }

  lemma PlainTrims(s: string)
    requires Plain(s)
    ensures StripDigest(s) == s
  {
    hide IsSpace, LastIndex, TrimSpace;
    assert s != "" ==> !IsSpace(s[0]) && !IsSpace(s[|s| - 1]);
    TrimSpaceFixed(s);
  }

  /** With a clean tag behind it, the last colon is the tag's. */
  lemma TagAtEnd(base: string, t: string)
    requires CleanTag(t)
    ensures base != "" ==> HasTag(base + ":" + t) && TagOf(base + ":" + t) == t && Untagged(base + ":" + t) == base
    ensures base == "" ==> !HasTag(base + ":" + t)
  {
    var s := base + ":" + t;
    assert s[|base|] == ':' && s[|base| + 1..] == t && s[..|base|] == base;
    LastIndexIs(s, ':', |base|);
  }

  lemma PlainJoin(a: string, b: string)
    ensures Plain(a + b) <==> Plain(a) && Plain(b)
  {
    if Plain(a + b) {
      assert forall i :: 0 <= i < |a| ==> (a + b)[i] == a[i];
      assert forall i :: 0 <= i < |b| ==> (a + b)[|a| + i] == b[i];
    }
  }

  /** Replacing the tag keeps registry and repository exactly for the names that survive spelling, for every
      reference without a stray digest mark or white space in them. */
  lemma RetagIff(ref: string, t: string)
    requires CleanTag(t) && Plain(ParseRef(ref).reg) && Plain(ParseRef(ref).repo)
    ensures var r := ParseRef(ref);
      ParseRef(ImageRepoTag(ref, t)) == Ref(r.reg, r.repo, t) <==> ReadsBack(Name(r.reg, r.repo))
  {
    hide Named, ReadsBack, Plain, StripDigest, Untagged, TagOf, HasTag, CleanTag, Spelled, RegistryLike, Normal;
    var n := Named(Untagged(StripDigest(ref)));
    NamedShape(Untagged(StripDigest(ref)));
    SpelledPlain(n);
    var base := Spelled(n);
    TagAtEnd(base, t);
    TaggedPlain(base, t);
    PlainTrims(base + ":" + t);
    if base != "" {
      NamedSpelledIff(n);
    } else {
      EmptyBase(n, t);
      assert base + ":" + t == ":" + t;
    }
  }

  lemma TaggedPlain(base: string, t: string)
    requires Plain(base) && CleanTag(t)
    ensures Plain(base + ":" + t)
  {
    ColonPlain();
    hide IsSpace;
    PlainJoin(base, ":");
    PlainJoin(base + ":", t);
  }

  lemma ColonPlain()
    ensures Plain(":")
  {
  }

  lemma SpelledPlain(n: Name)
    requires Plain(n.reg) && Plain(n.repo)
    ensures Plain(Spelled(n))
  {
    if n.reg != "docker.io" {
      PlainJoin(n.reg, "/" + n.repo);
      PlainJoin("/", n.repo);
      assert n.reg + ("/" + n.repo) == Spelled(n);
    } else if HasPrefix(n.repo, "library/") {
      var x := TrimPrefix(n.repo, "library/");
      assert n.repo == "library/" + x;
      PlainJoin("library/", x);
    }
  }

  lemma EmptyBase(n: Name, t: string)
    requires CleanTag(t) && Spelled(n) == "" && '/' !in n.reg && (n.reg == "docker.io" ==> '/' in n.repo)
    ensures !ReadsBack(n) && Named(Untagged(":" + t)) != n
  {
    assert n.reg == "docker.io" && n.repo == "library/" + TrimPrefix(n.repo, "library/");
    TagAtEnd("", t);
    assert "" + ":" + t == ":" + t;
    assert IndexOf(":" + t, '/') < 0;
    assert |Named(":" + t).repo| > |n.repo|;
  }

  // ----- how a spelling is read -----

  /** A first component names a registry if it has a dot or a port or is localhost; Docker Hub's three names are
      one, and its official images live under library. Otherwise the whole is a name on Docker Hub. */
  lemma NamedIs(first: string, rest: string)
    requires '/' !in first
    ensures Named(first) == Name("docker.io", "library/" + first)
    ensures var hosted := '.' in first || ':' in first || first == "localhost";
      var hub := first == "docker.io" || first == "index.docker.io" || first == "registry-1.docker.io";
      Named(first + "/" + rest) ==
        if !hosted then Name("docker.io", first + "/" + rest)
        else if !hub then Name(first, rest)
        else Name("docker.io", if '/' in rest then rest else "library/" + rest)
  {
    FirstSlash(first, rest);
    assert "docker.io"[6] == '.' && "index.docker.io"[5] == '.' && "registry-1.docker.io"[10] == '.';
  }

  /** A tag behind the last colon is read as such, and without one the tag is latest: a colon before a slash is a
      port. A digest behind an at sign, and white space around the whole, are dropped first. */
  lemma ParsedIs(base: string, t: string, digest: string)
    requires Plain(base) && base != "" && CleanTag(t) && Plain(digest)
    ensures ParseRef(base + ":" + t) == Ref(Named(base).reg, Named(base).repo, t)
    ensures (LastIndex(base, ':') <= 0 || '/' in base[LastIndex(base, ':') + 1..])
        ==> ParseRef(base) == Ref(Named(base).reg, Named(base).repo, "latest")
    ensures ParseRef(base + "@" + digest) == ParseRef(base)
  {
    hide Named, CleanTag, Plain;
    TagAtEnd(base, t);
    TaggedPlain(base, t);
    PlainTrims(base + ":" + t);
    PlainTrims(base);
    DigestDropped(base, digest);
  }

  lemma DigestDropped(base: string, digest: string)
    requires Plain(base) && base != "" && Plain(digest)
    ensures StripDigest(base + "@" + digest) == base
  {
    var s := base + "@" + digest;
    assert s[|base|] == '@' && s[..|base|] == base && s[|base| + 1..] == digest;
    AtIsNoSpace();
    hide IsSpace, TrimSpace, LastIndex;
    assert s[0] == base[0] && s[|s| - 1] == (if digest == "" then '@' else digest[|digest| - 1]);
    TrimSpaceFixed(s);
    LastIndexIs(s, '@', |base|);
    hide Trimmed, Plain;
  }

  lemma AtIsNoSpace()
    ensures !IsSpace('@')
  {
  }

  // ----- three ways to read a tag -----

  datatype Split = Split(repo: string, tag: string)

  function SplitImage(ref: string): Split {
    var i := LastIndex(ref, '@');
    if i > 0 then Split(ref[..i], ref[i + 1..]) else Split(Untagged(ref), TagOf(ref))
  }

  function FormatImageRef(repo: string, tag: string): string {
    if ':' in tag then repo + "@" + tag else repo + ":" + tag
  }

  function ImageTagOf(ref: string): string {
    if ref == "" then ""
    else
      var colon := LastIndex(ref, ':');
      if colon < 0 || colon < LastIndex(ref, '/') then "" else ref[colon + 1..]
  }

  lemma NoSlashAfter(s: string, i: nat)
    requires i < |s| && s[i] == ':'
    ensures '/' !in s[i + 1..] <==> LastIndex(s, '/') < i
  {
    hide LastIndex;
    var k := LastIndex(s, '/');
    if k > i {
      assert s[i + 1..][k - i - 1] == '/';
    }
    if '/' in s[i + 1..] {
      var j := LastIndex(s[i + 1..], '/');
      LastIndexAtLeast(s, '/', i + 1 + j);
    }
  }

  /** The agent's two readers agree on every reference without a digest, and the panel's agrees with them when the
      tag is spelled out; when it is not, they say "latest" and the panel says nothing. */
  lemma TagReadersAgree(ref: string)
    requires '@' !in ref && Trimmed(ref)
    ensures SplitImage(ref).tag == ParseRef(ref).tag
    ensures Named(SplitImage(ref).repo) == Name(ParseRef(ref).reg, ParseRef(ref).repo)
    ensures HasTag(ref) ==> ImageTagOf(ref) == ParseRef(ref).tag
    ensures !HasTag(ref) && (ref == "" || ref[0] != ':') ==> ImageTagOf(ref) == "" && ParseRef(ref).tag == "latest"
  {
    hide IsSpace, LastIndex, Trimmed, TrimSpace, Named;
    TrimSpaceFixed(ref);
    assert StripDigest(ref) == ref;
    var colon := LastIndex(ref, ':');
    if colon >= 0 {
      NoSlashAfter(ref, colon);
    }
  }

  /** Taking a reference apart and putting it together gives it back, if it has a tag or a well-formed digest. */
  lemma SplitThenFormat(ref: string)
    requires LastIndex(ref, '@') > 0 ==> ':' in ref[LastIndex(ref, '@') + 1..]
    requires LastIndex(ref, '@') <= 0 ==> HasTag(ref)
    ensures FormatImageRef(SplitImage(ref).repo, SplitImage(ref).tag) == ref
  {
    var i := LastIndex(ref, '@');
    if i > 0 {
      assert ref == ref[..i] + "@" + ref[i + 1..];
    } else {
      var k := LastIndex(ref, ':');
      assert ref == ref[..k] + ":" + ref[k + 1..];
    }
  }

  // ----- grouping -----

  function CanonicalRepository(ref: string): string {
    var r := ParseRef(ref);
    ToLower(Normal(r.reg) + "/" + TrimPrefix(r.repo, "/"))
  }

  function CanonicalImageRef(ref: string): string {
    CanonicalRepository(ref) + ":" + ParseRef(ref).tag
  }

  predicate Lower(s: string) {
    forall i :: 0 <= i < |s| ==> LowerChar(s[i]) == s[i]
  }

  /** Written in lower case, with no empty first path component. */
  predicate WellSpelled(ref: string) {
    Lower(ref) && !HasPrefix(ParseRef(ref).repo, "/")
  }

  lemma LowerParts(ref: string)
    requires Lower(ref)
    ensures Lower(ParseRef(ref).reg) && Lower(ParseRef(ref).repo)
  {
    hide Lower, TrimSpace, Named, StripDigest, Untagged, TagOf;
    LowerStripped(ref);
    LowerUntagged(StripDigest(ref));
    LowerNamed(Untagged(StripDigest(ref)));
  }

  lemma LowerStripped(ref: string)
    requires Lower(ref)
    ensures Lower(StripDigest(ref))
  {
    hide LowerChar, LastIndex, TrimSpace;
    LowerTrim(ref);
  }

  lemma LowerUntagged(s: string)
    requires Lower(s)
    ensures Lower(Untagged(s))
  {
    hide LowerChar, LastIndex;
  }

  lemma LowerTrim(s: string)
    requires Lower(s)
    ensures Lower(TrimSpace(s))
  {
    hide LowerChar;
    var l := TrimLeft(s);
    assert l == s[|s| - |l|..];
    assert Lower(l);
  }

  lemma LowerNamed(s: string)
    requires Lower(s)
    ensures Lower(Named(s).reg) && Lower(Named(s).repo)
  {
    assert Lower("docker.io") && Lower("library/");
    hide LowerChar, IndexOf;
    var i := IndexOf(s, '/');
    if i >= 0 {
      assert Lower(s[..i]) && Lower(s[i + 1..]);
      assert Lower("library/" + s[i + 1..]);
    } else {
      assert Lower("library/" + s);
    }
  }

  lemma SlashIsLower()
    ensures Lower("/")
  {
  }

  lemma LowerFixed(s: string)
    requires Lower(s)
    ensures ToLower(s) == s
  {
  }

  lemma TagHasNoColon(ref: string)
    ensures ':' !in ParseRef(ref).tag
  {
    hide LastIndex, StripDigest, Named;
    assert ':' !in "latest";
  }

  lemma CanonicalIs(ref: string)
    requires WellSpelled(ref)
    ensures CanonicalRepository(ref) == ParseRef(ref).reg + "/" + ParseRef(ref).repo
    ensures '/' !in ParseRef(ref).reg
  {
    hide Named, StripDigest, Untagged, TagOf, LowerChar, ToLower, RegistryLike, Normal;
    LowerParts(ref);
    NamedShape(Untagged(StripDigest(ref)));
    var r := ParseRef(ref);
    hide ParseRef;
    assert Lower(r.reg + "/" + r.repo) by { SlashIsLower(); }
    LowerFixed(r.reg + "/" + r.repo);
  }

  /** Two references fall into one group exactly when they name the same registry, repository and tag. */
  lemma SameKeyIff(a: string, b: string)
    requires WellSpelled(a) && WellSpelled(b)
    ensures CanonicalImageRef(a) == CanonicalImageRef(b) <==> ParseRef(a) == ParseRef(b)
  {
    CanonicalIs(a);
    CanonicalIs(b);
    TagHasNoColon(a);
    TagHasNoColon(b);
    var x, y := ParseRef(a), ParseRef(b);
    hide ParseRef, CanonicalRepository, WellSpelled;
    if CanonicalImageRef(a) == CanonicalImageRef(b) {
      LastColon(CanonicalRepository(a), x.tag);
      LastColon(CanonicalRepository(b), y.tag);
      FirstSlash(x.reg, x.repo);
      FirstSlash(y.reg, y.repo);
    }
  }

  lemma LastColon(base: string, t: string)
    requires ':' !in t
    ensures LastIndex(base + ":" + t, ':') == |base| && (base + ":" + t)[..|base|] == base && (base + ":" + t)[|base| + 1..] == t
  {
    hide LastIndex;
    var s := base + ":" + t;
    assert s[|base|] == ':' && s[|base| + 1..] == t;
    LastIndexIs(s, ':', |base|);
  }

  /** In any case, one group means one repository: what was learnt about an image id for one of its members holds
      for all. */
  lemma SameKeySameRepository(a: string, b: string)
    requires CanonicalImageRef(a) == CanonicalImageRef(b)
    ensures CanonicalRepository(a) == CanonicalRepository(b) && ParseRef(a).tag == ParseRef(b).tag
  {
    TagHasNoColon(a);
    TagHasNoColon(b);
    hide ParseRef, CanonicalRepository;
    LastColon(CanonicalRepository(a), ParseRef(a).tag);
    LastColon(CanonicalRepository(b), ParseRef(b).tag);
  }
}
