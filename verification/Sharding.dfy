/** How a large archive is laid out in the repository: parts of at most SHARD_SIZE bytes plus a manifest,
    pushed as one change, read back part by part, and deleted as one change. */
module Sharding {
  import opened Text
  import opened GitServer

  datatype Option<T> = None | Some(value: T)
  datatype Result<T> = Success(value: T) | Failure

  const SHARD_SIZE: nat := 32 * 1024 * 1024

  datatype Manifest = Manifest(shards: int, size: int)

  /** The JSON encoding of a manifest: any pair of functions of which the second undoes the first. */
  datatype Codec = Codec(encode: Manifest -> Bytes, decode: Bytes -> Option<Manifest>) {
    ghost predicate Faithful() {
      forall m :: decode(encode(m)) == Some(m)
    }
  }

  function PartName(name: string, i: nat): string {
    name + ".p" + Pad6(i)
  }

  function ManifestName(name: string): string {
    name + ".manifest"
  }

  /** strings.Trim(s, "/") */
  function TrimSlashes(s: string): string {
    if s != [] && s[0] == '/' then TrimSlashes(s[1..])
    else if s != [] && s[|s| - 1] == '/' then TrimSlashes(s[..|s| - 1])
    else s
  }

  /** Where reads, single-file writes and single-file deletes look for a name. */
  function RemotePath(prefix: string, name: string): string {
    var p := TrimSlashes(prefix);
    if p == "" then name else p + "/" + name
  }

  lemma RemotePathInjective(prefix: string, a: string, b: string)
    requires RemotePath(prefix, a) == RemotePath(prefix, b)
    ensures a == b
  {
    hide TrimSlashes;
    var p := TrimSlashes(prefix);
    if p != "" {
      assert RemotePath(prefix, a)[|p| + 1..] == a;
      assert RemotePath(prefix, b)[|p| + 1..] == b;
    }
  }

  // ----- where a name is stored -----

  predicate AllSlashes(s: string) {
    forall i :: 0 <= i < |s| ==> s[i] == '/'
  }

  /** Text that neither starts nor ends with a slash. */
  predicate Bare(s: string) {
    s != "" && s[0] != '/' && s[|s| - 1] != '/'
  }

  lemma {:induction false} SlashesVanish(l: string)
    requires AllSlashes(l)
    ensures TrimSlashes(l) == ""
  {
    if l != "" {
      SlashesVanish(l[1..]);
    }
  }

  lemma {:induction false} RightSlashes(core: string, r: string)
    requires Bare(core) && AllSlashes(r)
    ensures TrimSlashes(core + r) == core
  {
    var s := core + r;
    assert s[0] == core[0];
    if r == "" {
      assert s == core;
    } else {
      assert s[..|s| - 1] == core + r[..|r| - 1];
      RightSlashes(core, r[..|r| - 1]);
    }
  }

  lemma {:induction false} OuterSlashes(l: string, core: string, r: string)
    requires AllSlashes(l) && Bare(core) && AllSlashes(r)
    ensures TrimSlashes(l + core + r) == core
  {
    if l == "" {
      assert l + core + r == core + r;
      RightSlashes(core, r);
    } else {
      assert (l + core + r)[1..] == l[1..] + core + r;
      OuterSlashes(l[1..], core, r);
    }
  }

  /** A configured prefix becomes the directory the name lies in, whatever slashes surround it; slashes alone are
      no prefix. */
  lemma PathOfPrefix(l: string, core: string, r: string, name: string)
    requires AllSlashes(l) && AllSlashes(r) && (core == "" || Bare(core))
    ensures RemotePath(l + core + r, name) == if core == "" then name else core + "/" + name
  {
    if core == "" {
      SlashesVanish(l + core + r);
    } else {
      OuterSlashes(l, core, r);
    }
  }

  /** Every prefix is of that shape. */
  lemma {:induction false} PrefixParts(prefix: string) returns (l: string, core: string, r: string)
    ensures prefix == l + core + r && AllSlashes(l) && AllSlashes(r) && (core == "" || Bare(core))
  {
    if prefix != "" && prefix[0] == '/' {
      l, core, r := PrefixParts(prefix[1..]);
      l := "/" + l;
    } else if prefix != "" && prefix[|prefix| - 1] == '/' {
      l, core, r := PrefixParts(prefix[..|prefix| - 1]);
      r := r + "/";
    } else {
      l, core, r := "", prefix, "";
    }
  }

  // ----- pushing -----

  function PartCount(total: nat): nat {
    var n := total / SHARD_SIZE;
    if total % SHARD_SIZE != 0 || n == 0 then n + 1 else n
  }

  function Min(a: nat, b: nat): nat {
    if a < b then a else b
  }

  function Part(data: Bytes, i: nat): Bytes {
    data[Min(i * SHARD_SIZE, |data|)..Min((i + 1) * SHARD_SIZE, |data|)]
  }

  function PartEntries(name: string, data: Bytes, k: nat): Change {
    seq(k, i requires 0 <= i => Put(PartName(name, i), Part(data, i)))
  }

  /** Parts with no bytes are not uploaded; only an empty file has one. */
  function UploadedParts(data: Bytes): nat {
    if data == [] then 0 else PartCount(|data|)
  }

  function PushEntries(codec: Codec, name: string, data: Bytes): Change {
    PartEntries(name, data, UploadedParts(data))
    + [Put(ManifestName(name), codec.encode(Manifest(PartCount(|data|), |data|)))]
  }

  /** gitDataPush on a quiet branch: note that it writes plain names, without the configured prefix. */
  function GitDataPush(t: Tree, codec: Codec, name: string, data: Bytes): Tree {
    ApplyEntries(t, PushEntries(codec, name, data))
  }

  /** Github.Push: only files longer than one shard are split. */
  function Push(t: Tree, prefix: string, codec: Codec, name: string, data: Bytes): Tree {
    if |data| > SHARD_SIZE then GitDataPush(t, codec, name, data) else t[RemotePath(prefix, name) := data]
  }

  // ----- pulling -----

  function GetRaw(t: Tree, prefix: string, name: string): Result<Bytes> {
    var p := RemotePath(prefix, name);
    if p in t then Success(t[p]) else Failure
  }

  /** The first k parts, one after the other. */
  function JoinParts(t: Tree, prefix: string, name: string, k: nat): Result<Bytes> {
    if k == 0 then Success([])
    else
      var front, part := JoinParts(t, prefix, name, k - 1), GetRaw(t, prefix, PartName(name, k - 1));
      if front.Failure? || part.Failure? then Failure else Success(front.value + part.value)
  }

  function Reassemble(t: Tree, prefix: string, name: string, m: Manifest): Result<Bytes> {
    match JoinParts(t, prefix, name, if m.shards < 0 then 0 else m.shards)
    case Failure => Failure
    case Success(all) => if m.size > 0 && |all| != m.size then Failure else Success(all)
  }

  /** shardPull: by manifest if there is one, otherwise the legacy single file. */
  function Pull(t: Tree, prefix: string, codec: Codec, name: string): Result<Bytes> {
    match GetRaw(t, prefix, ManifestName(name))
    case Failure => GetRaw(t, prefix, name)
    case Success(mb) =>
      match codec.decode(mb)
      case None => Failure
      case Some(m) => Reassemble(t, prefix, name, m)
  }

  // ----- deleting -----

  function DeleteEntries(name: string, shards: int): Change {
    var k := if shards < 0 then 0 else shards;
    seq(k, i requires 0 <= i => Remove(PartName(name, i))) + [Remove(ManifestName(name))]
  }

  /** gitDataDelete on a quiet branch; without a readable manifest it removes the single file. */
  function GitDataDelete(t: Tree, prefix: string, codec: Codec, name: string): Tree {
    match GetRaw(t, prefix, ManifestName(name))
    case Failure => t - {RemotePath(prefix, name)}
    case Success(mb) =>
      match codec.decode(mb)
      case None => t - {RemotePath(prefix, name)}
      case Some(m) => ApplyEntries(t, DeleteEntries(name, m.shards))
  }

  // ----- names never collide -----

  lemma NamesDistinct(name: string, i: nat, j: nat)
    ensures PartName(name, i) != ManifestName(name)
    ensures PartName(name, i) == PartName(name, j) ==> i == j
    ensures PartName(name, i) != name && ManifestName(name) != name
  {
    assert PartName(name, i)[|name| + 1] == 'p';
    assert ManifestName(name)[|name| + 1] == 'm';
    assert PartName(name, i)[|name| + 2..] == Pad6(i);
    assert PartName(name, j)[|name| + 2..] == Pad6(j);
  }

  /** A prefixed path is never one of the plain names a push writes: count the slashes. */
  lemma PrefixedIsNotPlain(p: string, name: string, a: string, b: string)
    requires '/' !in b
    ensures p + "/" + name + a != name + b
  {
    var left, right := p + "/" + name + a, name + b;
    assert multiset(left) == multiset(p) + multiset("/") + multiset(name) + multiset(a);
    assert multiset(right) == multiset(name) + multiset(b);
    assert multiset(left)['/'] > multiset(right)['/'];
  }

  lemma SuffixesHaveNoSlash(i: nat)
    ensures '/' !in ".p" + Pad6(i) && '/' !in ".manifest"
  {
    assert forall k :: 0 <= k < |Pad6(i)| ==> IsDigit(Pad6(i)[k]);
  }

  // ----- what a push leaves in the tree -----

  lemma PushedPart(t: Tree, codec: Codec, name: string, data: Bytes, i: nat)
    requires i < UploadedParts(data)
    ensures At(GitDataPush(t, codec, name, data), PartName(name, i)) == {Part(data, i)}
  {
    hide PartName, ManifestName;
    var es := PushEntries(codec, name, data);
    forall j | i + 1 <= j < |es|
      ensures es[j].path != PartName(name, i)
    {
      NamesDistinct(name, i, j);
    }
    assert es[i] == Put(PartName(name, i), Part(data, i));
    assert UntouchedFrom(es, i + 1, PartName(name, i));
    TouchedPath(t, es, PartName(name, i), es[i]);
  }

  lemma PushedManifest(t: Tree, codec: Codec, name: string, data: Bytes)
    ensures At(GitDataPush(t, codec, name, data), ManifestName(name))
         == {codec.encode(Manifest(PartCount(|data|), |data|))}
  {
    hide PartName, ManifestName;
    var es := PushEntries(codec, name, data);
    var last := es[|es| - 1];
    assert UntouchedFrom(es, |es|, ManifestName(name));
    TouchedPath(t, es, ManifestName(name), last);
  }

  /** The paths a push of `data` writes under `name`. */
  predicate PushedPath(name: string, data: Bytes, p: string) {
    p == ManifestName(name) || exists i :: 0 <= i < UploadedParts(data) && p == PartName(name, i)
  }

  lemma OtherPathsUntouched(t: Tree, codec: Codec, name: string, data: Bytes, p: string)
    requires !PushedPath(name, data, p)
    ensures At(GitDataPush(t, codec, name, data), p) == At(t, p)
  {
    hide PartName, ManifestName;
    var es := PushEntries(codec, name, data);
    forall j | 0 <= j < |es|
      ensures es[j].path != p
    {
      if j < UploadedParts(data) {
        assert es[j].path == PartName(name, j);
      }
    }
    UntouchedPath(t, es, p);
  }

  // ----- split and join -----

  /** n is the ceiling of the quotient, and the parts cover the file. */
  lemma PartCountIsCeiling(total: nat)
    requires total > 0
    ensures (PartCount(total) - 1) * SHARD_SIZE < total <= PartCount(total) * SHARD_SIZE
  {
  }

  /** Reading back the first k parts gives the first k shards' worth of bytes. */
  lemma {:induction false} JoinIsPrefix(t: Tree, codec: Codec, name: string, data: Bytes, k: nat)
    requires k <= UploadedParts(data)
    ensures JoinParts(GitDataPush(t, codec, name, data), "", name, k) == Success(data[..Min(k * SHARD_SIZE, |data|)])
  {
    hide PartName, ManifestName;
    if k > 0 {
      JoinIsPrefix(t, codec, name, data, k - 1);
      PushedPart(t, codec, name, data, k - 1);
      PlainRead(GitDataPush(t, codec, name, data), PartName(name, k - 1), Part(data, k - 1));
      SliceJoin(data, Min((k - 1) * SHARD_SIZE, |data|), Min(k * SHARD_SIZE, |data|));
    }
  }

  lemma PlainRead(t: Tree, p: string, b: Bytes)
    requires At(t, p) == {b}
    ensures GetRaw(t, "", p) == Success(b)
  {
    assert t[p] in At(t, p);
  }

  lemma SliceJoin(data: Bytes, a: nat, b: nat)
    requires a <= b <= |data|
    ensures data[..a] + data[a..b] == data[..b]
  {
  }

  lemma SamePrefix(t: Tree, prefix: string, codec: Codec, name: string, k: nat)
    requires TrimSlashes(prefix) == ""
    ensures JoinParts(t, prefix, name, k) == JoinParts(t, "", name, k)
    ensures Pull(t, prefix, codec, name) == Pull(t, "", codec, name)
    ensures GitDataDelete(t, prefix, codec, name) == GitDataDelete(t, "", codec, name)
  {
    forall j: nat
      ensures JoinParts(t, prefix, name, j) == JoinParts(t, "", name, j)
    {
      SameJoin(t, prefix, name, j);
    }
  }

  lemma {:induction false} SameJoin(t: Tree, prefix: string, name: string, k: nat)
    requires TrimSlashes(prefix) == ""
    ensures JoinParts(t, prefix, name, k) == JoinParts(t, "", name, k)
  {
    if k > 0 {
      SameJoin(t, prefix, name, k - 1);
    }
  }

  /** With an empty prefix, a split push is read back byte for byte, whatever was in the tree before. */
  lemma GitDataRoundTrip(t: Tree, prefix: string, codec: Codec, name: string, data: Bytes)
    requires codec.Faithful() && TrimSlashes(prefix) == "" && data != []
    ensures Pull(GitDataPush(t, codec, name, data), prefix, codec, name) == Success(data)
  {
    hide PartName, ManifestName;
    var t' := GitDataPush(t, codec, name, data);
    SamePrefix(t', prefix, codec, name, 0);
    PushedManifest(t, codec, name, data);
    assert t'[ManifestName(name)] in At(t', ManifestName(name));
    JoinIsPrefix(t, codec, name, data, PartCount(|data|));
    PartCountIsCeiling(|data|);
    assert data[..|data|] == data;
  }

  /** Nothing readable is stored under the name yet, nor at the first plain part. */
  predicate FreshForPull(t: Tree, prefix: string, name: string) {
    && RemotePath(prefix, ManifestName(name)) !in t
    && RemotePath(prefix, name) !in t
    && PartName(name, 0) !in t
  }

  lemma PrefixHidesPush(t: Tree, prefix: string, codec: Codec, name: string, data: Bytes)
    requires TrimSlashes(prefix) != ""
    ensures var t' := GitDataPush(t, codec, name, data);
      forall q :: q == name || q == ManifestName(name) ==> GetRaw(t', prefix, q) == GetRaw(t, prefix, q)
  {
    PrefixHidesName(t, prefix, codec, name, data, "");
    PrefixHidesName(t, prefix, codec, name, data, ".manifest");
    assert name + "" == name;
  }

  lemma PrefixHidesName(t: Tree, prefix: string, codec: Codec, name: string, data: Bytes, a: string)
    requires TrimSlashes(prefix) != ""
    ensures GetRaw(GitDataPush(t, codec, name, data), prefix, name + a) == GetRaw(t, prefix, name + a)
  {
    hide ManifestName;
    var path := TrimSlashes(prefix) + "/" + (name + a);
    PrefixedPathNotPushed(TrimSlashes(prefix), name, data, a);
    OtherPathsUntouched(t, codec, name, data, path);
    SameAt(t, GitDataPush(t, codec, name, data), path);
  }

  lemma PrefixedPathNotPushed(p: string, name: string, data: Bytes, a: string)
    ensures !PushedPath(name, data, p + "/" + (name + a))
  {
    var path := p + "/" + (name + a);
    assert path == p + "/" + name + a;
    PrefixedIsNotPlain(p, name, a, ".manifest");
    SuffixesHaveNoSlash(0);
    forall i: nat
      ensures PartName(name, i) != path
    {
      var b := ".p" + Pad6(i);
      SuffixesHaveNoSlash(i);
      PrefixedIsNotPlain(p, name, a, b);
      assert PartName(name, i) == name + b;
    }
  }

  lemma SameAt(a: Tree, b: Tree, p: string)
    requires At(a, p) == At(b, p)
    ensures (p in a <==> p in b) && (p in a ==> a[p] == b[p])
  {
    if p in a {
      assert a[p] in At(a, p);
    }
    if p in b {
      assert b[p] in At(b, p);
    }
  }

  /** Exactly when a split push of a fresh name can be read back: reads use the prefix, the push does not. */
  lemma GitDataRoundTripIff(t: Tree, prefix: string, codec: Codec, name: string, data: Bytes)
    requires codec.Faithful() && FreshForPull(t, prefix, name)
    ensures Pull(GitDataPush(t, codec, name, data), prefix, codec, name) == Success(data)
       <==> TrimSlashes(prefix) == "" && data != []
  {
    hide PartName, ManifestName;
    if TrimSlashes(prefix) != "" {
      PrefixHidesPush(t, prefix, codec, name, data);
      assert GetRaw(GitDataPush(t, codec, name, data), prefix, ManifestName(name)) == Failure;
    } else if data == [] {
      EmptyFileUnreadable(t, prefix, codec, name);
    } else {
      GitDataRoundTrip(t, prefix, codec, name, data);
    }
  }

  /** The manifest of an empty file announces one part, but no part is uploaded. */
  lemma EmptyFileUnreadable(t: Tree, prefix: string, codec: Codec, name: string)
    requires codec.Faithful() && TrimSlashes(prefix) == "" && PartName(name, 0) !in t
    ensures Pull(GitDataPush(t, codec, name, []), prefix, codec, name) == Failure
  {
    hide PartName, ManifestName;
    var t' := GitDataPush(t, codec, name, []);
    SamePrefix(t', prefix, codec, name, 0);
    PushedManifest(t, codec, name, []);
    PlainRead(t', ManifestName(name), codec.encode(Manifest(1, 0)));
    NamesDistinct(name, 0, 0);
    OtherPathsUntouched(t, codec, name, [], PartName(name, 0));
    SameAt(t, t', PartName(name, 0));
    assert JoinParts(t', "", name, 1) == Failure;
  }

  /** A small push writes one file, in the prefix's directory, and nothing else; a large one writes the numbered
      parts and the manifest beside each other, without the prefix. */
  lemma PushWrites(t: Tree, l: string, core: string, r: string, codec: Codec, name: string, data: Bytes, p: string)
    requires AllSlashes(l) && AllSlashes(r) && (core == "" || Bare(core))
    ensures var t' := Push(t, l + core + r, codec, name, data);
      if |data| <= SHARD_SIZE then
        At(t', p) == if p == (if core == "" then name else core + "/" + name) then {data} else At(t, p)
      else
        && At(t', name + ".manifest") == {codec.encode(Manifest(PartCount(|data|), |data|))}
        && (forall i: nat :: i < PartCount(|data|) ==> At(t', name + ".p" + Pad6(i)) == {Part(data, i)})
        && (!PushedPath(name, data, p) ==> At(t', p) == At(t, p))
  {
    PathOfPrefix(l, core, r, name);
    if |data| > SHARD_SIZE {
      PushedManifest(t, codec, name, data);
      forall i: nat | i < PartCount(|data|)
        ensures At(Push(t, l + core + r, codec, name, data), name + ".p" + Pad6(i)) == {Part(data, i)}
      {
        PushedPart(t, codec, name, data, i);
      }
      if !PushedPath(name, data, p) {
        OtherPathsUntouched(t, codec, name, data, p);
      }
    }
  }

  /** A file of at most one shard goes to a single path; Pull then returns it exactly unless the name still
      has a manifest, in which case Pull keeps answering what it answered before. */
  lemma SmallPushThenPull(t: Tree, prefix: string, codec: Codec, name: string, data: Bytes)
    requires |data| <= SHARD_SIZE
    ensures Pull(Push(t, prefix, codec, name, data), prefix, codec, name)
         == if RemotePath(prefix, ManifestName(name)) in t then Pull(t, prefix, codec, name) else Success(data)
  {
    hide PartName, ManifestName, TrimSlashes;
    var t' := Push(t, prefix, codec, name, data);
    NamesDistinct(name, 0, 0);
    if RemotePath(prefix, name) == RemotePath(prefix, ManifestName(name)) {
      RemotePathInjective(prefix, name, ManifestName(name));
    }
    forall m: Manifest
      ensures Reassemble(t', prefix, name, m) == Reassemble(t, prefix, name, m)
    {
      SmallJoin(t, prefix, name, data, if m.shards < 0 then 0 else m.shards);
    }
  }

  lemma {:induction false} SmallJoin(t: Tree, prefix: string, name: string, data: Bytes, k: nat)
    ensures JoinParts(t[RemotePath(prefix, name) := data], prefix, name, k) == JoinParts(t, prefix, name, k)
  {
    hide PartName, ManifestName, TrimSlashes;
    if k > 0 {
      SmallJoin(t, prefix, name, data, k - 1);
      NamesDistinct(name, k - 1, k - 1);
      if RemotePath(prefix, name) == RemotePath(prefix, PartName(name, k - 1)) {
        RemotePathInjective(prefix, name, PartName(name, k - 1));
      }
    }
  }

  /** The law of the target, on all sizes: what Push stores under a fresh name, Pull returns, if and only if
      the file fits in one shard or the target has no prefix. */
  lemma PushThenPull(t: Tree, prefix: string, codec: Codec, name: string, data: Bytes)
    requires codec.Faithful() && FreshForPull(t, prefix, name)
    ensures Pull(Push(t, prefix, codec, name, data), prefix, codec, name) == Success(data)
       <==> |data| <= SHARD_SIZE || TrimSlashes(prefix) == ""
  {
    if |data| <= SHARD_SIZE {
      SmallPushThenPull(t, prefix, codec, name, data);
    } else {
      GitDataRoundTripIff(t, prefix, codec, name, data);
    }
  }

  // ----- delete undoes push -----

  /** The paths a delete removes after a push: an empty file's manifest announces a part that was never there. */
  predicate DeletedPathOf(name: string, data: Bytes, p: string) {
    PushedPath(name, data, p) || p == PartName(name, 0)
  }

  predicate FreshForPush(t: Tree, name: string, data: Bytes) {
    forall p :: p in t ==> !DeletedPathOf(name, data, p)
  }

  lemma DeletedPath(t: Tree, name: string, shards: nat, p: string)
    ensures var t' := ApplyEntries(t, DeleteEntries(name, shards));
      At(t', p) == if p == ManifestName(name) || (exists i :: 0 <= i < shards && p == PartName(name, i)) then {} else At(t, p)
  {
    hide PartName, ManifestName;
    var es := DeleteEntries(name, shards);
    if p == ManifestName(name) {
      assert UntouchedFrom(es, |es|, p);
      TouchedPath(t, es, p, es[|es| - 1]);
    } else if i: nat :| i < shards && p == PartName(name, i) {
      forall j | i + 1 <= j < |es|
        ensures es[j].path != p
      {
        NamesDistinct(name, i, j);
      }
      assert es[i] == Remove(p) && UntouchedFrom(es, i + 1, p);
      TouchedPath(t, es, p, es[i]);
    } else {
      forall j | 0 <= j < |es|
        ensures es[j].path != p
      {
        if j < shards {
          assert es[j].path == PartName(name, j);
        }
      }
      UntouchedPath(t, es, p);
    }
  }

  /** After push and delete every path reads as before, except that the pushed paths are gone. */
  lemma DeleteAfterPush(t: Tree, prefix: string, codec: Codec, name: string, data: Bytes, p: string)
    requires codec.Faithful() && TrimSlashes(prefix) == ""
    ensures At(GitDataDelete(GitDataPush(t, codec, name, data), prefix, codec, name), p)
         == if DeletedPathOf(name, data, p) then {} else At(t, p)
  {
    hide PartName, ManifestName;
    var t' := GitDataPush(t, codec, name, data);
    SamePrefix(t', prefix, codec, name, 0);
    PushedManifest(t, codec, name, data);
    assert t'[ManifestName(name)] in At(t', ManifestName(name));
    DeletedPath(t', name, PartCount(|data|), p);
    if !DeletedPathOf(name, data, p) {
      OtherPathsUntouched(t, codec, name, data, p);
    }
  }

  /** Without a prefix, delete undoes a split push exactly when the paths were free before. */
  lemma DeleteUndoesPushIff(t: Tree, prefix: string, codec: Codec, name: string, data: Bytes)
    requires codec.Faithful() && TrimSlashes(prefix) == ""
    ensures GitDataDelete(GitDataPush(t, codec, name, data), prefix, codec, name) == t <==> FreshForPush(t, name, data)
  {
    hide PartName, ManifestName, DeletedPathOf;
    var t'' := GitDataDelete(GitDataPush(t, codec, name, data), prefix, codec, name);
    forall p
      ensures At(t'', p) == if DeletedPathOf(name, data, p) then {} else At(t, p)
    {
      DeleteAfterPush(t, prefix, codec, name, data, p);
    }
    if FreshForPush(t, name, data) {
      forall p
        ensures (p in t'' <==> p in t) && (p in t ==> t''[p] == t[p])
      {
        SameAt(t'', t, p);
      }
      assert t'' == t;
    } else {
      var p :| p in t && DeletedPathOf(name, data, p);
      assert t[p] in At(t, p);
      assert At(t'', p) == {};
    }
  }

  /** With a prefix, delete does not find the manifest and leaves every part of a split push behind. */
  lemma PrefixedDeleteLeavesParts(t: Tree, prefix: string, codec: Codec, name: string, data: Bytes)
    requires TrimSlashes(prefix) != "" && FreshForPull(t, prefix, name)
    ensures var t' := GitDataPush(t, codec, name, data); GitDataDelete(t', prefix, codec, name) == t'
  {
    hide PartName, ManifestName;
    var t' := GitDataPush(t, codec, name, data);
    PrefixHidesPush(t, prefix, codec, name, data);
    assert GetRaw(t', prefix, ManifestName(name)) == Failure && GetRaw(t', prefix, name) == Failure;
    assert t' - {RemotePath(prefix, name)} == t';
  }

  lemma SmallDelete(t: Tree, prefix: string, codec: Codec, name: string, data: Bytes)
    requires FreshForPull(t, prefix, name) && |data| <= SHARD_SIZE
    ensures GitDataDelete(Push(t, prefix, codec, name, data), prefix, codec, name) == t
  {
    hide PartName, ManifestName, TrimSlashes;
    NamesDistinct(name, 0, 0);
    if RemotePath(prefix, name) == RemotePath(prefix, ManifestName(name)) {
      RemotePathInjective(prefix, name, ManifestName(name));
    }
    assert t[RemotePath(prefix, name) := data] - {RemotePath(prefix, name)} == t;
  }

  /** On all sizes and prefixes: deleting what was pushed under a fresh name restores the tree, if and only if the
      file fits in one shard or the target has no prefix. */
  lemma PushThenDelete(t: Tree, prefix: string, codec: Codec, name: string, data: Bytes)
    requires codec.Faithful() && FreshForPull(t, prefix, name) && FreshForPush(t, name, data)
    ensures GitDataDelete(Push(t, prefix, codec, name, data), prefix, codec, name) == t
       <==> |data| <= SHARD_SIZE || TrimSlashes(prefix) == ""
  {
    hide PartName, ManifestName, TrimSlashes;
    if |data| <= SHARD_SIZE {
      SmallDelete(t, prefix, codec, name, data);
    } else if TrimSlashes(prefix) == "" {
      DeleteUndoesPushIff(t, prefix, codec, name, data);
    } else {
      PrefixedDeleteLeavesParts(t, prefix, codec, name, data);
      PushedManifest(t, codec, name, data);
      assert codec.encode(Manifest(PartCount(|data|), |data|)) in At(GitDataPush(t, codec, name, data), ManifestName(name));
      assert PushedPath(name, data, ManifestName(name));
    }
  }
}
