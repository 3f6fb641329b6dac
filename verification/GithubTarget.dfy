/** The GitHub storage target as the program runs it: requests that may fail, answers that may be lost, other
    writers in between every two requests, and loops that keep the blobs, the entries and the attempt count
    in variables.  Each method is tied to the specification of Sharding and GitServer. */
module GithubTarget {
  import opened Text
  import opened GitServer
  import GitWriters
  import opened Sharding

  /** A pushed archive survives every later landing of other writers that leaves its paths alone. */
  lemma PushSurvivesOtherWriters(t: Tree, steps: seq<GitWriters.Step>, i: nat, codec: Codec, name: string, data: Bytes)
    requires codec.Faithful() && data != []
    requires var log := GitWriters.LogOf(t, steps);
      && i < |log| && log[i].change == PushEntries(codec, name, data)
      && forall k, p :: i < k < |log| && PushedPath(name, data, p) ==> !Touches(log[k].change, p)
    ensures Pull(GitWriters.HeadTree(t, steps), "", codec, name) == Success(data)
  {
    var head := GitWriters.HeadTree(t, steps);
    var pushed := GitDataPush(map[], codec, name, data);
    forall p | PushedPath(name, data, p)
      ensures At(head, p) == At(pushed, p)
    {
      var e := PushedEntry(codec, name, data, p);
      GitWriters.NoLandedPathIsLost(t, steps, i, p, e);
      TouchedPath(map[], PushEntries(codec, name, data), p, e);
    }
    GitDataRoundTrip(map[], "", codec, name, data);
    PullDependsOnPushedPaths(pushed, head, codec, name, data);
  }

  lemma PushedEntry(codec: Codec, name: string, data: Bytes, p: string) returns (e: Entry)
    requires PushedPath(name, data, p)
    ensures LastAt(PushEntries(codec, name, data), p, e)
  {
    hide PartName, ManifestName, Part, PartCount;
    var es := PushEntries(codec, name, data);
    if p == ManifestName(name) {
      e := es[|es| - 1];
      assert UntouchedFrom(es, |es|, p);
    } else {
      var i: nat :| i < UploadedParts(data) && p == PartName(name, i);
      e := es[i];
      PartWrittenOnce(codec, name, data, i);
    }
  }

  lemma PartWrittenOnce(codec: Codec, name: string, data: Bytes, i: nat)
    requires i < UploadedParts(data)
    ensures UntouchedFrom(PushEntries(codec, name, data), i + 1, PartName(name, i))
  {
    hide PartName, ManifestName, Part, PartCount;
    var es := PushEntries(codec, name, data);
    forall j | i + 1 <= j < |es|
      ensures es[j].path != PartName(name, i)
    {
      NamesDistinct(name, i, j);
    }
  }

  lemma PullDependsOnPushedPaths(a: Tree, b: Tree, codec: Codec, name: string, data: Bytes)
    requires codec.Faithful() && data != []
    requires forall p :: PushedPath(name, data, p) ==> At(a, p) == At(b, p)
    requires At(a, ManifestName(name)) == {codec.encode(Manifest(PartCount(|data|), |data|))}
    ensures Pull(a, "", codec, name) == Pull(b, "", codec, name)
  {
    SameAt(a, b, ManifestName(name));
    assert a[ManifestName(name)] in At(a, ManifestName(name));
    JoinDependsOnParts(a, b, name, data, PartCount(|data|));
  }

  lemma {:induction false} JoinDependsOnParts(a: Tree, b: Tree, name: string, data: Bytes, k: nat)
    requires k <= UploadedParts(data)
    requires forall p :: PushedPath(name, data, p) ==> At(a, p) == At(b, p)
    ensures JoinParts(a, "", name, k) == JoinParts(b, "", name, k)
  {
    hide PartName;
    if k > 0 {
      JoinDependsOnParts(a, b, name, data, k - 1);
      assert PushedPath(name, data, PartName(name, k - 1));
      SameAt(a, b, PartName(name, k - 1));
    }
  }

  // ----- reading while others write -----

  /** What the branch held when its history was k commits long. */
  function TreeAt(s: Server, k: nat): Tree
    requires ServerInv(s) && k < |s.trail|
  {
    s.commits[s.trail[k]].tree
  }

  /** The parts of an object, each read from its own tree. */
  function JoinOver(trees: seq<Tree>, prefix: string, name: string): Result<Bytes> {
    if trees == [] then Success([])
    else
      var k := |trees| - 1;
      var front, part := JoinOver(trees[..k], prefix, name), GetRaw(trees[k], prefix, PartName(name, k));
      if front.Failure? || part.Failure? then Failure else Success(front.value + part.value)
  }

  lemma JoinOverSnoc(trees: seq<Tree>, t: Tree, prefix: string, name: string)
    ensures JoinOver(trees + [t], prefix, name) ==
      var front, part := JoinOver(trees, prefix, name), GetRaw(t, prefix, PartName(name, |trees|));
      if front.Failure? || part.Failure? then Failure else Success(front.value + part.value)
  {
    assert (trees + [t])[..|trees|] == trees;
  }

  /** Moments at which a reader looked: none before `from`, in order, none after now. */
  predicate Moments(s: Server, from: nat, seen: seq<nat>) {
    && (forall i :: 0 <= i < |seen| ==> from <= seen[i] < |s.trail|)
    && forall i, j :: 0 <= i <= j < |seen| ==> seen[i] <= seen[j]
  }

  function TreesSeen(s: Server, from: nat, seen: seq<nat>): (trees: seq<Tree>)
    requires ServerInv(s) && Moments(s, from, seen)
    ensures |trees| == |seen|
  {
    seq(|seen|, i requires 0 <= i < |seen| => TreeAt(s, seen[i]))
  }

  lemma SeenStays(a: Server, b: Server, from: nat, seen: seq<nat>)
    requires ServerInv(a) && ServerInv(b) && Grows(a, b) && Moments(a, from, seen)
    ensures Moments(b, from, seen) && TreesSeen(a, from, seen) == TreesSeen(b, from, seen)
  {
    forall i | 0 <= i < |seen|
      ensures TreeAt(a, seen[i]) == TreeAt(b, seen[i])
    {
      TreeStays(a, b, seen[i]);
    }
  }

  lemma TreeStays(a: Server, b: Server, k: nat)
    requires ServerInv(a) && ServerInv(b) && Grows(a, b) && k < |a.trail|
    ensures TreeAt(a, k) == TreeAt(b, k)
  {
    assert a.trail[k] == b.trail[k];
  }

  lemma SeenSnoc(s: Server, from: nat, seen: seq<nat>)
    requires ServerInv(s) && Moments(s, from, seen) && from < |s.trail|
    ensures var now := |s.trail| - 1;
      Moments(s, from, seen + [now]) && TreesSeen(s, from, seen + [now]) == TreesSeen(s, from, seen) + [TreeAt(s, now)]
  {
  }

  /** No landing after moment k touches the path. */
  predicate Untouched(s: Server, k: nat, p: string)
    requires ServerInv(s)
  {
    forall i :: k < i < |s.trail| ==> !Touches(s.made[s.trail[i]].change, p)
  }

  /** A path no landing touches reads the same all along. */
  lemma {:induction false} ReadsSame(s: Server, from: nat, k: nat, p: string)
    requires ServerInv(s) && from <= k < |s.trail| && Untouched(s, from, p)
    ensures At(TreeAt(s, k), p) == At(TreeAt(s, from), p)
  {
    if from < k {
      ReadsSame(s, from, k - 1, p);
      var c := s.trail[k];
      assert CommitOk(s, c);
      UntouchedPath(TreeAt(s, k - 1), s.made[c].change, p);
    }
  }

  /** What a successful pull has read: the manifest at moment `from` and the parts at later moments, their sizes
      adding up; or, when it could not read a manifest, the single file. */
  predicate PulledOver(s: Server, prefix: string, codec: Codec, name: string, from: nat, seen: seq<nat>, bytes: Bytes)
    requires ServerInv(s) && from < |s.trail| && Moments(s, from, seen)
  {
    || GetRaw(TreeAt(s, from), prefix, name) == Success(bytes)
    || (var mb := GetRaw(TreeAt(s, from), prefix, ManifestName(name));
        mb.Success? && var m := codec.decode(mb.value);
        && m.Some? && |seen| == (if m.value.shards < 0 then 0 else m.value.shards)
        && JoinOver(TreesSeen(s, from, seen), prefix, name) == Success(bytes)
        && (m.value.size > 0 ==> |bytes| == m.value.size))
  }

  predicate PartsUntouched(s: Server, from: nat, prefix: string, name: string, k: nat)
    requires ServerInv(s)
  {
    forall i :: 0 <= i < k ==> Untouched(s, from, RemotePath(prefix, PartName(name, i)))
  }

  lemma {:induction false} JoinOverIsJoin(s: Server, from: nat, seen: seq<nat>, prefix: string, name: string)
    requires ServerInv(s) && from < |s.trail| && Moments(s, from, seen) && PartsUntouched(s, from, prefix, name, |seen|)
    ensures JoinOver(TreesSeen(s, from, seen), prefix, name) == JoinParts(TreeAt(s, from), prefix, name, |seen|)
  {
    hide ServerInv, PartName, RemotePath, TreeAt, Untouched;
    if seen != [] {
      var k := |seen| - 1;
      JoinOverIsJoin(s, from, seen[..k], prefix, name);
      var p := RemotePath(prefix, PartName(name, k));
      ReadsSame(s, from, seen[k], p);
      SameAt(TreeAt(s, seen[k]), TreeAt(s, from), p);
      assert TreesSeen(s, from, seen)[..k] == TreesSeen(s, from, seen[..k]);
    }
  }

  /** If no landing touches a part after the manifest was read, a successful pull returns one version: the object as
      it stood at that moment, or, when the manifest could not be read, its single file. */
  lemma PullIsOneVersion(s: Server, prefix: string, codec: Codec, name: string, from: nat, seen: seq<nat>, bytes: Bytes)
    requires ServerInv(s) && from < |s.trail| && Moments(s, from, seen)
    requires PulledOver(s, prefix, codec, name, from, seen, bytes) && PartsUntouched(s, from, prefix, name, |seen|)
    ensures Success(bytes) in {Pull(TreeAt(s, from), prefix, codec, name), GetRaw(TreeAt(s, from), prefix, name)}
  {
    hide ServerInv, PartName, ManifestName, RemotePath, TreeAt, Untouched, JoinOver, JoinParts;
    JoinOverIsJoin(s, from, seen, prefix, name);
  }

  /** Why that is needed: two versions of one size, pushed one after the other while a reader has read k parts. It
      gets the beginning of the one and the rest of the other, and the size test cannot tell. */
  lemma VersionsMix(t: Tree, codec: Codec, name: string, a: Bytes, b: Bytes, trees: seq<Tree>, k: nat)
    requires codec.Faithful() && a != [] && |a| == |b| && k <= |trees| == PartCount(|a|)
    requires var first := GitDataPush(t, codec, name, a);
      && (forall i :: 0 <= i < k ==> trees[i] == first)
      && forall i :: k <= i < |trees| ==> trees[i] == GitDataPush(first, codec, name, b)
    ensures var cut := Sharding.Min(k * SHARD_SIZE, |a|);
      && JoinOver(trees, "", name) == Success(a[..cut] + b[cut..])
      && |a[..cut] + b[cut..]| == |a|
      && (a[..cut] + b[cut..] == a <==> a[cut..] == b[cut..])
      && (a[..cut] + b[cut..] == b <==> a[..cut] == b[..cut])
  {
    hide GitDataPush, PartName;
    MixedJoin(t, codec, name, a, b, trees, k, |trees|);
    PartCountIsCeiling(|a|);
    var cut := Sharding.Min(k * SHARD_SIZE, |a|);
    var n := |trees|;
    assert trees[..n] == trees;
    assert Sharding.Min(n * SHARD_SIZE, |a|) == |a|;
    if k == n {
      assert cut == |a| && a[..cut] + b[cut..] == a[..|a|];
    } else {
      assert b[cut..|a|] == b[cut..];
    }
    hide JoinOver;
    MixIs(a, b, cut);
  }

  lemma MixIs(a: Bytes, b: Bytes, cut: nat)
    requires cut <= |a| == |b|
    ensures a[..cut] + b[cut..] == a <==> a[cut..] == b[cut..]
    ensures a[..cut] + b[cut..] == b <==> a[..cut] == b[..cut]
  {
    var mix := a[..cut] + b[cut..];
    assert mix[..cut] == a[..cut] && mix[cut..] == b[cut..];
    assert a == a[..cut] + a[cut..] && b == b[..cut] + b[cut..];
  }

  lemma {:induction false} MixedJoin(t: Tree, codec: Codec, name: string, a: Bytes, b: Bytes, trees: seq<Tree>, k: nat, n: nat)
    requires a != [] && |a| == |b| && k <= |trees| == PartCount(|a|) && n <= |trees|
    requires var first := GitDataPush(t, codec, name, a);
      && (forall i :: 0 <= i < k ==> trees[i] == first)
      && forall i :: k <= i < |trees| ==> trees[i] == GitDataPush(first, codec, name, b)
    ensures var cut, upto := Sharding.Min(k * SHARD_SIZE, |a|), Sharding.Min(n * SHARD_SIZE, |a|);
      JoinOver(trees[..n], "", name) == Success(if n <= k then a[..upto] else a[..cut] + b[cut..upto])
  {
    hide GitDataPush, PartName;
    if n == 0 {
      assert trees[..n] == [];
    } else {
      MixedJoin(t, codec, name, a, b, trees, k, n - 1);
      var i := n - 1;
      assert trees[..n] == trees[..i] + [trees[i]];
      JoinOverSnoc(trees[..i], trees[i], "", name);
      MixedPart(if i < k then t else GitDataPush(t, codec, name, a), codec, name, if i < k then a else b, i);
      hide JoinOver, GetRaw, PartCount, Part, Min;
      MixStep(a, b, k, i);
    }
  }

  lemma MixedPart(before: Tree, codec: Codec, name: string, data: Bytes, i: nat)
    requires i < UploadedParts(data)
    ensures GetRaw(GitDataPush(before, codec, name, data), "", PartName(name, i)) == Success(Part(data, i))
  {
    hide GitDataPush, PartName;
    PushedPart(before, codec, name, data, i);
    PlainRead(GitDataPush(before, codec, name, data), PartName(name, i), Part(data, i));
  }

  lemma MixStep(a: Bytes, b: Bytes, k: nat, i: nat)
    requires |a| == |b|
    ensures var cut, upto, more := Sharding.Min(k * SHARD_SIZE, |a|), Sharding.Min(i * SHARD_SIZE, |a|),
      Sharding.Min((i + 1) * SHARD_SIZE, |a|);
      if i < k then a[..upto] + Part(a, i) == a[..more]
      else (if i <= k then a[..upto] else a[..cut] + b[cut..upto]) + Part(b, i) == a[..cut] + b[cut..more]
  {
  }

  const TRIES: nat := 5

  /** How one try ended: it worked, it is worth another, or it is not. */
  datatype Answer = Done | Again | Final

  /** A retry loop: it goes on exactly while a try is worth repeating, five times at most. */
  predicate Tried(answers: seq<Answer>, ok: bool) {
    && 1 <= |answers| <= 5
    && (forall i :: 0 <= i < |answers| - 1 ==> answers[i] == Again)
    && (ok <==> answers[|answers| - 1] == Done)
    && (answers[|answers| - 1] == Again ==> |answers| == 5)
  }

  class Github {
    const prefix: string
    const codec: Codec
    /** No other writer is active and no request fails. */
    const quiet: bool
    var server: Server
    /** Requests that failed for other reasons than a moved ref. */
    ghost var failed: nat

    constructor (prefix: string, codec: Codec, quiet: bool, t: Tree)
      ensures Valid() && HeadTree() == t
      ensures this.prefix == prefix && this.codec == codec && this.quiet == quiet
    {
      this.prefix, this.codec, this.quiet := prefix, codec, quiet;
      server := InitServer(t);
      failed := 0;
    }

    ghost predicate Valid()
      reads this
    {
      ServerInv(server) && server.head < |server.commits|
    }

    function HeadTree(): Tree
      reads this
      requires server.head < |server.commits|
    {
      server.commits[server.head].tree
    }

    /** Whatever others do between two of our requests: make commits on heads they have seen, move the ref,
        write through the Contents API, any number of times. */
    method OthersRun()
      requires Valid()
      modifies this`server
      ensures Valid() && Grows(old(server), server)
      ensures quiet ==> server == old(server)
    {
      if quiet {
        return;
      }
      var n: nat := *;
      while n > 0
        invariant Valid() && Grows(old(server), server)
      {
        var k: nat, landing: Landing, c: nat, e: Entry := *, *, *, *;
        if * {
          if k < |server.trail| {
            var parent := server.trail[k];
            var tree := ApplyEntries(server.commits[parent].tree, landing.change);
            AddCommitKeepsInv(server, tree, parent, landing);
            server := AddCommit(server, tree, parent, landing);
          }
        } else if * {
          MoveRefKeepsInv(server, c);
          server := MoveRef(server, c);
        } else {
          DirectWriteKeepsInv(server, e);
          server := DirectWrite(server, e);
        }
        n := n - 1;
      }
    }

    /** A request that only reads or makes objects may fail for any reason unless the network is quiet. */
    method RequestOk() returns (ok: bool)
      requires Valid()
      modifies this
      ensures Valid() && Grows(old(server), server)
      ensures quiet ==> ok && server == old(server)
      ensures failed == old(failed) + (if ok then 0 else 1)
    {
      OthersRun();
      ok := quiet;
      if * {
        ok := true;
      }
      if !ok {
        failed := failed + 1;
      }
    }

    /** PATCH of the ref, sent once; its answer may be lost. */
    method SendRef(c: nat) returns (a: Answer)
      requires Valid() && 0 < c < |server.commits|
      modifies this`server
      ensures Valid() && Grows(old(server), server)
      ensures a == Done ==> c in server.trail
      ensures a == Final ==> !FastForward(server, c)
      ensures quiet && old(server).commits[c].parents == [old(server).head]
          ==> a == Done && server == old(server).(head := c, trail := old(server).trail + [c])
    {
      OthersRun();
      FastForwardMeansOnHead(server, c);
      assert CommitOk(server, c);
      var accepted := FastForward(server, c);
      MoveRefKeepsInv(server, c);
      server := MoveRef(server, c);
      assert accepted ==> server.trail[|server.trail| - 1] == c;
      var answered := quiet;
      if * {
        answered := true;
      }
      a := if !answered then Again else if accepted then Done else Final;
    }

    /** The ref update: sent again while its answer is lost. */
    method UpdateRef(c: nat) returns (ok: bool, ghost answers: seq<Answer>)
      requires Valid() && 0 < c < |server.commits|
      modifies this`server
      ensures Valid() && Grows(old(server), server)
      ensures ok ==> c in server.trail
      ensures Tried(answers, ok) && (answers[|answers| - 1] == Final ==> !FastForward(server, c))
      ensures quiet && old(server).commits[c].parents == [old(server).head]
          ==> ok && server == old(server).(head := c, trail := old(server).trail + [c])
    {
      hide ServerInv, FastForward;
      var attempt := 0;
      ok, answers := false, [];
      while attempt < TRIES
        invariant Valid() && Grows(old(server), server) && attempt == |answers| <= TRIES
        invariant !ok && forall i :: 0 <= i < |answers| ==> answers[i] == Again
        invariant quiet && old(server).commits[c].parents == [old(server).head] ==> attempt == 0 && server == old(server)
      {
        var a := SendRef(c);
        answers := answers + [a];
        if a != Again {
          return a == Done, answers;
        }
        attempt := attempt + 1;
      }
    }

    /** One pass of the retry loop: read HEAD and its tree, make a tree and a commit, move the ref. */
    method Attempt(id: nat, entries: Change) returns (a: Answer)
      requires Valid()
      modifies this
      ensures Valid() && Grows(old(server), server)
      ensures a == Done ==> LandedSince(old(server), server, Landing(Writer(id), entries))
      ensures a == Final <==> failed != old(failed)
      ensures quiet ==> a == Done && HeadTree() == ApplyEntries(old(HeadTree()), entries)
    {
      hide ServerInv;
      var ok := RequestOk();
      if !ok { return Final; }
      var headCommit := server.head;
      HeadIsOnTrail(server);
      var baseTree := server.commits[headCommit].tree;
      ok := RequestOk();
      if !ok { return Final; }
      var tree := ApplyEntries(baseTree, entries);
      var commit := AddOwnCommit(id, entries, headCommit, tree);
      HeadIsOnTrail(server);
      assert server.made[commit] == Landing(Writer(id), entries);
      label made:
      ghost var answers;
      ok, answers := UpdateRef(commit);
      HeadIsOnTrail(server);
      if ok {
        var i :| 0 <= i < |server.trail| && server.trail[i] == commit;
        NewCommitIsNew(old(server), server, commit, i);
        assert server.made[commit] == old@made(server.made[commit]);
        return Done;
      }
      return Again;
    }

    /** The shared tail of push and delete: commit `entries` on top of HEAD, again on a moved ref. It gives up only
        when a request fails, or after five tries. */
    method CommitEntries(id: nat, entries: Change) returns (ok: bool, ghost answers: seq<Answer>)
      requires Valid()
      modifies this
      ensures Valid() && Grows(old(server), server)
      ensures ok ==> LandedSince(old(server), server, Landing(Writer(id), entries))
      ensures Tried(answers, ok) && (answers[|answers| - 1] == Final <==> failed != old(failed))
      ensures quiet ==> ok && HeadTree() == ApplyEntries(old(HeadTree()), entries)
    {
      hide ServerInv, LandedSince;
      ok, answers := false, [];
      var attempt := 0;
      while attempt < TRIES
        invariant Valid() && Grows(old(server), server) && failed == old(failed)
        invariant !ok && attempt == |answers| <= TRIES && forall i :: 0 <= i < |answers| ==> answers[i] == Again
        invariant quiet ==> attempt == 0 && server == old(server)
      {
        ghost var before := server;
        var a := Attempt(id, entries);
        answers := answers + [a];
        if a == Done {
          LandedEarlier(old(server), before, server, Landing(Writer(id), entries));
        }
        if a != Again {
          return a == Done, answers;
        }
        attempt := attempt + 1;
      }
    }

    /** POST git/commits with the head that was read as the only parent. */
    method AddOwnCommit(id: nat, entries: Change, parent: nat, tree: Tree) returns (commit: nat)
      requires Valid() && parent in server.trail
      requires tree == ApplyEntries(server.commits[parent].tree, entries)
      modifies this
      ensures Valid() && Grows(old(server), server)
      ensures commit == |old(server).commits| < |server.commits|
      ensures server == AddCommit(old(server), tree, parent, Landing(Writer(id), entries)) && failed == old(failed)
    {
      AddCommitKeepsInv(server, tree, parent, Landing(Writer(id), entries));
      commit := |server.commits|;
      server := AddCommit(server, tree, parent, Landing(Writer(id), entries));
    }

    /** The part loop of gitDataPush: read the file shard by shard and upload each as a blob. */
    method UploadParts(name: string, data: Bytes, n: nat) returns (ok: bool, entries: Change)
      requires Valid() && n == PartCount(|data|)
      modifies this
      ensures Valid() && Grows(old(server), server)
      ensures ok ==> entries == PartEntries(name, data, UploadedParts(data))
      ensures quiet ==> ok && server == old(server)
    {
      hide PartName, RemotePath, ManifestName;
      hide ServerInv;
      var total := |data|;
      ok, entries := true, [];
      var i, pos := 0, 0;
      while i < n
        invariant 0 <= i <= n && pos == Min(i * SHARD_SIZE, total)
        invariant total > 0 || i == 0
        invariant ok && entries == PartEntries(name, data, i)
        invariant Valid() && Grows(old(server), server)
        invariant quiet ==> server == old(server)
      {
        var rd := Min(SHARD_SIZE, total - pos);
        var buf := data[pos..pos + rd];
        NextPart(name, data, i);
        if rd == 0 {
          break;
        }
        ok := RequestOk();
        if !ok { return; }
        entries := entries + [Put(PartName(name, i), buf)];
        pos := pos + rd;
        i := i + 1;
      }
    }

    /** gitDataPush: upload the parts, then the manifest, then commit them all at once. */
    method GitDataPush(id: nat, name: string, data: Bytes) returns (ok: bool)
      requires Valid()
      modifies this
      ensures Valid() && Grows(old(server), server)
      ensures ok ==> LandedSince(old(server), server, Landing(Writer(id), PushEntries(codec, name, data)))
      ensures quiet ==> ok && HeadTree() == Sharding.GitDataPush(old(HeadTree()), codec, name, data)
    {
      hide PartName, RemotePath, ManifestName;
      hide ServerInv, LandedSince, PartEntries;
      var total := |data|;
      var n := total / SHARD_SIZE;
      if total % SHARD_SIZE != 0 || n == 0 {
        n := n + 1;
      }
      var entries;
      ok, entries := UploadParts(name, data, n);
      if !ok { return; }
      ok := RequestOk();
      if !ok { return; }
      entries := entries + [Put(ManifestName(name), codec.encode(Manifest(n, total)))];
      ghost var before, answers := server, [];
      ok, answers := CommitEntries(id, entries);
      if ok {
        LandedEarlier(old(server), before, server, Landing(Writer(id), entries));
      }
    }

    /** Contents API GET at the branch's current head. */
    method GetRawFile(name: string) returns (r: Result<Bytes>)
      requires Valid()
      modifies this
      ensures Valid() && Grows(old(server), server)
      ensures r.Success? ==> r == GetRaw(HeadTree(), prefix, name)
      ensures quiet ==> server == old(server) && r == GetRaw(HeadTree(), prefix, name)
    {
      var ok := RequestOk();
      r := if ok then GetRaw(HeadTree(), prefix, name) else Failure;
    }

    /** The part loop of shardPull: append part after part and count the bytes written. Each part is read when its
        turn comes, at the moments in `seen`. */
    method PullParts(name: string, shards: int, ghost from: nat)
      returns (r: Result<Bytes>, written: nat, ghost seen: seq<nat>)
      requires Valid() && from < |server.trail|
      modifies this
      ensures Valid() && Grows(old(server), server) && Moments(server, from, seen)
      ensures r.Success? ==> written == |r.value| && |seen| == (if shards < 0 then 0 else shards)
      ensures r.Success? ==> JoinOver(TreesSeen(server, from, seen), prefix, name) == r
      ensures quiet ==> server == old(server)
      ensures quiet ==> r == JoinParts(HeadTree(), prefix, name, if shards < 0 then 0 else shards)
    {
      hide PartName, RemotePath, ManifestName;
      hide ServerInv, Moments, TreesSeen, GetRaw;
      NoMoments(server, from);
      var out: Bytes := [];
      seen, written := [], 0;
      var i := 0;
      while i < shards
        invariant 0 <= i <= (if shards < 0 then 0 else shards)
        invariant written == |out| && |seen| == i
        invariant Valid() && Grows(old(server), server) && Moments(server, from, seen)
        invariant JoinOver(TreesSeen(server, from, seen), prefix, name) == Success(out)
        invariant quiet ==> server == old(server)
        invariant quiet ==> JoinParts(HeadTree(), prefix, name, i) == Success(out)
      {
        ghost var before := server;
        var part := GetRawFile(PartName(name, i));
        SeenStays(before, server, from, seen);
        if part.Failure? {
          if quiet {
            FailedPartFails(HeadTree(), prefix, name, i, shards);
          }
          return Failure, written, seen;
        }
        SeenSnoc(server, from, seen);
        JoinOverSnoc(TreesSeen(server, from, seen), HeadTree(), prefix, name);
        HeadIsLast(server);
        out := out + part.value;
        written := written + |part.value|;
        seen := seen + [|server.trail| - 1];
        i := i + 1;
      }
      return Success(out), written, seen;
    }

    /** shardPull: through the manifest, or the legacy single file when no manifest can be read. `from` is the moment
        that first read succeeded. */
    method ShardPull(name: string) returns (r: Result<Bytes>, ghost from: nat, ghost seen: seq<nat>)
      requires Valid()
      modifies this
      ensures Valid() && Grows(old(server), server)
      ensures |old(server).trail| - 1 <= from < |server.trail| && Moments(server, from, seen)
      ensures r.Success? ==> PulledOver(server, prefix, codec, name, from, seen, r.value)
      ensures quiet ==> server == old(server) && r == Pull(HeadTree(), prefix, codec, name)
    {
      hide PartName, RemotePath, ManifestName;
      hide ServerInv, TreesSeen, JoinOver;
      var mb := GetRawFile(ManifestName(name));
      HeadIsLast(server);
      from, seen := |server.trail| - 1, [];
      if mb.Failure? {
        r := GetRawFile(name);
        HeadIsLast(server);
        from := |server.trail| - 1;
        return;
      }
      var decoded := codec.decode(mb.value);
      if decoded.None? {
        return Failure, from, seen;
      }
      var m := decoded.value;
      var written;
      ghost var before := server;
      r, written, seen := PullParts(name, m.shards, from);
      TreeStays(before, server, from);
      if r.Success? && m.size > 0 && written != m.size {
        return Failure, from, seen;
      }
    }

    /** gitDataDelete: one change that removes every part and the manifest. `read` is the manifest it found, at
        moment `from`; without one, `single` says what became of the single file. */
    method GitDataDelete(id: nat, name: string)
      returns (ok: bool, ghost from: nat, ghost read: Option<Manifest>, ghost single: Deletion)
      requires Valid()
      modifies this
      ensures Valid() && Grows(old(server), server) && |old(server).trail| - 1 <= from < |server.trail|
      ensures read.Some? ==> ReadManifest(TreeAt(server, from), prefix, codec, name) == read
      ensures ok && read.Some? ==> LandedSince(old(server), server, Landing(Writer(id), DeleteEntries(name, read.value.shards)))
      ensures read.None? ==> DeletionIs(old(server), server, RemotePath(prefix, name), ok, single)
      ensures quiet ==> ok && HeadTree() == Sharding.GitDataDelete(old(HeadTree()), prefix, codec, name)
      ensures quiet ==> read == ReadManifest(old(HeadTree()), prefix, codec, name)
    {
      hide PartName, RemotePath, ManifestName;
      hide ServerInv, LandedSince, DeletionIs;
      var mb := GetRawFile(ManifestName(name));
      HeadIsLast(server);
      from, read, single := |server.trail| - 1, None, Deletion(false, 0, Request(false, false, false), false);
      ghost var before := server;
      if mb.Failure? || codec.decode(mb.value).None? {
        ok, single := DelRaw(name);
        DeletionEarlier(old(server), before, server, RemotePath(prefix, name), ok, single);
        return;
      }
      var m := codec.decode(mb.value).value;
      read := Some(m);
      var entries: Change := [];
      var i := 0;
      while i < m.shards
        invariant 0 <= i && (m.shards >= 0 ==> i <= m.shards) && (m.shards < 0 ==> i == 0)
        invariant entries == seq(i, j requires 0 <= j => Remove(PartName(name, j)))
      {
        entries := entries + [Remove(PartName(name, i))];
        i := i + 1;
      }
      entries := entries + [Remove(ManifestName(name))];
      assert entries == DeleteEntries(name, m.shards);
      ghost var answers;
      ok, answers := CommitEntries(id, entries);
      TreeStays(before, server, from);
      if ok {
        LandedEarlier(old(server), before, server, Landing(Writer(id), entries));
      }
    }

    /** delRaw: look the file up and ask to delete the version that was found. A look-up that fails is no error, and
        of the answer to the request only that it came is looked at, not what it says. */
    method DelRaw(name: string) returns (ok: bool, ghost d: Deletion)
      requires Valid()
      modifies this
      ensures Valid() && Grows(old(server), server)
      ensures DeletionIs(old(server), server, RemotePath(prefix, name), ok, d)
      ensures quiet ==> ok && HeadTree() == old(HeadTree()) - {RemotePath(prefix, name)}
      ensures quiet ==> d.found == d.accepted == (RemotePath(prefix, name) in old(HeadTree()))
    {
      hide RemotePath, ServerInv, DeletionIs, TreeAt;
      var known := GetRawFile(name);
      HeadIsLast(server);
      d := Deletion(known.Success?, |server.trail| - 1, Request(false, false, false), false);
      if known.Failure? {
        NothingFound(old(server), server, RemotePath(prefix, name), d);
        return true, d;
      }
      ghost var before := server;
      OthersRun();
      var request := *;
      if quiet {
        request := Request(true, false, true);
      }
      d := Deletion(true, d.at, request, Accepts(server, RemotePath(prefix, name), known.value, request));
      ghost var asked := server;
      if request.reached && !request.refused && GetRaw(HeadTree(), prefix, name) == known {
        Written(Remove(RemotePath(prefix, name)));
      }
      ok := request.reached && request.answered;
      DeletionDone(old(server), before, asked, server, RemotePath(prefix, name), known.value, ok, d);
    }

    /** The server's own commit for a Contents API request. */
    method Written(e: Entry)
      requires Valid()
      modifies this
      ensures Valid() && Grows(old(server), server)
      ensures HeadTree() == ApplyEntry(old(HeadTree()), e)
      ensures server == DirectWrite(old(server), e) && |server.trail| > |old(server).trail|
      ensures server.made[server.trail[|server.trail| - 1]] == Landing(External, [e])
    {
      DirectWriteKeepsInv(server, e);
      assert ApplyEntries(HeadTree(), [e][..0]) == HeadTree();
      server := DirectWrite(server, e);
    }

    /** One try of putRaw: overwrite the version that was looked up. */
    method PutOnce(name: string, data: Bytes) returns (a: Answer)
      requires Valid()
      modifies this
      ensures Valid() && Grows(old(server), server)
      ensures a == Done ==> LandedSince(old(server), server, Landing(External, [Put(RemotePath(prefix, name), data)]))
      ensures quiet ==> a == Done && HeadTree() == old(HeadTree())[RemotePath(prefix, name) := data]
    {
      var known := GetRawFile(name);
      var ok := RequestOk();
      if ok && GetRaw(HeadTree(), prefix, name) == known {
        Written(Put(RemotePath(prefix, name), data));
        assert server.made[server.trail[|server.trail| - 1]] == Landing(External, [Put(RemotePath(prefix, name), data)]);
        var answered := quiet;
        if * {
          answered := true;
        }
        if answered { return Done; }
      }
      // an answer may be no reason to try again
      a := *;
      if quiet || a == Done {
        a := Again;
      }
    }

    /** putRaw: a changed version (409, 422), a lost answer and a busy server are tried again. */
    method PutRaw(name: string, data: Bytes) returns (ok: bool, ghost answers: seq<Answer>)
      requires Valid()
      modifies this
      ensures Valid() && Grows(old(server), server)
      ensures ok ==> LandedSince(old(server), server, Landing(External, [Put(RemotePath(prefix, name), data)]))
      ensures Tried(answers, ok)
      ensures quiet ==> ok && HeadTree() == old(HeadTree())[RemotePath(prefix, name) := data]
    {
      hide ServerInv, LandedSince, RemotePath;
      var attempt := 0;
      ok, answers := false, [];
      while attempt < TRIES
        invariant Valid() && Grows(old(server), server)
        invariant !ok && attempt == |answers| <= TRIES && forall i :: 0 <= i < |answers| ==> answers[i] == Again
        invariant quiet ==> attempt == 0 && server == old(server)
      {
        ghost var before := server;
        var a := PutOnce(name, data);
        answers := answers + [a];
        if a == Done {
          LandedEarlier(old(server), before, server, Landing(External, [Put(RemotePath(prefix, name), data)]));
        }
        if a != Again {
          return a == Done, answers;
        }
        attempt := attempt + 1;
      }
    }

    /** Github.Push under the per-repository mutex. */
    method Push(id: nat, name: string, data: Bytes) returns (ok: bool)
      requires Valid()
      modifies this
      ensures Valid() && Grows(old(server), server)
      ensures ok ==> LandedSince(old(server), server, PushLanding(id, prefix, codec, name, data))
      ensures quiet ==> ok && HeadTree() == Sharding.Push(old(HeadTree()), prefix, codec, name, data)
    {
      if |data| > SHARD_SIZE {
        ok := GitDataPush(id, name, data);
      } else {
        ghost var answers;
        ok, answers := PutRaw(name, data);
      }
    }
  }

  /** The landing a push makes: all parts and the manifest at once, or the server's own commit of one file. */
  function PushLanding(id: nat, prefix: string, codec: Codec, name: string, data: Bytes): Landing {
    if |data| > SHARD_SIZE then Landing(Writer(id), PushEntries(codec, name, data))
    else Landing(External, [Put(RemotePath(prefix, name), data)])
  }

  function ReadManifest(t: Tree, prefix: string, codec: Codec, name: string): Option<Manifest> {
    var mb := GetRaw(t, prefix, ManifestName(name));
    if mb.Failure? then None else codec.decode(mb.value)
  }

  // ----- deleting a single file -----

  /** What happens to one request: whether it reaches the server, is refused there for whatever reason, and is
      answered. */
  datatype Request = Request(reached: bool, refused: bool, answered: bool)

  predicate Accepts(s: Server, p: string, known: Bytes, request: Request)
    requires s.head < |s.commits|
  {
    request.reached && !request.refused && At(s.commits[s.head].tree, p) == {known}
  }

  /** The server after a request to delete the version `known` of a file. */
  function AfterDelete(s: Server, p: string, known: Bytes, request: Request): Server
    requires s.head < |s.commits|
  {
    if Accepts(s, p, known, request) then DirectWrite(s, Remove(p)) else s
  }

  /** A single-file delete: whether the look-up found the file, when that was, what happened to the request, and
      whether the server carried it out. */
  datatype Deletion = Deletion(found: bool, at: nat, request: Request, accepted: bool)

  /** After the look-up no landing other than the deletion itself, which would be the last, touches the path. */
  predicate Spared(s: Server, d: Deletion, p: string)
    requires ServerInv(s)
  {
    forall i :: d.at < i < |s.trail| - (if d.accepted then 1 else 0) ==> !Touches(s.made[s.trail[i]].change, p)
  }

  /** What a single-file delete achieves between states `a` and `b`. A file that was found is reported deleted
      whenever an answer came. It is deleted exactly if the server accepted; and if nobody else touches the path, the
      server accepts exactly what reaches it and is not refused. */
  predicate DeletionIs(a: Server, b: Server, p: string, ok: bool, d: Deletion)
    requires ServerInv(b) && b.head < |b.commits|
  {
    && |a.trail| - 1 <= d.at < |b.trail|
    && (if d.found then p in TreeAt(b, d.at) && ok == (d.request.reached && d.request.answered) else ok && !d.accepted)
    && (d.accepted ==> d.request.reached && !d.request.refused && LandedSince(a, b, Landing(External, [Remove(p)])))
    && (d.found && Spared(b, d, p) ==>
          && (p !in b.commits[b.head].tree <==> d.accepted)
          && (d.accepted <==> d.request.reached && !d.request.refused))
  }

  lemma NothingFound(a: Server, b: Server, p: string, d: Deletion)
    requires ServerInv(a) && ServerInv(b) && Grows(a, b) && b.head < |b.commits|
    requires !d.found && !d.accepted && d.at == |b.trail| - 1
    ensures DeletionIs(a, b, p, true, d)
  {
  }

  lemma DeletionEarlier(a: Server, b: Server, c: Server, p: string, ok: bool, d: Deletion)
    requires ServerInv(a) && ServerInv(b) && ServerInv(c) && Grows(a, b) && Grows(b, c) && c.head < |c.commits|
    requires DeletionIs(b, c, p, ok, d)
    ensures DeletionIs(a, c, p, ok, d)
  {
    hide ServerInv, Spared, TreeAt;
  }

  /** Looked up in state b, asked for in state c, with state e as the result. */
  lemma DeletionDone(a: Server, b: Server, c: Server, e: Server, p: string, known: Bytes, ok: bool, d: Deletion)
    requires ServerInv(a) && ServerInv(b) && ServerInv(c) && ServerInv(e) && Grows(a, b) && Grows(b, c) && Grows(c, e)
    requires b.head < |b.commits| && c.head < |c.commits| && e.head < |e.commits|
    requires At(b.commits[b.head].tree, p) == {known} && e == AfterDelete(c, p, known, d.request)
    requires d.found && d.at == |b.trail| - 1 && d.accepted == Accepts(c, p, known, d.request)
    requires ok == (d.request.reached && d.request.answered)
    ensures DeletionIs(a, e, p, ok, d)
  {
    HeadIsLast(b);
    TreeStays(b, e, d.at);
    Present(b.commits[b.head].tree, p, known);
    if d.accepted {
      RemovedNow(c, p);
      hide TreeAt, Touches;
      LastLanding(a, e, Landing(External, [Remove(p)]));
    } else {
      hide ServerInv, TreeAt, Touches;
      StillThere(b, c, p, known, d);
    }
  }

  /** A file no landing has touched since it was looked up is still the version that was found. */
  lemma StillThere(b: Server, c: Server, p: string, known: Bytes, d: Deletion)
    requires ServerInv(b) && ServerInv(c) && Grows(b, c) && b.head < |b.commits| && c.head < |c.commits|
    requires At(b.commits[b.head].tree, p) == {known} && d.at == |b.trail| - 1 && !d.accepted
    ensures Spared(c, d, p) ==> p in c.commits[c.head].tree && At(c.commits[c.head].tree, p) == {known}
  {
    HeadIsLast(b);
    HeadIsLast(c);
    TreeStays(b, c, d.at);
    hide ServerInv, TreeAt, Touches;
    if Spared(c, d, p) {
      assert Untouched(c, d.at, p);
      ReadsSame(c, d.at, |c.trail| - 1, p);
      Present(c.commits[c.head].tree, p, known);
    }
  }

  lemma Present(t: Tree, p: string, known: Bytes)
    requires At(t, p) == {known}
    ensures p in t && t[p] == known
  {
  }

  lemma RemovedNow(s: Server, p: string)
    requires ServerInv(s) && s.head < |s.commits|
    ensures var s' := DirectWrite(s, Remove(p));
      && |s'.trail| == |s.trail| + 1 && s'.head < |s'.commits| && |s'.made| == |s'.commits|
      && s'.trail[|s.trail|] < |s'.made| && s'.made[s'.trail[|s.trail|]] == Landing(External, [Remove(p)])
      && p !in s'.commits[s'.head].tree
  {
    assert [Remove(p)][..0] == [];
  }

  /** One request for a file that is there as it was looked up: reported as deleted whenever an answer comes, and
      deleted exactly if it was not refused. */
  lemma ReportedDeleteIff(s: Server, p: string, known: Bytes, request: Request)
    requires ServerInv(s) && s.head < |s.commits| && At(s.commits[s.head].tree, p) == {known}
    requires request.reached && request.answered
    ensures var s' := AfterDelete(s, p, known, request);
      && s'.head < |s'.commits|
      && (p !in s'.commits[s'.head].tree <==> !request.refused)
      && (request.refused ==> s' == s)
  {
    Present(s.commits[s.head].tree, p, known);
    RemovedNow(s, p);
  }

  /** A delete that is refused, say because another commit came first, is reported as a success, and the file is
      still there. */
  lemma RefusedDeleteReportsSuccess(p: string, b: Bytes)
    ensures var s := InitServer(map[p := b]); var d := Deletion(true, 0, Request(true, true, true), false);
      && ServerInv(s) && AfterDelete(s, p, b, d.request) == s
      && DeletionIs(s, s, p, true, d) && s.commits[s.head].tree == map[p := b]
  {
    var t := map[p := b];
    var s, d := InitServer(t), Deletion(true, 0, Request(true, true, true), false);
    assert s.commits[s.head].tree == t && p in t && t[p] == b;
    DeletionDone(s, s, s, s, p, b, true, d);
  }

  lemma LandedEarlier(a: Server, b: Server, c: Server, landing: Landing)
    requires ServerInv(a) && ServerInv(b) && ServerInv(c) && Grows(a, b) && Grows(b, c) && LandedSince(b, c, landing)
    ensures LandedSince(a, c, landing)
  {
  }

  lemma LastLanding(a: Server, b: Server, landing: Landing)
    requires ServerInv(b) && |a.trail| < |b.trail| && b.made[b.trail[|b.trail| - 1]] == landing
    ensures LandedSince(a, b, landing)
  {
  }

  lemma HeadIsLast(s: Server)
    requires ServerInv(s)
    ensures |s.trail| > 0 && s.head < |s.commits| && TreeAt(s, |s.trail| - 1) == s.commits[s.head].tree
  {
  }

  lemma NoMoments(s: Server, from: nat)
    requires ServerInv(s)
    ensures Moments(s, from, []) && TreesSeen(s, from, []) == []
  {
  }

  /** What one turn of the part loop reads. */
  lemma NextPart(name: string, data: Bytes, i: nat)
    requires i < PartCount(|data|)
    ensures var pos := Min(i * SHARD_SIZE, |data|); var rd := Min(SHARD_SIZE, |data| - pos);
      && data[pos..pos + rd] == Part(data, i)
      && pos + rd == Min((i + 1) * SHARD_SIZE, |data|)
      && (rd == 0 <==> data == [])
    ensures PartEntries(name, data, i + 1) == PartEntries(name, data, i) + [Put(PartName(name, i), Part(data, i))]
  {
    hide PartName, RemotePath;
    PartBounds(|data|, i);
  }

  lemma PartBounds(total: nat, i: nat)
    requires i < PartCount(total)
    ensures i * SHARD_SIZE <= total && (total > 0 ==> i * SHARD_SIZE < total)
  {
    if total > 0 {
      PartCountIsCeiling(total);
    }
  }

  /** A commit made after state `a` can only be in the part of the trail added since. */
  lemma NewCommitIsNew(a: Server, b: Server, commit: nat, i: nat)
    requires ServerInv(a) && ServerInv(b) && Grows(a, b)
    requires i < |b.trail| && b.trail[i] == commit && commit >= |a.commits|
    ensures |a.trail| <= i
  {
  }

  lemma {:induction false} FailedPartFails(t: Tree, prefix: string, name: string, i: nat, k: nat)
    requires i < k && GetRaw(t, prefix, PartName(name, i)).Failure?
    ensures JoinParts(t, prefix, name, k).Failure?
  {
    hide PartName, RemotePath;
    if i < k - 1 {
      FailedPartFails(t, prefix, name, i, k - 1);
    }
  }
}
