/** The branch of a GitHub repository as the Git Data API exposes it: an object store of commits, one
    movable ref, and a ref update that the server accepts only as a fast-forward.  Trees are modelled by
    their contents (a path to bytes map), which is what a tree sha identifies. */
module GitServer {

  type Bytes = seq<bv8>
  type Tree = map<string, Bytes>

  /** One element of a git/trees request; a null sha removes the path. */
  datatype Entry = Put(path: string, blob: Bytes) | Remove(path: string)
  type Change = seq<Entry>

  function ApplyEntry(t: Tree, e: Entry): Tree {
    match e
    case Put(p, b) => t[p := b]
    case Remove(p) => t - {p}
  }

  /** createTree: the tree that `entries` make on top of a base tree. */
  function ApplyEntries(t: Tree, es: Change): Tree {
    if es == [] then t else ApplyEntry(ApplyEntries(t, es[..|es| - 1]), es[|es| - 1])
  }

  predicate Touches(es: Change, p: string) {
    exists i :: 0 <= i < |es| && es[i].path == p
  }

  predicate UntouchedFrom(es: Change, k: nat, p: string) {
    forall j :: k <= j < |es| ==> es[j].path != p
  }

  /** What a change leaves at a path it touches is decided by the last entry for that path. */
  predicate LastAt(es: Change, p: string, e: Entry) {
    exists i :: 0 <= i < |es| && es[i] == e && e.path == p && UntouchedFrom(es, i + 1, p)
  }

  function Outcome(e: Entry): (blob: set<Bytes>) {
    match e
    case Put(_, b) => {b}
    case Remove(_) => {}
  }

  /** The blob at a path, as a set of at most one element. */
  function At(t: Tree, p: string): set<Bytes> {
    if p in t then {t[p]} else {}
  }

  lemma {:induction false} UntouchedPath(t: Tree, es: Change, p: string)
    requires !Touches(es, p)
    ensures At(ApplyEntries(t, es), p) == At(t, p)
  {
    if es != [] {
      var n := |es| - 1;
      assert es[n].path != p;
      forall i | 0 <= i < n
        ensures es[..n][i].path != p
      {
        assert es[i].path != p;
      }
      UntouchedPath(t, es[..n], p);
    }
  }

  lemma {:induction false} TouchedPath(t: Tree, es: Change, p: string, e: Entry)
    requires LastAt(es, p, e)
    ensures At(ApplyEntries(t, es), p) == Outcome(e)
  {
    var n := |es| - 1;
    var i :| 0 <= i < |es| && es[i] == e && e.path == p && UntouchedFrom(es, i + 1, p);
    if i < n {
      assert es[n].path != p;
      assert es[..n][i] == e && UntouchedFrom(es[..n], i + 1, p);
      TouchedPath(t, es[..n], p, e);
    }
  }

  // ----- commits and the fast-forward rule -----

  datatype Commit = Commit(tree: Tree, parents: seq<nat>)

  /** One of the modelled writers, or anybody else who commits to the branch. */
  datatype Author = Writer(id: nat) | External

  /** Who made a commit and with what change: a history variable, not part of the stored object. */
  datatype Landing = Landing(author: Author, change: Change)

  /** `commits` is indexed by commit id.  `made` and `trail` are history variables: the landing behind
      every commit, and the ids the branch has pointed to, oldest first. */
  datatype Server = Server(commits: seq<Commit>, head: nat, made: seq<Landing>, trail: seq<nat>)

  function InitServer(t: Tree): Server {
    Server([Commit(t, [])], 0, [Landing(External, [])], [0])
  }

  predicate ParentsOlder(commits: seq<Commit>) {
    forall c, i :: 0 <= c < |commits| && 0 <= i < |commits[c].parents| ==> commits[c].parents[i] < c
  }

  /** Reachability through parent links, for commits with any number of parents. */
  predicate Ancestor(commits: seq<Commit>, a: nat, c: nat)
    requires ParentsOlder(commits) && c < |commits|
    decreases c
  {
    a == c || exists i :: 0 <= i < |commits[c].parents| && Ancestor(commits, a, commits[c].parents[i])
  }

  lemma {:induction false} AncestorIsOlder(commits: seq<Commit>, a: nat, c: nat)
    requires ParentsOlder(commits) && c < |commits| && Ancestor(commits, a, c)
    ensures a <= c
    decreases c
  {
    if a != c {
      var i :| 0 <= i < |commits[c].parents| && Ancestor(commits, a, commits[c].parents[i]);
      AncestorIsOlder(commits, a, commits[c].parents[i]);
    }
  }

  /** POST git/commits: a new object; the branch does not move. */
  function AddCommit(s: Server, tree: Tree, parent: nat, landing: Landing): Server {
    s.(commits := s.commits + [Commit(tree, [parent])], made := s.made + [landing])
  }

  /** PATCH git/refs with force=false: accepted only when the branch is an ancestor of the new commit. */
  predicate FastForward(s: Server, c: nat) {
    c < |s.commits| && ParentsOlder(s.commits) && Ancestor(s.commits, s.head, c)
  }

  function MoveRef(s: Server, c: nat): Server {
    if FastForward(s, c) && c != s.head then s.(head := c, trail := s.trail + [c]) else s
  }

  /** A Contents API write: the server itself commits on top of HEAD and moves the branch. */
  function DirectWrite(s: Server, e: Entry): Server
    requires s.head < |s.commits|
  {
    var landing := Landing(External, [e]);
    var added := AddCommit(s, ApplyEntries(s.commits[s.head].tree, landing.change), s.head, landing);
    added.(head := |s.commits|, trail := s.trail + [|s.commits|])
  }

  predicate Increasing(trail: seq<nat>) {
    forall i, j :: 0 <= i < j < |trail| ==> trail[i] < trail[j]
  }

  /** Every commit after the first was built on one commit the branch once pointed to, with exactly the
      tree its change makes there. */
  predicate CommitOk(s: Server, c: nat)
    requires 0 < c < |s.commits| && |s.made| == |s.commits|
  {
    && |s.commits[c].parents| == 1
    && s.commits[c].parents[0] < c
    && s.commits[c].parents[0] in s.trail
    && s.commits[c].tree == ApplyEntries(s.commits[s.commits[c].parents[0]].tree, s.made[c].change)
  }

  predicate ServerInv(s: Server) {
    && |s.made| == |s.commits|
    && 0 < |s.commits| && s.commits[0].parents == []
    && (forall c :: 0 < c < |s.commits| ==> CommitOk(s, c))
    && ParentsOlder(s.commits)
    && 0 < |s.trail| && s.trail[0] == 0 && s.trail[|s.trail| - 1] == s.head
    && (forall i :: 0 <= i < |s.trail| ==> s.trail[i] < |s.commits|)
    && Increasing(s.trail)
    && (forall i :: 0 < i < |s.trail| ==> s.commits[s.trail[i]].parents == [s.trail[i - 1]])
  }

  lemma HeadIsOnTrail(s: Server)
    requires ServerInv(s)
    ensures s.head < |s.commits| && |s.made| == |s.commits| && |s.trail| > 0
    ensures s.head in s.trail && forall i :: 0 <= i < |s.trail| ==> s.trail[i] < |s.commits|
  {
    assert s.trail[|s.trail| - 1] == s.head;
  }

  /** The server only ever grows: objects stay, and the branch's history is never rewritten. */
  predicate Grows(a: Server, b: Server) {
    a.commits <= b.commits && a.made <= b.made && a.trail <= b.trail
  }

  lemma AddCommitKeepsInv(s: Server, tree: Tree, parent: nat, landing: Landing)
    requires ServerInv(s) && parent in s.trail
    requires tree == ApplyEntries(s.commits[parent].tree, landing.change)
    ensures ServerInv(AddCommit(s, tree, parent, landing)) && Grows(s, AddCommit(s, tree, parent, landing))
  {
    var s' := AddCommit(s, tree, parent, landing);
    forall c | 0 < c < |s'.commits|
      ensures CommitOk(s', c)
    {
      if c < |s.commits| {
        assert CommitOk(s, c);
      }
    }
  }

  /** The heart of the protocol: a commit built on a past HEAD is a fast-forward only if that past HEAD is
      still the HEAD, or the commit has already landed and nothing has moved since. */
  lemma FastForwardMeansOnHead(s: Server, c: nat)
    requires ServerInv(s) && 0 < c < |s.commits|
    ensures FastForward(s, c) <==> c == s.head || s.commits[c].parents == [s.head]
  {
    assert CommitOk(s, c);
    var p := s.commits[c].parents[0];
    var k :| 0 <= k < |s.trail| && s.trail[k] == p;
    if FastForward(s, c) && c != s.head {
      assert Ancestor(s.commits, s.head, p);
      AncestorIsOlder(s.commits, s.head, p);
      assert k == |s.trail| - 1;
    }
    if s.commits[c].parents == [s.head] {
      assert Ancestor(s.commits, s.head, s.commits[c].parents[0]);
    }
  }

  lemma MoveRefKeepsInv(s: Server, c: nat)
    requires ServerInv(s)
    ensures ServerInv(MoveRef(s, c)) && Grows(s, MoveRef(s, c))
  {
    var s' := MoveRef(s, c);
    if s' != s {
      if c == 0 {
        AncestorIsOlder(s.commits, s.head, c);
        assert false;
      }
      FastForwardMeansOnHead(s, c);
      assert CommitOk(s, c);
      forall k | 0 < k < |s'.commits|
        ensures CommitOk(s', k)
      {
        assert CommitOk(s, k);
        var i :| 0 <= i < |s.trail| && s.trail[i] == s.commits[k].parents[0];
        assert s'.trail[i] == s.commits[k].parents[0];
      }
    }
  }

  lemma DirectWriteKeepsInv(s: Server, e: Entry)
    requires ServerInv(s)
    ensures ServerInv(DirectWrite(s, e)) && Grows(s, DirectWrite(s, e))
  {
    var landing := Landing(External, [e]);
    var added := AddCommit(s, ApplyEntries(s.commits[s.head].tree, landing.change), s.head, landing);
    assert s.trail[|s.trail| - 1] in s.trail;
    AddCommitKeepsInv(s, ApplyEntries(s.commits[s.head].tree, landing.change), s.head, landing);
    var c := |s.commits|;
    assert CommitOk(added, c);
    assert Ancestor(added.commits, s.head, added.commits[c].parents[0]);
    assert FastForward(added, c);
    MoveRefKeepsInv(added, c);
    assert MoveRef(added, c) == DirectWrite(s, e);
  }

  // ----- the history of the branch -----

  /** The landings of the branch, in ref-update order. */
  function Log(s: Server): (log: seq<Landing>)
    requires ServerInv(s)
    ensures |log| == |s.trail| - 1
  {
    seq(|s.trail| - 1, i requires 0 <= i < |s.trail| - 1 => s.made[s.trail[i + 1]])
  }

  /** The tree that a log of landings makes from an initial tree. */
  function Fold(t: Tree, log: seq<Landing>): Tree {
    if log == [] then t else ApplyEntries(Fold(t, log[..|log| - 1]), log[|log| - 1].change)
  }

  /** The tree at any point of the branch is the fold of the landings up to there. */
  lemma {:induction false} TreeIsFold(s: Server, k: nat)
    requires ServerInv(s) && k < |s.trail|
    ensures s.commits[s.trail[k]].tree == Fold(s.commits[0].tree, Log(s)[..k])
  {
    if k > 0 {
      TreeIsFold(s, k - 1);
      assert Log(s)[..k][..k - 1] == Log(s)[..k - 1];
      assert CommitOk(s, s.trail[k]);
    } else {
      assert Log(s)[..0] == [];
    }
  }

  /** If landing i leaves `e` at a path and no later landing touches the path, HEAD has exactly that. */
  lemma {:induction false} FoldKeeps(t: Tree, log: seq<Landing>, i: nat, p: string, e: Entry)
    requires i < |log| && LastAt(log[i].change, p, e)
    requires forall k :: i < k < |log| ==> !Touches(log[k].change, p)
    ensures At(Fold(t, log), p) == Outcome(e)
  {
    var n := |log| - 1;
    if i == n {
      TouchedPath(Fold(t, log[..n]), log[n].change, p, e);
    } else {
      assert log[..n][i] == log[i];
      FoldKeeps(t, log[..n], i, p, e);
      UntouchedPath(Fold(t, log[..n]), log[n].change, p);
    }
  }

  lemma LogGrows(a: Server, b: Server)
    requires ServerInv(a) && ServerInv(b) && Grows(a, b)
    ensures Log(a) <= Log(b)
  {
    forall i | 0 <= i < |a.trail| - 1
      ensures Log(a)[i] == Log(b)[i]
    {
      assert a.trail[i + 1] == b.trail[i + 1];
    }
  }

  /** The branch has moved to a commit with this landing since server state `a`. */
  predicate LandedSince(a: Server, b: Server, landing: Landing)
    requires ServerInv(b)
  {
    exists i :: |a.trail| <= i < |b.trail| && b.made[b.trail[i]] == landing
  }
}
