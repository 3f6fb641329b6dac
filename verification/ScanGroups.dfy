/** The scan of a whole node: containers with equal references share their registry requests, a pool of workers
    handles the groups side by side, and the outcome is that of scanning every container alone. */
module ScanGroups {
  import opened Text
  import opened ImageRef
  import opened Semver
  import opened UpdateScan

  datatype Group = Group(ref: string, indices: seq<nat>)

  // ----- grouping -----

  predicate Grouped(items: seq<Item>, i: nat)
    requires i < |items|
  {
    Eligible(items[i].updateType)
  }

  predicate Member(ref: string, items: seq<Item>, i: nat) {
    i < |items| && Grouped(items, i) && CanonicalImageRef(items[i].image) == CanonicalImageRef(ref)
  }

  /** The members of a group, in order: eligible, and all with the key of the group's reference. */
  predicate IsGroup(g: Group, items: seq<Item>) {
    && g.indices != []
    && (forall p :: 0 <= p < |g.indices| ==> Member(g.ref, items, g.indices[p]))
    && (forall p, q :: 0 <= p < q < |g.indices| ==> g.indices[p] < g.indices[q])
    && g.ref == items[g.indices[0]].image
  }

  predicate KeysDiffer(groups: seq<Group>) {
    forall g, h :: 0 <= g < h < |groups| ==> CanonicalImageRef(groups[g].ref) != CanonicalImageRef(groups[h].ref)
  }

  predicate Covered(groups: seq<Group>, i: nat) {
    exists g, p :: 0 <= g < |groups| && 0 <= p < |groups[g].indices| && groups[g].indices[p] == i
  }

  /** The groups split the first n eligible indices among themselves. */
  predicate Partition(groups: seq<Group>, items: seq<Item>, n: nat)
    requires n <= |items|
  {
    && (forall g :: 0 <= g < |groups| ==> IsGroup(groups[g], items))
    && KeysDiffer(groups)
    && (forall i :: 0 <= i < n && Grouped(items, i) ==> Covered(groups, i))
    && (forall g, p :: 0 <= g < |groups| && 0 <= p < |groups[g].indices| ==> groups[g].indices[p] < n)
  }

  /** No index is in two groups, or twice in one. */
  lemma PlacesDiffer(groups: seq<Group>, items: seq<Item>, g: nat, p: nat, h: nat, q: nat)
    requires Partition(groups, items, |items|)
    requires g < |groups| && p < |groups[g].indices| && h < |groups| && q < |groups[h].indices|
    requires groups[g].indices[p] == groups[h].indices[q]
    ensures g == h && p == q
  {
    hide CanonicalImageRef;
    assert IsGroup(groups[g], items) && IsGroup(groups[h], items);
    assert CanonicalImageRef(groups[g].ref) == CanonicalImageRef(groups[h].ref);
    assert g == h;
  }

  function Append(groups: seq<Group>, at: nat, i: nat): seq<Group>
    requires at < |groups|
  {
    groups[at := groups[at].(indices := groups[at].indices + [i])]
  }

  lemma JoinsGroup(groups: seq<Group>, items: seq<Item>, n: nat, at: nat)
    requires n < |items| && Partition(groups, items, n) && Grouped(items, n)
    requires at < |groups| && CanonicalImageRef(groups[at].ref) == CanonicalImageRef(items[n].image)
    ensures Partition(Append(groups, at, n), items, n + 1)
  {
    hide CanonicalImageRef, Grouped;
    var more := Append(groups, at, n);
    assert Member(groups[at].ref, items, n);
    GroupGrows(groups[at], items, n);
    KeysKept(groups, at, n);
    hide KeysDiffer, Member;
    forall g | 0 <= g < |more|
      ensures IsGroup(more[g], items) && more[g].ref == groups[g].ref
    {
      assert IsGroup(groups[g], items);
    }
    hide IsGroup;
    forall i | 0 <= i < n + 1 && Grouped(items, i)
      ensures Covered(more, i)
    {
      if i == n {
        assert more[at].indices[|groups[at].indices|] == n;
      } else {
        CoveredMore(groups, more, i);
      }
    }
  }

  lemma KeysKept(groups: seq<Group>, at: nat, i: nat)
    requires KeysDiffer(groups) && at < |groups|
    ensures KeysDiffer(Append(groups, at, i))
  {
    hide CanonicalImageRef;
    var more := Append(groups, at, i);
    assert forall g :: 0 <= g < |groups| ==> more[g].ref == groups[g].ref;
  }

  lemma GroupGrows(g: Group, items: seq<Item>, n: nat)
    requires IsGroup(g, items) && Member(g.ref, items, n) && forall p :: 0 <= p < |g.indices| ==> g.indices[p] < n
    ensures IsGroup(g.(indices := g.indices + [n]), items)
  {
    hide Member;
    assert Member(g.ref, items, g.indices[0]) ==> g.indices[0] < |items| by { MemberIn(g.ref, items, g.indices[0]); }
  }

  lemma MemberIn(ref: string, items: seq<Item>, i: nat)
    requires Member(ref, items, i)
    ensures i < |items|
  {
  }

  lemma CoveredMore(groups: seq<Group>, more: seq<Group>, i: nat)
    requires Covered(groups, i) && |groups| <= |more| && forall g :: 0 <= g < |groups| ==> groups[g].indices <= more[g].indices
    ensures Covered(more, i)
  {
    var g, p :| 0 <= g < |groups| && 0 <= p < |groups[g].indices| && groups[g].indices[p] == i;
    assert groups[g].indices <= more[g].indices;
    assert more[g].indices[p] == i;
  }

  lemma OpensGroup(groups: seq<Group>, items: seq<Item>, n: nat)
    requires n < |items| && Partition(groups, items, n) && Grouped(items, n)
    requires forall g :: 0 <= g < |groups| ==> CanonicalImageRef(groups[g].ref) != CanonicalImageRef(items[n].image)
    ensures Partition(groups + [Group(items[n].image, [n])], items, n + 1)
  {
    hide CanonicalImageRef, Grouped;
    var single := Group(items[n].image, [n]);
    var more := groups + [single];
    assert IsGroup(single, items);
    hide IsGroup, Member;
    forall i | 0 <= i < n + 1 && Grouped(items, i)
      ensures Covered(more, i)
    {
      if i == n {
        assert more[|groups|].indices[0] == n;
      } else {
        CoveredMore(groups, more, i);
      }
    }
  }

  /** The keys seen so far and where their groups are. */
  predicate KeyTable(table: map<string, nat>, groups: seq<Group>) {
    && (forall k :: k in table ==> table[k] < |groups| && CanonicalImageRef(groups[table[k]].ref) == k)
    && (forall g :: 0 <= g < |groups| ==> CanonicalImageRef(groups[g].ref) in table)
  }

  method GroupItems(items: seq<Item>) returns (groups: seq<Group>)
    ensures Partition(groups, items, |items|)
  {
    hide CanonicalImageRef, Partition, KeyTable;
    groups := [];
    var byKey: map<string, nat> := map[];
    var i := 0;
    NoGroups(items);
    while i < |items|
      invariant 0 <= i <= |items|
      invariant Partition(groups, items, i) && KeyTable(byKey, groups)
    {
      if Eligible(items[i].updateType) {
        var key := CanonicalImageRef(items[i].image);
        TableFacts(byKey, groups, key);
        if key in byKey {
          JoinsGroup(groups, items, i, byKey[key]);
          TableJoin(byKey, groups, byKey[key], i);
          groups := Append(groups, byKey[key], i);
        } else {
          OpensGroup(groups, items, i);
          TableOpen(byKey, groups, items[i].image, i);
          byKey := byKey[key := |groups|];
          groups := groups + [Group(items[i].image, [i])];
        }
      } else {
        NotGrouped(groups, items, i);
      }
      i := i + 1;
    }
  }

  lemma NoGroups(items: seq<Item>)
    ensures Partition([], items, 0) && KeyTable(map[], [])
  {
  }

  lemma NotGrouped(groups: seq<Group>, items: seq<Item>, n: nat)
    requires n < |items| && Partition(groups, items, n) && !Grouped(items, n)
    ensures Partition(groups, items, n + 1)
  {
    hide CanonicalImageRef;
  }

  lemma TableFacts(table: map<string, nat>, groups: seq<Group>, key: string)
    requires KeyTable(table, groups)
    ensures key in table ==> table[key] < |groups| && CanonicalImageRef(groups[table[key]].ref) == key
    ensures key !in table ==> forall g :: 0 <= g < |groups| ==> CanonicalImageRef(groups[g].ref) != key
  {
    hide CanonicalImageRef;
  }

  lemma TableJoin(table: map<string, nat>, groups: seq<Group>, at: nat, i: nat)
    requires KeyTable(table, groups) && at < |groups|
    ensures KeyTable(table, Append(groups, at, i))
  {
    hide CanonicalImageRef;
  }

  lemma TableOpen(table: map<string, nat>, groups: seq<Group>, ref: string, i: nat)
    requires KeyTable(table, groups) && CanonicalImageRef(ref) !in table
    ensures KeyTable(table[CanonicalImageRef(ref) := |groups|], groups + [Group(ref, [i])])
  {
    hide CanonicalImageRef;
  }

  // ----- one group is every member alone -----

  /** References as the comparison needs them: lower case, no digest. */
  predicate Comparable(ref: string) {
    WellSpelled(ref) && '@' !in ref
  }

  lemma SameParseSameProbe(w: World, pre: Prerelease, a: string, b: string)
    requires ParseRef(a) == ParseRef(b) && '@' !in a && '@' !in b
    ensures ProbeRef(w, pre, a) == ProbeRef(w, pre, b)
    ensures forall t :: ImageRepoTag(a, t) == ImageRepoTag(b, t)
  {
    hide ParseRef, HighestCompatible, Newest, FloatingOrLatest, StripDigest, TagsFor, DigestFor, ImageRepoTag;
    ParseStripped(a);
    ParseStripped(b);
    forall t
      ensures ImageRepoTag(a, t) == ImageRepoTag(b, t)
    {
      RetagByParse(a, b, t);
    }
    AskedByParse(w, a, b);
    AskedByParse(w, StripDigest(a), StripDigest(b));
  }

  lemma RetagByParse(a: string, b: string, t: string)
    requires ParseRef(a) == ParseRef(b)
    ensures ImageRepoTag(a, t) == ImageRepoTag(b, t)
  {
    hide ParseRef;
  }

  /** The registry is asked by parsed reference. */
  lemma AskedByParse(w: World, a: string, b: string)
    requires ParseRef(a) == ParseRef(b)
    ensures TagsFor(w, a) == TagsFor(w, b) && DigestFor(w, a) == DigestFor(w, b)
  {
    hide ParseRef;
  }

  lemma ParseStripped(ref: string)
    requires '@' !in ref
    ensures ParseRef(StripDigest(ref)) == ParseRef(ref)
  {
    hide LastIndex, Named, Untagged, TagOf;
    TrimSpaceTrims(ref);
    hide TrimSpace, Trimmed;
    assert StripDigest(ref) == TrimSpace(ref);
    assert '@' !in TrimSpace(ref);
  }

  /** Scanning a container with its group's reference is scanning it alone. */
  lemma GroupIsAlone(w: World, pre: Prerelease, ref: string, imageId: string, item: Item)
    requires Comparable(ref) && Comparable(item.image) && CanonicalImageRef(ref) == CanonicalImageRef(item.image)
    ensures Scanned(w, pre, ref, imageId, item) == Scanned(w, pre, item.image, imageId, item)
  {
    hide WellSpelled, CanonicalImageRef, ParseRef, ProbeRef, Local, ImageRepoTag, FloatingOrLatest, Parse, Above, SameTag;
    SameKeyIff(ref, item.image);
    SameParseSameProbe(w, pre, ref, item.image);
  }

  /** What is known about an image id holds for every reference of the group. */
  predicate MemoFits(w: World, memo: map<string, Reply<string>>, ref: string) {
    forall id :: id in memo ==> memo[id] == Local(w, id, ref)
  }

  lemma LocalByKey(w: World, imageId: string, a: string, b: string)
    requires CanonicalImageRef(a) == CanonicalImageRef(b)
    ensures Local(w, imageId, a) == Local(w, imageId, b)
  {
    hide CanonicalImageRef, CanonicalRepository, FirstDigest, TrimSpace;
    SameKeySameRepository(a, b);
    if w.repoDigests(imageId).Got? {
      FirstDigestByRepository(w.repoDigests(imageId).value, a, b);
    }
  }

  /** One group, in place: each member becomes what its own scan would make of it, whatever is not in the group
      stays. The local side is looked up once per image id. */
  method ApplyRegistryScanGroup(w: World, pre: Prerelease, group: Group, items: array<Item>, imageIds: seq<string>)
    requires |imageIds| == items.Length && IsGroup(group, items[..])
    modifies items
    ensures forall i :: 0 <= i < items.Length && i !in group.indices ==> items[i] == old(items[i])
    ensures forall p :: 0 <= p < |group.indices| ==>
      items[group.indices[p]] == Scanned(w, pre, group.ref, imageIds[group.indices[p]], old(items[group.indices[p]]))
  {
    hide CanonicalImageRef, ParseRef, ProbeRef, Decide, Local, Grouped;
    ghost var before := items[..];
    var probe := ProbeRef(w, pre, group.ref);
    var memo: map<string, Reply<string>> := map[];
    var p := 0;
    while p < |group.indices|
      invariant 0 <= p <= |group.indices|
      invariant MemoFits(w, memo, group.ref)
      invariant forall i :: 0 <= i < items.Length && i !in group.indices[..p] ==> items[i] == before[i]
      invariant forall q :: 0 <= q < p ==>
        items[group.indices[q]] == Scanned(w, pre, group.ref, imageIds[group.indices[q]], before[group.indices[q]])
    {
      var idx := group.indices[p];
      assert idx !in group.indices[..p];
      var id := imageIds[idx];
      var image := items[idx].image;
      LocalByKey(w, id, image, group.ref);
      if id !in memo {
        memo := memo[id := Local(w, id, image)];
      }
      var judged := Judge(w, pre, group.ref, probe, memo[id], items[idx]);
      items[idx] := judged;
      p := p + 1;
    }
    assert group.indices[..p] == group.indices;
  }

  // ----- the worker pool -----

  datatype Worker = Idle | Busy(g: nat, pos: nat, memo: map<string, Reply<string>>)

  datatype Pool = Pool(items: seq<Item>, next: nat, workers: seq<Worker>)

  /** A worker takes the next group, or handles the next index of its group. */
  datatype Move = Take(k: nat) | Do(k: nat)

  /** What does not change during a scan. */
  datatype Setup = Setup(w: World, pre: Prerelease, groups: seq<Group>, items: seq<Item>, imageIds: seq<string>)

  ghost predicate ValidSetup(c: Setup) {
    && |c.imageIds| == |c.items| && Partition(c.groups, c.items, |c.items|)
    && forall i :: 0 <= i < |c.items| && Grouped(c.items, i) ==> Comparable(c.items[i].image)
  }

  function Handle(c: Setup, s: Pool, k: nat): Pool
    requires k < |s.workers| && s.workers[k].Busy?
  {
    var b := s.workers[k];
    if b.g >= |c.groups| || b.pos >= |c.groups[b.g].indices| then s.(workers := s.workers[k := Idle])
    else
      var group := c.groups[b.g];
      var idx := group.indices[b.pos];
      if idx >= |s.items| || idx >= |c.imageIds| then s
      else
        var id := c.imageIds[idx];
        var local := if id in b.memo then b.memo[id] else Local(c.w, id, s.items[idx].image);
        s.(items := s.items[idx := Decide(ProbeRef(c.w, c.pre, group.ref), group.ref, local, s.items[idx])],
           workers := s.workers[k := Busy(b.g, b.pos + 1, b.memo[id := local])])
  }

  function Next(c: Setup, s: Pool, m: Move): Pool {
    if m.k >= |s.workers| then s
    else
      match m
      case Take(k) =>
        if s.workers[k].Idle? && s.next < |c.groups|
        then s.(workers := s.workers[k := Busy(s.next, 0, map[])], next := s.next + 1) else s
      case Do(k) => if s.workers[k].Busy? then Handle(c, s, k) else s
  }

  function Start(c: Setup, workers: nat): Pool {
    Pool(c.items, 0, seq(workers, _ => Idle))
  }

  function Run(c: Setup, workers: nat, moves: seq<Move>): Pool {
    if moves == [] then Start(c, workers) else Next(c, Run(c, workers, moves[..|moves| - 1]), moves[|moves| - 1])
  }

  predicate Finished(c: Setup, s: Pool) {
    s.next == |c.groups| && forall k :: 0 <= k < |s.workers| ==> s.workers[k].Idle?
  }

  /** Member p of group g has been handled: its group was handed out and no worker is still before it. */
  predicate Handled(s: Pool, g: nat, p: nat) {
    g < s.next && forall k :: 0 <= k < |s.workers| && s.workers[k].Busy? && s.workers[k].g == g ==> p < s.workers[k].pos
  }

  ghost predicate ItemIs(c: Setup, s: Pool, g: nat, p: nat)
    requires |s.items| == |c.items| == |c.imageIds| && g < |c.groups| && p < |c.groups[g].indices| && c.groups[g].indices[p] < |c.items|
  {
    var i := c.groups[g].indices[p];
    s.items[i] == if Handled(s, g, p) then Alone(c.w, c.pre, c.imageIds[i], c.items[i]) else c.items[i]
  }

  ghost predicate WorkersOk(c: Setup, s: Pool) {
    && s.next <= |c.groups|
    && (forall k :: 0 <= k < |s.workers| && s.workers[k].Busy? ==>
          && s.workers[k].g < s.next && s.workers[k].pos <= |c.groups[s.workers[k].g].indices|
          && MemoFits(c.w, s.workers[k].memo, c.groups[s.workers[k].g].ref))
    && (forall j, k :: 0 <= j < k < |s.workers| && s.workers[j].Busy? && s.workers[k].Busy? ==> s.workers[j].g != s.workers[k].g)
  }

  ghost predicate PlaceOk(c: Setup, g: nat, p: nat) {
    g < |c.groups| && p < |c.groups[g].indices| && c.groups[g].indices[p] < |c.items|
  }

  ghost predicate ItemsOk(c: Setup, s: Pool) {
    && |s.items| == |c.items| == |c.imageIds|
    && (forall g, p :: PlaceOk(c, g, p) ==> ItemIs(c, s, g, p))
    && (forall i :: 0 <= i < |c.items| && !Grouped(c.items, i) ==> s.items[i] == c.items[i])
  }

  lemma PlacesOk(c: Setup, g: nat, p: nat)
    requires ValidSetup(c) && g < |c.groups| && p < |c.groups[g].indices|
    ensures PlaceOk(c, g, p) && |c.imageIds| == |c.items|
    ensures var i := c.groups[g].indices[p];
      && Grouped(c.items, i) && CanonicalImageRef(c.items[i].image) == CanonicalImageRef(c.groups[g].ref)
      && Comparable(c.items[i].image) && Comparable(c.groups[g].ref)
  {
    hide CanonicalImageRef, Comparable, KeysDiffer;
    assert IsGroup(c.groups[g], c.items);
    assert Grouped(c.items, c.groups[g].indices[0]);
  }

  /** Handling a member writes what its scan alone would. */
  lemma HandleWrites(c: Setup, g: nat, p: nat, memo: map<string, Reply<string>>)
    requires ValidSetup(c) && PlaceOk(c, g, p) && MemoFits(c.w, memo, c.groups[g].ref)
    ensures var i := c.groups[g].indices[p]; var id, ref := c.imageIds[i], c.groups[g].ref;
      var local := if id in memo then memo[id] else Local(c.w, id, c.items[i].image);
      && Decide(ProbeRef(c.w, c.pre, ref), ref, local, c.items[i]) == Alone(c.w, c.pre, id, c.items[i])
      && MemoFits(c.w, memo[id := local], ref)
  {
    hide ValidSetup, CanonicalImageRef, Comparable, ProbeRef, Decide, Local;
    PlacesOk(c, g, p);
    var i := c.groups[g].indices[p];
    LocalByKey(c.w, c.imageIds[i], c.items[i].image, c.groups[g].ref);
    GroupIsAlone(c.w, c.pre, c.groups[g].ref, c.imageIds[i], c.items[i]);
  }

  lemma TakeKeeps(c: Setup, s: Pool, k: nat)
    requires WorkersOk(c, s) && ItemsOk(c, s)
    ensures WorkersOk(c, Next(c, s, Take(k))) && ItemsOk(c, Next(c, s, Take(k)))
  {
    hide Alone, Grouped, Local;
    var s' := Next(c, s, Take(k));
    if s' != s {
      assert MemoFits(c.w, map[], c.groups[s.next].ref);
      forall g: nat, p: nat | PlaceOk(c, g, p)
        ensures ItemIs(c, s', g, p)
      {
        assert ItemIs(c, s, g, p);
        if g == s.next {
          assert s'.workers[k].g == g && s'.workers[k].pos == 0;
        } else {
          assert forall j :: 0 <= j < |s.workers| && j != k ==> s'.workers[j] == s.workers[j];
          assert Handled(s', g, p) == Handled(s, g, p);
        }
      }
    }
  }

  /** The index a busy worker is at is still untouched. */
  lemma HandleKeeps(c: Setup, s: Pool, k: nat)
    requires ValidSetup(c) && WorkersOk(c, s) && ItemsOk(c, s) && k < |s.workers| && s.workers[k].Busy?
    ensures WorkersOk(c, Handle(c, s, k)) && ItemsOk(c, Handle(c, s, k))
  {
    hide Alone, Grouped, Local, Decide, ProbeRef, MemoFits, ValidSetup, Partition;
    var b := s.workers[k];
    var s' := Handle(c, s, k);
    if b.pos >= |c.groups[b.g].indices| {
      WorkerStops(c, s, k);
    } else {
      PlacesOk(c, b.g, b.pos);
      HandleWrites(c, b.g, b.pos, b.memo);
      assert ItemIs(c, s, b.g, b.pos);
      assert !Handled(s, b.g, b.pos);
      WorkerMoves(c, s, k);
    }
  }

  lemma WorkerStops(c: Setup, s: Pool, k: nat)
    requires WorkersOk(c, s) && ItemsOk(c, s) && k < |s.workers| && s.workers[k].Busy?
    requires s.workers[k].pos >= |c.groups[s.workers[k].g].indices|
    ensures var s' := s.(workers := s.workers[k := Idle]); WorkersOk(c, s') && ItemsOk(c, s')
  {
    hide Alone, Grouped, MemoFits;
    var s' := s.(workers := s.workers[k := Idle]);
    forall g: nat, p: nat | PlaceOk(c, g, p)
      ensures ItemIs(c, s', g, p)
    {
      assert ItemIs(c, s, g, p);
      assert forall j :: 0 <= j < |s.workers| && j != k ==> s'.workers[j] == s.workers[j];
      assert Handled(s', g, p) == Handled(s, g, p);
    }
  }

  lemma WorkerMoves(c: Setup, s: Pool, k: nat)
    requires ValidSetup(c) && WorkersOk(c, s) && ItemsOk(c, s) && k < |s.workers| && s.workers[k].Busy?
    requires var b := s.workers[k]; PlaceOk(c, b.g, b.pos)
    requires var b := s.workers[k]; var i := c.groups[b.g].indices[b.pos]; var id, ref := c.imageIds[i], c.groups[b.g].ref;
      var local := if id in b.memo then b.memo[id] else Local(c.w, id, c.items[i].image);
      && s.items[i] == c.items[i] && Grouped(c.items, i)
      && Decide(ProbeRef(c.w, c.pre, ref), ref, local, c.items[i]) == Alone(c.w, c.pre, id, c.items[i])
      && MemoFits(c.w, b.memo[id := local], ref)
    ensures WorkersOk(c, Handle(c, s, k)) && ItemsOk(c, Handle(c, s, k))
  {
    hide Alone, Grouped, Local, Decide, ProbeRef, MemoFits, ValidSetup;
    var b, s' := s.workers[k], Handle(c, s, k);
    var i := c.groups[b.g].indices[b.pos];
    assert s'.next == s.next && |s'.workers| == |s.workers| && s'.workers[k].Busy? && s'.workers[k].g == b.g
           && s'.workers[k].pos == b.pos + 1 && MemoFits(c.w, s'.workers[k].memo, c.groups[b.g].ref);
    assert forall j :: 0 <= j < |s.workers| && j != k ==> s'.workers[j] == s.workers[j];
    assert s'.items == s.items[i := Alone(c.w, c.pre, c.imageIds[i], c.items[i])];
    hide Handle;
    forall g: nat, p: nat | PlaceOk(c, g, p)
      ensures ItemIs(c, s', g, p)
    {
      assert ItemIs(c, s, g, p);
      HandledMoves(s, s', k, g, p);
      if c.groups[g].indices[p] == i {
        SetupPlaces(c, g, p, b.g, b.pos);
      }
    }
  }

  lemma SetupPlaces(c: Setup, g: nat, p: nat, h: nat, q: nat)
    requires ValidSetup(c) && PlaceOk(c, g, p) && PlaceOk(c, h, q) && c.groups[g].indices[p] == c.groups[h].indices[q]
    ensures g == h && p == q
  {
    hide Partition, Comparable;
    PlacesDiffer(c.groups, c.items, g, p, h, q);
  }

  /** A worker's step handles exactly the member it was at. */
  lemma HandledMoves(s: Pool, s': Pool, k: nat, g: nat, p: nat)
    requires s'.next == s.next && |s'.workers| == |s.workers| && k < |s.workers| && s.workers[k].Busy? && s'.workers[k].Busy?
    requires s'.workers[k].g == s.workers[k].g < s.next && s'.workers[k].pos == s.workers[k].pos + 1
    requires forall j :: 0 <= j < |s.workers| && j != k ==> s'.workers[j] == s.workers[j]
    requires forall j :: 0 <= j < |s.workers| && j != k && s.workers[j].Busy? ==> s.workers[j].g != s.workers[k].g
    ensures Handled(s', g, p) <==> Handled(s, g, p) || (g == s.workers[k].g && p == s.workers[k].pos)
  {
    if g == s.workers[k].g {
      assert Handled(s', g, p) ==> p < s'.workers[k].pos;
      assert Handled(s, g, p) ==> p < s.workers[k].pos;
    }
  }

  lemma {:induction false} RunKeeps(c: Setup, workers: nat, moves: seq<Move>)
    requires ValidSetup(c)
    ensures WorkersOk(c, Run(c, workers, moves)) && ItemsOk(c, Run(c, workers, moves))
  {
    hide ValidSetup, Handle;
    if moves == [] {
      StartOk(c, workers);
    } else {
      var s, m := Run(c, workers, moves[..|moves| - 1]), moves[|moves| - 1];
      RunKeeps(c, workers, moves[..|moves| - 1]);
      hide Run, WorkersOk, ItemsOk;
      TakeKeeps(c, s, m.k);
      if m.Do? && m.k < |s.workers| && s.workers[m.k].Busy? {
        HandleKeeps(c, s, m.k);
      }
    }
  }

  lemma StartOk(c: Setup, workers: nat)
    requires ValidSetup(c)
    ensures WorkersOk(c, Start(c, workers)) && ItemsOk(c, Start(c, workers))
  {
    hide Alone, Grouped, Partition;
  }

  /** Whatever the number of workers and their interleaving: once the pool is done, every item is what scanning
      its container alone would have made it. */
  lemma PoolIsAlone(c: Setup, workers: nat, moves: seq<Move>, i: nat)
    requires ValidSetup(c) && Finished(c, Run(c, workers, moves)) && i < |c.items|
    ensures |Run(c, workers, moves).items| == |c.items|
    ensures Run(c, workers, moves).items[i] == Alone(c.w, c.pre, c.imageIds[i], c.items[i])
  {
    hide Run, Scanned;
    RunKeeps(c, workers, moves);
    var s := Run(c, workers, moves);
    hide WorkersOk, Grouped;
    if Grouped(c.items, i) {
      var g, p := PlaceOf(c, i);
      hide ValidSetup;
      assert ItemIs(c, s, g, p);
    } else {
      assert Alone(c.w, c.pre, c.imageIds[i], c.items[i]) == c.items[i] by { NotEligibleStays(c, i); }
    }
  }

  lemma NotEligibleStays(c: Setup, i: nat)
    requires i < |c.items| && |c.imageIds| == |c.items| && !Grouped(c.items, i)
    ensures Alone(c.w, c.pre, c.imageIds[i], c.items[i]) == c.items[i]
  {
    hide Scanned;
  }

  lemma PlaceOf(c: Setup, i: nat) returns (g: nat, p: nat)
    requires ValidSetup(c) && i < |c.items| && Grouped(c.items, i)
    ensures PlaceOk(c, g, p) && c.groups[g].indices[p] == i
  {
    hide IsGroup, KeysDiffer, Comparable, Grouped;
    assert Covered(c.groups, i);
    g, p :| 0 <= g < |c.groups| && 0 <= p < |c.groups[g].indices| && c.groups[g].indices[p] == i;
  }

  // ----- the pool finishes -----

  /** The move changes something: a group is handed out, or a busy worker goes on. */
  predicate Enabled(c: Setup, s: Pool, m: Move) {
    m.k < |s.workers| && if m.Take? then s.workers[m.k].Idle? && s.next < |c.groups| else s.workers[m.k].Busy?
  }

  /** Moves a group takes: being handed out, one for each member, and its worker's return. */
  function GroupMoves(group: Group): nat {
    |group.indices| + 2
  }

  /** Moves of the groups from n on. */
  function MovesFrom(groups: seq<Group>, n: nat): nat
    decreases |groups| - n
  {
    if n >= |groups| then 0 else GroupMoves(groups[n]) + MovesFrom(groups, n + 1)
  }

  function WorkerMovesLeft(c: Setup, b: Worker): nat {
    if b.Busy? && b.g < |c.groups| && b.pos <= |c.groups[b.g].indices| then |c.groups[b.g].indices| - b.pos + 1 else 0
  }

  function WorkersLeft(c: Setup, workers: seq<Worker>): nat {
    if workers == [] then 0
    else WorkersLeft(c, workers[..|workers| - 1]) + WorkerMovesLeft(c, workers[|workers| - 1])
  }

  /** Moves still to be made. */
  function Left(c: Setup, s: Pool): nat {
    MovesFrom(c.groups, s.next) + WorkersLeft(c, s.workers)
  }

  /** Moves that changed something. */
  function Made(c: Setup, workers: nat, moves: seq<Move>): nat {
    if moves == [] then 0
    else
      var front, m := moves[..|moves| - 1], moves[|moves| - 1];
      Made(c, workers, front) + (if Enabled(c, Run(c, workers, front), m) then 1 else 0)
  }

  lemma {:induction false} OneWorker(c: Setup, workers: seq<Worker>, k: nat, b: Worker)
    requires k < |workers|
    ensures WorkersLeft(c, workers[k := b]) + WorkerMovesLeft(c, workers[k])
         == WorkersLeft(c, workers) + WorkerMovesLeft(c, b)
  {
    hide WorkerMovesLeft;
    var n := |workers| - 1;
    if k == n {
      assert workers[k := b][..n] == workers[..n];
    } else {
      assert workers[k := b][..n] == workers[..n][k := b];
      OneWorker(c, workers[..n], k, b);
    }
  }

  /** Each move that changes something is one of those left. */
  lemma MoveCounts(c: Setup, s: Pool, m: Move)
    requires ValidSetup(c) && WorkersOk(c, s) && ItemsOk(c, s)
    ensures if Enabled(c, s, m) then Left(c, s) == Left(c, Next(c, s, m)) + 1 else Next(c, s, m) == s
  {
    hide ValidSetup, ItemIs, Local, Decide, ProbeRef, MemoFits, WorkersLeft;
    if Enabled(c, s, m) {
      var s' := Next(c, s, m);
      if m.Do? {
        var b := s.workers[m.k];
        if b.pos < |c.groups[b.g].indices| {
          PlacesOk(c, b.g, b.pos);
        }
      }
      OneWorker(c, s.workers, m.k, s'.workers[m.k]);
      assert s'.workers == s.workers[m.k := s'.workers[m.k]];
    }
  }

  lemma {:induction false} NoneLeft(c: Setup, workers: seq<Worker>)
    requires forall k :: 0 <= k < |workers| && workers[k].Busy? ==> WorkerMovesLeft(c, workers[k]) > 0
    ensures WorkersLeft(c, workers) == 0 <==> forall k :: 0 <= k < |workers| ==> workers[k].Idle?
  {
    hide WorkerMovesLeft;
    if workers != [] {
      var n := |workers| - 1;
      NoneLeft(c, workers[..n]);
      assert WorkerMovesLeft(c, workers[n]) == 0 <==> workers[n].Idle? by { IdleLeft(c, workers[n]); }
      assert forall k :: 0 <= k < n ==> workers[..n][k] == workers[k];
    }
  }

  lemma IdleLeft(c: Setup, b: Worker)
    ensures b.Idle? ==> WorkerMovesLeft(c, b) == 0
  {
  }

  lemma FinishedIff(c: Setup, s: Pool)
    requires WorkersOk(c, s)
    ensures Finished(c, s) <==> Left(c, s) == 0
  {
    hide WorkersLeft, MemoFits;
    NoneLeft(c, s.workers);
  }

  /** A pool with a worker that is not done can move on. */
  lemma CanMove(c: Setup, s: Pool) returns (m: Move)
    requires WorkersOk(c, s) && |s.workers| > 0 && !Finished(c, s)
    ensures Enabled(c, s, m)
  {
    hide MemoFits;
    if k: nat :| k < |s.workers| && s.workers[k].Busy? {
      m := Do(k);
    } else {
      m := Take(0);
    }
  }

  lemma {:induction false} SameWorkers(c: Setup, workers: nat, moves: seq<Move>)
    ensures |Run(c, workers, moves).workers| == workers
  {
    if moves != [] {
      SameWorkers(c, workers, moves[..|moves| - 1]);
    }
  }

  lemma {:induction false} MovesAreCounted(c: Setup, workers: nat, moves: seq<Move>)
    requires ValidSetup(c)
    ensures Made(c, workers, moves) + Left(c, Run(c, workers, moves)) == MovesFrom(c.groups, 0)
  {
    hide ValidSetup, Next, Enabled, WorkersOk, ItemsOk;
    if moves == [] {
      FreshWorkers(c, workers);
    } else {
      var front, m := moves[..|moves| - 1], moves[|moves| - 1];
      MovesAreCounted(c, workers, front);
      RunKeeps(c, workers, front);
      hide Left, MovesFrom;
      MoveCounts(c, Run(c, workers, front), m);
    }
  }

  lemma {:induction false} FreshWorkers(c: Setup, workers: nat)
    ensures WorkersLeft(c, seq(workers, _ => Idle)) == 0
  {
    if workers > 0 {
      FreshWorkers(c, workers - 1);
      assert seq<Worker>(workers, _ => Idle)[..workers - 1] == seq<Worker>(workers - 1, _ => Idle);
    }
  }

  lemma RunSnoc(c: Setup, workers: nat, moves: seq<Move>, m: Move)
    ensures Run(c, workers, moves + [m]) == Next(c, Run(c, workers, moves), m)
    ensures Made(c, workers, moves + [m]) == Made(c, workers, moves) + (if Enabled(c, Run(c, workers, moves), m) then 1 else 0)
  {
    assert (moves + [m])[..|moves|] == moves;
  }

  /** In every schedule the moves that change something number at most all members of all groups and two more per
      group, and the pool is done exactly when all of those have been made; as long as it is not, some worker can
      move. */
  lemma PoolProgress(c: Setup, workers: nat, moves: seq<Move>)
    requires ValidSetup(c) && workers > 0
    ensures Made(c, workers, moves) <= MovesFrom(c.groups, 0)
    ensures Finished(c, Run(c, workers, moves)) <==> Made(c, workers, moves) == MovesFrom(c.groups, 0)
    ensures Finished(c, Run(c, workers, moves)) <==> !exists m :: Enabled(c, Run(c, workers, moves), m)
  {
    hide ValidSetup, ItemsOk, Made, Left, Run, Enabled, Finished, MovesFrom;
    var s := Run(c, workers, moves);
    RunKeeps(c, workers, moves);
    SameWorkers(c, workers, moves);
    MovesAreCounted(c, workers, moves);
    FinishedIff(c, s);
    if Finished(c, s) {
      forall m
        ensures !Enabled(c, s, m)
      {
        MoveCounts(c, s, m);
      }
    } else {
      var m := CanMove(c, s);
    }
  }

  /** From wherever a schedule has come, it can be finished, and then by just the moves that were left. */
  lemma {:induction false} PoolCanFinish(c: Setup, workers: nat, moves: seq<Move>) returns (more: seq<Move>)
    requires ValidSetup(c) && workers > 0
    ensures Finished(c, Run(c, workers, moves + more)) && |more| == Left(c, Run(c, workers, moves))
    decreases Left(c, Run(c, workers, moves))
  {
    hide ValidSetup, ItemsOk, WorkersOk, Left, Run, Enabled, Finished, Next;
    var s := Run(c, workers, moves);
    RunKeeps(c, workers, moves);
    FinishedIff(c, s);
    if Finished(c, s) {
      more := [];
      assert moves + more == moves;
    } else {
      SameWorkers(c, workers, moves);
      var m := CanMove(c, s);
      MoveCounts(c, s, m);
      RunSnoc(c, workers, moves, m);
      var rest := PoolCanFinish(c, workers, moves + [m]);
      more := [m] + rest;
      assert moves + [m] + rest == moves + more;
    }
  }
}
