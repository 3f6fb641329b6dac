/** Archiving a container's volumes: the pruning walk, its exclusion test, and the tar stream it writes. */
module Archive {
  import opened Text
  import opened Paths

  datatype Option<T> = None | Some(value: T)

  type Bytes = seq<bv8>

  /** What lies at a path. A file has the size the walk saw and the bytes read later, if it could be opened; a
      directory may refuse to be listed; of the special files a socket has no tar form. */
  datatype Node =
    | File(size: nat, data: Option<Bytes>)
    | Dir(listable: bool, entries: Forest)
    | Link(dest: string)
    | Special(archived: bool)

  datatype Forest = End | Entry(name: string, node: Node, rest: Forest)

  function Names(f: Forest): set<string> {
    match f
    case End => {}
    case Entry(name, _, rest) => {name} + Names(rest)
  }

  predicate WellFormed(node: Node) {
    node.Dir? ==> WellFormedForest(node.entries)
  }

  predicate WellFormedForest(f: Forest) {
    match f
    case End => true
    case Entry(name, node, rest) => ValidName(name) && name !in Names(rest) && WellFormed(node) && WellFormedForest(rest)
  }

  // ----- exclusion -----

  predicate Matches(cp: string, e: string) {
    var ce := Clean(e);
    ce != "" && ce != "." && (cp == ce || HasPrefix(cp, ce + "/"))
  }

  predicate Excluded(path: string, excludes: seq<string>) {
    exists i :: 0 <= i < |excludes| && Matches(Clean(path), excludes[i])
  }

  method IsExcluded(path: string, excludes: seq<string>) returns (r: bool)
    ensures r == Excluded(path, excludes)
  {
    if |excludes| == 0 {
      return false;
    }
    var cp := Clean(path);
    var i := 0;
    while i < |excludes|
      invariant 0 <= i <= |excludes|
      invariant forall j :: 0 <= j < i ==> !Matches(cp, excludes[j])
    {
      var ce := Clean(excludes[i]);
      if ce != "" && ce != "." && (cp == ce || HasPrefix(cp, ce + "/")) {
        assert Matches(cp, excludes[i]);
        return true;
      }
      i := i + 1;
    }
    return false;
  }

  predicate Absolute(e: string) {
    e != "" && e[0] == '/'
  }

  /** The path an absolute exclude names. */
  function ExcludePath(e: string): Path {
    Fold(Comps(e), true)
  }

  /** The documented meaning: the path is, or lies beneath, the exclude. */
  predicate Covers(e: string, p: Path) {
    Absolute(e) && AtOrBelow(p, ExcludePath(e))
  }

  predicate Covered(p: Path, excludes: seq<string>) {
    exists i :: 0 <= i < |excludes| && Covers(excludes[i], p)
  }

  lemma MatchesIff(p: Path, e: string)
    requires ValidPath(p)
    ensures Matches(Render(p), e) <==> Covers(e, p) && (ExcludePath(e) != [] || p == [])
  {
    hide HasPrefix, Comps, Fold, ValidPath;
    PrefixHead(Render(p), Clean(e) + "/");
    assert Render(p)[0] == '/';
    if Absolute(e) {
      FoldIsValid(Comps(e));
      assert Clean(e) == Render(ExcludePath(e)) && Clean(e)[0] == '/';
      BeneathIff(p, ExcludePath(e));
    } else {
      RelativeStays(e);
      hide Clean, Render;
      assert (Clean(e) + "/")[0] == Clean(e)[0];
    }
  }

  /** The string test means what is documented, for every list of excludes in whatever spelling, except that
      excluding the root excludes nothing below it. */
  lemma ExcludedIff(p: Path, excludes: seq<string>)
    requires ValidPath(p)
    ensures Excluded(Render(p), excludes)
       <==> exists i :: 0 <= i < |excludes| && Covers(excludes[i], p) && (ExcludePath(excludes[i]) != [] || p == [])
  {
    CleanRender(p);
    hide Clean, Render, Matches, Covers, ValidPath;
    forall i | 0 <= i < |excludes|
      ensures Matches(Render(p), excludes[i])
         <==> Covers(excludes[i], p) && (ExcludePath(excludes[i]) != [] || p == [])
    {
      MatchesIff(p, excludes[i]);
    }
  }

  predicate ExcludesRoot(excludes: seq<string>) {
    exists i :: 0 <= i < |excludes| && Absolute(excludes[i]) && ExcludePath(excludes[i]) == []
  }

  lemma ExcludedIsCovered(p: Path, excludes: seq<string>)
    requires ValidPath(p) && !ExcludesRoot(excludes)
    ensures Excluded(Render(p), excludes) <==> Covered(p, excludes)
  {
    ExcludedIff(p, excludes);
    hide Excluded, Comps, Fold, Render;
  }

  /** Whatever lies beneath an excluded path is excluded, unless it is the root that is excluded. */
  lemma ExcludedBelow(p: Path, q: Path, excludes: seq<string>)
    requires ValidPath(q) && p <= q && (p != [] || !ExcludesRoot(excludes))
    requires Excluded(Render(p), excludes)
    ensures Excluded(Render(q), excludes)
  {
    ExcludedIff(p, excludes);
    ExcludedIff(q, excludes);
    hide Excluded, ExcludePath, Render;
    var i :| 0 <= i < |excludes| && Covers(excludes[i], p) && (ExcludePath(excludes[i]) != [] || p == []);
    assert Covers(excludes[i], q);
  }

  // ----- the walk -----

  datatype Visit = Visit(path: Path, node: Node)

  /** Everything a walk can reach: directories that cannot be listed are skipped with all they hold. */
  function Full(p: Path, node: Node): seq<Visit>
    decreases node
  {
    if !node.Dir? then [Visit(p, node)]
    else if !node.listable then []
    else [Visit(p, node)] + FullForest(p, node.entries)
  }

  function FullForest(p: Path, f: Forest): seq<Visit>
    decreases f
  {
    match f
    case End => []
    case Entry(name, node, rest) => Full(p + [name], node) + FullForest(p, rest)
  }

  /** What the pruning walk archives: it does not descend into an excluded directory. */
  function Pruned(p: Path, node: Node, ex: seq<string>): seq<Visit>
    decreases node
  {
    if node.Dir? && !node.listable then []
    else if Excluded(Render(p), ex) then []
    else if node.Dir? then [Visit(p, node)] + PrunedForest(p, node.entries, ex)
    else [Visit(p, node)]
  }

  function PrunedForest(p: Path, f: Forest, ex: seq<string>): seq<Visit>
    decreases f
  {
    match f
    case End => []
    case Entry(name, node, rest) => Pruned(p + [name], node, ex) + PrunedForest(p, rest, ex)
  }

  /** The visits that are not excluded, each judged on its own. */
  function Keep(vs: seq<Visit>, ex: seq<string>): seq<Visit> {
    if vs == [] then []
    else
      Keep(vs[..|vs| - 1], ex) + Keep1(vs[|vs| - 1], ex)
  }

  function Keep1(v: Visit, ex: seq<string>): seq<Visit> {
    if Excluded(Render(v.path), ex) then [] else [v]
  }

  lemma KeepSnoc(vs: seq<Visit>, v: Visit, ex: seq<string>)
    ensures Keep(vs + [v], ex) == Keep(vs, ex) + Keep1(v, ex)
  {
    hide Keep1;
    assert (vs + [v])[..|vs|] == vs;
  }

  lemma {:induction false} KeepAppend(a: seq<Visit>, b: seq<Visit>, ex: seq<string>)
    ensures Keep(a + b, ex) == Keep(a, ex) + Keep(b, ex)
  {
    hide Keep1;
    if b == [] {
      assert a + b == a;
    } else {
      hide Keep;
      var n := |b| - 1;
      KeepAppend(a, b[..n], ex);
      KeepSnoc(a + b[..n], b[n], ex);
      KeepSnoc(b[..n], b[n], ex);
      SplitLast(a, b);
      assert Keep(a, ex) + Keep(b[..n], ex) + Keep1(b[n], ex) == Keep(a, ex) + (Keep(b[..n], ex) + Keep1(b[n], ex));
    }
  }

  lemma {:induction false} KeepNone(vs: seq<Visit>, ex: seq<string>)
    requires forall i :: 0 <= i < |vs| ==> Excluded(Render(vs[i].path), ex)
    ensures Keep(vs, ex) == []
  {
    hide Excluded, Render;
    if vs != [] {
      KeepNone(vs[..|vs| - 1], ex);
    }
  }

  lemma {:induction false} FullBelow(p: Path, node: Node)
    requires ValidPath(p) && WellFormed(node)
    ensures forall i :: 0 <= i < |Full(p, node)| ==> p <= Full(p, node)[i].path && ValidPath(Full(p, node)[i].path)
    decreases node
  {
    if node.Dir? {
      FullForestBelow(p, node.entries);
    }
  }

  lemma {:induction false} FullForestBelow(p: Path, f: Forest)
    requires ValidPath(p) && WellFormedForest(f)
    ensures forall i :: 0 <= i < |FullForest(p, f)| ==> p <= FullForest(p, f)[i].path && ValidPath(FullForest(p, f)[i].path)
    decreases f
  {
    match f
    case End =>
    case Entry(name, node, rest) =>
      FullBelow(p + [name], node);
      FullForestBelow(p, rest);
  }

  /** Pruning is filtering: skipping excluded directories loses nothing and keeps nothing more. */
  lemma {:induction false} PruneIsFilter(p: Path, node: Node, ex: seq<string>)
    requires ValidPath(p) && WellFormed(node) && (p != [] || !ExcludesRoot(ex))
    ensures Pruned(p, node, ex) == Keep(Full(p, node), ex)
    decreases node
  {
    if node.Dir? && !node.listable {
    } else if Excluded(Render(p), ex) {
      FullBelow(p, node);
      var vs := Full(p, node);
      forall i | 0 <= i < |vs|
        ensures Excluded(Render(vs[i].path), ex)
      {
        ExcludedBelow(p, vs[i].path, ex);
      }
      KeepNone(vs, ex);
    } else {
      KeepOne(Visit(p, node), ex);
      if node.Dir? {
        PruneForestIsFilter(p, node.entries, ex);
        hide Excluded, Render;
        KeepAppend([Visit(p, node)], FullForest(p, node.entries), ex);
      }
    }
  }

  lemma KeepOne(v: Visit, ex: seq<string>)
    ensures Keep([v], ex) == Keep1(v, ex)
  {
    hide Keep1;
    assert [v][..0] == [];
    assert Keep([], ex) + Keep1(v, ex) == Keep1(v, ex);
  }

  lemma {:induction false} PruneForestIsFilter(p: Path, f: Forest, ex: seq<string>)
    requires ValidPath(p) && WellFormedForest(f)
    ensures PrunedForest(p, f, ex) == Keep(FullForest(p, f), ex)
    decreases f
  {
    hide Excluded, Render;
    match f
    case End =>
    case Entry(name, node, rest) =>
      PruneIsFilter(p + [name], node, ex);
      PruneForestIsFilter(p, rest, ex);
      KeepAppend(Full(p + [name], node), FullForest(p, rest), ex);
  }

  /** Exactly when that holds for every tree at a path: unless the whole file system is walked and its root is
      excluded, in which case nothing is archived though only the root itself is excluded. */
  lemma PruneIsFilterIff(p: Path, ex: seq<string>)
    requires ValidPath(p)
    ensures (forall node :: WellFormed(node) ==> Pruned(p, node, ex) == Keep(Full(p, node), ex))
       <==> p != [] || !ExcludesRoot(ex)
  {
    if p != [] || !ExcludesRoot(ex) {
      forall node | WellFormed(node)
        ensures Pruned(p, node, ex) == Keep(Full(p, node), ex)
      {
        PruneIsFilter(p, node, ex);
      }
    } else {
      var node := RootLosesAll(ex);
    }
  }

  lemma RootLosesAll(ex: seq<string>) returns (node: Node)
    requires ExcludesRoot(ex)
    ensures WellFormed(node) && Pruned([], node, ex) != Keep(Full([], node), ex)
  {
    var name := FreshName(ex);
    var leaf := File(0, Some([]));
    node := Dir(true, Entry(name, leaf, End));
    assert WellFormed(leaf) && WellFormedForest(End) && WellFormedForest(Entry(name, leaf, End));
    var root, v := Visit([], node), Visit([name], leaf);
    RootIsExcluded(ex);
    LeafWalk(name, leaf);
    hide Excluded, Render, ExcludesRoot;
    KeepOne(v, ex);
    KeepAppend([root], [v], ex);
    assert [] + [v] == [v];
    hide Keep;
    assert Keep([root], ex) + [v] != [];
  }

  lemma RootIsExcluded(ex: seq<string>)
    requires ExcludesRoot(ex)
    ensures Excluded(Render([]), ex)
  {
    ExcludedIff([], ex);
    hide Excluded, Render, ExcludePath;
    var i :| 0 <= i < |ex| && Absolute(ex[i]) && ExcludePath(ex[i]) == [];
    assert Covers(ex[i], []);
  }

  lemma LeafWalk(name: string, leaf: Node)
    requires !leaf.Dir?
    ensures var node := Dir(true, Entry(name, leaf, End)); Full([], node) == [Visit([], node)] + [Visit([name], leaf)]
  {
    var f := Entry(name, leaf, End);
    assert FullForest([], f) == Full([] + [name], leaf) + FullForest([], End);
    assert [] + [name] == [name];
    assert Full([name], leaf) == [Visit([name], leaf)];
    assert FullForest([], End) == [];
    assert [Visit([name], leaf)] + [] == [Visit([name], leaf)];
  }

  function Repeated(n: nat): (s: string)
    ensures |s| == n && forall i :: 0 <= i < n ==> s[i] == 'a'
  {
    seq(n, _ => 'a')
  }

  /** A name that is no exclude. */
  lemma FreshName(ex: seq<string>) returns (name: string)
    ensures ValidName(name) && !Excluded(Render([name]), ex)
  {
    name := Repeated(Longest(ex) + 1);
    assert name[0] == 'a';
    ExcludedIff([name], ex);
    hide ExcludePath, Excluded, Render;
    forall i | 0 <= i < |ex| && Covers(ex[i], [name])
      ensures ExcludePath(ex[i]) == []
    {
      if ExcludePath(ex[i]) != [] {
        LongestIs(ex, i);
      }
    }
  }

  ghost function Longest(ex: seq<string>): nat {
    if ex == [] then 0
    else
      var e := ExcludePath(ex[|ex| - 1]);
      var n := if e == [] then 0 else |e[0]|;
      var rest := Longest(ex[..|ex| - 1]);
      if n < rest then rest else n
  }

  lemma {:induction false} LongestIs(ex: seq<string>, i: nat)
    requires i < |ex| && ExcludePath(ex[i]) != []
    ensures |ExcludePath(ex[i])[0]| <= Longest(ex)
  {
    hide ExcludePath;
    if i < |ex| - 1 {
      LongestIs(ex[..|ex| - 1], i);
    }
  }

  // ----- the tar stream -----

  datatype Kind = KDir | KFile | KLink(dest: string) | KOther

  datatype TarEntry = TarEntry(name: string, kind: Kind, content: Bytes)

  /** The entry's name below its volume's prefix. */
  function EntryName(root: string, prefix: string, path: string, isDir: bool): string {
    var rel := TrimPrefix(TrimPrefix(path, root), "/");
    var name := if rel == "" then prefix + "/" + Base(root) else prefix + "/" + Base(root) + "/" + rel;
    (if HasSuffix(name, "/") then name[..|name| - 1] else name) + (if isDir then "/" else "")
  }

  function Padding(n: nat): (z: Bytes)
    ensures |z| == n && forall i :: 0 <= i < n ==> z[i] == 0
  {
    seq(n, _ => 0)
  }

  /** As many bytes as the header announced: a file that shrank is padded, one that grew is cut, and one that stayed
      is there byte for byte. */
  function Content(node: Node): (content: Bytes)
    ensures node.File? && node.data.Some? ==> |content| == node.size
    ensures node.File? && node.data.Some? && |node.data.value| == node.size ==> content == node.data.value
  {
    if node.File? && node.data.Some? then
      if |node.data.value| >= node.size then node.data.value[..node.size]
      else node.data.value + Padding(node.size - |node.data.value|)
    else []
  }

  function KindOf(node: Node): Kind {
    match node
    case File(_, _) => KFile
    case Dir(_, _) => KDir
    case Link(dest) => KLink(dest)
    case Special(_) => KOther
  }

  function EntryOf(root: string, prefix: string, v: Visit): seq<TarEntry> {
    if v.node == Special(false) then []
    else [TarEntry(EntryName(root, prefix, Render(v.path), v.node.Dir?), KindOf(v.node), Content(v.node))]
  }

  function EntriesOf(root: string, prefix: string, vs: seq<Visit>): seq<TarEntry> {
    if vs == [] then [] else EntriesOf(root, prefix, vs[..|vs| - 1]) + EntryOf(root, prefix, vs[|vs| - 1])
  }

  lemma EntriesSnoc(root: string, prefix: string, vs: seq<Visit>, v: Visit)
    ensures EntriesOf(root, prefix, vs + [v]) == EntriesOf(root, prefix, vs) + EntryOf(root, prefix, v)
  {
    hide EntryOf;
    assert (vs + [v])[..|vs|] == vs;
  }

  lemma {:induction false} EntriesAppend(root: string, prefix: string, a: seq<Visit>, b: seq<Visit>)
    ensures EntriesOf(root, prefix, a + b) == EntriesOf(root, prefix, a) + EntriesOf(root, prefix, b)
  {
    hide EntryOf;
    if b == [] {
      assert a + b == a;
    } else {
      hide EntriesOf;
      var n := |b| - 1;
      EntriesAppend(root, prefix, a, b[..n]);
      EntriesSnoc(root, prefix, a + b[..n], b[n]);
      EntriesSnoc(root, prefix, b[..n], b[n]);
      SplitLast(a, b);
      assert EntriesOf(root, prefix, a) + EntriesOf(root, prefix, b[..n]) + EntryOf(root, prefix, b[n])
          == EntriesOf(root, prefix, a) + (EntriesOf(root, prefix, b[..n]) + EntryOf(root, prefix, b[n]));
    }
  }

  /** A non-empty file that vanished or lost its permission between the walk and the copy: its header is out,
      its bytes will never come. */
  predicate Broken(v: Visit) {
    v.node.File? && v.node.data.None? && v.node.size > 0
  }

  predicate AnyBroken(vs: seq<Visit>) {
    exists i :: 0 <= i < |vs| && Broken(vs[i])
  }

  lemma AnyBrokenAppend(a: seq<Visit>, b: seq<Visit>)
    ensures AnyBroken(a + b) <==> AnyBroken(a) || AnyBroken(b)
  {
    hide Broken;
    if AnyBroken(a) {
      var i :| 0 <= i < |a| && Broken(a[i]);
      assert (a + b)[i] == a[i];
    }
    if AnyBroken(b) {
      var i :| 0 <= i < |b| && Broken(b[i]);
      assert (a + b)[|a| + i] == b[i];
    }
  }

  /** archive/tar's writer: `missing` bytes of the current entry are still owed, and until they come neither a new
      header nor the end of the archive is accepted. */
  class TarWriter {
    var entries: seq<TarEntry>
    var missing: nat

    constructor ()
      ensures entries == [] && missing == 0
    {
      entries, missing := [], 0;
    }

    method WriteHeader(name: string, kind: Kind, size: nat) returns (ok: bool)
      modifies this
      ensures ok <==> old(missing) == 0
      ensures ok ==> entries == old(entries) + [TarEntry(name, kind, [])] && missing == size
      ensures !ok ==> entries == old(entries) && missing == old(missing)
    {
      ok := missing == 0;
      if ok {
        entries := entries + [TarEntry(name, kind, [])];
        missing := size;
      }
    }

    method Write(data: Bytes)
      requires |data| <= missing && entries != []
      modifies this
      ensures missing == old(missing) - |data|
      ensures var last := old(entries)[|old(entries)| - 1];
        entries == old(entries)[..|old(entries)| - 1] + [last.(content := last.content + data)]
    {
      var n := |entries| - 1;
      entries := entries[..n] + [entries[n].(content := entries[n].content + data)];
      missing := missing - |data|;
    }

    method Close() returns (ok: bool)
      ensures ok <==> missing == 0
    {
      ok := missing == 0;
    }
  }

  datatype Signal = Continue | SkipDir | Stop

  /** What archiving these visits does to the stream: all their entries, or a stream that can never be finished. */
  twostate predicate Wrote(tw: TarWriter, root: string, prefix: string, vs: seq<Visit>)
    reads tw
  {
    && (tw.missing > 0 <==> old(tw.missing) > 0 || AnyBroken(vs))
    && (tw.missing == 0 ==> tw.entries == old(tw.entries) + EntriesOf(root, prefix, vs))
  }

  /** The callback of the walk for one path that could be read. */
  method WalkFn(tw: TarWriter, path: string, ghost p: Path, node: Node, root: string, prefix: string, excludes: seq<string>)
    returns (signal: Signal)
    requires path == Render(p)
    modifies tw
    ensures signal == SkipDir <==> Excluded(path, excludes) && node.Dir?
    ensures signal == Stop ==> tw.missing > 0
    ensures Wrote(tw, root, prefix, if Excluded(path, excludes) then [] else [Visit(p, node)])
  {
    hide Render, Excluded, EntryName, HasPrefix, HasSuffix, EntriesOf, AnyBroken;
    EntriesOne(root, prefix, Visit(p, node));
    NothingWritten(root, prefix);
    var skip := IsExcluded(path, excludes);
    if skip {
      assert tw.entries + [] == tw.entries;
      return if node.Dir? then SkipDir else Continue;
    }
    if node == Special(false) {
      assert tw.entries + [] == tw.entries;
      return Continue;
    }
    var size := if node.File? then node.size else 0;
    var ok := tw.WriteHeader(EntryName(root, prefix, path, node.Dir?), KindOf(node), size);
    if !ok {
      return Stop;
    }
    if !node.File? || node.data.None? {
      return Continue;
    }
    WriteFile(tw, node);
    return Continue;
  }

  /** Copies the file into the entry whose header was just written, and pads what is missing with zeros. */
  method WriteFile(tw: TarWriter, node: Node)
    requires node.File? && node.data.Some? && tw.missing == node.size
    requires tw.entries != [] && tw.entries[|tw.entries| - 1].content == []
    modifies tw
    ensures tw.missing == 0
    ensures var n := |old(tw.entries)| - 1;
      tw.entries == old(tw.entries)[..n] + [old(tw.entries)[n].(content := Content(node))]
  {
    var data := node.data.value;
    var n := if |data| < node.size then |data| else node.size;
    assert data[..|data|] == data && [] + data[..n] == data[..n];
    tw.Write(data[..n]);
    if n < node.size {
      tw.Write(Padding(node.size - n));
    }
  }

  lemma EntriesOne(root: string, prefix: string, v: Visit)
    ensures EntriesOf(root, prefix, [v]) == EntryOf(root, prefix, v)
    ensures AnyBroken([v]) <==> Broken(v)
    ensures !AnyBroken([])
  {
    hide EntryOf, Broken;
    assert [v][..0] == [];
    assert EntriesOf(root, prefix, []) == [];
    assert [v][0] == v;
  }

  /** filepath.Walk below a path: a directory is announced before its entries, which follow in order. */
  method Walk(tw: TarWriter, path: string, ghost p: Path, node: Node, root: string, prefix: string, excludes: seq<string>)
    returns (signal: Signal)
    requires path == Render(p) && ValidPath(p) && WellFormed(node)
    modifies tw
    ensures signal == SkipDir ==> node.Dir?
    ensures signal == Stop ==> tw.missing > 0
    ensures Wrote(tw, root, prefix, Pruned(p, node, excludes))
    decreases node
  {
    hide Render, Excluded, EntriesOf, AnyBroken, ValidPath;
    NothingWritten(root, prefix);
    var vs := Pruned(p, node, excludes);
    if node.Dir? && !node.listable {
      assert tw.entries + [] == tw.entries;
      return Continue;
    }
    signal := WalkFn(tw, path, p, node, root, prefix, excludes);
    if !node.Dir? || signal == SkipDir {
      return;
    }
    var v, below := Visit(p, node), PrunedForest(p, node.entries, excludes);
    assert vs == [v] + below;
    hide Pruned, PrunedForest;
    EntriesAppend(root, prefix, [v], below);
    AnyBrokenAppend([v], below);
    if signal == Stop {
      return;
    }
    signal := WalkForest(tw, path, p, node.entries, root, prefix, excludes);
  }

  lemma NothingWritten(root: string, prefix: string)
    ensures EntriesOf(root, prefix, []) == [] && !AnyBroken([])
  {
  }

  method WalkForest(tw: TarWriter, path: string, ghost p: Path, f: Forest, root: string, prefix: string, excludes: seq<string>)
    returns (signal: Signal)
    requires path == Render(p) && ValidPath(p) && WellFormedForest(f)
    modifies tw
    ensures signal != SkipDir
    ensures signal == Stop ==> tw.missing > 0
    ensures Wrote(tw, root, prefix, PrunedForest(p, f, excludes))
    decreases f
  {
    hide EntriesOf, AnyBroken, Pruned, Render, Join;
    NothingWritten(root, prefix);
    if f.End? {
      assert tw.entries + [] == tw.entries;
      return Continue;
    }
    JoinChild(p, f.name);
    var q := p + [f.name];
    assert ValidPath(q);
    ghost var vs, more := Pruned(q, f.node, excludes), PrunedForest(p, f.rest, excludes);
    assert PrunedForest(p, f, excludes) == vs + more;
    hide PrunedForest, ValidPath;
    AnyBrokenAppend(vs, more);
    EntriesAppend(root, prefix, vs, more);
    signal := Walk(tw, Join(path, f.name), q, f.node, root, prefix, excludes);
    if signal == Stop {
      return;
    }
    signal := WalkForest(tw, path, p, f.rest, root, prefix, excludes);
  }

  /** One volume. A skipped root counts as done. */
  method AddPathPrefix(tw: TarWriter, root: Path, node: Node, prefix: string, excludes: seq<string>) returns (ok: bool)
    requires ValidPath(root) && WellFormed(node)
    modifies tw
    ensures !ok ==> tw.missing > 0
    ensures Wrote(tw, Render(root), prefix, Pruned(root, node, excludes))
  {
    var signal := Walk(tw, Render(root), root, node, Render(root), prefix, excludes);
    ok := signal != Stop;
  }

  /** A mounted volume: where it lies on the host, and what lies there. */
  datatype Volume = Volume(root: Path, tree: Node)

  function VolumePrefix(i: nat): string {
    "volumes/" + Decimal(i)
  }

  function VolumeEntries(vol: Volume, i: nat, ex: seq<string>): seq<TarEntry> {
    EntriesOf(Render(vol.root), VolumePrefix(i), Pruned(vol.root, vol.tree, ex))
  }

  function AllEntries(vols: seq<Volume>, ex: seq<string>): seq<TarEntry> {
    if vols == [] then []
    else AllEntries(vols[..|vols| - 1], ex) + VolumeEntries(vols[|vols| - 1], |vols| - 1, ex)
  }

  predicate ValidVolumes(vols: seq<Volume>) {
    forall i :: 0 <= i < |vols| ==> ValidPath(vols[i].root) && WellFormed(vols[i].tree)
  }

  /** Some file that is archived cannot be read. */
  predicate Unreadable(vols: seq<Volume>, ex: seq<string>) {
    exists i :: 0 <= i < |vols| && AnyBroken(Pruned(vols[i].root, vols[i].tree, ex))
  }

  /** The whole archive. One non-empty file that cannot be opened after its header was written spoils all of it;
      otherwise it holds the pruned volumes in order. */
  method ArchiveVolumes(vols: seq<Volume>, excludes: seq<string>) returns (ok: bool, entries: seq<TarEntry>)
    requires ValidVolumes(vols)
    ensures ok <==> !Unreadable(vols, excludes)
    ensures ok ==> entries == AllEntries(vols, excludes)
  {
    hide AnyBroken, Pruned, ValidPath, WellFormed, Render, EntriesOf;
    var tw := new TarWriter();
    var i := 0;
    ok := true;
    while i < |vols| && ok
      invariant 0 <= i <= |vols|
      invariant tw.missing > 0 <==> exists j :: 0 <= j < i && AnyBroken(Pruned(vols[j].root, vols[j].tree, excludes))
      invariant tw.missing == 0 ==> tw.entries == AllEntries(vols[..i], excludes)
      invariant !ok ==> tw.missing > 0
      invariant fresh(tw)
    {
      ok := AddPathPrefix(tw, vols[i].root, vols[i].tree, VolumePrefix(i), excludes);
      assert vols[..i + 1][..i] == vols[..i];
      i := i + 1;
    }
    entries := tw.entries;
    var closed := tw.Close();
    ok := ok && closed;
    assert ok ==> vols[..i] == vols;
  }
}
