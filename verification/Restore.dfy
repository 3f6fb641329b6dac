/** Restoring a container archive: entries find their way back under the original mount sources, and the source
    tree is rebuilt without what was excluded. */
module Restore {
  import opened Text
  import opened Paths
  import opened Archive

  // ----- from an entry's name back to a path -----

  /** What the restore loop makes of a name: a target below one of the mount sources, or nothing. */
  datatype Located = Nowhere | At(target: string, src: string)

  function Locate(name: string, sources: map<int, Path>): Located {
    if !HasPrefix(name, "volumes/") then Nowhere
    else
      var rest := TrimPrefix(name, "volumes/");
      var slash := IndexOf(rest, '/');
      if slash < 0 then Nowhere
      else
        var idx := Atoi(rest[..slash]);
        if !idx.ok || idx.value !in sources then Nowhere
        else
          var src := Render(sources[idx.value]);
          var tail := AfterBase(rest[slash + 1..]);
          At(if tail != "" then Join(src, tail) else src, src)
  }

  /** Drops the name of the mount's own directory. */
  function AfterBase(tail: string): string {
    var i := IndexOf(tail, '/');
    if i >= 0 then tail[i + 1..] else ""
  }

  function Slash(isDir: bool): string {
    if isDir then "/" else ""
  }

  function Below(rel: Path): string {
    if rel == [] then "" else "/" + JoinNames(rel)
  }

  lemma {:induction false} JoinNamesEnds(rel: Path)
    requires rel != [] && ValidPath(rel)
    ensures JoinNames(rel) != "" && JoinNames(rel)[0] != '/' && JoinNames(rel)[|JoinNames(rel)| - 1] != '/'
  {
    var n := |rel| - 1;
    assert ValidName(rel[n]);
    if n > 0 {
      JoinNamesEnds(rel[..n]);
    }
  }

  lemma NameEnds(n: string)
    requires ValidName(n)
    ensures n[|n| - 1] != '/'
  {
  }

  lemma TrimAfter(a: string, b: string)
    ensures HasPrefix(a + b, a) && TrimPrefix(a + b, a) == b
  {
  }

  lemma EntryNameShape(root: string, prefix: string, path: string, isDir: bool, rel: string)
    requires TrimPrefix(TrimPrefix(path, root), "/") == rel && (rel != "" ==> rel[|rel| - 1] != '/')
    requires Base(root) != "" && Base(root)[|Base(root)| - 1] != '/'
    ensures EntryName(root, prefix, path, isDir)
         == prefix + "/" + Base(root) + (if rel == "" then "" else "/" + rel) + Slash(isDir)
  {
    hide Base, TrimPrefix;
    var base := Base(root);
    var name := if rel == "" then prefix + "/" + base else prefix + "/" + base + "/" + rel;
    assert prefix + "/" + base + (if rel == "" then "" else "/" + rel) == name;
    assert name[|name| - 1] == (if rel == "" then base[|base| - 1] else rel[|rel| - 1]);
    assert name[|name| - 1..] == [name[|name| - 1]];
  }

  /** The name an entry gets: its volume, the mount's base name, and the path below it. */
  lemma EntryNameIs(root: Path, rel: Path, i: nat, isDir: bool)
    requires root != [] && ValidPath(root) && ValidPath(rel)
    ensures EntryName(Render(root), VolumePrefix(i), Render(root + rel), isDir)
         == VolumePrefix(i) + "/" + root[|root| - 1] + Below(rel) + Slash(isDir)
  {
    BaseRender(root);
    NameEnds(root[|root| - 1]);
    hide Render, Base, JoinNames, EntryName, VolumePrefix;
    var r := Render(root);
    if rel == [] {
      assert root + rel == root && r + "" == r;
      TrimAfter(r, "");
      EntryNameShape(r, VolumePrefix(i), r, isDir, "");
    } else {
      RenderBelow(root, rel);
      JoinNamesEnds(rel);
      var j := JoinNames(rel);
      TrimAfter(r, "/" + j);
      TrimAfter("/", j);
      assert r + ("/" + j) == r + "/" + j;
      EntryNameShape(r, VolumePrefix(i), Render(root + rel), isDir, j);
    }
  }

  lemma FirstSlash(a: string, b: string)
    requires '/' !in a
    ensures IndexOf(a + "/" + b, '/') == |a|
    ensures (a + "/" + b)[..|a|] == a && (a + "/" + b)[|a| + 1..] == b
  {
    var s := a + "/" + b;
    assert s[..|a|] == a && s[|a|] == '/';
    IndexOfIs(s, '/', |a|);
  }

  lemma AfterBaseIs(base: string, rel: Path, isDir: bool)
    requires '/' !in base && ValidPath(rel)
    ensures AfterBase(base + Below(rel) + Slash(isDir)) == if rel == [] then "" else JoinNames(rel) + Slash(isDir)
  {
    var s := base + Below(rel) + Slash(isDir);
    if rel == [] && !isDir {
      assert s == base;
    } else {
      var rest := if rel == [] then "" else JoinNames(rel) + Slash(isDir);
      assert s == base + "/" + rest;
      FirstSlash(base, rest);
    }
  }

  lemma CleanSlash(p: Path)
    requires ValidPath(p)
    ensures Clean(Render(p) + "/") == Render(p)
  {
    var s := Render(p);
    CompsJoin(s, "");
    CompsPlain("");
    CompsOfRender(p);
    FoldEmpties(p);
    hide Comps, Fold;
    assert s + "/" == s + "/" + "" && s[0] == '/';
    if p == [] {
      assert Comps(s + "/") == ["", "", ""];
      RootFolds();
    } else {
      assert Comps(s + "/") == [""] + p + [""];
    }
  }

  lemma RootFolds()
    ensures Fold(["", "", ""], true) == []
  {
    FoldEmpties([]);
    assert [""] + [] + [""] == ["", ""];
    assert ["", "", ""][..2] == ["", ""];
  }

  lemma CleanBelow(root: Path, rel: Path, isDir: bool)
    requires root != [] && rel != [] && ValidPath(root) && ValidPath(rel)
    ensures Clean(Render(root) + "/" + (JoinNames(rel) + Slash(isDir))) == Render(root + rel)
  {
    hide Clean, Render, JoinNames;
    JoinValid(root, rel);
    RenderBelow(root, rel);
    var q := root + rel;
    CleanSlash(q);
    CleanRender(q);
    hide ValidPath;
    var r, j := Render(root), JoinNames(rel);
    assert r + "/" + (j + "/") == r + "/" + j + "/";
    assert r + "/" + (j + "") == r + "/" + j;
  }

  lemma JoinValid(a: Path, b: Path)
    ensures ValidPath(a + b) <==> ValidPath(a) && ValidPath(b)
  {
    hide ValidName;
    if ValidPath(a + b) {
      assert forall i :: 0 <= i < |a| ==> (a + b)[i] == a[i];
      assert forall i :: 0 <= i < |b| ==> (a + b)[|a| + i] == b[i];
    }
  }

  lemma LocateParts(digits: string, tail: string, src: Path, sources: map<int, Path>)
    requires '/' !in digits && Atoi(digits).ok && Atoi(digits).value in sources && sources[Atoi(digits).value] == src
    ensures Locate("volumes/" + (digits + "/" + tail), sources)
         == At(if AfterBase(tail) != "" then Join(Render(src), AfterBase(tail)) else Render(src), Render(src))
  {
    FirstSlash(digits, tail);
    TrimAfter("volumes/", digits + "/" + tail);
    hide Atoi, AfterBase, Join, Render, IndexOf, HasPrefix, TrimPrefix;
  }

  /** Every entry the archive of volume i holds is taken back to the very path it came from. */
  lemma LocateEntry(root: Path, rel: Path, i: nat, isDir: bool, sources: map<int, Path>)
    requires root != [] && ValidPath(root) && ValidPath(rel) && i <= MAX_INT64
    requires i in sources && sources[i] == root
    ensures Locate(EntryName(Render(root), VolumePrefix(i), Render(root + rel), isDir), sources)
         == At(Render(root + rel), Render(root))
  {
    hide Clean, Render, JoinNames, EntryName, VolumePrefix, Decimal, Atoi, AfterBase, Locate;
    var base := root[|root| - 1];
    assert ValidName(base);
    EntryNameIs(root, rel, i, isDir);
    AfterBaseIs(base, rel, isDir);
    AtoiDecimal(i);
    NoSlashInDigits(Decimal(i));
    var tail := base + Below(rel) + Slash(isDir);
    LocateParts(Decimal(i), tail, root, sources);
    VolumeName(i, base, Below(rel), Slash(isDir));
    hide ValidPath, Below;
    if rel == [] {
      assert root + rel == root;
    } else {
      JoinNamesEnds(rel);
      CleanBelow(root, rel, isDir);
      RenderNonempty(root);
    }
  }

  lemma RenderNonempty(p: Path)
    ensures Render(p) != ""
  {
  }

  lemma VolumeName(i: nat, base: string, below: string, slash: string)
    ensures VolumePrefix(i) + "/" + base + below + slash == "volumes/" + (Decimal(i) + "/" + (base + below + slash))
  {
    hide Decimal;
  }

  lemma NoSlashInDigits(s: string)
    requires AllDigits(s)
    ensures '/' !in s
  {
  }

  // ----- the disk -----

  datatype Item = RDir | RFile(content: Bytes) | RLink(dest: string)

  type FS = map<Path, Item>

  /** os.MkdirAll: stops at the first ancestor that exists, and fails if that is no directory. */
  function MkdirAll(fs: FS, p: Path): Option<FS> {
    if p == [] then Some(fs)
    else if p in fs then (if fs[p] == RDir then Some(fs) else None)
    else
      match MkdirAll(fs, p[..|p| - 1])
      case None => None
      case Some(made) => Some(made[p := RDir])
  }

  predicate IsDir(fs: FS, p: Path) {
    p == [] || (p in fs && fs[p] == RDir)
  }

  function Parent(p: Path): Path {
    if p == [] then [] else p[..|p| - 1]
  }

  /** Writing one entry. Directories and files make their parents, links do not; existing files are overwritten,
      an existing link stays; other kinds are ignored. A file is not written through an existing link here. */
  function Extract(fs: FS, e: TarEntry, target: Path): FS {
    match e.kind
    case KDir =>
      (match MkdirAll(fs, target) case None => fs case Some(made) => made)
    case KFile =>
      (match MkdirAll(fs, Parent(target))
       case None => fs
       case Some(made) => if target == [] || (target in made && !made[target].RFile?) then made else made[target := RFile(e.content)])
    case KLink(dest) =>
      if target != [] && target !in fs && IsDir(fs, Parent(target)) then fs[target := RLink(dest)] else fs
    case KOther => fs
  }

  /** The guard against leaving the mount source, on cleaned strings. */
  predicate Inside(target: string, src: string) {
    Clean(target) == Clean(src) || HasPrefix(Clean(target), Clean(src) + "/")
  }

  function RestoreOne(fs: FS, e: TarEntry, sources: map<int, Path>): FS {
    match Locate(e.name, sources)
    case Nowhere => fs
    case At(target, src) => if Inside(target, src) then Extract(fs, e, PathOf(target)) else fs
  }

  function PathOf(target: string): Path {
    Fold(Comps(target), true)
  }

  function RestoreAll(fs: FS, entries: seq<TarEntry>, sources: map<int, Path>): FS {
    if entries == [] then fs
    else RestoreOne(RestoreAll(fs, entries[..|entries| - 1], sources), entries[|entries| - 1], sources)
  }

  lemma PathOfRender(p: Path)
    requires ValidPath(p)
    ensures PathOf(Render(p)) == p
  {
    CompsOfRender(p);
    FoldEmpties(p);
    assert [""] + [] + [""] == [""] + [""];
  }

  /** An entry of a volume is extracted where it came from. */
  lemma RestoreVisit(fs: FS, root: Path, i: nat, v: Visit, sources: map<int, Path>)
    requires root != [] && ValidPath(v.path) && root <= v.path && i <= MAX_INT64
    requires i in sources && sources[i] == root && v.node != Special(false)
    ensures var e := TarEntry(EntryName(Render(root), VolumePrefix(i), Render(v.path), v.node.Dir?), KindOf(v.node), Content(v.node));
      RestoreOne(fs, e, sources) == Extract(fs, e, v.path)
  {
    hide Locate, EntryName, VolumePrefix, Content, Extract, Clean, Render, HasPrefix, PathOf, ValidPath, KindOf;
    var rel := v.path[|root|..];
    assert root + rel == v.path;
    JoinValid(root, rel);
    LocateEntry(root, rel, i, v.node.Dir?, sources);
    InsideSource(root, v.path);
    PathOfRender(v.path);
  }

  lemma InsideSource(root: Path, p: Path)
    requires ValidPath(root) && ValidPath(p) && root != [] && root <= p
    ensures Inside(Render(p), Render(root))
  {
    hide Clean, Render, HasPrefix, ValidPath;
    CleanRender(p);
    CleanRender(root);
    BeneathIff(p, root);
  }

  // ----- what should come back -----

  /** The tree as the disk will hold it: what is, or lies beneath, an exclude is missing, and so are directories
      that could not be listed and special files. */
  function Image(p: Path, node: Node, ex: seq<string>): FS
    decreases node
  {
    if Covered(p, ex) then map[]
    else
      match node
      case File(_, _) => map[p := RFile(Content(node))]
      case Link(dest) => map[p := RLink(dest)]
      case Special(_) => map[]
      case Dir(listable, entries) => if listable then map[p := RDir] + ImageForest(p, entries, ex) else map[]
  }

  function ImageForest(p: Path, f: Forest, ex: seq<string>): FS
    decreases f
  {
    match f
    case End => map[]
    case Entry(name, node, rest) => Image(p + [name], node, ex) + ImageForest(p, rest, ex)
  }

  /** What lies below a node under these names, as far as directories can be listed. */
  function NodeAt(node: Node, rel: Path): Option<Node>
    decreases node
  {
    if rel == [] then Some(node)
    else if node.Dir? && node.listable then ChildAt(node.entries, rel[0], rel[1..])
    else None
  }

  function ChildAt(f: Forest, name: string, rel: Path): Option<Node>
    decreases f
  {
    match f
    case End => None
    case Entry(n, node, rest) => if n == name then NodeAt(node, rel) else ChildAt(rest, name, rel)
  }

  /** The form in which a node comes back, if it does. */
  function ItemOf(node: Node): Option<Item> {
    match node
    case File(_, _) => Some(RFile(Content(node)))
    case Link(dest) => Some(RLink(dest))
    case Dir(listable, _) => if listable then Some(RDir) else None
    case Special(_) => None
  }

  lemma CoveredBelow(p: Path, q: Path, ex: seq<string>)
    requires p <= q && Covered(p, ex)
    ensures Covered(q, ex)
  {
    hide ExcludePath, Absolute;
    var i :| 0 <= i < |ex| && Covers(ex[i], p);
    assert Covers(ex[i], q);
  }

  /** The image, node by node: below a path exactly those nodes come back that are no special files, can be reached
      and listed, and are neither an exclude nor beneath one. */
  lemma {:induction false} ImageIs(p: Path, node: Node, ex: seq<string>, rel: Path)
    requires WellFormed(node)
    ensures var image := Image(p, node, ex);
      p + rel in image <==> NodeAt(node, rel).Some? && ItemOf(NodeAt(node, rel).value).Some? && !Covered(p + rel, ex)
    ensures var image := Image(p, node, ex);
      p + rel in image ==> NodeAt(node, rel).Some? && ItemOf(NodeAt(node, rel).value) == Some(image[p + rel])
    decreases node
  {
    hide Covered, Content;
    if Covered(p, ex) {
      CoveredBelow(p, p + rel, ex);
    } else if rel == [] {
      assert p + rel == p;
      if node.Dir? ==> node.listable {
        ImageHere(p, node, ex);
      }
    } else if node.Dir? && node.listable {
      ForestIs(p, node.entries, ex, rel[0], rel[1..]);
      assert rel == [rel[0]] + rel[1..];
      assert p + rel != p;
    } else {
      assert p + rel != p;
    }
  }

  lemma {:induction false} ForestIs(p: Path, f: Forest, ex: seq<string>, name: string, rel: Path)
    requires WellFormedForest(f)
    ensures var image, q := ImageForest(p, f, ex), p + ([name] + rel);
      q in image <==> ChildAt(f, name, rel).Some? && ItemOf(ChildAt(f, name, rel).value).Some? && !Covered(q, ex)
    ensures var image, q := ImageForest(p, f, ex), p + ([name] + rel);
      q in image ==> ChildAt(f, name, rel).Some? && ItemOf(ChildAt(f, name, rel).value) == Some(image[q])
    decreases f
  {
    hide Covered, ItemOf, Image, NodeAt;
    match f
    case End =>
    case Entry(n, node, rest) =>
      var q := p + ([name] + rel);
      ImageBelow(p + [n], node, ex);
      ImageForestBelow(p, rest, ex);
      ForestIs(p, rest, ex, name, rel);
      assert q[|p|] == name;
      if n == name {
        ImageIs(p + [n], node, ex, rel);
        assert (p + [n]) + rel == q;
      }
  }

  /** Two items can meet at a path: they are equal, or files of which the later wins. */
  predicate Alike(a: Item, b: Item) {
    a == b || (a.RFile? && b.RFile?)
  }

  predicate Fits(fs: FS, image: FS) {
    forall q :: q in fs && q in image ==> Alike(fs[q], image[q])
  }

  lemma {:induction false} ImageBelow(p: Path, node: Node, ex: seq<string>)
    ensures forall q :: q in Image(p, node, ex) ==> p <= q
    decreases node
  {
    hide Covered;
    if node.Dir? {
      ImageForestBelow(p, node.entries, ex);
    }
  }

  lemma {:induction false} ImageForestBelow(p: Path, f: Forest, ex: seq<string>)
    ensures forall q :: q in ImageForest(p, f, ex) ==> p < q && q[|p|] in Names(f)
    decreases f
  {
    match f
    case End =>
    case Entry(name, node, rest) =>
      ImageBelow(p + [name], node, ex);
      ImageForestBelow(p, rest, ex);
  }

  lemma {:induction false} RestoreAppend(fs: FS, a: seq<TarEntry>, b: seq<TarEntry>, sources: map<int, Path>)
    ensures RestoreAll(fs, a + b, sources) == RestoreAll(RestoreAll(fs, a, sources), b, sources)
  {
    hide RestoreOne;
    if b == [] {
      assert a + b == a;
    } else {
      var n := |b| - 1;
      RestoreAppend(fs, a, b[..n], sources);
      assert (a + b)[..|a| + n] == a + b[..n];
    }
  }

  lemma RestoreSingle(fs: FS, e: TarEntry, sources: map<int, Path>)
    ensures RestoreAll(fs, [e], sources) == RestoreOne(fs, e, sources)
  {
    hide RestoreOne;
    assert [e][..0] == [];
    assert RestoreAll(fs, [], sources) == fs;
  }

  predicate Indexed(sources: map<int, Path>, i: nat, root: Path) {
    i <= MAX_INT64 && i in sources && sources[i] == root
  }

  predicate SourceIs(sources: map<int, Path>, i: nat, root: Path) {
    root != [] && Indexed(sources, i, root)
  }

  /** The entries of a subtree whose parent directory is already there. */
  function TreeEntries(root: Path, i: nat, p: Path, node: Node, ex: seq<string>): seq<TarEntry> {
    EntriesOf(Render(root), VolumePrefix(i), Pruned(p, node, ex))
  }

  function ForestEntries(root: Path, i: nat, p: Path, f: Forest, ex: seq<string>): seq<TarEntry> {
    EntriesOf(Render(root), VolumePrefix(i), PrunedForest(p, f, ex))
  }

  /** Extracting one visit at a place that fits, under a directory that is there. */
  lemma ExtractPlace(fs: FS, e: TarEntry, p: Path)
    requires p != [] && IsDir(fs, Parent(p))
    ensures e.kind == KDir && (p in fs ==> fs[p] == RDir) ==> Extract(fs, e, p) == fs + map[p := RDir]
    ensures e.kind == KFile && (p in fs ==> fs[p].RFile?) ==> Extract(fs, e, p) == fs + map[p := RFile(e.content)]
    ensures e.kind.KLink? && (p in fs ==> fs[p] == RLink(e.kind.dest)) ==> Extract(fs, e, p) == fs + map[p := RLink(e.kind.dest)]
    ensures e.kind == KOther ==> Extract(fs, e, p) == fs
  {
    assert MkdirAll(fs, Parent(p)) == Some(fs);
  }

  lemma {:induction false} RestoreTree(fs: FS, root: Path, i: nat, p: Path, node: Node, ex: seq<string>, sources: map<int, Path>)
    requires SourceIs(sources, i, root) && ValidPath(p) && root <= p && WellFormed(node) && !ExcludesRoot(ex)
    requires IsDir(fs, Parent(p)) && Fits(fs, Image(p, node, ex))
    ensures RestoreAll(fs, TreeEntries(root, i, p, node, ex), sources) == fs + Image(p, node, ex)
    decreases node
  {
    ExcludedIsCovered(p, ex);
    if (node.Dir? && !node.listable) || Covered(p, ex) {
      assert Pruned(p, node, ex) == [];
      assert fs + map[] == fs;
    } else {
      RestoreHere(fs, root, i, p, node, ex, sources);
      if node.Dir? {
        RestoreDir(fs, root, i, p, node, ex, sources);
      }
    }
  }

  /** The visit of the node itself. */
  lemma RestoreHere(fs: FS, root: Path, i: nat, p: Path, node: Node, ex: seq<string>, sources: map<int, Path>)
    requires SourceIs(sources, i, root) && ValidPath(p) && root <= p && !Covered(p, ex) && (node.Dir? ==> node.listable)
    requires IsDir(fs, Parent(p)) && Fits(fs, Image(p, node, ex))
    ensures RestoreAll(fs, EntriesOf(Render(root), VolumePrefix(i), [Visit(p, node)]), sources)
         == if node.Dir? then fs + map[p := RDir] else fs + Image(p, node, ex)
  {
    hide EntryName, VolumePrefix, Render, RestoreOne, RestoreAll, Content, Extract, EntriesOf, ValidPath, Covered, Image;
    var v := Visit(p, node);
    EntriesOne(Render(root), VolumePrefix(i), v);
    ImageHere(p, node, ex);
    assert fs + map[] == fs;
    if node != Special(false) {
      var e := TarEntry(EntryName(Render(root), VolumePrefix(i), Render(p), node.Dir?), KindOf(node), Content(node));
      RestoreVisit(fs, root, i, v, sources);
      RestoreSingle(fs, e, sources);
      ExtractPlace(fs, e, p);
    } else {
      RestoreNone(fs, sources);
    }
  }

  lemma RestoreNone(fs: FS, sources: map<int, Path>)
    ensures RestoreAll(fs, [], sources) == fs
  {
  }

  lemma ImageHere(p: Path, node: Node, ex: seq<string>)
    requires !Covered(p, ex) && (node.Dir? ==> node.listable)
    ensures node.Dir? ==> p in Image(p, node, ex) && Image(p, node, ex)[p] == RDir
    ensures node.File? ==> Image(p, node, ex) == map[p := RFile(Content(node))]
    ensures node.Link? ==> Image(p, node, ex) == map[p := RLink(node.dest)]
    ensures node.Special? ==> Image(p, node, ex) == map[]
  {
    hide Covered, Content;
    if node.Dir? {
      ImageForestBelow(p, node.entries, ex);
    }
  }

  lemma {:induction false} RestoreDir(fs: FS, root: Path, i: nat, p: Path, node: Node, ex: seq<string>, sources: map<int, Path>)
    requires SourceIs(sources, i, root) && ValidPath(p) && root <= p && WellFormed(node) && !ExcludesRoot(ex)
    requires node.Dir? && node.listable && !Covered(p, ex)
    requires RestoreAll(fs, EntriesOf(Render(root), VolumePrefix(i), [Visit(p, node)]), sources) == fs + map[p := RDir]
    requires Fits(fs, Image(p, node, ex))
    ensures RestoreAll(fs, TreeEntries(root, i, p, node, ex), sources) == fs + Image(p, node, ex)
    decreases node, 0
  {
    hide EntriesOf, RestoreAll, ImageForest, Covered, ValidPath, Excluded, PrunedForest, Render, VolumePrefix;
    ExcludedIsCovered(p, ex);
    var v, below := Visit(p, node), PrunedForest(p, node.entries, ex);
    assert Pruned(p, node, ex) == [v] + below;
    var img := ImageForest(p, node.entries, ex);
    assert Image(p, node, ex) == map[p := RDir] + img;
    ImageForestBelow(p, node.entries, ex);
    hide Pruned, Image;
    EntriesAppend(Render(root), VolumePrefix(i), [v], below);
    RestoreAppend(fs, EntriesOf(Render(root), VolumePrefix(i), [v]), ForestEntries(root, i, p, node.entries, ex), sources);
    var fs' := fs + map[p := RDir];
    assert Fits(fs', img);
    RestoreForest(fs', root, i, p, node.entries, ex, sources);
    assert fs' + img == fs + (map[p := RDir] + img);
  }

  lemma {:induction false} RestoreForest(fs: FS, root: Path, i: nat, p: Path, f: Forest, ex: seq<string>, sources: map<int, Path>)
    requires SourceIs(sources, i, root) && ValidPath(p) && root <= p && WellFormedForest(f) && !ExcludesRoot(ex)
    requires IsDir(fs, p) && Fits(fs, ImageForest(p, f, ex))
    ensures RestoreAll(fs, ForestEntries(root, i, p, f, ex), sources) == fs + ImageForest(p, f, ex)
    decreases f
  {
    hide RestoreAll, IsDir, Fits, ValidPath, SourceIs, Image, ImageForest, WellFormed, ExcludesRoot;
    if f.End? {
      EmptyForest(root, i, p, ex);
      RestoreNone(fs, sources);
      assert fs + map[] == fs;
    } else {
      var q, rest := p + [f.name], f.rest;
      var one, others := Image(q, f.node, ex), ImageForest(p, rest, ex);
      ForestParts(fs, root, i, p, f, ex);
      hide WellFormedForest, TreeEntries, ForestEntries;
      RestoreTree(fs, root, i, q, f.node, ex, sources);
      RestoreForest(fs + one, root, i, p, rest, ex, sources);
      RestoreAppend(fs, TreeEntries(root, i, q, f.node, ex), ForestEntries(root, i, p, rest, ex), sources);
      assert fs + one + others == fs + (one + others);
    }
  }

  lemma EmptyForest(root: Path, i: nat, p: Path, ex: seq<string>)
    ensures ForestEntries(root, i, p, End, ex) == [] && ImageForest(p, End, ex) == map[]
  {
  }

  lemma ForestParts(fs: FS, root: Path, i: nat, p: Path, f: Forest, ex: seq<string>)
    requires f.Entry? && ValidPath(p) && root <= p && WellFormedForest(f) && IsDir(fs, p) && Fits(fs, ImageForest(p, f, ex))
    ensures var q := p + [f.name];
      && ValidPath(q) && root <= q && Parent(q) == p && WellFormed(f.node) && WellFormedForest(f.rest)
      && ForestEntries(root, i, p, f, ex) == TreeEntries(root, i, q, f.node, ex) + ForestEntries(root, i, p, f.rest, ex)
      && ImageForest(p, f, ex) == Image(q, f.node, ex) + ImageForest(p, f.rest, ex)
      && Fits(fs, Image(q, f.node, ex)) && IsDir(fs + Image(q, f.node, ex), p)
      && Fits(fs + Image(q, f.node, ex), ImageForest(p, f.rest, ex))
  {
    hide Render, VolumePrefix, EntriesOf, Pruned, Image;
    var q, rest := p + [f.name], f.rest;
    assert ValidPath(q);
    EntriesAppend(Render(root), VolumePrefix(i), Pruned(q, f.node, ex), PrunedForest(p, rest, ex));
    ImageBelow(q, f.node, ex);
    ImageForestBelow(p, rest, ex);
    assert ImageForest(p, f, ex) == Image(q, f.node, ex) + ImageForest(p, rest, ex);
    hide ImageForest, ValidPath, Fits, IsDir;
    SiblingsFit(fs, p, f.name, Image(q, f.node, ex), ImageForest(p, rest, ex), Names(rest));
  }

  lemma SiblingsFit(fs: FS, p: Path, name: string, one: FS, others: FS, names: set<string>)
    requires name !in names && Fits(fs, one + others) && IsDir(fs, p)
    requires forall q :: q in one ==> p + [name] <= q
    requires forall q :: q in others ==> p < q && q[|p|] in names
    ensures Fits(fs, one) && Fits(fs + one, others) && IsDir(fs + one, p)
  {
    forall q | q in one
      ensures q !in others && q != p
    {
      assert q[|p|] == name;
    }
  }

  // ----- whole volumes -----

  /** The directories down to a path. */
  function Dirs(p: Path): FS {
    if p == [] then map[] else Dirs(p[..|p| - 1])[p := RDir]
  }

  predicate ParentsThere(fs: FS) {
    forall q :: q in fs ==> q != [] && IsDir(fs, Parent(q))
  }

  /** What restoring a volume adds: its image and the directories leading to it. */
  function Target(vol: Volume, ex: seq<string>): FS {
    var image := Image(vol.root, vol.tree, ex);
    if image == map[] then map[] else Dirs(Parent(vol.root)) + image
  }

  lemma {:induction false} DirsAre(p: Path)
    ensures forall q :: q in Dirs(p) <==> q != [] && q <= p
    ensures forall q :: q in Dirs(p) ==> Dirs(p)[q] == RDir
  {
    if p != [] {
      var front := p[..|p| - 1];
      DirsAre(front);
      assert front <= p;
      forall q
        ensures q in Dirs(p) <==> q != [] && q <= p
      {
        if q <= p && q != p {
          assert q <= front;
        }
        if q <= front {
          assert q == front[..|q|] == p[..|q|];
        }
      }
    }
  }

  lemma {:induction false} AncestorsThere(fs: FS, p: Path)
    requires ParentsThere(fs) && IsDir(fs, p)
    ensures fs + Dirs(p) == fs
  {
    if p != [] {
      AncestorsThere(fs, p[..|p| - 1]);
      assert fs + Dirs(p) == (fs + Dirs(p[..|p| - 1]))[p := RDir];
    }
  }

  lemma FrontFits(fs: FS, p: Path)
    requires p != [] && Fits(fs, Dirs(p))
    ensures Fits(fs, Dirs(p[..|p| - 1]))
  {
    DirsAre(p);
    DirsAre(p[..|p| - 1]);
  }

  lemma {:induction false} MkdirAllGives(fs: FS, p: Path)
    requires ParentsThere(fs) && Fits(fs, Dirs(p))
    ensures MkdirAll(fs, p) == Some(fs + Dirs(p))
  {
    if p == [] {
      assert fs + map[] == fs;
    } else if p in fs {
      DirsAre(p);
      AncestorsThere(fs, p);
    } else {
      var front := p[..|p| - 1];
      assert Dirs(p) == Dirs(front)[p := RDir];
      FrontFits(fs, p);
      hide Dirs, ParentsThere, Fits;
      MkdirAllGives(fs, front);
      assert fs + Dirs(front)[p := RDir] == (fs + Dirs(front))[p := RDir];
    }
  }

  lemma {:induction false} ImageParents(p: Path, node: Node, ex: seq<string>)
    requires p != [] && WellFormed(node)
    ensures forall q :: q in Image(p, node, ex) ==> q == p || UnderDir(Image(p, node, ex), q)
    decreases node
  {
    hide Covered;
    if node.Dir? && node.listable && !Covered(p, ex) {
      ImageForestParents(p, node.entries, ex);
      ImageForestBelow(p, node.entries, ex);
    }
  }

  lemma {:induction false} ImageForestParents(p: Path, f: Forest, ex: seq<string>)
    requires WellFormedForest(f)
    ensures forall q :: q in ImageForest(p, f, ex) ==> q != [] && (Parent(q) == p || UnderDir(ImageForest(p, f, ex), q))
    decreases f
  {
    match f
    case End =>
    case Entry(name, node, rest) =>
      ImageParents(p + [name], node, ex);
      ImageForestParents(p, rest, ex);
      ImageBelow(p + [name], node, ex);
      ImageForestBelow(p, rest, ex);
      MergeParents(p, name, Image(p + [name], node, ex), ImageForest(p, rest, ex), Names(rest));
  }

  lemma MergeParents(p: Path, name: string, one: FS, others: FS, names: set<string>)
    requires name !in names
    requires forall q :: q in one ==> p + [name] <= q && (q == p + [name] || UnderDir(one, q))
    requires forall q :: q in others ==> p < q && q[|p|] in names && (Parent(q) == p || UnderDir(others, q))
    ensures forall q :: q in one + others ==> q != [] && (Parent(q) == p || UnderDir(one + others, q))
  {
    forall q | q in one
      ensures q !in others
    {
      assert q[|p|] == name;
    }
  }

  predicate UnderDir(fs: FS, q: Path) {
    q != [] && Parent(q) in fs && fs[Parent(q)] == RDir
  }

  /** Entries that make their own parents do the same whether those are there or not. */
  lemma ParentsFirst(fs: FS, e: TarEntry, p: Path)
    requires p != [] && ParentsThere(fs) && Fits(fs, Dirs(Parent(p)))
    requires (e.kind == KDir && (p in fs ==> fs[p] == RDir)) || (e.kind == KFile && (p in fs ==> fs[p].RFile?))
    ensures Extract(fs, e, p) == Extract(fs + Dirs(Parent(p)), e, p)
  {
    var dirs := Dirs(Parent(p));
    PathParts(fs, p);
    MkdirAllGives(fs, Parent(p));
    ExtractPlace(fs + dirs, e, p);
    if e.kind == KDir {
      MkdirAllGives(fs, p);
      hide Dirs, ParentsThere, Fits;
      assert fs + dirs + map[p := RDir] == fs + dirs[p := RDir];
    } else {
      hide Dirs, ParentsThere, Fits;
      assert fs + dirs + map[p := RFile(e.content)] == (fs + dirs)[p := RFile(e.content)];
    }
  }

  lemma PathParts(fs: FS, p: Path)
    requires p != [] && Fits(fs, Dirs(Parent(p)))
    ensures p !in Dirs(Parent(p)) && Dirs(p) == Dirs(Parent(p))[p := RDir] && IsDir(fs + Dirs(Parent(p)), Parent(p))
    ensures (p in fs ==> fs[p] == RDir) ==> Fits(fs, Dirs(p))
  {
    DirsAre(Parent(p));
  }

  /** A whole volume, brought back to where it was. */
  lemma RestoreVolume(fs: FS, vol: Volume, i: nat, ex: seq<string>, sources: map<int, Path>)
    requires SourceIs(sources, i, vol.root) && ValidPath(vol.root) && WellFormed(vol.tree) && !ExcludesRoot(ex)
    requires ParentsThere(fs) && Fits(fs, Target(vol, ex)) && (vol.tree.Link? ==> IsDir(fs, Parent(vol.root)))
    ensures RestoreAll(fs, VolumeEntries(vol, i, ex), sources) == fs + Target(vol, ex)
  {
    hide RestoreAll, Image, Dirs, ValidPath, WellFormed, ExcludesRoot, ParentsThere, Fits, IsDir, TreeEntries, VolumeEntries, Target;
    var p, node := vol.root, vol.tree;
    var image, dirs := Image(p, node, ex), Dirs(Parent(p));
    TargetIs(vol, ex);
    TargetParts(fs, vol, ex);
    VolumeEntriesAre(vol, i, ex);
    if image == map[] {
      NothingToRestore(fs, p, i, node, ex, sources);
      AddNothing(fs);
    } else {
      SameWithParents(fs, vol, i, ex, sources);
      RestoreTree(fs + dirs, p, i, p, node, ex, sources);
      AddTwice(fs, dirs, image);
    }
  }

  lemma TargetIs(vol: Volume, ex: seq<string>)
    ensures var image := Image(vol.root, vol.tree, ex);
      Target(vol, ex) == if image == map[] then map[] else Dirs(Parent(vol.root)) + image
  {
  }

  lemma VolumeEntriesAre(vol: Volume, i: nat, ex: seq<string>)
    ensures VolumeEntries(vol, i, ex) == TreeEntries(vol.root, i, vol.root, vol.tree, ex)
  {
  }

  lemma AddNothing(fs: FS)
    ensures fs + map[] == fs
  {
  }

  lemma AddTwice(fs: FS, a: FS, b: FS)
    ensures fs + a + b == fs + (a + b)
  {
  }

  lemma TargetParts(fs: FS, vol: Volume, ex: seq<string>)
    requires vol.root != [] && Fits(fs, Target(vol, ex)) && ParentsThere(fs)
    ensures var image, dirs := Image(vol.root, vol.tree, ex), Dirs(Parent(vol.root));
      image != map[] ==> Fits(fs, image) && Fits(fs, dirs) && Fits(fs + dirs, image) && IsDir(fs + dirs, Parent(vol.root))
  {
    hide Image;
    var p := vol.root;
    ImageBelow(p, vol.tree, ex);
    DirsAre(Parent(p));
    var image, dirs := Image(p, vol.tree, ex), Dirs(Parent(p));
    forall q | q in image
      ensures q !in dirs
    {
    }
  }

  lemma NothingToRestore(fs: FS, p: Path, i: nat, node: Node, ex: seq<string>, sources: map<int, Path>)
    requires SourceIs(sources, i, p) && ValidPath(p) && !ExcludesRoot(ex) && Image(p, node, ex) == map[]
    ensures RestoreAll(fs, TreeEntries(p, i, p, node, ex), sources) == fs
  {
    hide Content, EntriesOf, Excluded, Covered, Render, VolumePrefix, RestoreAll, ValidPath;
    ExcludedIsCovered(p, ex);
    RestoreNone(fs, sources);
    NothingWritten(Render(p), VolumePrefix(i));
    if !Covered(p, ex) && (node.Dir? ==> node.listable) {
      ImageHere(p, node, ex);
      assert p in map[p := RDir];
      assert node.Special?;
      var v := Visit(p, node);
      EntriesOne(Render(p), VolumePrefix(i), v);
      if node.archived {
        var e := TarEntry(EntryName(Render(p), VolumePrefix(i), Render(p), false), KOther, Content(node));
        RestoreVisit(fs, p, i, v, sources);
        RestoreSingle(fs, e, sources);
      }
    }
  }

  /** The first entry of a volume makes the directories above it. */
  lemma SameWithParents(fs: FS, vol: Volume, i: nat, ex: seq<string>, sources: map<int, Path>)
    requires SourceIs(sources, i, vol.root) && ValidPath(vol.root) && !ExcludesRoot(ex) && ParentsThere(fs)
    requires Image(vol.root, vol.tree, ex) != map[] && Fits(fs, Image(vol.root, vol.tree, ex)) && Fits(fs, Dirs(Parent(vol.root)))
    requires vol.tree.Link? ==> IsDir(fs, Parent(vol.root))
    ensures RestoreAll(fs, VolumeEntries(vol, i, ex), sources)
         == RestoreAll(fs + Dirs(Parent(vol.root)), VolumeEntries(vol, i, ex), sources)
  {
    var p, node := vol.root, vol.tree;
    hide EntriesOf, Excluded, Covered, Render, VolumePrefix, RestoreAll, ValidPath, Dirs, ParentsThere;
    ExcludedIsCovered(p, ex);
    if node.Link? {
      AncestorsThere(fs, Parent(p));
    } else {
      ImageHere(p, node, ex);
      var v := Visit(p, node);
      var below := if node.Dir? then PrunedForest(p, node.entries, ex) else [];
      assert Pruned(p, node, ex) == [v] + below;
      hide Pruned, Image;
      EntriesAppend(Render(p), VolumePrefix(i), [v], below);
      EntriesOne(Render(p), VolumePrefix(i), v);
      var e := TarEntry(EntryName(Render(p), VolumePrefix(i), Render(p), node.Dir?), KindOf(node), Content(node));
      var rest := EntriesOf(Render(p), VolumePrefix(i), below);
      var dirs := Dirs(Parent(p));
      FirstEntrySame(fs, p, i, v, e, sources);
      RestoreAppend(fs, [e], rest, sources);
      RestoreAppend(fs + dirs, [e], rest, sources);
    }
  }

  lemma FirstEntrySame(fs: FS, p: Path, i: nat, v: Visit, e: TarEntry, sources: map<int, Path>)
    requires SourceIs(sources, i, p) && ValidPath(p) && ParentsThere(fs) && v.path == p && (v.node.Dir? || v.node.File?)
    requires e == TarEntry(EntryName(Render(p), VolumePrefix(i), Render(p), v.node.Dir?), KindOf(v.node), Content(v.node))
    requires p in fs ==> (if v.node.Dir? then fs[p] == RDir else fs[p].RFile?)
    requires Fits(fs, Dirs(Parent(p)))
    ensures RestoreAll(fs, [e], sources) == RestoreAll(fs + Dirs(Parent(p)), [e], sources)
  {
    hide EntryName, Render, VolumePrefix, Content, RestoreOne, RestoreAll, ValidPath, Extract, Dirs, Fits, ParentsThere;
    var dirs := Dirs(Parent(p));
    RestoreVisit(fs, p, i, v, sources);
    RestoreVisit(fs + dirs, p, i, v, sources);
    RestoreSingle(fs, e, sources);
    RestoreSingle(fs + dirs, e, sources);
    ParentsFirst(fs, e, p);
  }

  // ----- all volumes of a container -----

  function SourcesOf(vols: seq<Volume>): map<int, Path> {
    map i | 0 <= i < |vols| :: vols[i].root
  }

  function AllTargets(vols: seq<Volume>, ex: seq<string>): FS {
    if vols == [] then map[] else AllTargets(vols[..|vols| - 1], ex) + Target(vols[|vols| - 1], ex)
  }

  /** Everything in `part` is also in `whole`, and alike. */
  predicate PartOf(part: FS, whole: FS) {
    forall q :: q in part ==> q in whole && Alike(part[q], whole[q])
  }

  /** The volumes are views of one host, so overlapping ones agree. */
  predicate OneHost(vols: seq<Volume>, ex: seq<string>, host: FS) {
    && |vols| <= MAX_INT64
    && ValidVolumes(vols)
    && forall i :: 0 <= i < |vols| && vols[i].root != [] ==> PartOf(Target(vols[i], ex), host)
  }

  /** A volume that comes back: not the root, and a bare link only into a directory that is there. */
  predicate Comes(fs: FS, vol: Volume) {
    vol.root != [] && (vol.tree.Link? ==> IsDir(fs, Parent(vol.root)))
  }

  /** The disk with all volumes back that come back, in their order. */
  function Rebuilt(fs: FS, vols: seq<Volume>, ex: seq<string>): FS {
    if vols == [] then fs
    else
      var before, vol := Rebuilt(fs, vols[..|vols| - 1], ex), vols[|vols| - 1];
      if Comes(before, vol) then before + Target(vol, ex) else before
  }

  /** Each volume comes back once those before it have. */
  predicate AllCome(fs: FS, vols: seq<Volume>, ex: seq<string>) {
    forall i :: 0 <= i < |vols| ==> Comes(Rebuilt(fs, vols[..i], ex), vols[i])
  }

  lemma FitsThrough(fs: FS, host: FS, part: FS)
    requires Fits(fs, host) && PartOf(part, host)
    ensures Fits(fs, part) && Fits(fs + part, host)
  {
  }

  lemma TargetParents(fs: FS, vol: Volume, ex: seq<string>)
    requires vol.root != [] && WellFormed(vol.tree) && ParentsThere(fs)
    requires Fits(fs, Target(vol, ex))
    ensures ParentsThere(fs + Target(vol, ex))
  {
    hide WellFormed;
    var p, image, t := vol.root, Image(vol.root, vol.tree, ex), Target(vol, ex);
    if image == map[] {
      AddNothing(fs);
    } else {
      var dirs := Dirs(Parent(p));
      ImageParents(p, vol.tree, ex);
      ImageBelow(p, vol.tree, ex);
      DirsAre(Parent(p));
      hide Image, Dirs;
      forall q | q in t
        ensures q != [] && (Parent(q) == [] || (Parent(q) in t && t[Parent(q)] == RDir))
      {
        if q in image {
          if q == p {
            assert Parent(q) == [] || Parent(q) in dirs;
            assert Parent(q) !in image;
          } else {
            assert UnderDir(image, q);
          }
        } else {
          assert q <= Parent(p);
          assert Parent(q) <= Parent(p);
          assert Parent(q) !in image;
        }
      }
      KeepParents(fs, t);
    }
  }

  lemma KeepParents(fs: FS, t: FS)
    requires ParentsThere(fs) && Fits(fs, t)
    requires forall q :: q in t ==> q != [] && (Parent(q) == [] || (Parent(q) in t && t[Parent(q)] == RDir))
    ensures ParentsThere(fs + t)
  {
    forall q | q in fs
      ensures q != [] && IsDir(fs + t, Parent(q))
    {
      assert IsDir(fs, Parent(q));
    }
  }

  // ----- where it does not come back -----

  /** An entry of a mount whose source is the root directory: the guard lets nothing below it through. */
  lemma RootSourceRestoresNothing(fs: FS, e: TarEntry, sources: map<int, Path>)
    requires Locate(e.name, sources).At? && Locate(e.name, sources).src == Render([])
    ensures RestoreOne(fs, e, sources) == fs
  {
    hide Extract, IndexOf, TrimPrefix, HasPrefix, AfterBase, Atoi, Clean, PathOf, Inside;
    var tail := AfterBase(TrimPrefix(e.name, "volumes/")[IndexOf(TrimPrefix(e.name, "volumes/"), '/') + 1..]);
    var target := if tail != "" then Join("/", tail) else "/";
    assert Render([]) == "/";
    assert Locate(e.name, sources) == At(target, "/");
    hide Locate, Render;
    if tail != "" {
      CleanIsRooted("/" + "/" + tail);
    } else {
      CleanIsRooted("/");
    }
    GuardAtRoot(target);
    if Inside(target, "/") {
      ExtractRoot(fs, e);
    }
  }

  lemma CleanIsRooted(s: string)
    requires s != "" && s[0] == '/'
    ensures Clean(s) != "" && Clean(s)[0] == '/'
  {
  }

  lemma GuardAtRoot(target: string)
    requires target != "" && target[0] == '/'
    ensures Inside(target, "/") ==> PathOf(target) == []
  {
    FoldIsValid(Comps(target));
    var p := PathOf(target);
    assert Clean(target) == Render(p) && Render([]) == "/";
    CleanRender([]);
    BeneathIff(p, []);
  }

  lemma ExtractRoot(fs: FS, e: TarEntry)
    ensures Extract(fs, e, []) == fs
  {
  }

  lemma ChopAfter(a: string, b: string)
    requires b != ""
    ensures (a + b)[..|a + b| - 1] == a + b[..|b| - 1]
  {
  }

  /** The name of an entry of the root mount still tells its volume. */
  lemma RootEntryName(i: nat, path: string, isDir: bool) returns (tail: string)
    ensures EntryName(Render([]), VolumePrefix(i), path, isDir) == "volumes/" + (Decimal(i) + "/" + tail)
  {
    BaseOfRoot();
    hide Decimal, TrimPrefix, HasSuffix, Base, Render, VolumePrefix;
    var prefix := VolumePrefix(i) + "/";
    var rel := TrimPrefix(TrimPrefix(path, "/"), "/");
    var after := if rel == "" then "/" else "/" + "/" + rel;
    var name := if rel == "" then prefix + "/" else prefix + "/" + "/" + rel;
    assert name == prefix + after;
    ChopAfter(prefix, after);
    tail := (if HasSuffix(name, "/") then after[..|after| - 1] else after) + Slash(isDir);
    assert EntryName("/", VolumePrefix(i), path, isDir) == prefix + tail;
    VolumeName(i, tail, "", "");
    assert tail + "" + "" == tail;
  }

  lemma BaseOfRoot()
    ensures Render([]) == "/" && Base("/") == "/"
  {
    assert "/"[..0] == "";
  }

  lemma {:induction false} RootVisits(fs: FS, i: nat, vs: seq<Visit>, sources: map<int, Path>)
    requires Indexed(sources, i, [])
    ensures RestoreAll(fs, EntriesOf(Render([]), VolumePrefix(i), vs), sources) == fs
  {
    hide EntryName, VolumePrefix, Content, RestoreOne, Render, Locate, Decimal, Atoi, AfterBase;
    if vs != [] {
      var v := vs[|vs| - 1];
      var front := EntriesOf(Render([]), VolumePrefix(i), vs[..|vs| - 1]);
      RootVisits(fs, i, vs[..|vs| - 1], sources);
      var entries := EntriesOf(Render([]), VolumePrefix(i), vs);
      if entries != front {
        var e := entries[|entries| - 1];
        assert entries[..|entries| - 1] == front;
        var tail := RootEntryName(i, Render(v.path), v.node.Dir?);
        AtoiDecimal(i);
        NoSlashInDigits(Decimal(i));
        LocateParts(Decimal(i), tail, [], sources);
        RootSourceRestoresNothing(fs, e, sources);
      }
    }
  }

  /** Nothing of a volume mounted from the root directory comes back, whatever else is in the archive. */
  lemma RootVolumeIsLost(fs: FS, vol: Volume, i: nat, ex: seq<string>, sources: map<int, Path>)
    requires vol.root == [] && Indexed(sources, i, [])
    ensures RestoreAll(fs, VolumeEntries(vol, i, ex), sources) == fs
  {
    hide RestoreAll, EntriesOf, VolumePrefix, Render, Pruned;
    RootVisits(fs, i, Pruned(vol.root, vol.tree, ex), sources);
  }

  /** A mount source that is itself a symbolic link is archived as the link alone, and even that comes back only
      into a directory that is there, at a place that is free. */
  lemma LinkSourceIsLost(fs: FS, vol: Volume, i: nat, ex: seq<string>, sources: map<int, Path>)
    requires Indexed(sources, i, vol.root) && ValidPath(vol.root) && vol.tree.Link?
    ensures RestoreAll(fs, VolumeEntries(vol, i, ex), sources)
         == if vol.root != [] && !Excluded(Render(vol.root), ex) && vol.root !in fs && IsDir(fs, Parent(vol.root))
            then fs[vol.root := RLink(vol.tree.dest)] else fs
  {
    hide EntriesOf, Excluded, Render, VolumePrefix, EntryName, Content, RestoreOne, RestoreAll, ValidPath;
    var root, v := vol.root, Visit(vol.root, vol.tree);
    if root == [] {
      RootVolumeIsLost(fs, vol, i, ex, sources);
    } else if Excluded(Render(root), ex) {
      NothingWritten(Render(root), VolumePrefix(i));
      RestoreNone(fs, sources);
    } else {
      var e := TarEntry(EntryName(Render(root), VolumePrefix(i), Render(root), false), KLink(vol.tree.dest), Content(vol.tree));
      EntriesOne(Render(root), VolumePrefix(i), v);
      RestoreSingle(fs, e, sources);
      RestoreVisit(fs, root, i, v, sources);
    }
  }

  /** Exactly when a volume comes back to a disk that holds nothing of it yet: it has nothing to bring back, or it is
      not the root and, if a bare link, has a directory to go to. */
  lemma RestoreVolumeIff(fs: FS, vol: Volume, i: nat, ex: seq<string>, sources: map<int, Path>)
    requires Indexed(sources, i, vol.root) && ValidPath(vol.root) && WellFormed(vol.tree) && !ExcludesRoot(ex)
    requires ParentsThere(fs) && Fits(fs, Target(vol, ex)) && forall q :: q in Image(vol.root, vol.tree, ex) ==> q !in fs
    ensures RestoreAll(fs, VolumeEntries(vol, i, ex), sources) == fs + Target(vol, ex)
       <==> Image(vol.root, vol.tree, ex) == map[] || Comes(fs, vol)
  {
    hide RestoreAll, VolumeEntries, Covered, Image, WellFormed, Excluded, ExcludesRoot, Fits, Dirs, ParentsThere, IsDir;
    var image := Image(vol.root, vol.tree, ex);
    TargetIs(vol, ex);
    if vol.root == [] {
      hide Target;
      RootVolumeIsLost(fs, vol, i, ex, sources);
      AddNothing(fs);
      AddsSome(fs, Dirs(Parent(vol.root)), image);
    } else if Comes(fs, vol) || image == map[] {
      hide Target;
      if Comes(fs, vol) {
        RestoreVolume(fs, vol, i, ex, sources);
      } else {
        NothingToRestore(fs, vol.root, i, vol.tree, ex, sources);
        VolumeEntriesAre(vol, i, ex);
        AddNothing(fs);
      }
    } else {
      hide Target;
      LinkSourceIsLost(fs, vol, i, ex, sources);
      AddsSome(fs, Dirs(Parent(vol.root)), image);
    }
  }

  lemma AddsSome(fs: FS, dirs: FS, image: FS)
    requires forall q :: q in image ==> q !in fs
    ensures image != map[] ==> fs + (dirs + image) != fs
  {
    if image != map[] {
      var q :| q in image;
      assert q in fs + (dirs + image);
    }
  }

  // ----- nothing outside the mounts -----

  /** The guard on cleaned strings means what it says: the target is the mount source or lies beneath it, however
      the name was spelled. */
  lemma GuardIff(target: string, root: Path)
    requires target != "" && target[0] == '/' && ValidPath(root) && root != []
    ensures Inside(target, Render(root)) <==> root <= PathOf(target)
  {
    FoldIsValid(Comps(target));
    CleanRender(root);
    BeneathIff(PathOf(target), root);
    hide Comps, Fold, HasPrefix, ValidPath;
  }

  /** An entry whose name leads out of its mount is refused. */
  lemma OutsideIsRefused(fs: FS, e: TarEntry, sources: map<int, Path>, i: int)
    requires i in sources && ValidPath(sources[i]) && sources[i] != [] && Locate(e.name, sources).At?
    requires Locate(e.name, sources).src == Render(sources[i]) && !(sources[i] <= PathOf(Locate(e.name, sources).target))
    ensures RestoreOne(fs, e, sources) == fs
  {
    LocatedRooted(e.name, sources);
    hide Locate, Inside, Extract, PathOf, Render, ValidPath;
    GuardIff(Locate(e.name, sources).target, sources[i]);
  }

  /** Where an entry is located: under an index that is there, at an absolute path. */
  lemma LocatedRooted(name: string, sources: map<int, Path>)
    ensures var l := Locate(name, sources);
      l.At? ==> l.target != "" && l.target[0] == '/' && exists i :: i in sources && l.src == Render(sources[i])
  {
    hide Atoi, IndexOf, TrimPrefix, HasPrefix, AfterBase, Clean;
    if Locate(name, sources).At? {
      var rest := TrimPrefix(name, "volumes/");
      var idx := Atoi(rest[..IndexOf(rest, '/')]).value;
      var src := Render(sources[idx]);
      var tail := AfterBase(rest[IndexOf(rest, '/') + 1..]);
      assert Locate(name, sources).src == src;
      CleanIsRooted(src + "/" + tail);
    }
  }

  /** Nothing at q differs, or a missing directory was made there. */
  predicate OnlyMade(before: FS, after: FS, q: Path) {
    || (q in before && q in after && before[q] == after[q])
    || (q !in before && (q in after ==> after[q] == RDir))
  }

  lemma {:induction false} MkdirChanges(fs: FS, p: Path, q: Path)
    requires MkdirAll(fs, p).Some?
    ensures var made := MkdirAll(fs, p).value;
      if q <= p then OnlyMade(fs, made, q) else SameAt(fs, made, q)
  {
    if p != [] && p !in fs {
      MkdirChanges(fs, p[..|p| - 1], q);
      if q <= p && q != p {
        assert q <= p[..|p| - 1];
      }
    }
  }

  /** Extracting an entry touches its own path and makes directories above it. */
  lemma ExtractChanges(fs: FS, e: TarEntry, p: Path, q: Path)
    ensures var after := Extract(fs, e, p);
      && (!(q <= p) ==> SameAt(fs, after, q))
      && (q <= p && q != p ==> OnlyMade(fs, after, q))
      && (q in fs ==> q in after)
  {
    hide MkdirAll;
    if e.kind.KDir? && MkdirAll(fs, p).Some? {
      MkdirChanges(fs, p, q);
    } else if e.kind.KFile? && MkdirAll(fs, Parent(p)).Some? {
      MkdirChanges(fs, Parent(p), q);
      if q <= p && q != p {
        assert q <= Parent(p);
      }
      if q <= Parent(p) {
        assert q <= p;
      }
    }
  }

  /** Path q may be touched by a restore: it is or lies beneath a mount source, or leads to one and was missing. */
  predicate Touchable(sources: map<int, Path>, before: FS, after: FS, q: Path) {
    exists i :: i in sources && sources[i] != [] && (sources[i] <= q || (q <= sources[i] && OnlyMade(before, after, q)))
  }

  predicate SameAt(before: FS, after: FS, q: Path) {
    (q in before <==> q in after) && (q in before ==> after[q] == before[q])
  }

  ghost predicate StaysInside(sources: map<int, Path>, before: FS, after: FS) {
    && (forall q :: q in before ==> q in after)
    && forall q :: SameAt(before, after, q) || Touchable(sources, before, after, q)
  }

  lemma OneStaysInside(fs: FS, e: TarEntry, sources: map<int, Path>)
    requires forall i :: i in sources ==> ValidPath(sources[i])
    ensures StaysInside(sources, fs, RestoreOne(fs, e, sources))
  {
    LocatedRooted(e.name, sources);
    hide Locate, Inside, Extract, PathOf, Render, ValidPath;
    var l, after := Locate(e.name, sources), RestoreOne(fs, e, sources);
    if l.At? && Inside(l.target, l.src) {
      var i :| i in sources && l.src == Render(sources[i]);
      if sources[i] == [] {
        RootSourceRestoresNothing(fs, e, sources);
      } else {
        GuardIff(l.target, sources[i]);
        var p := PathOf(l.target);
        hide OnlyMade, SameAt, MkdirAll;
        forall q
          ensures (q in fs ==> q in after) && (SameAt(fs, after, q) || Touchable(sources, fs, after, q))
        {
          ExtractChanges(fs, e, p, q);
          if q <= p {
            Comparable(sources[i], q, p);
          }
        }
      }
    }
  }

  lemma Comparable(a: Path, b: Path, p: Path)
    requires a <= p && b <= p
    ensures a <= b || (b <= a && b != p)
  {
    assert |a| <= |b| ==> a == p[..|a|] == b[..|a|];
    assert |b| <= |a| ==> b == p[..|b|] == a[..|b|];
  }

  lemma InsideTrans(sources: map<int, Path>, a: FS, b: FS, c: FS)
    requires StaysInside(sources, a, b) && StaysInside(sources, b, c)
    ensures StaysInside(sources, a, c)
  {
    forall q
      ensures SameAt(a, c, q) || Touchable(sources, a, c, q)
    {
      assert SameAt(a, b, q) || Touchable(sources, a, b, q);
      assert SameAt(b, c, q) || Touchable(sources, b, c, q);
    }
  }

  /** Whatever names the entries of an archive carry, restoring it changes nothing outside the mount sources, except
      that missing directories leading to them are made, and removes nothing. */
  lemma {:induction false} RestoreStaysInside(fs: FS, entries: seq<TarEntry>, sources: map<int, Path>)
    requires forall i :: i in sources ==> ValidPath(sources[i])
    ensures StaysInside(sources, fs, RestoreAll(fs, entries, sources))
  {
    hide RestoreOne, StaysInside, ValidPath;
    if entries == [] {
      StaysSame(sources, fs);
    } else {
      var n := |entries| - 1;
      RestoreStaysInside(fs, entries[..n], sources);
      OneStaysInside(RestoreAll(fs, entries[..n], sources), entries[n], sources);
      InsideTrans(sources, fs, RestoreAll(fs, entries[..n], sources), RestoreAll(fs, entries, sources));
    }
  }

  lemma StaysSame(sources: map<int, Path>, fs: FS)
    ensures StaysInside(sources, fs, fs)
  {
  }

  // ----- all of it -----

  lemma {:induction false} RestoreVolumes(fs: FS, vols: seq<Volume>, k: nat, ex: seq<string>, host: FS)
    requires k <= |vols| && OneHost(vols, ex, host) && !ExcludesRoot(ex) && ParentsThere(fs) && Fits(fs, host)
    ensures var after := Rebuilt(fs, vols[..k], ex);
      && RestoreAll(fs, AllEntries(vols[..k], ex), SourcesOf(vols)) == after
      && ParentsThere(after) && Fits(after, host)
  {
    hide Target, AllEntries, VolumeEntries, RestoreAll, ValidPath, WellFormed, ExcludesRoot, ParentsThere, Fits, PartOf, Rebuilt;
    var sources := SourcesOf(vols);
    if k == 0 {
      NoVolumes(fs, ex, sources);
      assert vols[..0] == [];
    } else {
      var n := k - 1;
      var vol := vols[n];
      RestoreVolumes(fs, vols, n, ex, host);
      VolumesSnoc(fs, vols, n, ex);
      var before := Rebuilt(fs, vols[..n], ex);
      assert vol.root != [] ==> PartOf(Target(vol, ex), host);
      hide OneHost, ValidVolumes;
      OneVolume(before, vol, n, ex, sources, host);
      RestoreAppend(fs, AllEntries(vols[..n], ex), VolumeEntries(vol, n, ex), sources);
    }
  }

  /** One volume more, whether it comes back or not. */
  lemma OneVolume(fs: FS, vol: Volume, i: nat, ex: seq<string>, sources: map<int, Path>, host: FS)
    requires Indexed(sources, i, vol.root) && ValidPath(vol.root) && WellFormed(vol.tree) && !ExcludesRoot(ex)
    requires ParentsThere(fs) && Fits(fs, host) && (vol.root != [] ==> PartOf(Target(vol, ex), host))
    ensures var after := if Comes(fs, vol) then fs + Target(vol, ex) else fs;
      RestoreAll(fs, VolumeEntries(vol, i, ex), sources) == after && ParentsThere(after) && Fits(after, host)
  {
    hide Target, VolumeEntries, RestoreAll, ValidPath, WellFormed, ExcludesRoot, ParentsThere, Fits, PartOf, IsDir, Excluded, Render;
    if vol.root == [] {
      RootVolumeIsLost(fs, vol, i, ex, sources);
    } else if !Comes(fs, vol) {
      LinkSourceIsLost(fs, vol, i, ex, sources);
    } else {
      FitsThrough(fs, host, Target(vol, ex));
      RestoreVolume(fs, vol, i, ex, sources);
      TargetParents(fs, vol, ex);
    }
  }

  lemma NoVolumes(fs: FS, ex: seq<string>, sources: map<int, Path>)
    ensures AllTargets([], ex) == map[] && Rebuilt(fs, [], ex) == fs && RestoreAll(fs, AllEntries([], ex), sources) == fs
  {
  }

  lemma VolumesSnoc(fs: FS, vols: seq<Volume>, n: nat, ex: seq<string>)
    requires n < |vols|
    ensures AllTargets(vols[..n + 1], ex) == AllTargets(vols[..n], ex) + Target(vols[n], ex)
    ensures AllEntries(vols[..n + 1], ex) == AllEntries(vols[..n], ex) + VolumeEntries(vols[n], n, ex)
    ensures var before := Rebuilt(fs, vols[..n], ex);
      Rebuilt(fs, vols[..n + 1], ex) == if Comes(before, vols[n]) then before + Target(vols[n], ex) else before
  {
    hide Target, VolumeEntries, Comes;
    assert vols[..n + 1][..n] == vols[..n];
  }

  /** When each volume comes back in its turn, all of them have. */
  lemma {:induction false} AllComeBack(fs: FS, vols: seq<Volume>, k: nat, ex: seq<string>)
    requires k <= |vols| && AllCome(fs, vols, ex)
    ensures Rebuilt(fs, vols[..k], ex) == fs + AllTargets(vols[..k], ex)
  {
    hide Target, Comes, AllTargets, Rebuilt;
    if k == 0 {
      NoVolumes(fs, ex, map[]);
      assert vols[..0] == [];
      AddNothing(fs);
    } else {
      AllComeBack(fs, vols, k - 1, ex);
      VolumesSnoc(fs, vols, k - 1, ex);
      AddTwice(fs, AllTargets(vols[..k - 1], ex), Target(vols[k - 1], ex));
    }
  }

  /** Backing up the volumes of a container and restoring the archive adds, to a disk that is empty there or holds
      older copies of the same files, exactly the source trees without what the excludes cover, and the directories
      leading to them; every other path is as it was. Left out are a volume mounted from the root and a bare link
      that finds no directory; if there is none of those, everything is back. */
  lemma RestoreRebuildsSources(fs: FS, vols: seq<Volume>, ex: seq<string>, host: FS)
    requires OneHost(vols, ex, host) && !ExcludesRoot(ex) && ParentsThere(fs) && Fits(fs, host)
    ensures RestoreAll(fs, AllEntries(vols, ex), SourcesOf(vols)) == Rebuilt(fs, vols, ex)
    ensures AllCome(fs, vols, ex) ==> RestoreAll(fs, AllEntries(vols, ex), SourcesOf(vols)) == fs + AllTargets(vols, ex)
  {
    hide OneHost, AllCome, ExcludesRoot, ParentsThere, Fits, RestoreAll;
    RestoreVolumes(fs, vols, |vols|, ex, host);
    if AllCome(fs, vols, ex) {
      AllComeBack(fs, vols, |vols|, ex);
    }
    assert vols[..|vols|] == vols;
  }

  // ----- the program -----

  class Disk {
    var fs: FS

    constructor (fs: FS)
      ensures this.fs == fs
    {
      this.fs := fs;
    }

    method MakeDirs(p: Path) returns (ok: bool)
      modifies this
      ensures MkdirAll(old(fs), p) == if ok then Some(fs) else None
      ensures !ok ==> fs == old(fs)
      decreases |p|
    {
      if p == [] {
        return true;
      }
      if p in fs {
        return fs[p] == RDir;
      }
      ok := MakeDirs(p[..|p| - 1]);
      if ok {
        fs := fs[p := RDir];
      }
    }

    method ExtractEntry(e: TarEntry, target: string, src: string)
      modifies this
      ensures fs == if Inside(target, src) then Extract(old(fs), e, PathOf(target)) else old(fs)
    {
      hide Inside, PathOf;
      if !(Clean(target) == Clean(src) || HasPrefix(Clean(target), Clean(src) + "/")) {
        assert !Inside(target, src) by { GuardIs(target, src); }
        return;
      }
      assert Inside(target, src) by { GuardIs(target, src); }
      hide Clean, HasPrefix;
      var p := PathOf(target);
      match e.kind {
        case KDir =>
          var made := MakeDirs(p);
        case KFile =>
          var made := MakeDirs(Parent(p));
          if made && p != [] && (p !in fs || fs[p].RFile?) {
            fs := fs[p := RFile(e.content)];
          }
        case KLink(dest) =>
          if p != [] && p !in fs && (Parent(p) == [] || (Parent(p) in fs && fs[Parent(p)] == RDir)) {
            fs := fs[p := RLink(dest)];
          }
        case KOther =>
      }
    }

    /** The restore loop over the volume entries of an archive. */
    method RestoreEntries(entries: seq<TarEntry>, sources: map<int, Path>)
      modifies this
      ensures fs == RestoreAll(old(fs), entries, sources)
    {
      hide RestoreOne;
      var i := 0;
      while i < |entries|
        invariant 0 <= i <= |entries|
        invariant fs == RestoreAll(old(fs), entries[..i], sources)
      {
        RestoreStep(entries[i], sources);
        assert entries[..i + 1][..i] == entries[..i];
        i := i + 1;
      }
      assert entries[..i] == entries;
    }

    method RestoreStep(e: TarEntry, sources: map<int, Path>)
      modifies this
      ensures fs == RestoreOne(old(fs), e, sources)
    {
      hide Extract, Inside, PathOf, Atoi, Join, Render, HasPrefix, TrimPrefix, IndexOf;
      if !HasPrefix(e.name, "volumes/") {
        return;
      }
      var rest := TrimPrefix(e.name, "volumes/");
      var slash := IndexOf(rest, '/');
      if slash < 0 {
        return;
      }
      var idx := Atoi(rest[..slash]);
      if !idx.ok || idx.value !in sources {
        return;
      }
      var src := Render(sources[idx.value]);
      var tail := rest[slash + 1..];
      var i := IndexOf(tail, '/');
      if i >= 0 {
        tail := tail[i + 1..];
      } else {
        tail := "";
      }
      var target := src;
      if tail != "" {
        target := Join(src, tail);
      }
      ExtractEntry(e, target, src);
    }
  }

  lemma GuardIs(target: string, src: string)
    ensures Inside(target, src) <==> Clean(target) == Clean(src) || HasPrefix(Clean(target), Clean(src) + "/")
  {
  }
}
