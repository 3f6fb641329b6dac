/** The container inventory and the cache of update scans: a cached result never outlives the image it was
    computed for. */
module ScanCache {

  datatype Fingerprint = Fingerprint(image: string, imageId: string)

  datatype Container = Container(cid: string, name: string, fp: Fingerprint)

  /** An inventory row. */
  datatype Row = Row(node: string, c: Container)

  /** What a scan found out about one container. */
  datatype Item = Item(name: string, hasUpdate: int, note: string)

  /** A scan result is stored under node and container name. */
  datatype Key = Key(node: string, name: string)

  datatype State = State(rows: seq<Row>, scans: map<Key, Item>)

  const EMPTY := State([], map[])

  function Short(cid: string): string {
    if |cid| > 12 then cid[..12] else cid
  }

  /** The primary key of the inventory table. */
  function Pk(r: Row): string {
    r.node + "/" + Short(r.c.cid)
  }

  predicate PksUnique(rows: seq<Row>) {
    forall i, j :: 0 <= i < j < |rows| ==> Pk(rows[i]) != Pk(rows[j])
  }

  function Others(rows: seq<Row>, node: string): seq<Row> {
    if rows == [] then []
    else
      var last := rows[|rows| - 1];
      Others(rows[..|rows| - 1], node) + (if last.node == node then [] else [last])
  }

  function Snapshot(node: string, list: seq<Container>): (rows: seq<Row>)
    ensures |rows| == |list| && forall i :: 0 <= i < |list| ==> rows[i] == Row(node, list[i])
  {
    if list == [] then [] else Snapshot(node, list[..|list| - 1]) + [Row(node, list[|list| - 1])]
  }

  /** The fingerprints the inventory shows under a key. */
  function Present(rows: seq<Row>, key: Key): set<Fingerprint> {
    set i | 0 <= i < |rows| && rows[i].node == key.node && rows[i].c.name == key.name :: rows[i].c.fp
  }

  /** The old fingerprint remembered per name; of several containers with one name, any one. */
  ghost predicate PicksFrom(picks: map<string, Fingerprint>, rows: seq<Row>, node: string) {
    && (forall name :: name in picks ==> picks[name] in Present(rows, Key(node, name)))
    && (forall i :: 0 <= i < |rows| && rows[i].node == node ==> rows[i].c.name in picks)
  }

  predicate Listed(list: seq<Container>, name: string) {
    exists i :: 0 <= i < |list| && list[i].name == name
  }

  predicate ListedAs(list: seq<Container>, name: string, fp: Fingerprint) {
    exists i :: 0 <= i < |list| && list[i].name == name && list[i].fp == fp
  }

  predicate Unchanged(picks: map<string, Fingerprint>, list: seq<Container>, name: string) {
    forall i :: 0 <= i < |list| && list[i].name == name ==> name in picks && picks[name] == list[i].fp
  }

  predicate Matches(rows: seq<Row>, key: Key, ref: string) {
    || key.name == ref
    || exists i :: 0 <= i < |rows| && rows[i].node == key.node && rows[i].c.name == key.name
                   && (rows[i].c.cid == ref || Short(rows[i].c.cid) == ref)
  }

  predicate Dropped(rows: seq<Row>, key: Key, refs: seq<string>) {
    exists i :: 0 <= i < |refs| && refs[i] != "" && Matches(rows, key, refs[i])
  }

  function Stored(scans: map<Key, Item>, node: string, items: seq<Item>): map<Key, Item> {
    if items == [] then map k | k in scans && k.node != node :: scans[k]
    else
      var last := items[|items| - 1];
      Stored(scans, node, items[..|items| - 1])[Key(node, last.name) := last]
  }

  /** Inventory snapshots, scan results and invalidations, each one transaction. */
  datatype Step =
    | Replace(node: string, list: seq<Container>, picks: map<string, Fingerprint>)
    | UpdateScan(node: string, items: seq<Item>)
    | Invalidate(node: string)
    | InvalidateSome(node: string, refs: seq<string>)

  function Replaced(rows: seq<Row>, node: string, list: seq<Container>): seq<Row> {
    Others(rows, node) + Snapshot(node, list)
  }

  /** A snapshot with two ids that share their first twelve characters violates the primary key and is refused
      as a whole. */
  ghost predicate Accepted(s: State, step: Step)
    requires step.Replace?
  {
    PicksFrom(step.picks, s.rows, step.node) && PksUnique(Replaced(s.rows, step.node, step.list))
  }

  ghost function Next(s: State, step: Step): State {
    match step
    case Replace(node, list, picks) =>
      if Accepted(s, step) then
        State(Replaced(s.rows, node, list),
              map k | k in s.scans && (k.node == node ==> Listed(list, k.name) && Unchanged(picks, list, k.name)) :: s.scans[k])
      else s
    case UpdateScan(node, items) => s.(scans := Stored(s.scans, node, items))
    case Invalidate(node) => s.(scans := map k | k in s.scans && k.node != node :: s.scans[k])
    case InvalidateSome(node, refs) =>
      s.(scans := map k | k in s.scans && (k.node == node ==> !Dropped(s.rows, k, refs)) :: s.scans[k])
  }

  ghost function Run(steps: seq<Step>): State {
    if steps == [] then EMPTY else Next(Run(steps[..|steps| - 1]), steps[|steps| - 1])
  }

  /** What an invalidation drops: of its node, and of no other, the results under a name that was given, and those of
      containers whose id, or its first twelve characters, was given; blank references drop nothing. */
  lemma InvalidatedIff(s: State, node: string, refs: seq<string>, key: Key)
    ensures key in Next(s, InvalidateSome(node, refs)).scans <==>
      && key in s.scans
      && !(key.node == node && exists r :: r in refs && r != "" && Means(s.rows, node, key.name, r))
    ensures Next(s, InvalidateSome(node, refs)).rows == s.rows
  {
    if key.node == node {
      if Dropped(s.rows, key, refs) {
        var i :| 0 <= i < |refs| && refs[i] != "" && Matches(s.rows, key, refs[i]);
        assert refs[i] in refs && Means(s.rows, node, key.name, refs[i]);
      }
      if r :| r in refs && r != "" && Means(s.rows, node, key.name, r) {
        var i :| 0 <= i < |refs| && refs[i] == r;
        assert Matches(s.rows, key, refs[i]);
      }
    }
  }

  /** The reference is the name, or the whole or short id of a container listed under the name. */
  predicate Means(rows: seq<Row>, node: string, name: string, r: string) {
    r == name || exists i :: 0 <= i < |rows| && IdentifiedBy(rows[i], node, name, r)
  }

  predicate IdentifiedBy(row: Row, node: string, name: string, r: string) {
    && row.node == node && row.c.name == name
    && (row.c.cid == r || (|row.c.cid| <= 12 && row.c.cid == r) || (|row.c.cid| > 12 && row.c.cid[..12] == r))
  }

  /** A node's whole invalidation drops all its results and no other. */
  lemma InvalidatedAllIff(s: State, node: string, key: Key)
    ensures key in Next(s, Invalidate(node)).scans <==> key in s.scans && key.node != node
    ensures Next(s, Invalidate(node)).rows == s.rows
  {
  }

  function First12(cid: string): string {
    cid[..if |cid| < 12 then |cid| else 12]
  }

  /** Rows of one node clash exactly if their ids have the same first twelve characters. */
  lemma ClashIff(node: string, a: Container, b: Container)
    ensures Pk(Row(node, a)) == Pk(Row(node, b)) <==> First12(a.cid) == First12(b.cid)
  {
    var x, y := Short(a.cid), Short(b.cid);
    assert Pk(Row(node, a))[|node| + 1..] == x && Pk(Row(node, b))[|node| + 1..] == y;
  }

  // ----- every cached result describes what is there -----

  function LastItem(items: seq<Item>, name: string): (item: Item)
    requires exists i :: 0 <= i < |items| && items[i].name == name
    ensures item.name == name
  {
    if items[|items| - 1].name == name then items[|items| - 1] else LastItem(items[..|items| - 1], name)
  }

  predicate Names(items: seq<Item>, name: string) {
    exists i :: 0 <= i < |items| && items[i].name == name
  }

  /** Step i is the scan that stored this result. */
  predicate StoredAt(steps: seq<Step>, i: nat, key: Key, item: Item)
    requires i < |steps|
  {
    var step := steps[i];
    step.UpdateScan? && step.node == key.node && Names(step.items, key.name) && LastItem(step.items, key.name) == item
  }

  /** The result under this key was stored by some scan of the run, and every container now listed under the key
      had its current fingerprint already when that scan was stored. */
  ghost predicate Justified(steps: seq<Step>, key: Key, item: Item) {
    exists i :: 0 <= i < |steps| && StoredAt(steps, i, key, item)
                && Present(Run(steps).rows, key) <= Present(Run(steps[..i]).rows, key)
  }

  lemma {:induction false} RunKeepsKeysUnique(steps: seq<Step>)
    ensures PksUnique(Run(steps).rows)
  {
    if steps != [] {
      RunKeepsKeysUnique(steps[..|steps| - 1]);
      hide PksUnique;
    }
  }

  lemma {:induction false} StoredGives(scans: map<Key, Item>, node: string, items: seq<Item>, key: Key)
    ensures key in Stored(scans, node, items)
       <==> (key.node != node && key in scans) || (key.node == node && Names(items, key.name))
    ensures key.node != node && key in scans ==> Stored(scans, node, items)[key] == scans[key]
    ensures key.node == node && Names(items, key.name) ==>
      Stored(scans, node, items)[key] == LastItem(items, key.name)
  {
    if items != [] {
      var n := |items| - 1;
      StoredGives(scans, node, items[..n], key);
      NamesSnoc(items, key.name);
    }
  }

  lemma NamesSnoc(items: seq<Item>, name: string)
    requires items != []
    ensures Names(items, name) <==> Names(items[..|items| - 1], name) || items[|items| - 1].name == name
  {
    if Names(items[..|items| - 1], name) {
      var i :| 0 <= i < |items| - 1 && items[..|items| - 1][i].name == name;
      assert items[i].name == name;
    }
  }

  lemma {:induction false} OthersPresent(rows: seq<Row>, node: string, key: Key)
    ensures Present(Others(rows, node), key) == if key.node == node then {} else Present(rows, key)
  {
    if rows != [] {
      var n := |rows| - 1;
      OthersPresent(rows[..n], node, key);
      PresentAppend(rows[..n], [rows[n]], key);
      assert rows[..n] + [rows[n]] == rows;
      PresentAppend(Others(rows[..n], node), [rows[n]], key);
      assert Others(rows[..n], node) + [] == Others(rows[..n], node);
    }
  }

  lemma PresentAppend(a: seq<Row>, b: seq<Row>, key: Key)
    ensures Present(a + b, key) == Present(a, key) + Present(b, key)
  {
    forall fp | fp in Present(b, key)
      ensures fp in Present(a + b, key)
    {
      var i :| 0 <= i < |b| && b[i].node == key.node && b[i].c.name == key.name && b[i].c.fp == fp;
      assert (a + b)[|a| + i] == b[i];
    }
    forall fp | fp in Present(a, key)
      ensures fp in Present(a + b, key)
    {
      var i :| 0 <= i < |a| && a[i].node == key.node && a[i].c.name == key.name && a[i].c.fp == fp;
      assert (a + b)[i] == a[i];
    }
  }

  lemma SnapshotPresent(node: string, list: seq<Container>, key: Key)
    ensures key.node != node ==> Present(Snapshot(node, list), key) == {}
    ensures forall fp :: fp in Present(Snapshot(node, list), key) ==> ListedAs(list, key.name, fp)
    ensures key.node == node && Listed(list, key.name) ==> Present(Snapshot(node, list), key) != {}
  {
    var rows := Snapshot(node, list);
    if key.node == node && Listed(list, key.name) {
      var i :| 0 <= i < |list| && list[i].name == key.name;
      assert rows[i].c.fp in Present(rows, key);
    }
  }

  /** Replacing a node's inventory leaves the other nodes' and shows exactly the snapshot for this one. */
  lemma ReplacedPresent(rows: seq<Row>, node: string, list: seq<Container>, key: Key)
    ensures Present(Replaced(rows, node, list), key)
         == if key.node == node then Present(Snapshot(node, list), key) else Present(rows, key)
  {
    OthersPresent(rows, node, key);
    PresentAppend(Others(rows, node), Snapshot(node, list), key);
    SnapshotPresent(node, list, key);
  }

  /** A result that survives a step keeps its value, unless a scan stores it anew; and nothing shows up under its
      key that was not there before. */
  lemma SurvivorStep(s: State, step: Step, key: Key)
    requires key in Next(s, step).scans
    requires step.UpdateScan? ==> step.node != key.node
    ensures key in s.scans && Next(s, step).scans[key] == s.scans[key]
    ensures Present(Next(s, step).rows, key) <= Present(s.rows, key)
    ensures step.Replace? && step.node == key.node && Accepted(s, step) ==> Present(Next(s, step).rows, key) != {}
  {
    match step
    case Replace(node, list, picks) =>
      if PicksFrom(picks, s.rows, node) && PksUnique(Replaced(s.rows, node, list)) {
        hide PksUnique, Present, Replaced, Snapshot;
        ReplacedPresent(s.rows, node, list, key);
        SnapshotPresent(node, list, key);
      }
    case UpdateScan(node, items) =>
      hide Present;
      StoredGives(s.scans, node, items, key);
    case Invalidate(node) =>
    case InvalidateSome(node, refs) =>
  }

  /** After every history, whatever its snapshots look like, every cached result is justified. */
  lemma {:induction false} CacheIsJustified(steps: seq<Step>, key: Key)
    requires key in Run(steps).scans
    ensures Justified(steps, key, Run(steps).scans[key])
  {
    if steps != [] {
      var n := |steps| - 1;
      var front, step := steps[..n], steps[n];
      var s := Run(front);
      assert Run(steps) == Next(s, step);
      if step.UpdateScan? && step.node == key.node {
        StoredGives(s.scans, step.node, step.items, key);
        assert StoredAt(steps, n, key, Run(steps).scans[key]);
      } else {
        SurvivorStep(s, step, key);
        CacheIsJustified(front, key);
        var i :| 0 <= i < n && StoredAt(front, i, key, s.scans[key]) && Present(s.rows, key) <= Present(Run(front[..i]).rows, key);
        assert front[..i] == steps[..i];
        hide Run, Present, Next;
        assert StoredAt(steps, i, key, Run(steps).scans[key]);
      }
    }
  }

  predicate DistinctNames(list: seq<Container>) {
    forall i, j :: 0 <= i < j < |list| ==> list[i].name != list[j].name
  }

  predicate AllDistinct(steps: seq<Step>) {
    forall i :: 0 <= i < |steps| && steps[i].Replace? ==> DistinctNames(steps[i].list)
  }

  lemma {:induction false} AtMostOne(steps: seq<Step>, key: Key)
    requires AllDistinct(steps)
    ensures forall a, b :: a in Present(Run(steps).rows, key) && b in Present(Run(steps).rows, key) ==> a == b
  {
    if steps != [] {
      var front, step := steps[..|steps| - 1], steps[|steps| - 1];
      AtMostOne(front, key);
      if step.Replace? {
        ReplacedPresent(Run(front).rows, step.node, step.list, key);
        SnapshotPresent(step.node, step.list, key);
        hide Present, Replaced, PicksFrom, PksUnique;
      }
    }
  }

  /** When names are distinct in every snapshot: after a history that ends in an accepted snapshot of a node, each
      of the node's cached results belongs to a container that is there and whose image and image id are the ones
      it had when the result was stored. */
  lemma CacheMatchesInventory(steps: seq<Step>, key: Key)
    requires AllDistinct(steps) && |steps| > 0
    requires var step := steps[|steps| - 1]; step.Replace? && step.node == key.node && Accepted(Run(steps[..|steps| - 1]), step)
    requires key in Run(steps).scans
    ensures exists i, fp :: 0 <= i < |steps| && StoredFor(steps, i, key, fp)
  {
    var front, step := steps[..|steps| - 1], steps[|steps| - 1];
    SurvivorStep(Run(front), step, key);
    CacheIsJustified(steps, key);
    var i :| 0 <= i < |steps| && StoredAt(steps, i, key, Run(steps).scans[key])
             && Present(Run(steps).rows, key) <= Present(Run(steps[..i]).rows, key);
    AtMostOne(steps[..i], key);
    var fp := OnlyOne(Present(Run(steps).rows, key), Present(Run(steps[..i]).rows, key));
    hide Run, StoredAt, Next, Present;
    assert StoredFor(steps, i, key, fp);
  }

  /** Step i stored the result that is cached now, and the one container under its key had, and has, this
      fingerprint. */
  ghost predicate StoredFor(steps: seq<Step>, i: nat, key: Key, fp: Fingerprint)
    requires i < |steps| && key in Run(steps).scans
  {
    && StoredAt(steps, i, key, Run(steps).scans[key])
    && Present(Run(steps).rows, key) == {fp} == Present(Run(steps[..i]).rows, key)
  }

  lemma OnlyOne(a: set<Fingerprint>, b: set<Fingerprint>) returns (fp: Fingerprint)
    requires a != {} && a <= b && forall x, y :: x in b && y in b ==> x == y
    ensures a == {fp} == b
  {
    fp :| fp in a;
  }

  /** And nothing is thrown away needlessly: a result survives an accepted snapshot exactly when its container
      was listed before and is listed again with the same image and image id. */
  lemma SurvivesIff(s: State, step: Step, key: Key)
    requires step.Replace? && step.node == key.node && DistinctNames(step.list)
    requires Accepted(s, step)
    requires key in s.scans && forall a, b :: a in Present(s.rows, key) && b in Present(s.rows, key) ==> a == b
    ensures key in Next(s, step).scans
       <==> Listed(step.list, key.name) && Present(Next(s, step).rows, key) == Present(s.rows, key)
  {
    ReplacedPresent(s.rows, step.node, step.list, key);
    SnapshotPresent(step.node, step.list, key);
    var now := Present(Snapshot(step.node, step.list), key);
    if Listed(step.list, key.name) {
      var i :| 0 <= i < |step.list| && step.list[i].name == key.name;
      var fp := step.list[i].fp;
      assert Snapshot(step.node, step.list)[i].c.fp in now;
      hide Present, PksUnique, Replaced, Snapshot;
      assert now == {fp};
      if key.name in step.picks {
        assert Present(s.rows, key) == {step.picks[key.name]};
      } else {
        PickedIfPresent(s.rows, step.picks, key);
      }
    }
  }

  lemma PickedIfPresent(rows: seq<Row>, picks: map<string, Fingerprint>, key: Key)
    requires PicksFrom(picks, rows, key.node) && key.name !in picks
    ensures Present(rows, key) == {}
  {
  }

  /** No step touches another node's inventory or cached results. */
  lemma OtherNodesUntouched(s: State, step: Step, key: Key)
    requires key.node != step.node
    ensures Present(Next(s, step).rows, key) == Present(s.rows, key)
    ensures key in Next(s, step).scans <==> key in s.scans
    ensures key in s.scans ==> Next(s, step).scans[key] == s.scans[key]
  {
    match step
    case Replace(node, list, picks) =>
      ReplacedPresent(s.rows, node, list, key);
      hide Present, Replaced, PicksFrom, PksUnique;
    case UpdateScan(node, items) => StoredGives(s.scans, node, items, key);
    case Invalidate(node) =>
    case InvalidateSome(node, refs) =>
  }

  /** A completed scan leaves exactly its own results for the node: nothing of an older scan survives. */
  lemma ScanIsComplete(s: State, node: string, items: seq<Item>, name: string)
    ensures var s' := Next(s, UpdateScan(node, items));
      && (Key(node, name) in s'.scans <==> Names(items, name))
      && (Names(items, name) ==> s'.scans[Key(node, name)] == LastItem(items, name))
  {
    StoredGives(s.scans, node, items, Key(node, name));
  }

  // ----- the program -----

  class Store {
    var rows: seq<Row>
    var scans: map<Key, Item>

    ghost function Abs(): State
      reads this
    {
      State(rows, scans)
    }

    constructor ()
      ensures Abs() == EMPTY
    {
      rows, scans := [], map[];
    }

    method DeleteScan(key: Key)
      modifies this
      ensures rows == old(rows) && scans == old(scans) - {key}
    {
      scans := scans - {key};
    }

    /** One transaction; on a key conflict it is rolled back. */
    method ReplaceNodeContainers(node: string, list: seq<Container>) returns (ok: bool, ghost picks: map<string, Fingerprint>)
      requires PksUnique(rows)
      modifies this
      ensures PksUnique(rows) && PicksFrom(picks, old(rows), node)
      ensures Abs() == Next(old(Abs()), Replace(node, list, picks))
      ensures ok <==> PksUnique(Replaced(old(rows), node, list))
    {
      hide PksUnique, PicksFrom, Listed, Unchanged, InTable, Snapshot;
      var previous := Remember(rows, node);
      picks := previous;
      OthersUnique(rows, node);
      var table, changed;
      ok, table, changed := InsertAll(Others(rows, node), previous, node, list);
      if !ok {
        return;
      }
      rows := table;
      DropScans(node, changed);
      DropUnlisted(node);
      forall name
        ensures Listed(list, name) <==> InTable(rows, node, name)
      {
        ListedInTable(old(rows), node, list, name);
      }
    }

    method DropScans(node: string, changed: set<string>)
      modifies this
      ensures rows == old(rows)
      ensures scans == map k | k in old(scans) && (k.node == node ==> k.name !in changed) :: old(scans)[k]
    {
      ghost var before := scans;
      var names := changed;
      while names != {}
        invariant names <= changed && rows == old(rows)
        invariant scans == map k | k in before && (k.node == node ==> k.name !in changed - names) :: before[k]
        decreases |names|
      {
        var name :| name in names;
        DeleteScan(Key(node, name));
        names := names - {name};
      }
    }

    method DropUnlisted(node: string)
      modifies this
      ensures rows == old(rows)
      ensures scans == map k | k in old(scans) && (k.node == node ==> InTable(rows, node, k.name)) :: old(scans)[k]
    {
      scans := map k | k in scans && (k.node == node ==> InTable(rows, node, k.name)) :: scans[k];
    }

    method UpdateContainerScan(node: string, items: seq<Item>)
      modifies this
      ensures Abs() == Next(old(Abs()), UpdateScan(node, items))
    {
      ghost var before := scans;
      scans := map k | k in scans && k.node != node :: scans[k];
      var i := 0;
      while i < |items|
        invariant 0 <= i <= |items| && rows == old(rows)
        invariant scans == Stored(before, node, items[..i])
      {
        scans := scans[Key(node, items[i].name) := items[i]];
        assert items[..i + 1][..i] == items[..i];
        i := i + 1;
      }
      assert items[..i] == items;
    }

    method InvalidateContainerScan(node: string)
      modifies this
      ensures Abs() == Next(old(Abs()), Invalidate(node))
    {
      scans := map k | k in scans && k.node != node :: scans[k];
    }

    method InvalidateContainerScanContainers(node: string, refs: seq<string>)
      modifies this
      ensures Abs() == Next(old(Abs()), InvalidateSome(node, refs))
    {
      hide Matches, Dropped;
      ghost var before := scans;
      assert forall k :: !Dropped(rows, k, refs[..0]) by { NothingDropped(rows); assert refs[..0] == []; }
      var seen: map<string, ()> := map[];
      var i := 0;
      while i < |refs|
        invariant 0 <= i <= |refs| && rows == old(rows)
        invariant forall ref :: ref in seen <==> ref != "" && exists j :: 0 <= j < i && refs[j] == ref
        invariant scans == map k | k in before && (k.node == node ==> !Dropped(rows, k, refs[..i])) :: before[k]
      {
        var ref := refs[i];
        forall k
          ensures Dropped(rows, k, refs[..i + 1]) <==> Dropped(rows, k, refs[..i]) || (ref != "" && Matches(rows, k, ref))
        {
          DroppedSnoc(rows, k, refs, i);
        }
        if ref != "" && ref !in seen {
          seen := seen[ref := ()];
          scans := map k | k in scans && !(k.node == node && Matches(rows, k, ref)) :: scans[k];
        } else if ref != "" {
          SeenMeansDropped(rows, refs, i, ref);
        }
        i := i + 1;
      }
      assert refs[..i] == refs;
    }
  }

  lemma NothingDropped(rows: seq<Row>)
    ensures forall k :: !Dropped(rows, k, [])
  {
  }

  lemma SeenMeansDropped(rows: seq<Row>, refs: seq<string>, i: nat, ref: string)
    requires i <= |refs| && ref != "" && exists j :: 0 <= j < i && refs[j] == ref
    ensures forall k :: Matches(rows, k, ref) ==> Dropped(rows, k, refs[..i])
  {
    hide Matches;
    var j :| 0 <= j < i && refs[j] == ref;
    assert refs[..i][j] == ref;
  }

  lemma DroppedSnoc(rows: seq<Row>, key: Key, refs: seq<string>, i: nat)
    requires i < |refs|
    ensures Dropped(rows, key, refs[..i + 1])
       <==> Dropped(rows, key, refs[..i]) || (refs[i] != "" && Matches(rows, key, refs[i]))
  {
    hide Matches;
    if Dropped(rows, key, refs[..i]) {
      var j :| 0 <= j < i && refs[..i][j] != "" && Matches(rows, key, refs[..i][j]);
      assert refs[..i + 1][j] == refs[..i][j];
    }
    if refs[i] != "" && Matches(rows, key, refs[i]) {
      assert refs[..i + 1][i] == refs[i];
    }
    if Dropped(rows, key, refs[..i + 1]) {
      var j :| 0 <= j < i + 1 && refs[..i + 1][j] != "" && Matches(rows, key, refs[..i + 1][j]);
      if j < i {
        assert refs[..i][j] == refs[..i + 1][j];
      }
    }
  }

  predicate InTable(rows: seq<Row>, node: string, name: string) {
    exists i :: 0 <= i < |rows| && rows[i].node == node && rows[i].c.name == name
  }

  method Remember(rows: seq<Row>, node: string) returns (previous: map<string, Fingerprint>)
    ensures PicksFrom(previous, rows, node)
  {
    previous := map[];
    var i := 0;
    while i < |rows|
      invariant 0 <= i <= |rows|
      invariant forall name :: name in previous ==> previous[name] in Present(rows, Key(node, name))
      invariant forall j :: 0 <= j < i && rows[j].node == node ==> rows[j].c.name in previous
    {
      if rows[i].node == node {
        previous := previous[rows[i].c.name := rows[i].c.fp];
      }
      i := i + 1;
    }
  }

  /** Inserts the snapshot row by row and collects the names whose cached result may no longer hold. */
  method InsertAll(others: seq<Row>, previous: map<string, Fingerprint>, node: string, list: seq<Container>)
    returns (ok: bool, table: seq<Row>, changed: set<string>)
    requires PksUnique(others)
    ensures ok <==> PksUnique(others + Snapshot(node, list))
    ensures ok ==> table == others + Snapshot(node, list)
    ensures ok ==> forall name :: name !in changed <==> Unchanged(previous, list, name)
  {
    table, changed := others, {};
    var i := 0;
    while i < |list|
      invariant 0 <= i <= |list|
      invariant table == others + Snapshot(node, list[..i]) && PksUnique(table)
      invariant forall name :: name !in changed <==> Unchanged(previous, list[..i], name)
    {
      var c := list[i];
      var row := Row(node, c);
      SnapshotPrefix(others, node, list, i);
      if exists j :: 0 <= j < |table| && Pk(table[j]) == Pk(row) {
        ok := false;
        ClashStays(others, node, list, i);
        return;
      }
      UniqueSnoc(table, row);
      table := table + [row];
      forall name
        ensures Unchanged(previous, list[..i + 1], name)
           <==> Unchanged(previous, list[..i], name) && (c.name == name ==> name in previous && previous[name] == c.fp)
      {
        UnchangedSnoc(previous, list, i, name);
      }
      if c.name in previous {
        if previous[c.name] != c.fp {
          changed := changed + {c.name};
        }
      } else {
        changed := changed + {c.name};
      }
      i := i + 1;
    }
    assert list[..i] == list;
    ok := true;
  }

  lemma SnapshotPrefix(others: seq<Row>, node: string, list: seq<Container>, i: nat)
    requires i < |list|
    ensures others + Snapshot(node, list[..i + 1]) == others + Snapshot(node, list[..i]) + [Row(node, list[i])]
    ensures others + Snapshot(node, list[..i + 1]) <= others + Snapshot(node, list)
  {
    assert list[..i + 1][..i] == list[..i];
  }

  lemma ClashStays(others: seq<Row>, node: string, list: seq<Container>, i: nat)
    requires i < |list|
    requires var t := others + Snapshot(node, list[..i]); exists j :: 0 <= j < |t| && Pk(t[j]) == Pk(Row(node, list[i]))
    ensures !PksUnique(others + Snapshot(node, list))
  {
    hide Pk, Snapshot;
    SnapshotPrefix(others, node, list, i);
    var t, all := others + Snapshot(node, list[..i]), others + Snapshot(node, list);
    var j :| 0 <= j < |t| && Pk(t[j]) == Pk(Row(node, list[i]));
    assert all[j] == t[j] && all[|t|] == Row(node, list[i]);
  }

  lemma UniqueSnoc(table: seq<Row>, row: Row)
    requires PksUnique(table) && forall j :: 0 <= j < |table| ==> Pk(table[j]) != Pk(row)
    ensures PksUnique(table + [row])
  {
    hide Pk;
  }

  lemma UnchangedSnoc(picks: map<string, Fingerprint>, list: seq<Container>, i: nat, name: string)
    requires i < |list|
    ensures Unchanged(picks, list[..i + 1], name)
       <==> Unchanged(picks, list[..i], name) && (list[i].name == name ==> name in picks && picks[name] == list[i].fp)
  {
    var longer, shorter := list[..i + 1], list[..i];
    assert longer[i] == list[i];
    forall j | 0 <= j < i
      ensures longer[j] == shorter[j]
    {
    }
  }

  lemma {:induction false} OthersUnique(rows: seq<Row>, node: string)
    requires PksUnique(rows)
    ensures PksUnique(Others(rows, node))
    ensures forall i :: 0 <= i < |Others(rows, node)| ==> Others(rows, node)[i] in rows && Others(rows, node)[i].node != node
  {
    if rows != [] {
      hide Pk;
      var n := |rows| - 1;
      OthersUnique(rows[..n], node);
      var front := Others(rows[..n], node);
      forall i | 0 <= i < |front|
        ensures Pk(front[i]) != Pk(rows[n])
      {
        var j :| 0 <= j < n && rows[j] == front[i];
      }
    }
  }

  lemma ListedInTable(rows: seq<Row>, node: string, list: seq<Container>, name: string)
    ensures var table := Replaced(rows, node, list);
      Listed(list, name) <==> InTable(table, node, name)
  {
    var table, others := Replaced(rows, node, list), Others(rows, node);
    OthersElsewhere(rows, node);
    if Listed(list, name) {
      var i :| 0 <= i < |list| && list[i].name == name;
      assert table[|others| + i] == Row(node, list[i]);
    }
    if i :| 0 <= i < |table| && table[i].node == node && table[i].c.name == name {
      assert i >= |others|;
      assert table[i] == Row(node, list[i - |others|]);
    }
  }

  lemma {:induction false} OthersElsewhere(rows: seq<Row>, node: string)
    ensures forall i :: 0 <= i < |Others(rows, node)| ==> Others(rows, node)[i].node != node
  {
    if rows != [] {
      OthersElsewhere(rows[..|rows| - 1], node);
    }
  }
}
