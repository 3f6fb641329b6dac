/** Keeping the configured containers of an update schedule in step with complete node scans, and choosing from a
    scan what is updated automatically. */
module Reconcile {
  import opened Text
  import ImageRef
  import UpdateScan

  datatype Option<T> = None | Some(value: T)

  // ----- configured names against one scan -----

  /** Compose v1 and v2 differ in underscores and hyphens. */
  function Normalize(name: string): string {
    Replace(TrimSpace(name))
  }

  function Replace(s: string): (r: string)
    ensures |r| == |s| && forall i :: 0 <= i < |s| ==> r[i] == if s[i] == '_' then '-' else s[i]
  {
    seq(|s|, i requires 0 <= i < |s| => if s[i] == '_' then '-' else s[i])
  }

  /** Two names are spelled alike if, trimmed, they differ at most in underscores and hyphens. */
  lemma AlikeIff(a: string, b: string)
    ensures Normalize(a) == Normalize(b) <==>
      && |TrimSpace(a)| == |TrimSpace(b)|
      && forall i :: 0 <= i < |TrimSpace(a)| ==>
           TrimSpace(a)[i] == TrimSpace(b)[i] || (TrimSpace(a)[i] in {'_', '-'} && TrimSpace(b)[i] in {'_', '-'})
  {
    hide TrimSpace;
    if Normalize(a) == Normalize(b) {
      forall i | 0 <= i < |TrimSpace(a)|
        ensures TrimSpace(a)[i] == TrimSpace(b)[i] || (TrimSpace(a)[i] in {'_', '-'} && TrimSpace(b)[i] in {'_', '-'})
      {
        assert Normalize(a)[i] == Normalize(b)[i];
      }
    }
  }

  /** The names a scan found, in order. */
  function Found(scan: seq<string>): seq<string> {
    if scan == [] then []
    else
      var name := TrimSpace(scan[|scan| - 1]);
      Found(scan[..|scan| - 1]) + (if name == "" then [] else [name])
  }

  function Matches(names: seq<string>, key: string): seq<string> {
    if names == [] then []
    else
      var last := names[|names| - 1];
      Matches(names[..|names| - 1], key) + (if Normalize(last) == key then [last] else [])
  }

  datatype Fate = Present | Relinked(now: string) | Removed

  /** What becomes of one configured name. */
  function FateOf(scan: seq<string>, configured: string): Fate {
    var ms := Matches(Found(scan), Normalize(configured));
    if configured in Found(scan) then Present
    else if |ms| == 1 then Relinked(ms[0])
    else Removed
  }

  lemma {:induction false} MatchesAre(names: seq<string>, key: string)
    ensures forall m :: m in Matches(names, key) <==> m in names && Normalize(m) == key
  {
    hide Normalize;
    if names != [] {
      var n := |names| - 1;
      MatchesAre(names[..n], key);
      assert names == names[..n] + [names[n]];
    }
  }

  lemma {:induction false} FoundAre(scan: seq<string>)
    ensures forall m :: m in Found(scan) ==> m != "" && TrimSpace(m) == m
  {
    hide TrimSpace, Trimmed;
    if scan != [] {
      FoundAre(scan[..|scan| - 1]);
      TrimSpaceTrims(scan[|scan| - 1]);
    }
  }

  /** The positions at which a list has a name of this normal form: one that occurs twice has two. */
  function Places(names: seq<string>, key: string): set<nat> {
    set i: nat | i < |names| && Normalize(names[i]) == key
  }

  lemma {:induction false} MatchesCount(names: seq<string>, key: string)
    ensures |Matches(names, key)| == |Places(names, key)|
  {
    hide Normalize;
    if names == [] {
      assert Places(names, key) == {};
    } else {
      var n := |names| - 1;
      MatchesCount(names[..n], key);
      var here: set<nat> := if Normalize(names[n]) == key then {n} else {};
      assert Places(names, key) == Places(names[..n], key) + here;
    }
  }

  /** A name found stays. Any other is relinked exactly when one place of the scan holds a name spelled alike, and
      then to that name, which differs from it; it is removed exactly when there is no such place or more than one,
      be it with the same name twice. */
  lemma FateMeaning(scan: seq<string>, c: string)
    ensures FateOf(scan, c).Present? <==> c in Found(scan)
    ensures FateOf(scan, c).Relinked? <==> c !in Found(scan) && |Places(Found(scan), Normalize(c))| == 1
    ensures FateOf(scan, c).Removed? <==> c !in Found(scan) && |Places(Found(scan), Normalize(c))| != 1
    ensures FateOf(scan, c).Relinked? ==>
      var now := FateOf(scan, c).now;
      now in Found(scan) && now != c && now != "" && TrimSpace(now) == now && Normalize(now) == Normalize(c)
      && forall m :: m in Found(scan) && Normalize(m) == Normalize(c) ==> m == now
  {
    MatchesAre(Found(scan), Normalize(c));
    MatchesCount(Found(scan), Normalize(c));
    FoundAre(scan);
    var ms := Matches(Found(scan), Normalize(c));
    hide Normalize, Matches, Found, TrimSpace, Places;
    if |ms| == 1 {
      assert ms[0] in ms;
      forall m | m in ms
        ensures m == ms[0]
      {
      }
    }
  }

  /** The names found, and under each normal form those spelled like it, in order. */
  ghost predicate Indexed(scan: seq<string>, current: set<string>, byKey: map<string, seq<string>>) {
    && (forall m :: m in current <==> m in Found(scan))
    && (forall key :: key in byKey ==> byKey[key] == Matches(Found(scan), key))
    && (forall key :: key !in byKey ==> Matches(Found(scan), key) == [])
  }

  lemma MatchesSnoc(names: seq<string>, name: string)
    ensures forall key :: Matches(names + [name], key) == Matches(names, key) + (if Normalize(name) == key then [name] else [])
  {
    hide Normalize;
    assert (names + [name])[..|names|] == names;
  }

  lemma IndexSnoc(scan: seq<string>, i: nat, current: set<string>, byKey: map<string, seq<string>>)
    requires i < |scan| && Indexed(scan[..i], current, byKey)
    ensures var name := TrimSpace(scan[i]); var key := Normalize(name);
      Indexed(scan[..i + 1],
              if name == "" then current else current + {name},
              if name == "" then byKey else byKey[key := (if key in byKey then byKey[key] else []) + [name]])
  {
    hide TrimSpace, Normalize;
    assert scan[..i + 1][..i] == scan[..i];
    var before, name := Found(scan[..i]), TrimSpace(scan[i]);
    assert Found(scan[..i + 1]) == before + (if name == "" then [] else [name]);
    hide Found;
    if name == "" {
      assert before + [] == before;
    } else {
      MatchesSnoc(before, name);
      hide Matches;
      assert forall key :: Matches(before, key) + [] == Matches(before, key);
    }
  }

  method IndexScan(scan: seq<string>) returns (current: set<string>, byKey: map<string, seq<string>>)
    ensures Indexed(scan, current, byKey)
  {
    hide TrimSpace, Normalize, Indexed;
    current, byKey := {}, map[];
    var i := 0;
    assert Indexed(scan[..0], current, byKey) by { NothingIndexed(); assert scan[..0] == []; }
    while i < |scan|
      invariant 0 <= i <= |scan| && Indexed(scan[..i], current, byKey)
    {
      IndexSnoc(scan, i, current, byKey);
      var name := TrimSpace(scan[i]);
      if name != "" {
        var key := Normalize(name);
        current := current + {name};
        byKey := byKey[key := (if key in byKey then byKey[key] else []) + [name]];
      }
      i := i + 1;
    }
    assert scan[..i] == scan;
  }

  lemma NothingIndexed()
    ensures Indexed([], {}, map[])
  {
  }

  /** The names in `done` split by their fate; nothing is lost and nothing counted twice. */
  ghost predicate Split(scan: seq<string>, done: set<string>, effective: set<string>, relinked: map<string, string>, removed: seq<string>) {
    && (forall c :: c in relinked <==> c in done && FateOf(scan, c).Relinked?)
    && (forall c :: c in relinked ==> FateOf(scan, c) == Relinked(relinked[c]))
    && (forall c :: c in removed <==> c in done && FateOf(scan, c) == Removed)
    && (forall i, j :: 0 <= i < j < |removed| ==> removed[i] != removed[j])
    && (forall e :: e in effective <==> (e in done && FateOf(scan, e) == Present) || e in relinked.Values)
  }

  lemma SplitOne(scan: seq<string>, done: set<string>, effective: set<string>, relinked: map<string, string>, removed: seq<string>, c: string)
    requires Split(scan, done, effective, relinked, removed) && c !in done
    ensures match FateOf(scan, c)
      case Present => Split(scan, done + {c}, effective + {c}, relinked, removed)
      case Relinked(now) => Split(scan, done + {c}, effective + {now}, relinked[c := now], removed)
      case Removed => Split(scan, done + {c}, effective, relinked, removed + [c])
  {
    hide FateOf;
    match FateOf(scan, c)
    case Present =>
    case Relinked(now) => NewValue(relinked, c, now);
    case Removed =>
  }

  method ReconcileNames(allow: set<string>, scan: seq<string>)
    returns (effective: set<string>, relinked: map<string, string>, removed: seq<string>)
    ensures Split(scan, allow, effective, relinked, removed)
  {
    hide Matches, Found, Normalize, Split, Indexed;
    var current, byKey := IndexScan(scan);
    effective, relinked, removed := {}, map[], [];
    var rest := allow;
    assert Split(scan, allow - rest, effective, relinked, removed) by { NothingSplit(scan); assert allow - rest == {}; }
    while rest != {}
      invariant rest <= allow && Split(scan, allow - rest, effective, relinked, removed)
      decreases |rest|
    {
      var configured :| configured in rest;
      IndexedFate(scan, current, byKey, configured);
      SplitOne(scan, allow - rest, effective, relinked, removed, configured);
      assert allow - (rest - {configured}) == allow - rest + {configured};
      if configured in current {
        effective := effective + {configured};
      } else {
        var ms := if Normalize(configured) in byKey then byKey[Normalize(configured)] else [];
        if |ms| == 1 && ms[0] != configured {
          effective := effective + {ms[0]};
          relinked := relinked[configured := ms[0]];
        } else {
          removed := removed + [configured];
        }
      }
      rest := rest - {configured};
    }
    assert allow - rest == allow;
  }

  lemma NothingSplit(scan: seq<string>)
    ensures Split(scan, {}, {}, map[], [])
  {
  }

  lemma IndexedFate(scan: seq<string>, current: set<string>, byKey: map<string, seq<string>>, c: string)
    requires Indexed(scan, current, byKey)
    ensures var ms := if Normalize(c) in byKey then byKey[Normalize(c)] else [];
      FateOf(scan, c) == (if c in current then Present else if |ms| == 1 && ms[0] != c then Relinked(ms[0]) else Removed)
  {
    FateMeaning(scan, c);
    hide Matches, Found, Normalize;
  }

  lemma NewValue(m: map<string, string>, k: string, v: string)
    requires k !in m
    ensures m[k := v].Values == m.Values + {v}
  {
    var m' := m[k := v];
    forall x | x in m.Values
      ensures x in m'.Values
    {
      var y :| y in m && m[y] == x;
      assert m'[y] == x;
    }
    assert m'[k] == v;
  }

  // ----- the persisted list -----

  datatype Target = Target(node: string, container: string, name: string)

  /** Per scanned node: old names with their new ones, and names that are gone. */
  datatype Plan = Plan(relinked: map<string, map<string, string>>, removed: map<string, set<string>>)

  /** The container id a name has now, or "". */
  type Directory = (string, string) -> string

  predicate IsRemoved(plan: Plan, t: Target) {
    t.node in plan.removed && TrimSpace(t.name) in plan.removed[t.node]
  }

  function NewName(plan: Plan, t: Target): string {
    var oldName := TrimSpace(t.name);
    if t.node in plan.relinked && oldName in plan.relinked[t.node] then plan.relinked[t.node][oldName] else ""
  }

  function Renamed(plan: Plan, idOf: Directory, t: Target): Target {
    var now := NewName(plan, t);
    if now == "" then t
    else
      var id := idOf(t.node, now);
      t.(name := now, container := if id != "" then id else t.container)
  }

  predicate Has(ts: seq<Target>, node: string, name: string) {
    exists i :: 0 <= i < |ts| && ts[i].node == node && ts[i].name == name
  }

  function Persisted(plan: Plan, idOf: Directory, ts: seq<Target>): seq<Target> {
    if ts == [] then []
    else
      var kept := Persisted(plan, idOf, ts[..|ts| - 1]);
      var last := ts[|ts| - 1];
      var t := Renamed(plan, idOf, last);
      if IsRemoved(plan, last) || Has(kept, t.node, t.name) then kept else kept + [t]
  }

  predicate NoDuplicates(ts: seq<Target>) {
    forall i, j :: 0 <= i < j < |ts| ==> ts[i].node != ts[j].node || ts[i].name != ts[j].name
  }

  lemma {:induction false} PersistedHasNoDuplicates(plan: Plan, idOf: Directory, ts: seq<Target>)
    ensures NoDuplicates(Persisted(plan, idOf, ts))
  {
    hide Renamed, IsRemoved;
    if ts != [] {
      PersistedHasNoDuplicates(plan, idOf, ts[..|ts| - 1]);
    }
  }

  function OnNode(ts: seq<Target>, node: string): seq<Target> {
    if ts == [] then []
    else OnNode(ts[..|ts| - 1], node) + (if ts[|ts| - 1].node == node then [ts[|ts| - 1]] else [])
  }

  /** A node's targets without those that repeat an earlier name. */
  function FirstOnNode(ts: seq<Target>, node: string): seq<Target> {
    if ts == [] then []
    else
      var front, last := ts[..|ts| - 1], ts[|ts| - 1];
      FirstOnNode(front, node) + (if last.node == node && !Has(front, node, last.name) then [last] else [])
  }

  lemma HasSnoc(ts: seq<Target>, t: Target, node: string, name: string)
    ensures Has(ts + [t], node, name) <==> Has(ts, node, name) || (t.node == node && t.name == name)
  {
    if Has(ts, node, name) {
      var i :| 0 <= i < |ts| && ts[i].node == node && ts[i].name == name;
      assert (ts + [t])[i] == ts[i];
    }
    assert (ts + [t])[|ts|] == t;
  }

  lemma OnNodeSnoc(ts: seq<Target>, t: Target, node: string)
    ensures OnNode(ts + [t], node) == OnNode(ts, node) + (if t.node == node then [t] else [])
  {
    assert (ts + [t])[..|ts|] == ts;
  }

  lemma UnscannedTarget(plan: Plan, idOf: Directory, t: Target, node: string)
    requires node !in plan.relinked && node !in plan.removed
    ensures Renamed(plan, idOf, t).node == t.node
    ensures t.node == node ==> Renamed(plan, idOf, t) == t && !IsRemoved(plan, t)
  {
    hide TrimSpace;
  }

  lemma {:induction false} UnscannedHas(plan: Plan, idOf: Directory, ts: seq<Target>, node: string, name: string)
    requires node !in plan.relinked && node !in plan.removed
    ensures Has(Persisted(plan, idOf, ts), node, name) <==> Has(ts, node, name)
  {
    if ts != [] {
      hide Renamed, IsRemoved, Has;
      var front, last := ts[..|ts| - 1], ts[|ts| - 1];
      UnscannedHas(plan, idOf, front, node, name);
      UnscannedTarget(plan, idOf, last, node);
      HasSnoc(front, last, node, name);
      HasSnoc(Persisted(plan, idOf, front), Renamed(plan, idOf, last), node, name);
      assert front + [last] == ts;
    }
  }

  /** Targets of a node without a completed scan all stay, up to repeated names, in order and unchanged. */
  lemma {:induction false} UnscannedNodeStays(plan: Plan, idOf: Directory, ts: seq<Target>, node: string)
    requires node !in plan.relinked && node !in plan.removed
    ensures OnNode(Persisted(plan, idOf, ts), node) == FirstOnNode(ts, node)
    ensures forall name :: Has(Persisted(plan, idOf, ts), node, name) <==> Has(ts, node, name)
  {
    hide Renamed, IsRemoved, Has;
    forall name
      ensures Has(Persisted(plan, idOf, ts), node, name) <==> Has(ts, node, name)
    {
      UnscannedHas(plan, idOf, ts, node, name);
    }
    if ts != [] {
      var front, last := ts[..|ts| - 1], ts[|ts| - 1];
      UnscannedNodeStays(plan, idOf, front, node);
      UnscannedTarget(plan, idOf, last, node);
      OnNodeSnoc(Persisted(plan, idOf, front), Renamed(plan, idOf, last), node);
    }
  }

  /** A node's targets with one name. */
  function Named(ts: seq<Target>, node: string, name: string): seq<Target> {
    if ts == [] then []
    else
      var last := ts[|ts| - 1];
      Named(ts[..|ts| - 1], node, name) + (if last.node == node && last.name == name then [last] else [])
  }

  lemma {:induction false} NamedIff(ts: seq<Target>, node: string, name: string)
    ensures Named(ts, node, name) != [] <==> Has(ts, node, name)
  {
    if ts != [] {
      var n := |ts| - 1;
      NamedIff(ts[..n], node, name);
      HasSnoc(ts[..n], ts[n], node, name);
      assert ts[..n] + [ts[n]] == ts;
    }
  }

  /** Of the targets that carry no name only the first stays, whatever their containers: the others count as its
      repetitions and are dropped even though their node was never scanned. The same goes for any one name. */
  lemma {:induction false} UnnamedTargetsCollapse(plan: Plan, idOf: Directory, ts: seq<Target>, node: string, name: string)
    requires node !in plan.relinked && node !in plan.removed
    ensures var all := Named(ts, node, name);
      Named(Persisted(plan, idOf, ts), node, name) == if all == [] then [] else [all[0]]
  {
    hide Renamed, IsRemoved, Has;
    if ts != [] {
      var front, last := ts[..|ts| - 1], ts[|ts| - 1];
      UnnamedTargetsCollapse(plan, idOf, front, node, name);
      var kept, t := Persisted(plan, idOf, front), Renamed(plan, idOf, last);
      UnscannedTarget(plan, idOf, last, node);
      NamedIff(kept, node, name);
      assert (kept + [t])[..|kept|] == kept;
    }
  }

  ghost predicate SeenIs(seen: set<(string, string)>, ts: seq<Target>) {
    forall node, name :: (node, name) in seen <==> Has(ts, node, name)
  }

  lemma SeenOne(seen: set<(string, string)>, ts: seq<Target>, t: Target)
    requires SeenIs(seen, ts)
    ensures SeenIs(seen + {(t.node, t.name)}, ts + [t])
  {
    hide Has;
    forall node, name
      ensures (node, name) in seen + {(t.node, t.name)} <==> Has(ts + [t], node, name)
    {
      HasSnoc(ts, t, node, name);
    }
  }

  method PersistTargets(plan: Plan, idOf: Directory, ts: seq<Target>) returns (next: seq<Target>, enabled: bool)
    ensures next == Persisted(plan, idOf, ts) && (enabled <==> next != [])
  {
    hide SeenIs, IsRemoved, NewName;
    next := [];
    var seen: set<(string, string)> := {};
    var i := 0;
    assert SeenIs(seen, next) by { NothingSeen(); }
    while i < |ts|
      invariant 0 <= i <= |ts| && next == Persisted(plan, idOf, ts[..i])
      invariant SeenIs(seen, next)
    {
      assert ts[..i + 1][..i] == ts[..i];
      var target := ts[i];
      i := i + 1;
      if IsRemoved(plan, target) {
        continue;
      }
      var current := NewName(plan, target);
      if current != "" {
        var id := idOf(target.node, current);
        target := target.(name := current, container := if id != "" then id else target.container);
      }
      WasSeen(seen, next, target);
      if (target.node, target.name) in seen {
        continue;
      }
      SeenOne(seen, next, target);
      seen := seen + {(target.node, target.name)};
      next := next + [target];
    }
    assert ts[..i] == ts;
    enabled := |next| > 0;
  }

  lemma NothingSeen()
    ensures SeenIs({}, [])
  {
  }

  lemma WasSeen(seen: set<(string, string)>, ts: seq<Target>, t: Target)
    requires SeenIs(seen, ts)
    ensures (t.node, t.name) in seen <==> Has(ts, t.node, t.name)
  {
    hide Has;
  }

  // ----- a whole round -----

  /** The name a target stands for: its own, or that of its container. */
  function NameFor(t: Target, nameOf: Directory): string {
    var name := TrimSpace(t.name);
    if name == "" && t.container != "" then nameOf(t.node, t.container) else name
  }

  function Allowed(ts: seq<Target>, nameOf: Directory, node: string): set<string> {
    set i | 0 <= i < |ts| && ts[i].node == node && node != "" && NameFor(ts[i], nameOf) != "" :: NameFor(ts[i], nameOf)
  }

  /** The names looked for on a node: of its targets each its own, trimmed, or, for one without a name, that of its
      container. */
  lemma AllowedIff(ts: seq<Target>, nameOf: Directory, node: string, c: string)
    ensures c in Allowed(ts, nameOf, node) <==>
      node != "" && c != "" && exists i :: 0 <= i < |ts| && ts[i].node == node && StandsFor(ts[i], nameOf, c)
  {
    hide TrimSpace;
    if c in Allowed(ts, nameOf, node) {
      var i :| 0 <= i < |ts| && ts[i].node == node && NameFor(ts[i], nameOf) == c;
      assert StandsFor(ts[i], nameOf, c);
    }
  }

  predicate StandsFor(t: Target, nameOf: Directory, c: string) {
    if TrimSpace(t.name) != "" then c == TrimSpace(t.name)
    else if t.container != "" then c == nameOf(t.node, t.container)
    else c == ""
  }

  /** The outcome of reconciling every completely scanned node. */
  function PlanOf(ts: seq<Target>, nameOf: Directory, scans: map<string, seq<string>>): Plan {
    Plan(
      map n | n in scans :: map c | c in Allowed(ts, nameOf, n) && FateOf(scans[n], c).Relinked? :: FateOf(scans[n], c).now,
      map n | n in scans :: set c | c in Allowed(ts, nameOf, n) && FateOf(scans[n], c) == Removed)
  }

  predicate Idle(plan: Plan) {
    && (forall n :: n in plan.relinked ==> plan.relinked[n] == map[])
    && (forall n :: n in plan.removed ==> plan.removed[n] == {})
  }

  /** The list is rewritten only when some node has something to relink or remove. */
  function Round(ts: seq<Target>, nameOf: Directory, idOf: Directory, scans: map<string, seq<string>>): seq<Target> {
    var plan := PlanOf(ts, nameOf, scans);
    if Idle(plan) then ts else Persisted(plan, idOf, ts)
  }

  /** The plan has nothing to do for this target. */
  predicate Settled(scans: map<string, seq<string>>, t: Target) {
    t.node in scans && TrimSpace(t.name) != "" && t.node != "" ==> TrimSpace(t.name) in Found(scans[t.node])
  }

  lemma PlanSays(ts: seq<Target>, nameOf: Directory, scans: map<string, seq<string>>, n: string, c: string)
    requires n in scans
    ensures var plan, allowed := PlanOf(ts, nameOf, scans), Allowed(ts, nameOf, n);
      && n in plan.relinked && n in plan.removed
      && (c in plan.relinked[n] <==> c in allowed && FateOf(scans[n], c).Relinked?)
      && (c in plan.relinked[n] ==> plan.relinked[n][c] == FateOf(scans[n], c).now)
      && (c in plan.removed[n] <==> c in allowed && FateOf(scans[n], c) == Removed)
      && (c in allowed ==> c != "" && n != "")
  {
    hide FateOf, NameFor;
  }

  lemma PlanSilent(ts: seq<Target>, nameOf: Directory, scans: map<string, seq<string>>, n: string)
    requires n !in scans
    ensures n !in PlanOf(ts, nameOf, scans).relinked && n !in PlanOf(ts, nameOf, scans).removed
  {
    hide FateOf, NameFor;
  }

  lemma SettledStays(ts: seq<Target>, nameOf: Directory, idOf: Directory, scans: map<string, seq<string>>, t: Target)
    requires Settled(scans, t)
    ensures var plan := PlanOf(ts, nameOf, scans); !IsRemoved(plan, t) && Renamed(plan, idOf, t) == t
  {
    hide FateOf, TrimSpace, Allowed, PlanOf, Found;
    if t.node in scans {
      FateMeaning(scans[t.node], TrimSpace(t.name));
      PlanSays(ts, nameOf, scans, t.node, TrimSpace(t.name));
    } else {
      PlanSilent(ts, nameOf, scans, t.node);
    }
  }

  lemma TargetAllowed(ts: seq<Target>, nameOf: Directory, i: nat)
    requires i < |ts| && TrimSpace(ts[i].name) != "" && ts[i].node != ""
    ensures TrimSpace(ts[i].name) in Allowed(ts, nameOf, ts[i].node)
  {
    hide TrimSpace;
    assert NameFor(ts[i], nameOf) == TrimSpace(ts[i].name);
  }

  lemma BecomesSettled(ts: seq<Target>, nameOf: Directory, idOf: Directory, scans: map<string, seq<string>>, i: nat)
    requires i < |ts| && !IsRemoved(PlanOf(ts, nameOf, scans), ts[i])
    ensures Settled(scans, Renamed(PlanOf(ts, nameOf, scans), idOf, ts[i]))
  {
    hide FateOf, TrimSpace, Allowed, PlanOf, Found, Normalize;
    var t := ts[i];
    var name := TrimSpace(t.name);
    if t.node in scans {
      FateMeaning(scans[t.node], name);
      PlanSays(ts, nameOf, scans, t.node, name);
      if name != "" && t.node != "" {
        TargetAllowed(ts, nameOf, i);
      }
    }
  }

  lemma {:induction false} PersistedSettled(all: seq<Target>, ts: seq<Target>, nameOf: Directory, idOf: Directory, scans: map<string, seq<string>>)
    requires ts <= all
    ensures forall i :: 0 <= i < |Persisted(PlanOf(all, nameOf, scans), idOf, ts)| ==>
      Settled(scans, Persisted(PlanOf(all, nameOf, scans), idOf, ts)[i])
  {
    hide Settled, Renamed, IsRemoved, PlanOf;
    if ts != [] {
      var n := |ts| - 1;
      assert ts[..n] <= all && all[n] == ts[n];
      PersistedSettled(all, ts[..n], nameOf, idOf, scans);
      if !IsRemoved(PlanOf(all, nameOf, scans), ts[n]) {
        BecomesSettled(all, nameOf, idOf, scans, n);
      }
    }
  }

  lemma {:induction false} NothingToDo(plan: Plan, idOf: Directory, ts: seq<Target>)
    requires NoDuplicates(ts)
    requires forall i :: 0 <= i < |ts| ==> !IsRemoved(plan, ts[i]) && Renamed(plan, idOf, ts[i]) == ts[i]
    ensures Persisted(plan, idOf, ts) == ts
  {
    hide Renamed, IsRemoved;
    if ts != [] {
      var n := |ts| - 1;
      NothingToDo(plan, idOf, ts[..n]);
      assert ts[..n] + [ts[n]] == ts;
      assert !Has(ts[..n], ts[n].node, ts[n].name);
    }
  }

  /** Reconciling again with the same scans changes nothing, for every list of targets. */
  lemma RoundIsIdempotent(ts: seq<Target>, nameOf: Directory, idOf: Directory, scans: map<string, seq<string>>)
    ensures var once := Round(ts, nameOf, idOf, scans); Round(once, nameOf, idOf, scans) == once
  {
    hide PlanOf, Settled, Renamed, IsRemoved, Idle, Persisted;
    var plan := PlanOf(ts, nameOf, scans);
    if !Idle(plan) {
      var once := Persisted(plan, idOf, ts);
      PersistedSettled(ts, ts, nameOf, idOf, scans);
      PersistedHasNoDuplicates(plan, idOf, ts);
      var plan' := PlanOf(once, nameOf, scans);
      forall i | 0 <= i < |once|
        ensures !IsRemoved(plan', once[i]) && Renamed(plan', idOf, once[i]) == once[i]
      {
        SettledStays(once, nameOf, idOf, scans, once[i]);
      }
      NothingToDo(plan', idOf, once);
    }
  }

  /** After a round every named target of a scanned node names a container that is there. */
  lemma RoundSettles(ts: seq<Target>, nameOf: Directory, idOf: Directory, scans: map<string, seq<string>>, i: nat)
    requires i < |Round(ts, nameOf, idOf, scans)|
    ensures Settled(scans, Round(ts, nameOf, idOf, scans)[i])
  {
    var plan := PlanOf(ts, nameOf, scans);
    if Idle(plan) {
      IdleMeansSettled(ts, nameOf, scans, ts[i], i);
    } else {
      PersistedSettled(ts, ts, nameOf, idOf, scans);
    }
  }

  lemma IdleMeansSettled(ts: seq<Target>, nameOf: Directory, scans: map<string, seq<string>>, t: Target, i: nat)
    requires Idle(PlanOf(ts, nameOf, scans)) && i < |ts| && t == ts[i]
    ensures Settled(scans, t)
  {
    hide FateOf, TrimSpace, Allowed, PlanOf, Found, Normalize;
    var name := TrimSpace(t.name);
    if t.node in scans && name != "" && t.node != "" {
      TargetAllowed(ts, nameOf, i);
      FateMeaning(scans[t.node], name);
      PlanSays(ts, nameOf, scans, t.node, name);
    }
  }

  /** What a round does to a named target of a scanned node: found, it stays; relinked, it takes the new name and
      that container's id, if one is known; otherwise it goes. */
  lemma TargetFate(ts: seq<Target>, nameOf: Directory, idOf: Directory, scans: map<string, seq<string>>, i: nat)
    requires i < |ts| && ts[i].node in scans && ts[i].node != "" && TrimSpace(ts[i].name) != ""
    ensures var plan, t := PlanOf(ts, nameOf, scans), ts[i];
      match FateOf(scans[t.node], TrimSpace(t.name))
      case Present => !IsRemoved(plan, t) && Renamed(plan, idOf, t) == t
      case Relinked(now) =>
        && !IsRemoved(plan, t)
        && Renamed(plan, idOf, t) == Target(t.node, if idOf(t.node, now) != "" then idOf(t.node, now) else t.container, now)
      case Removed => IsRemoved(plan, t)
  {
    hide FateOf, TrimSpace, Allowed, PlanOf, Found, Normalize, Places;
    var t := ts[i];
    FateMeaning(scans[t.node], TrimSpace(t.name));
    PlanSays(ts, nameOf, scans, t.node, TrimSpace(t.name));
    TargetAllowed(ts, nameOf, i);
  }

  /** The list that is kept: every target that is not removed is there under its new name, and nothing else is. */
  lemma {:induction false} PersistedIs(plan: Plan, idOf: Directory, ts: seq<Target>, node: string, name: string)
    ensures Has(Persisted(plan, idOf, ts), node, name) <==>
      exists i :: 0 <= i < |ts| && KeptAs(plan, idOf, ts[i], node, name)
  {
    hide Renamed, IsRemoved;
    if ts != [] {
      var n := |ts| - 1;
      PersistedIs(plan, idOf, ts[..n], node, name);
      HasSnoc(Persisted(plan, idOf, ts[..n]), Renamed(plan, idOf, ts[n]), node, name);
      if i :| 0 <= i < n && KeptAs(plan, idOf, ts[i], node, name) {
        assert ts[..n][i] == ts[i];
      }
      assert KeptAs(plan, idOf, ts[n], node, name) ==> Has(Persisted(plan, idOf, ts), node, name);
    }
  }

  predicate KeptAs(plan: Plan, idOf: Directory, t: Target, node: string, name: string) {
    !IsRemoved(plan, t) && Renamed(plan, idOf, t).node == node && Renamed(plan, idOf, t).name == name
  }

  // ----- what is updated -----

  datatype Candidate = Candidate(name: string, suggested: string, from: string, to: string)

  predicate IsCandidate(it: UpdateScan.Item) {
    && (it.updateType == "latest" || it.updateType == "tag")
    && it.hasUpdate == 1 && (it.state == "" || it.state == "running")
    && (TrimSpace(it.suggested) != "" || it.updateType == "latest")
  }

  function CandidateOf(it: UpdateScan.Item): Candidate {
    Candidate(it.name, TrimSpace(it.suggested), ImageRef.ImageTagOf(it.image), ImageRef.ImageTagOf(TrimSpace(it.suggested)))
  }

  function Candidates(items: seq<UpdateScan.Item>): seq<Candidate> {
    if items == [] then []
    else
      var last := items[|items| - 1];
      Candidates(items[..|items| - 1]) + (if IsCandidate(last) then [CandidateOf(last)] else [])
  }

  /** A container is updated if it runs, or its state is unknown, the scan announced an update, and it follows a
      channel, or a tag to which an image was suggested. */
  predicate Updated(it: UpdateScan.Item) {
    && it.hasUpdate == 1 && it.state in {"", "running"}
    && (it.updateType == "latest" || (it.updateType == "tag" && TrimSpace(it.suggested) != ""))
  }

  function UpdatedBefore(items: seq<UpdateScan.Item>, n: nat): set<nat>
    requires n <= |items|
  {
    set i: nat | i < n && Updated(items[i])
  }

  lemma UpdatedIff(it: UpdateScan.Item)
    ensures IsCandidate(it) <==> Updated(it)
  {
    hide TrimSpace;
  }

  lemma {:induction false} CountCandidates(items: seq<UpdateScan.Item>)
    ensures |Candidates(items)| == |UpdatedBefore(items, |items|)|
  {
    hide IsCandidate, Updated, CandidateOf;
    if items == [] {
      assert UpdatedBefore(items, 0) == {};
    } else {
      var n := |items| - 1;
      CountCandidates(items[..n]);
      SameBefore(items, n, n);
      OneMore(items, n);
      UpdatedIff(items[n]);
      hide UpdatedBefore;
    }
  }

  /** The candidates are exactly those containers, in order, each with its name, the suggestion, the tag it has and
      the tag it would get. */
  lemma {:induction false} CandidatesAre(items: seq<UpdateScan.Item>, i: nat)
    requires i < |items| && Updated(items[i])
    ensures |Candidates(items)| == |UpdatedBefore(items, |items|)|
    ensures var it, k := items[i], |UpdatedBefore(items, i)|;
      && k < |Candidates(items)|
      && Candidates(items)[k] == Candidate(it.name, TrimSpace(it.suggested), ImageRef.ImageTagOf(it.image),
                                           ImageRef.ImageTagOf(TrimSpace(it.suggested)))
  {
    hide IsCandidate, Updated, UpdatedBefore, TrimSpace, ImageRef.ImageTagOf;
    var n := |items| - 1;
    CountCandidates(items);
    CountCandidates(items[..n]);
    UpdatedIff(items[i]);
    SameBefore(items, n, n);
    SameBefore(items, n, i);
    if i < n {
      CandidatesAre(items[..n], i);
    }
  }

  lemma SameBefore(items: seq<UpdateScan.Item>, n: nat, i: nat)
    requires i <= n <= |items|
    ensures UpdatedBefore(items[..n], i) == UpdatedBefore(items, i)
  {
    hide Updated;
  }

  lemma OneMore(items: seq<UpdateScan.Item>, n: nat)
    requires n < |items|
    ensures |UpdatedBefore(items, n + 1)| == |UpdatedBefore(items, n)| + (if Updated(items[n]) then 1 else 0)
  {
    hide Updated;
    var one: set<nat> := if Updated(items[n]) then {n} else {};
    assert UpdatedBefore(items, n + 1) == UpdatedBefore(items, n) + one;
  }

  /** Of the first n items those the scan looked at and found unchanged, or came to no conclusion about. */
  function Tallied(items: seq<UpdateScan.Item>, n: nat, same: bool): set<nat>
    requires n <= |items|
  {
    set i: nat | i < n && UpdateScan.Eligible(items[i].updateType)
                 && if same then items[i].hasUpdate == 0 else items[i].hasUpdate !in {0, 1}
  }

  lemma NoneTallied(items: seq<UpdateScan.Item>)
    ensures Tallied(items, 0, true) == {} && Tallied(items, 0, false) == {}
  {
  }

  lemma TalliedNext(items: seq<UpdateScan.Item>, n: nat)
    requires n < |items|
    ensures var it := items[n]; var looked := UpdateScan.Eligible(it.updateType);
      && |Tallied(items, n + 1, true)| == |Tallied(items, n, true)| + (if looked && it.hasUpdate == 0 then 1 else 0)
      && |Tallied(items, n + 1, false)| == |Tallied(items, n, false)| + (if looked && it.hasUpdate !in {0, 1} then 1 else 0)
  {
    TalliedOne(items, n, true);
    TalliedOne(items, n, false);
  }

  lemma TalliedOne(items: seq<UpdateScan.Item>, n: nat, same: bool)
    requires n < |items|
    ensures var it := items[n];
      |Tallied(items, n + 1, same)| == |Tallied(items, n, same)|
        + (if UpdateScan.Eligible(it.updateType) && (if same then it.hasUpdate == 0 else it.hasUpdate !in {0, 1}) then 1 else 0)
  {
    var it := items[n];
    var one: set<nat> :=
      if UpdateScan.Eligible(it.updateType) && (if same then it.hasUpdate == 0 else it.hasUpdate !in {0, 1}) then {n} else {};
    assert Tallied(items, n + 1, same) == Tallied(items, n, same) + one;
  }

  /** Every item is counted once: as candidate, as unchanged, or as skipped; the unknown ones are among the
      skipped. */
  method ClassifyUpdateCandidates(items: seq<UpdateScan.Item>)
    returns (descs: seq<Candidate>, candidates: nat, current: nat, skipped: nat, unknown: nat)
    ensures descs == Candidates(items) && candidates == |descs|
    ensures candidates + current + skipped == |items| && unknown <= skipped
    ensures current == |Tallied(items, |items|, true)| && unknown == |Tallied(items, |items|, false)|
  {
    hide TrimSpace, CandidateOf, Tallied;
    NoneTallied(items);
    descs, candidates, current, skipped, unknown := [], 0, 0, 0, 0;
    var i := 0;
    while i < |items|
      invariant 0 <= i <= |items|
      invariant descs == Candidates(items[..i]) && candidates == |descs|
      invariant candidates + current + skipped == i && unknown <= skipped
      invariant current == |Tallied(items, i, true)| && unknown == |Tallied(items, i, false)|
    {
      assert items[..i + 1][..i] == items[..i];
      TalliedNext(items, i);
      var item := items[i];
      i := i + 1;
      if !UpdateScan.Eligible(item.updateType) {
        skipped := skipped + 1;
        continue;
      }
      if item.hasUpdate == 0 {
        current := current + 1;
      } else if item.hasUpdate == 1 {
        if item.updateType != "latest" && item.updateType != "tag" {
          skipped := skipped + 1;
          continue;
        }
        if item.state != "" && item.state != "running" {
          skipped := skipped + 1;
          continue;
        }
        if TrimSpace(item.suggested) == "" && item.updateType != "latest" {
          skipped := skipped + 1;
          continue;
        }
        candidates := candidates + 1;
        descs := descs + [CandidateOf(item)];
      } else {
        unknown := unknown + 1;
        skipped := skipped + 1;
      }
    }
    assert items[..i] == items;
  }
}
