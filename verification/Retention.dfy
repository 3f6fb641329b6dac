/** Backup retention: which rows a pruning pass keeps, and why pruning early or often never changes what a
    later pass keeps. */
module Retention {

  datatype Settings = Settings(keepCount: int, keepDays: int)

  datatype Backup = Backup(id: string, nodeId: string, name: string, container: string, containerName: string, createdAt: int)

  /** The series a backup belongs to: container name, else container id, else node and name, else itself. */
  function Key(b: Backup): string {
    if b.containerName != "" then b.containerName
    else if b.container != "" then b.container
    else if b.name != "" then b.nodeId + "|" + b.name
    else b.id
  }

  predicate Within(rc: Settings, now: int, b: Backup) {
    rc.keepDays > 0 && now - b.createdAt <= rc.keepDays * 86400
  }

  /** How many rows of a series a list holds. */
  function Count(rows: seq<Backup>, key: string): nat {
    if rows == [] then 0
    else Count(rows[..|rows| - 1], key) + (if Key(rows[|rows| - 1]) == key then 1 else 0)
  }

  /** The rule for row i of a newest-first list: recent enough, or among the first keepCount of its series. */
  predicate Kept(rc: Settings, now: int, rows: seq<Backup>, i: nat)
    requires i < |rows|
  {
    Within(rc, now, rows[i]) || Count(rows[..i], Key(rows[i])) < rc.keepCount
  }

  function Retained(rc: Settings, now: int, rows: seq<Backup>): seq<Backup> {
    if rows == [] then []
    else
      var n := |rows| - 1;
      Retained(rc, now, rows[..n]) + (if Kept(rc, now, rows, n) then [rows[n]] else [])
  }

  /** Both limits zero means: keep everything. */
  function Prune(rc: Settings, now: int, rows: seq<Backup>): seq<Backup> {
    if rc == Settings(0, 0) then rows else Retained(rc, now, rows)
  }

  /** The list query returns at most this many rows, newest first. */
  const LIST_LIMIT: nat := 500

  function Window(rows: seq<Backup>): nat {
    if |rows| < LIST_LIMIT then |rows| else LIST_LIMIT
  }

  /** One pass: the rule is applied to the listed rows; rows past the limit are not seen. */
  function Pass(rc: Settings, now: int, rows: seq<Backup>): seq<Backup> {
    Prune(rc, now, rows[..Window(rows)]) + rows[Window(rows)..]
  }

  // ----- counting -----

  lemma {:induction false} CountAppend(a: seq<Backup>, b: seq<Backup>, key: string)
    ensures Count(a + b, key) == Count(a, key) + Count(b, key)
  {
    if b == [] {
      assert a + b == a;
    } else {
      CountAppend(a, b[..|b| - 1], key);
      assert (a + b)[..|a + b| - 1] == a + b[..|b| - 1];
    }
  }

  lemma CountSnoc(rows: seq<Backup>, b: Backup, key: string)
    ensures Count(rows + [b], key) == Count(rows, key) + (if Key(b) == key then 1 else 0)
  {
    hide Key;
    assert (rows + [b])[..|rows|] == rows;
  }

  /** Of each series at least the first keepCount rows survive: the running count of the program, which
      counts survivors, and the count of all earlier rows agree on who is below the limit. */
  lemma {:induction false} SurvivorCount(rc: Settings, now: int, rows: seq<Backup>, key: string)
    ensures Count(Retained(rc, now, rows), key) <= Count(rows, key)
    ensures Count(Retained(rc, now, rows), key) < Count(rows, key) ==> Count(Retained(rc, now, rows), key) >= rc.keepCount
  {
    hide Key, Within;
    if rows != [] {
      var n := |rows| - 1;
      SurvivorCount(rc, now, rows[..n], key);
      var r := Retained(rc, now, rows[..n]);
      CountSnoc(r, rows[n], key);
      assert Retained(rc, now, rows) == if Kept(rc, now, rows, n) then r + [rows[n]] else r;
      hide Retained;
    }
  }

  // ----- what one pass keeps of a series -----

  function Series(rows: seq<Backup>, key: string): seq<Backup> {
    if rows == [] then []
    else Series(rows[..|rows| - 1], key) + (if Key(rows[|rows| - 1]) == key then [rows[|rows| - 1]] else [])
  }

  function Recent(rc: Settings, now: int, rows: seq<Backup>, key: string): nat {
    if rows == [] then 0
    else
      var last := rows[|rows| - 1];
      Recent(rc, now, rows[..|rows| - 1], key) + (if Key(last) == key && Within(rc, now, last) then 1 else 0)
  }

  predicate NewestFirst(rows: seq<Backup>) {
    forall i, j :: 0 <= i < j < |rows| ==> rows[i].createdAt >= rows[j].createdAt
  }

  function Max(a: int, b: int): int {
    if a < b then b else a
  }

  function Min(a: int, b: int): int {
    if a < b then a else b
  }

  /** Number of rows a series keeps. */
  function Quota(rc: Settings, now: int, rows: seq<Backup>, key: string): int {
    Max(Min(|Series(rows, key)|, Max(rc.keepCount, 0)), Recent(rc, now, rows, key))
  }

  /** Each series keeps exactly its newest max(min(n, keepCount), number within keepDays) rows, for all
      settings, negative ones included. */
  lemma {:induction false} KeepsNewestOfSeries(rc: Settings, now: int, rows: seq<Backup>, key: string)
    requires NewestFirst(rows)
    ensures 0 <= Recent(rc, now, rows, key) <= |Series(rows, key)|
    ensures 0 <= Quota(rc, now, rows, key) <= |Series(rows, key)|
    ensures Series(Retained(rc, now, rows), key) == Series(rows, key)[..Quota(rc, now, rows, key)]
  {
    hide Key, Within, Max, Min, Kept;
    if rows == [] {
      QuotaStart(rc.keepCount);
    } else {
      var n := |rows| - 1;
      var front, last := rows[..n], rows[n];
      KeepsNewestOfSeries(rc, now, front, key);
      SeriesGrows(rc, now, rows, key);
      hide Series, Recent, Retained;
      if Within(rc, now, last) {
        AllRecent(rc, now, front, key, last);
      }
      QuotaStep(rc.keepCount, |Series(front, key)|, Recent(rc, now, front, key), Within(rc, now, last));
    }
  }

  /** What the last row adds to a series, to what is recent of it and to what is kept of it. */
  lemma SeriesGrows(rc: Settings, now: int, rows: seq<Backup>, key: string)
    requires rows != []
    ensures var n := |rows| - 1; var last := rows[n];
      var all, kept := Series(rows[..n], key), Series(Retained(rc, now, rows[..n]), key);
      if Key(last) != key then
        && Series(rows, key) == all && Recent(rc, now, rows, key) == Recent(rc, now, rows[..n], key)
        && Series(Retained(rc, now, rows), key) == kept
      else
        && Series(rows, key) == all + [last]
        && Recent(rc, now, rows, key) == Recent(rc, now, rows[..n], key) + (if Within(rc, now, last) then 1 else 0)
        && Series(Retained(rc, now, rows), key)
           == (if Within(rc, now, last) || |all| < rc.keepCount then kept + [last] else kept)
  {
    hide Key, Within;
    var n := |rows| - 1;
    var r := Retained(rc, now, rows[..n]);
    SeriesAppend(r, rows[n], key);
    SeriesCount(rows[..n], key);
    assert r + [] == r;
    assert Series(r, key) + [] == Series(r, key);
    assert Retained(rc, now, rows) == if Kept(rc, now, rows, n) then r + [rows[n]] else r;
    hide Retained;
  }

  /** One more row: either everything so far is kept and so is the row, or the quota is already reached. */
  lemma QuotaStep(count: int, n: nat, recent: nat, within: bool)
    requires recent <= n && (within ==> recent == n)
    ensures var q := Max(Min(n, Max(count, 0)), recent);
      var q' := Max(Min(n + 1, Max(count, 0)), if within then recent + 1 else recent);
      if within || n < count then q == n && q' == n + 1 else q' == q <= n
  {
  }

  lemma QuotaStart(count: int)
    ensures Max(Min(0, Max(count, 0)), 0) == 0
  {
  }

  lemma {:induction false} SeriesCount(rows: seq<Backup>, key: string)
    ensures |Series(rows, key)| == Count(rows, key)
  {
    if rows != [] {
      SeriesCount(rows[..|rows| - 1], key);
    }
  }

  lemma SeriesAppend(rows: seq<Backup>, b: Backup, key: string)
    ensures Series(rows + [b], key) == Series(rows, key) + (if Key(b) == key then [b] else [])
  {
    assert (rows + [b])[..|rows|] == rows;
  }

  /** If a row is recent, every row at least as new is. */
  lemma {:induction false} AllRecent(rc: Settings, now: int, rows: seq<Backup>, key: string, last: Backup)
    requires Within(rc, now, last)
    requires forall i :: 0 <= i < |rows| ==> rows[i].createdAt >= last.createdAt
    ensures Recent(rc, now, rows, key) == |Series(rows, key)|
  {
    if rows != [] {
      AllRecent(rc, now, rows[..|rows| - 1], key, last);
    }
  }

  // ----- which backups form a series -----

  /** Two backups belong together by their fields: the container's name if both have one, whatever its ids; its id
      if neither has a name; node and backup name if neither says anything about a container; and a backup that says
      nothing at all stands alone. */
  lemma SameSeriesIff(a: Backup, b: Backup)
    ensures a.containerName != "" && b.containerName != "" ==> (Key(a) == Key(b) <==> a.containerName == b.containerName)
    ensures a.containerName == "" && b.containerName == "" && a.container != "" && b.container != ""
        ==> (Key(a) == Key(b) <==> a.container == b.container)
    ensures a.containerName == b.containerName == a.container == b.container == "" && a.name != "" && b.name != ""
         && '|' !in a.nodeId && '|' !in b.nodeId
        ==> (Key(a) == Key(b) <==> a.nodeId == b.nodeId && a.name == b.name)
    ensures a.containerName == b.containerName == a.container == b.container == a.name == b.name == ""
        ==> (Key(a) == Key(b) <==> a.id == b.id)
  {
    if '|' !in a.nodeId && '|' !in b.nodeId {
      BarSplits(a.nodeId, a.name, b.nodeId, b.name);
    }
  }

  lemma BarSplits(a: string, x: string, b: string, y: string)
    requires '|' !in a && '|' !in b
    ensures a + "|" + x == b + "|" + y <==> a == b && x == y
  {
    FirstBar(a, x);
    FirstBar(b, y);
    var s, t := a + "|" + x, b + "|" + y;
    if s == t {
      assert |a| == |b|;
      assert a == s[..|a|] && b == t[..|b|] && x == s[|a| + 1..] && y == t[|b| + 1..];
    }
  }

  lemma FirstBar(a: string, x: string)
    requires '|' !in a
    ensures var s := a + "|" + x;
      |a| < |s| && s[|a|] == '|' && forall k :: 0 <= k < |a| ==> s[k] != '|'
  {
  }

  /** A backup without a container name that is filed under this one all the same, because its container id, or
      node and name, or id, spell it. */
  predicate Poses(b: Backup, name: string) {
    && b.containerName == ""
    && if b.container != "" then b.container == name
       else if b.name != "" then b.nodeId + "|" + b.name == name
       else b.id == name
  }

  /** The listed backups before row i that count against a container's quota. */
  function Rivals(rows: seq<Backup>, i: nat, name: string): set<nat>
    requires i <= |rows|
  {
    set j: nat | j < i && (rows[j].containerName == name || Poses(rows[j], name))
  }

  lemma {:induction false} RivalsCount(rows: seq<Backup>, i: nat, name: string)
    requires i <= |rows| && name != ""
    ensures Count(rows[..i], name) == |Rivals(rows, i, name)|
  {
    hide Poses, Key;
    if i == 0 {
      assert rows[..0] == [];
    } else {
      RivalsCount(rows, i - 1, name);
      assert rows[..i][..i - 1] == rows[..i - 1];
      KeyIs(rows[i - 1], name);
      var here: set<nat> := if rows[i - 1].containerName == name || Poses(rows[i - 1], name) then {i - 1} else {};
      assert Rivals(rows, i, name) == Rivals(rows, i - 1, name) + here;
      hide Rivals;
      assert i - 1 !in Rivals(rows, i - 1, name) by { RivalsBelow(rows, i - 1, name); }
    }
  }

  lemma RivalsBelow(rows: seq<Backup>, i: nat, name: string)
    requires i <= |rows|
    ensures forall j :: j in Rivals(rows, i, name) ==> j < i
  {
  }

  lemma KeyIs(b: Backup, name: string)
    requires name != ""
    ensures Key(b) == name <==> b.containerName == name || Poses(b, name)
  {
  }

  lemma {:induction false} KeptRowStays(rc: Settings, now: int, rows: seq<Backup>, i: nat)
    requires i < |rows| && Kept(rc, now, rows, i)
    ensures rows[i] in Retained(rc, now, rows)
  {
    hide Kept;
    var n := |rows| - 1;
    if i < n {
      KeptPrefix(rc, now, rows, n, i);
      KeptRowStays(rc, now, rows[..n], i);
      assert rows[..n][i] == rows[i];
    }
  }

  /** Which listed backups of a named container the settings keep: those not older than keep_days, and those with
      fewer than keep_count newer ones of the container. */
  lemma KeptIff(rc: Settings, now: int, rows: seq<Backup>, i: nat)
    requires i < |rows| && rows[i].containerName != ""
    ensures Kept(rc, now, rows, i)
       <==> (rc.keepDays > 0 && now <= rows[i].createdAt + rc.keepDays * 86400)
            || |Rivals(rows, i, rows[i].containerName)| < rc.keepCount
  {
    hide Rivals;
    RivalsCount(rows, i, rows[i].containerName);
  }

  /** With keep_count at least one a pass keeps the newest listed backup of every container name, unless nameless
      backups pose as newer ones of it. */
  lemma PassKeepsNewest(rc: Settings, now: int, rows: seq<Backup>, i: nat)
    requires rc.keepCount >= 1 && i < Window(rows) && rows[i].containerName != ""
    requires forall j :: 0 <= j < i ==> rows[j].containerName != rows[i].containerName && !Poses(rows[j], rows[i].containerName)
    ensures rows[i] in Pass(rc, now, rows)
  {
    hide Poses, Kept, Retained;
    var listed := rows[..Window(rows)];
    assert listed[i] == rows[i];
    assert Rivals(listed, i, rows[i].containerName) == {};
    KeptIff(rc, now, listed, i);
    KeptRowStays(rc, now, listed, i);
  }

  // ----- pruning early never matters later -----

  /** `rows` is `all` without some of the rows that are due at time t. */
  predicate Thinned(rc: Settings, t: int, all: seq<Backup>, rows: seq<Backup>) {
    if all == [] then rows == []
    else
      var n := |all| - 1;
      || (rows != [] && rows[|rows| - 1] == all[n] && Thinned(rc, t, all[..n], rows[..|rows| - 1]))
      || (!Kept(rc, t, all, n) && Thinned(rc, t, all[..n], rows))
  }

  lemma {:induction false} ThinnedCount(rc: Settings, t: int, all: seq<Backup>, rows: seq<Backup>, key: string)
    requires Thinned(rc, t, all, rows)
    ensures Count(rows, key) <= Count(all, key)
    ensures Count(rows, key) < Count(all, key) ==> Count(rows, key) >= rc.keepCount
  {
    if all != [] {
      var n := |all| - 1;
      if rows != [] && rows[|rows| - 1] == all[n] && Thinned(rc, t, all[..n], rows[..|rows| - 1]) {
        ThinnedCount(rc, t, all[..n], rows[..|rows| - 1], key);
      } else {
        ThinnedCount(rc, t, all[..n], rows, key);
      }
    }
  }

  /** Whatever was thinned out by time t, a later pass keeps the same rows as if nothing had been. */
  lemma {:induction false} ThinnedKeepsSame(rc: Settings, t: int, later: int, all: seq<Backup>, rows: seq<Backup>)
    requires Thinned(rc, t, all, rows) && t <= later
    ensures Retained(rc, later, rows) == Retained(rc, later, all)
  {
    if all != [] {
      var n := |all| - 1;
      if rows != [] && rows[|rows| - 1] == all[n] && Thinned(rc, t, all[..n], rows[..|rows| - 1]) {
        ThinnedKeepsSame(rc, t, later, all[..n], rows[..|rows| - 1]);
        ThinnedCount(rc, t, all[..n], rows[..|rows| - 1], Key(all[n]));
      } else {
        ThinnedKeepsSame(rc, t, later, all[..n], rows);
      }
    }
  }

  lemma {:induction false} ThinnedLater(rc: Settings, t: int, later: int, all: seq<Backup>, rows: seq<Backup>)
    requires Thinned(rc, t, all, rows) && t <= later
    ensures Thinned(rc, later, all, rows)
  {
    if all != [] {
      var n := |all| - 1;
      if rows != [] && rows[|rows| - 1] == all[n] && Thinned(rc, t, all[..n], rows[..|rows| - 1]) {
        ThinnedLater(rc, t, later, all[..n], rows[..|rows| - 1]);
      } else {
        ThinnedLater(rc, t, later, all[..n], rows);
      }
    }
  }

  lemma {:induction false} ThinnedSelf(rc: Settings, t: int, rows: seq<Backup>)
    ensures Thinned(rc, t, rows, rows)
  {
    if rows != [] {
      ThinnedSelf(rc, t, rows[..|rows| - 1]);
    }
  }

  lemma {:induction false} ThinnedTrans(rc: Settings, t: int, a: seq<Backup>, b: seq<Backup>, c: seq<Backup>)
    requires Thinned(rc, t, a, b) && Thinned(rc, t, b, c)
    ensures Thinned(rc, t, a, c)
  {
    if a != [] {
      var n, m := |a| - 1, |b| - 1;
      if b != [] && b[m] == a[n] && Thinned(rc, t, a[..n], b[..m]) {
        if c != [] && c[|c| - 1] == b[m] && Thinned(rc, t, b[..m], c[..|c| - 1]) {
          ThinnedTrans(rc, t, a[..n], b[..m], c[..|c| - 1]);
        } else {
          ThinnedTrans(rc, t, a[..n], b[..m], c);
          ThinnedCount(rc, t, a[..n], b[..m], Key(a[n]));
        }
      } else {
        ThinnedTrans(rc, t, a[..n], b, c);
      }
    }
  }

  /** A new backup pushes every older row of its series further back, so what was due stays due. */
  lemma {:induction false} ThinnedFront(rc: Settings, t: int, b: Backup, all: seq<Backup>, rows: seq<Backup>)
    requires Thinned(rc, t, all, rows)
    ensures Thinned(rc, t, [b] + all, [b] + rows)
  {
    var a' := [b] + all;
    if all == [] {
      ThinnedSelf(rc, t, a');
    } else {
      var n := |all| - 1;
      assert a'[..n + 1] == [b] + all[..n];
      CountAppend([b], all[..n], Key(all[n]));
      if rows != [] && rows[|rows| - 1] == all[n] && Thinned(rc, t, all[..n], rows[..|rows| - 1]) {
        ThinnedFront(rc, t, b, all[..n], rows[..|rows| - 1]);
        assert ([b] + rows)[..|rows|] == [b] + rows[..|rows| - 1];
      } else {
        ThinnedFront(rc, t, b, all[..n], rows);
      }
    }
  }

  lemma {:induction false} RetainedThins(rc: Settings, t: int, rows: seq<Backup>)
    ensures Thinned(rc, t, rows, Retained(rc, t, rows))
  {
    if rows != [] {
      var n := |rows| - 1;
      RetainedThins(rc, t, rows[..n]);
      var r := Retained(rc, t, rows[..n]);
      if Kept(rc, t, rows, n) {
        assert (r + [rows[n]])[..|r|] == r;
      } else {
        assert Retained(rc, t, rows) == r;
      }
    }
  }

  lemma {:induction false} ThinnedTail(rc: Settings, t: int, a: seq<Backup>, r: seq<Backup>, b: seq<Backup>)
    requires Thinned(rc, t, a, r)
    ensures Thinned(rc, t, a + b, r + b)
  {
    if b == [] {
      assert a + b == a && r + b == r;
    } else {
      var m := |b| - 1;
      ThinnedTail(rc, t, a, r, b[..m]);
      assert (a + b)[..|a| + m] == a + b[..m];
      assert (r + b)[..|r| + m] == r + b[..m];
    }
  }

  lemma PassThins(rc: Settings, t: int, rows: seq<Backup>)
    ensures Thinned(rc, t, rows, Pass(rc, t, rows))
  {
    var w := Window(rows);
    assert rows[..w] + rows[w..] == rows;
    if rc == Settings(0, 0) {
      ThinnedSelf(rc, t, rows);
    } else {
      RetainedThins(rc, t, rows[..w]);
      ThinnedTail(rc, t, rows[..w], Retained(rc, t, rows[..w]), rows[w..]);
    }
  }

  // ----- whole histories -----

  datatype Event = Create(b: Backup) | PruneAt(now: int)

  function Rows(rc: Settings, events: seq<Event>): seq<Backup> {
    if events == [] then []
    else
      var before := Rows(rc, events[..|events| - 1]);
      match events[|events| - 1]
      case Create(b) => [b] + before
      case PruneAt(now) => Pass(rc, now, before)
  }

  /** Every backup ever made, newest first. */
  function Made(events: seq<Event>): seq<Backup> {
    if events == [] then []
    else
      match events[|events| - 1]
      case Create(b) => [b] + Made(events[..|events| - 1])
      case PruneAt(_) => Made(events[..|events| - 1])
  }

  predicate PrunedBy(events: seq<Event>, t: int) {
    forall i :: 0 <= i < |events| && events[i].PruneAt? ==> events[i].now <= t
  }

  lemma {:induction false} HistoryThins(rc: Settings, events: seq<Event>, t: int)
    requires PrunedBy(events, t)
    ensures Thinned(rc, t, Made(events), Rows(rc, events))
  {
    if events != [] {
      var n := |events| - 1;
      var front := events[..n];
      HistoryThins(rc, front, t);
      match events[n]
      case Create(b) => ThinnedFront(rc, t, b, Made(front), Rows(rc, front));
      case PruneAt(now) =>
        PassThins(rc, now, Rows(rc, front));
        ThinnedLater(rc, now, t, Rows(rc, front), Rows(rc, events));
        ThinnedTrans(rc, t, Made(front), Rows(rc, front), Rows(rc, events));
    }
  }

  /** Pruning by the unlimited rule at t1 and again at t2 equals pruning once at t2. */
  lemma PruneTwice(rc: Settings, t1: int, t2: int, rows: seq<Backup>)
    requires t1 <= t2
    ensures Prune(rc, t2, Prune(rc, t1, rows)) == Prune(rc, t2, rows)
  {
    RetainedThins(rc, t1, rows);
    ThinnedKeepsSame(rc, t1, t2, rows, Retained(rc, t1, rows));
  }

  lemma {:induction false} TailAllKept(rc: Settings, now: int, rows: seq<Backup>, k: nat)
    requires k <= |rows| && forall i :: k <= i < |rows| ==> Kept(rc, now, rows, i)
    ensures Retained(rc, now, rows) == Retained(rc, now, rows[..k]) + rows[k..]
  {
    hide Within, Count, Key;
    if k == |rows| {
      hide Kept, Retained;
      assert rows[..k] == rows && rows[k..] == [];
    } else {
      var n := |rows| - 1;
      var front := rows[..n];
      forall i | k <= i < n
        ensures Kept(rc, now, front, i)
      {
        KeptPrefix(rc, now, rows, n, i);
      }
      hide Kept;
      TailAllKept(rc, now, front, k);
      assert Retained(rc, now, rows) == Retained(rc, now, front) + [rows[n]];
      hide Retained;
      assert front[..k] == rows[..k] && front[k..] + [rows[n]] == rows[k..];
    }
  }

  /** Whether a row is kept depends on the rows up to it. */
  lemma KeptPrefix(rc: Settings, now: int, rows: seq<Backup>, n: nat, i: nat)
    requires i < n <= |rows|
    ensures Kept(rc, now, rows[..n], i) == Kept(rc, now, rows, i)
  {
    assert rows[..n][..i] == rows[..i];
  }

  lemma {:induction false} TailSize(rc: Settings, now: int, rows: seq<Backup>, k: nat)
    requires k <= |rows|
    ensures |Retained(rc, now, rows)| <= |Retained(rc, now, rows[..k])| + |rows| - k
  {
    if k == |rows| {
      assert rows[..k] == rows;
    } else {
      TailSize(rc, now, rows[..|rows| - 1], k);
      assert rows[..|rows| - 1][..k] == rows[..k];
    }
  }

  lemma TailOneDropped(rc: Settings, now: int, rows: seq<Backup>, k: nat, i: nat)
    requires k <= i < |rows| && !Kept(rc, now, rows, i)
    ensures |Retained(rc, now, rows)| < |Retained(rc, now, rows[..k])| + |rows| - k
  {
    TailSize(rc, now, rows, i + 1);
    TailSize(rc, now, rows[..i], k);
    assert rows[..i][..k] == rows[..k];
    assert rows[..i + 1][..i] == rows[..i];
  }

  /** No row past the list limit is due. */
  predicate NoneDuePast(rc: Settings, now: int, rows: seq<Backup>) {
    forall i :: LIST_LIMIT <= i < |rows| ==> Kept(rc, now, rows, i)
  }

  /** Exactly when a pass does what the settings promise: no row past the list limit is due. */
  lemma PassIsExactIff(rc: Settings, now: int, rows: seq<Backup>)
    requires rc != Settings(0, 0)
    ensures Pass(rc, now, rows) == Prune(rc, now, rows)
       <==> NoneDuePast(rc, now, rows)
  {
    if i :| LIST_LIMIT <= i < |rows| && !Kept(rc, now, rows, i) {
      TailOneDropped(rc, now, rows, Window(rows), i);
    } else {
      TailAllKept(rc, now, rows, Window(rows));
    }
  }

  /** Pruning after every backup, rarely, or with the list limit in the way: the settings applied to what is left
      at time t select exactly the rows they would have selected had nothing ever been pruned, and the next pass
      leaves exactly those unless a row past the list limit is due. With both limits zero nothing was ever lost. */
  lemma {:induction false} PruningHistoryIsIrrelevant(rc: Settings, events: seq<Event>, t: int)
    requires PrunedBy(events, t)
    ensures Prune(rc, t, Rows(rc, events)) == Prune(rc, t, Made(events))
    ensures rc == Settings(0, 0) ==> Pass(rc, t, Rows(rc, events)) == Made(events)
    ensures rc != Settings(0, 0)
        ==> (Pass(rc, t, Rows(rc, events)) == Prune(rc, t, Made(events)) <==> NoneDuePast(rc, t, Rows(rc, events)))
  {
    hide Kept, Thinned, Retained;
    HistoryThins(rc, events, t);
    ThinnedKeepsSame(rc, t, t, Made(events), Rows(rc, events));
    if rc == Settings(0, 0) {
      NothingLost(events);
      var rows := Rows(rc, events);
      assert rows[..Window(rows)] + rows[Window(rows)..] == rows;
    } else {
      PassIsExactIff(rc, t, Rows(rc, events));
    }
  }

  lemma {:induction false} NothingLost(events: seq<Event>)
    ensures Rows(Settings(0, 0), events) == Made(events)
  {
    if events != [] {
      NothingLost(events[..|events| - 1]);
      var rows := Made(events[..|events| - 1]);
      assert rows[..Window(rows)] + rows[Window(rows)..] == rows;
    }
  }

  // ----- one pass after another -----

  /** How many rows a pass drops. */
  function Dropped(rc: Settings, now: int, rows: seq<Backup>): int {
    Window(rows) - |Retained(rc, now, rows[..Window(rows)])|
  }

  /** A second pass sees as many further rows as the first one dropped. */
  lemma SecondPassReaches(rc: Settings, t1: int, t2: int, rows: seq<Backup>)
    requires t1 <= t2 && rc != Settings(0, 0)
    ensures var k := Min(LIST_LIMIT + Dropped(rc, t1, rows), |rows|);
      && 0 <= Dropped(rc, t1, rows) && Window(rows) <= k <= |rows|
      && Pass(rc, t2, Pass(rc, t1, rows)) == Retained(rc, t2, rows[..k]) + rows[k..]
  {
    hide Kept, Thinned, Retained;
    var w := Window(rows);
    var r := Retained(rc, t1, rows[..w]);
    RetainedSize(rc, t1, rows[..w]);
    var k := Min(LIST_LIMIT + w - |r|, |rows|);
    var once := Pass(rc, t1, rows);
    assert once == r + rows[w..];
    assert Window(once) == |r| + (k - w);
    assert once[..|r| + (k - w)] == r + rows[w..k];
    assert once[|r| + (k - w)..] == rows[k..];
    RetainedThins(rc, t1, rows[..w]);
    ThinnedTail(rc, t1, rows[..w], r, rows[w..k]);
    assert rows[..w] + rows[w..k] == rows[..k];
    ThinnedKeepsSame(rc, t1, t2, rows[..k], r + rows[w..k]);
  }

  lemma {:induction false} RetainedSize(rc: Settings, now: int, rows: seq<Backup>)
    ensures |Retained(rc, now, rows)| <= |rows|
  {
    TailSize(rc, now, rows, 0);
    assert rows[..0] == [];
  }

  /** Exactly when a pass at t2 leaves the same rows whether or not one ran at t1: none of the rows the second pass
      additionally sees is due. */
  lemma PassTwiceIff(rc: Settings, t1: int, t2: int, rows: seq<Backup>)
    requires t1 <= t2 && rc != Settings(0, 0)
    ensures Pass(rc, t2, Pass(rc, t1, rows)) == Pass(rc, t2, rows)
       <==> forall i :: LIST_LIMIT <= i < LIST_LIMIT + Dropped(rc, t1, rows) && i < |rows| ==> Kept(rc, t2, rows, i)
  {
    hide Kept, Retained, Dropped;
    SecondPassReaches(rc, t1, t2, rows);
    var w, k := Window(rows), Min(LIST_LIMIT + Dropped(rc, t1, rows), |rows|);
    var seen := rows[..k];
    assert seen[..w] == rows[..w];
    assert seen[w..] + rows[k..] == rows[w..];
    forall i: nat | i < k
      ensures Kept(rc, t2, seen, i) == Kept(rc, t2, rows, i)
    {
      if k < |rows| {
        KeptPrefix(rc, t2, rows, k, i);
      } else {
        assert seen == rows;
      }
    }
    if i :| w <= i < k && !Kept(rc, t2, rows, i) {
      TailOneDropped(rc, t2, seen, w, i);
      assert LIST_LIMIT <= i;
      assert |Retained(rc, t2, seen) + rows[k..]| < |Retained(rc, t2, rows[..w]) + rows[w..]|;
    } else {
      TailAllKept(rc, t2, seen, w);
      assert Retained(rc, t2, rows[..w]) + seen[w..] + rows[k..] == Retained(rc, t2, rows[..w]) + rows[w..];
    }
  }

  /** One series with one backup more than the list limit, keeping one: the first pass leaves two rows, the second
      only one. */
  lemma SecondPassPrunesMore(rows: seq<Backup>, now: int)
    requires |rows| == LIST_LIMIT + 1 && forall i :: 0 <= i < |rows| ==> Key(rows[i]) == Key(rows[0])
    ensures Pass(Settings(1, 0), now, rows) == [rows[0], rows[LIST_LIMIT]]
    ensures Pass(Settings(1, 0), now, Pass(Settings(1, 0), now, rows)) == [rows[0]]
  {
    var rc := Settings(1, 0);
    OneOfSeries(now, rows[..LIST_LIMIT]);
    var once := [rows[0], rows[LIST_LIMIT]];
    assert Pass(rc, now, rows) == [rows[0]] + rows[LIST_LIMIT..] == once;
    OneOfSeries(now, once);
    assert once[..2] == once && once[2..] == [];
  }

  lemma {:induction false} OneOfSeries(now: int, rows: seq<Backup>)
    requires rows != [] && forall i :: 0 <= i < |rows| ==> Key(rows[i]) == Key(rows[0])
    ensures Retained(Settings(1, 0), now, rows) == [rows[0]]
    ensures Count(rows, Key(rows[0])) == |rows|
  {
    hide Key;
    var n := |rows| - 1;
    if n > 0 {
      OneOfSeries(now, rows[..n]);
    } else {
      assert rows[..n] == [];
    }
  }

  // ----- the program -----

  class BackupStore {
    /** The rows of one node, newest first; ids are unique. */
    var rows: seq<Backup>

    ghost predicate Valid()
      reads this
    {
      UniqueIds(rows)
    }

    method DeleteBackup(id: string)
      modifies this
      ensures rows == Without(old(rows), id)
    {
      rows := Without(rows, id);
    }

    method ApplyRetention(rc: Settings, now: int)
      requires Valid()
      modifies this
      ensures Valid() && rows == Pass(rc, now, old(rows))
    {
      hide UniqueIds, Retained;
      var w := Window(rows);
      assert rows == rows[..w] + rows[w..];
      if rc.keepCount == 0 && rc.keepDays == 0 {
        return;
      }
      Sweep(rc, now, rows[..w], rows[w..]);
    }

    /** The pass over the listed rows, with a counter per series. */
    method Sweep(rc: Settings, now: int, list: seq<Backup>, ghost rest: seq<Backup>)
      requires Valid() && rows == list + rest
      modifies this
      ensures Valid() && rows == Retained(rc, now, list) + rest
    {
      hide UniqueIds, Swept, Retained, Count, Kept, Without, Key;
      SweepStarts(rc, now, list, rest, rows);
      var kept: map<string, nat> := map[];
      var i := 0;
      while i < |list|
        invariant 0 <= i <= |list|
        invariant Swept(rc, now, list, rest, i, rows, kept)
      {
        var b := list[i];
        var key := Key(b);
        var already := if key in kept then kept[key] else 0;
        var keepByDays := rc.keepDays > 0 && now - b.createdAt <= rc.keepDays * 86400;
        var keepByCount := rc.keepCount > 0 && already < rc.keepCount;
        SweepOne(rc, now, list, rest, i, rows, kept);
        if keepByDays || keepByCount {
          kept := kept[key := already + 1];
        } else {
          DeleteBackup(b.id);
        }
        i := i + 1;
      }
      SweepEnds(rc, now, list, rest, rows, kept);
    }
  }

  /** The state of the sweep before row i: earlier rows pruned, later rows and unlisted rows as they were,
      and the counters count the survivors. */
  predicate Swept(rc: Settings, now: int, list: seq<Backup>, rest: seq<Backup>, i: nat, rows: seq<Backup>, kept: map<string, nat>)
    requires i <= |list|
  {
    && rows == Retained(rc, now, list[..i]) + list[i..] + rest
    && UniqueIds(rows)
    && (forall key :: key in kept ==> kept[key] == Count(Retained(rc, now, list[..i]), key))
    && (forall j :: 0 <= j < i && Kept(rc, now, list, j) ==> Key(list[j]) in kept)
  }

  lemma SweepStarts(rc: Settings, now: int, list: seq<Backup>, rest: seq<Backup>, rows: seq<Backup>)
    requires rows == list + rest && UniqueIds(rows)
    ensures Swept(rc, now, list, rest, 0, rows, map[])
  {
    hide UniqueIds;
    assert list[..0] == [] && list[0..] == list;
    assert [] + list == list;
  }

  lemma SweepEnds(rc: Settings, now: int, list: seq<Backup>, rest: seq<Backup>, rows: seq<Backup>, kept: map<string, nat>)
    requires Swept(rc, now, list, rest, |list|, rows, kept)
    ensures rows == Retained(rc, now, list) + rest && UniqueIds(rows)
  {
    hide UniqueIds, Retained, Count, Kept;
    assert list[..|list|] == list && list[|list|..] == [];
    assert Retained(rc, now, list) + [] == Retained(rc, now, list);
  }

  lemma SweepOne(rc: Settings, now: int, list: seq<Backup>, rest: seq<Backup>, i: nat, rows: seq<Backup>, kept: map<string, nat>)
    requires i < |list| && Swept(rc, now, list, rest, i, rows, kept)
    ensures var b := list[i]; var already := if Key(b) in kept then kept[Key(b)] else 0;
      if Within(rc, now, b) || (rc.keepCount > 0 && already < rc.keepCount)
      then Swept(rc, now, list, rest, i + 1, rows, kept[Key(b) := already + 1])
      else Swept(rc, now, list, rest, i + 1, Without(rows, b.id), kept)
  {
    hide Key, Kept, UniqueIds, Without, Within;
    var b := list[i];
    var survivors := Retained(rc, now, list[..i]);
    if Key(b) !in kept {
      NoneSurvived(rc, now, list, i, Key(b), kept);
    }
    NextRow(rc, now, list, i);
    Regroup(survivors, b, list, i, rest);
    if !Kept(rc, now, list, i) {
      RemoveOne(survivors, b, list[i + 1..] + rest);
    }
  }

  lemma {:induction false} NoneSurvived(rc: Settings, now: int, list: seq<Backup>, i: nat, key: string, kept: map<string, nat>)
    requires i <= |list| && key !in kept
    requires forall j :: 0 <= j < i && Kept(rc, now, list, j) ==> Key(list[j]) in kept
    ensures Count(Retained(rc, now, list[..i]), key) == 0
  {
    hide Key, Within, Kept;
    if i == 0 {
      assert list[..0] == [];
    } else {
      NoneSurvived(rc, now, list, i - 1, key, kept);
      NextRow(rc, now, list, i - 1);
      hide Count, Retained;
    }
  }

  lemma Regroup(survivors: seq<Backup>, b: Backup, list: seq<Backup>, i: nat, rest: seq<Backup>)
    requires i < |list| && list[i] == b
    ensures survivors + list[i..] + rest == survivors + [b] + (list[i + 1..] + rest)
    ensures survivors + list[i..] + rest == (survivors + [b]) + list[i + 1..] + rest
    ensures survivors + (list[i + 1..] + rest) == survivors + list[i + 1..] + rest
  {
    assert list[i..] == [b] + list[i + 1..];
  }

  predicate UniqueIds(rows: seq<Backup>) {
    forall i, j :: 0 <= i < j < |rows| ==> rows[i].id != rows[j].id
  }

  function Without(rows: seq<Backup>, id: string): seq<Backup> {
    if rows == [] then []
    else Without(rows[..|rows| - 1], id) + (if rows[|rows| - 1].id == id then [] else [rows[|rows| - 1]])
  }

  lemma {:induction false} WithoutAbsent(rows: seq<Backup>, id: string)
    requires forall i :: 0 <= i < |rows| ==> rows[i].id != id
    ensures Without(rows, id) == rows
  {
    if rows != [] {
      WithoutAbsent(rows[..|rows| - 1], id);
    }
  }

  lemma {:induction false} WithoutAppend(a: seq<Backup>, c: seq<Backup>, id: string)
    ensures Without(a + c, id) == Without(a, id) + Without(c, id)
  {
    if c == [] {
      assert a + c == a;
    } else {
      WithoutAppend(a, c[..|c| - 1], id);
      assert (a + c)[..|a + c| - 1] == a + c[..|c| - 1];
    }
  }

  lemma RemoveOne(a: seq<Backup>, b: Backup, c: seq<Backup>)
    requires UniqueIds(a + [b] + c)
    ensures Without(a + [b] + c, b.id) == a + c
    ensures UniqueIds(a + c)
  {
    hide UniqueIds;
    OthersDiffer(a, b, c);
    RemoveMiddle(a, b, c);
  }

  lemma RemoveMiddle(a: seq<Backup>, b: Backup, c: seq<Backup>)
    requires forall i :: 0 <= i < |a| ==> a[i].id != b.id
    requires forall i :: 0 <= i < |c| ==> c[i].id != b.id
    ensures Without(a + [b] + c, b.id) == a + c
  {
    WithoutAppend(a + [b], c, b.id);
    WithoutAppend(a, [b], b.id);
    WithoutAbsent(a, b.id);
    WithoutAbsent(c, b.id);
    WithoutOnly(b);
    hide Without;
    assert a + [] == a;
  }

  lemma WithoutOnly(b: Backup)
    ensures Without([b], b.id) == []
  {
  }

  lemma OthersDiffer(a: seq<Backup>, b: Backup, c: seq<Backup>)
    requires UniqueIds(a + [b] + c)
    ensures forall i :: 0 <= i < |a| ==> a[i].id != b.id
    ensures forall i :: 0 <= i < |c| ==> c[i].id != b.id
    ensures UniqueIds(a + c)
  {
    var rows := a + [b] + c;
    assert rows[|a|] == b;
    forall i | 0 <= i < |a|
      ensures a[i].id != b.id
    {
      assert rows[i] == a[i];
    }
    forall i | 0 <= i < |c|
      ensures c[i].id != b.id
    {
      assert rows[|a| + 1 + i] == c[i];
    }
    forall i, j | 0 <= i < j < |a + c|
      ensures (a + c)[i].id != (a + c)[j].id
    {
      var i', j' := if i < |a| then i else i + 1, if j < |a| then j else j + 1;
      assert rows[i'] == (a + c)[i] && rows[j'] == (a + c)[j];
    }
  }

  /** The program's decision about row i, from its running count, is the rule. */
  lemma NextRow(rc: Settings, now: int, list: seq<Backup>, i: nat)
    requires i < |list|
    ensures var survivors := Retained(rc, now, list[..i]); var b := list[i];
      && Retained(rc, now, list[..i + 1]) == (if Kept(rc, now, list, i) then survivors + [b] else survivors)
      && (Kept(rc, now, list, i) <==> Within(rc, now, b) || (rc.keepCount > 0 && Count(survivors, Key(b)) < rc.keepCount))
      && forall key :: Count(survivors + [b], key) == Count(survivors, key) + (if Key(b) == key then 1 else 0)
  {
    var survivors := Retained(rc, now, list[..i]);
    assert list[..i + 1][..i] == list[..i];
    SurvivorCount(rc, now, list[..i], Key(list[i]));
    assert (survivors + [list[i]])[..|survivors|] == survivors;
  }
}
