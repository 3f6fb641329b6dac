/** The report of a night's backups: one row per node with its count of successful cells, and a list of failure
    reasons that a separate loop gathers. */
module BackupReport {

  datatype Target = Target(id: string, name: string)

  /** One unit: whether its archive was made, and which targets it reached of those it was meant for; no targets
      named means all of them. */
  datatype Unit = Unit(nodeId: string, nodeName: string, tarOk: bool, err: string, targetOk: map<string, bool>, targetIds: seq<string>)

  datatype Status = Green | Amber(ok: nat, total: nat) | Red(total: nat)

  predicate Applies(u: Unit, id: string) {
    id == "" || u.targetIds == [] || id in u.targetIds
  }

  predicate Reached(u: Unit, id: string) {
    id in u.targetOk && u.targetOk[id]
  }

  // ----- cells -----

  predicate Counts(u: Unit, t: Target) {
    t.id != "" && Applies(u, t.id)
  }

  function Applicable(u: Unit, cols: seq<Target>): nat {
    if cols == [] then 0
    else Applicable(u, cols[..|cols| - 1]) + (if Counts(u, cols[|cols| - 1]) then 1 else 0)
  }

  function ReachedCells(u: Unit, cols: seq<Target>): nat {
    if cols == [] then 0
    else
      var t := cols[|cols| - 1];
      ReachedCells(u, cols[..|cols| - 1]) + (if Counts(u, t) && u.tarOk && Reached(u, t.id) then 1 else 0)
  }

  /** A unit no target applies to still counts as one cell, for its archive. */
  function Total(u: Unit, cols: seq<Target>): nat {
    if Applicable(u, cols) == 0 then 1 else Applicable(u, cols)
  }

  function Ok(u: Unit, cols: seq<Target>): nat {
    if Applicable(u, cols) == 0 then (if u.tarOk then 1 else 0) else ReachedCells(u, cols)
  }

  predicate AllReached(u: Unit, cols: seq<Target>) {
    forall i :: 0 <= i < |cols| && Counts(u, cols[i]) ==> Reached(u, cols[i].id)
  }

  /** Successes never exceed cells, and match them exactly when the archive was made and every target that counts
      was reached. */
  lemma {:induction false} CellsOfUnit(u: Unit, cols: seq<Target>)
    ensures ReachedCells(u, cols) <= Applicable(u, cols) && Ok(u, cols) <= Total(u, cols)
    ensures ReachedCells(u, cols) == Applicable(u, cols) <==> Applicable(u, cols) == 0 || (u.tarOk && AllReached(u, cols))
    ensures Ok(u, cols) == Total(u, cols) <==> u.tarOk && AllReached(u, cols)
  {
    hide Applies, Reached;
    if cols != [] {
      var n := |cols| - 1;
      CellsOfUnit(u, cols[..n]);
      assert AllReached(u, cols) <==> AllReached(u, cols[..n]) && (Counts(u, cols[n]) ==> Reached(u, cols[n].id));
      NoneApplies(u, cols);
      NoneApplies(u, cols[..n]);
    } else {
      assert AllReached(u, cols);
    }
  }

  lemma {:induction false} NoneApplies(u: Unit, cols: seq<Target>)
    ensures Applicable(u, cols) == 0 ==> AllReached(u, cols)
  {
    hide Applies, Reached;
    if cols != [] {
      NoneApplies(u, cols[..|cols| - 1]);
    }
  }

  /** The columns that count for a unit: those it was meant for, or all when it names none. */
  function ColumnsOf(u: Unit, cols: seq<Target>): set<nat> {
    set i: nat | i < |cols| && cols[i].id != "" && (u.targetIds == [] || cols[i].id in u.targetIds)
  }

  /** Of those the ones its archive has reached. */
  function ReachedOf(u: Unit, cols: seq<Target>): set<nat> {
    set i: nat | i in ColumnsOf(u, cols) && u.tarOk && cols[i].id in u.targetOk && u.targetOk[cols[i].id]
  }

  /** A unit's cells are its columns, and its successes those reached; without a column the archive itself is the one
      cell. */
  lemma CellsAre(u: Unit, cols: seq<Target>)
    ensures Applicable(u, cols) == |ColumnsOf(u, cols)| && ReachedCells(u, cols) == |ReachedOf(u, cols)|
    ensures Total(u, cols) == (if ColumnsOf(u, cols) == {} then 1 else |ColumnsOf(u, cols)|)
    ensures Ok(u, cols) == if ColumnsOf(u, cols) == {} then (if u.tarOk then 1 else 0) else |ReachedOf(u, cols)|
  {
    CountColumns(u, cols);
    CountReached(u, cols);
    hide ColumnsOf, ReachedOf, Applicable, ReachedCells;
  }

  lemma {:induction false} CountColumns(u: Unit, cols: seq<Target>)
    ensures Applicable(u, cols) == |ColumnsOf(u, cols)|
  {
    if cols == [] {
      assert ColumnsOf(u, cols) == {};
    } else {
      var n := |cols| - 1;
      CountColumns(u, cols[..n]);
      var one: set<nat> := if Counts(u, cols[n]) then {n} else {};
      assert ColumnsOf(u, cols) == ColumnsOf(u, cols[..n]) + one;
    }
  }

  lemma {:induction false} CountReached(u: Unit, cols: seq<Target>)
    ensures ReachedCells(u, cols) == |ReachedOf(u, cols)|
  {
    if cols == [] {
      assert ReachedOf(u, cols) == {};
    } else {
      var n := |cols| - 1;
      CountReached(u, cols[..n]);
      var one: set<nat> := if Counts(u, cols[n]) && u.tarOk && Reached(u, cols[n].id) then {n} else {};
      forall i: nat
        ensures i in ReachedOf(u, cols) <==> i in ReachedOf(u, cols[..n]) + one
      {
        InReached(u, cols, i);
        InReached(u, cols[..n], i);
      }
      InReached(u, cols[..n], n);
      hide ReachedOf, Counts, Reached;
      assert ReachedOf(u, cols) == ReachedOf(u, cols[..n]) + one;
    }
  }

  lemma InReached(u: Unit, cols: seq<Target>, i: nat)
    ensures i in ReachedOf(u, cols) <==> i < |cols| && Counts(u, cols[i]) && u.tarOk && Reached(u, cols[i].id)
  {
  }

  // ----- rows -----

  function SumTotal(units: seq<Unit>, node: string, cols: seq<Target>): nat {
    if units == [] then 0
    else
      var u := units[|units| - 1];
      SumTotal(units[..|units| - 1], node, cols) + (if u.nodeId == node then Total(u, cols) else 0)
  }

  function SumOk(units: seq<Unit>, node: string, cols: seq<Target>): nat {
    if units == [] then 0
    else
      var u := units[|units| - 1];
      SumOk(units[..|units| - 1], node, cols) + (if u.nodeId == node then Ok(u, cols) else 0)
  }

  function UnitCount(units: seq<Unit>, node: string): nat {
    if units == [] then 0
    else UnitCount(units[..|units| - 1], node) + (if units[|units| - 1].nodeId == node then 1 else 0)
  }

  /** The last name a node was given, or "". */
  function LastName(units: seq<Unit>, node: string): string {
    if units == [] then ""
    else
      var u := units[|units| - 1];
      if u.nodeId == node && u.nodeName != "" then u.nodeName else LastName(units[..|units| - 1], node)
  }

  function Order(units: seq<Unit>): seq<string> {
    if units == [] then []
    else
      var front, id := Order(units[..|units| - 1]), units[|units| - 1].nodeId;
      if id in front then front else front + [id]
  }

  function NodeStatus(ok: nat, total: nat): Status {
    if total == 0 || ok == total then Green else if ok == 0 then Red(total) else Amber(ok, total)
  }

  datatype Row = Row(node: string, name: string, count: nat, status: Status)

  function ShortId(id: string): string {
    if |id| > 8 then id[..8] else id
  }

  function RowOf(units: seq<Unit>, node: string, cols: seq<Target>): Row {
    var name := LastName(units, node);
    Row(node, if name == "" then ShortId(node) else name, UnitCount(units, node),
        NodeStatus(SumOk(units, node, cols), SumTotal(units, node, cols)))
  }

  function RowsFor(units: seq<Unit>, order: seq<string>, cols: seq<Target>): seq<Row> {
    if order == [] then []
    else RowsFor(units, order[..|order| - 1], cols) + [RowOf(units, order[|order| - 1], cols)]
  }

  /** Without targets the report has one nameless column. */
  function Columns(targets: seq<Target>): seq<Target> {
    if targets == [] then [Target("", "备份")] else targets
  }

  function Rows(units: seq<Unit>, targets: seq<Target>): seq<Row> {
    RowsFor(units, Order(units), Columns(targets))
  }

  lemma {:induction false} OrderIs(units: seq<Unit>)
    ensures forall id :: id in Order(units) <==> exists i :: 0 <= i < |units| && units[i].nodeId == id
    ensures forall i, j :: 0 <= i < j < |Order(units)| ==> Order(units)[i] != Order(units)[j]
  {
    if units != [] {
      var n := |units| - 1;
      OrderIs(units[..n]);
      forall id
        ensures id in Order(units) <==> exists i :: 0 <= i < |units| && units[i].nodeId == id
      {
        if i :| 0 <= i < n && units[i].nodeId == id {
          assert units[..n][i].nodeId == id;
        }
        assert units[n].nodeId in Order(units);
      }
    }
  }

  lemma {:induction false} RowsAre(units: seq<Unit>, order: seq<string>, cols: seq<Target>)
    ensures |RowsFor(units, order, cols)| == |order|
    ensures forall i :: 0 <= i < |order| ==> RowsFor(units, order, cols)[i] == RowOf(units, order[i], cols)
  {
    hide RowOf;
    if order != [] {
      RowsAre(units, order[..|order| - 1], cols);
    }
  }

  predicate CleanUnit(u: Unit, cols: seq<Target>) {
    u.tarOk && AllReached(u, cols)
  }

  predicate CleanNode(units: seq<Unit>, node: string, cols: seq<Target>) {
    forall i :: 0 <= i < |units| && units[i].nodeId == node ==> CleanUnit(units[i], cols)
  }

  /** A node's sums: successes never above cells, every unit counted, and equal exactly when all units are clean. */
  lemma {:induction false} SumsOfNode(units: seq<Unit>, node: string, cols: seq<Target>)
    ensures SumOk(units, node, cols) <= SumTotal(units, node, cols)
    ensures UnitCount(units, node) <= SumTotal(units, node, cols)
    ensures SumOk(units, node, cols) == SumTotal(units, node, cols) <==> CleanNode(units, node, cols)
  {
    hide Total, Ok, AllReached;
    if units != [] {
      var n := |units| - 1;
      SumsOfNode(units[..n], node, cols);
      CellsOfUnit(units[n], cols);
      TotalPositive(units[n], cols);
      hide CleanUnit;
      assert CleanNode(units, node, cols) <==> CleanNode(units[..n], node, cols) && (units[n].nodeId == node ==> CleanUnit(units[n], cols));
      assert CleanUnit(units[n], cols) <==> Ok(units[n], cols) == Total(units[n], cols) by { CleanIs(units[n], cols); }
    }
  }

  lemma CleanIs(u: Unit, cols: seq<Target>)
    ensures CleanUnit(u, cols) <==> Ok(u, cols) == Total(u, cols)
  {
    CellsOfUnit(u, cols);
  }

  lemma TotalPositive(u: Unit, cols: seq<Target>)
    ensures Total(u, cols) >= 1
  {
  }

  /** Every node with a unit has exactly one row; it is green exactly when all its units are clean, red exactly
      when no cell of it succeeded, and otherwise shows the true fraction. */
  lemma RowTellsTruth(units: seq<Unit>, targets: seq<Target>, i: nat)
    requires i < |units|
    ensures exists r :: 0 <= r < |Rows(units, targets)| && Rows(units, targets)[r] == RowOf(units, units[i].nodeId, Columns(targets))
    ensures var cols := Columns(targets); var row := RowOf(units, units[i].nodeId, cols);
      var ok, total := SumOk(units, units[i].nodeId, cols), SumTotal(units, units[i].nodeId, cols);
      && (row.status == Green <==> CleanNode(units, units[i].nodeId, cols))
      && (row.status == Red(total) <==> ok == 0 && !CleanNode(units, units[i].nodeId, cols))
      && (row.status.Amber? ==> row.status == Amber(ok, total) && 0 < ok < total)
  {
    hide SumOk, SumTotal, CleanNode, Order, RowsFor, LastName, UnitCount;
    var cols, id := Columns(targets), units[i].nodeId;
    SumsOfNode(units, id, cols);
    var r := RowFor(units, targets, i);
  }

  lemma RowFor(units: seq<Unit>, targets: seq<Target>, i: nat) returns (r: nat)
    requires i < |units|
    ensures r < |Rows(units, targets)| && Rows(units, targets)[r] == RowOf(units, units[i].nodeId, Columns(targets))
  {
    hide RowOf, Order, RowsFor;
    OrderIs(units);
    RowsAre(units, Order(units), Columns(targets));
    var id := units[i].nodeId;
    assert id in Order(units);
    r :| 0 <= r < |Order(units)| && Order(units)[r] == id;
  }

  lemma UnitFor(units: seq<Unit>, targets: seq<Target>, r: nat) returns (i: nat)
    requires r < |Rows(units, targets)|
    ensures i < |units| && Rows(units, targets)[r] == RowOf(units, units[i].nodeId, Columns(targets))
  {
    hide RowOf, Order, RowsFor;
    OrderIs(units);
    RowsAre(units, Order(units), Columns(targets));
    var id := Order(units)[r];
    assert id in Order(units);
    i :| 0 <= i < |units| && units[i].nodeId == id;
  }

  function SumRows(units: seq<Unit>, order: seq<string>, cols: seq<Target>): nat {
    if order == [] then 0 else SumRows(units, order[..|order| - 1], cols) + SumTotal(units, order[|order| - 1], cols)
  }

  function SumUnits(units: seq<Unit>, cols: seq<Target>): nat {
    if units == [] then 0 else SumUnits(units[..|units| - 1], cols) + Total(units[|units| - 1], cols)
  }

  /** The rows together count every cell of every unit once. */
  lemma {:induction false} RowsCountAllCells(units: seq<Unit>, cols: seq<Target>)
    ensures SumRows(units, Order(units), cols) == SumUnits(units, cols)
  {
    hide Total;
    if units != [] {
      var n := |units| - 1;
      var front, u := units[..n], units[n];
      RowsCountAllCells(front, cols);
      OrderIs(front);
      OneMoreUnit(units, Order(front), cols);
      if u.nodeId !in Order(front) {
        NoUnits(front, u.nodeId, cols);
        assert Order(units)[..|Order(front)|] == Order(front);
      }
    }
  }

  lemma {:induction false} OneMoreUnit(units: seq<Unit>, order: seq<string>, cols: seq<Target>)
    requires units != [] && forall i, j :: 0 <= i < j < |order| ==> order[i] != order[j]
    ensures var u := units[|units| - 1];
      SumRows(units, order, cols) == SumRows(units[..|units| - 1], order, cols) + (if u.nodeId in order then Total(u, cols) else 0)
  {
    hide Total;
    if order != [] {
      var n := |order| - 1;
      OneMoreUnit(units, order[..n], cols);
      assert order == order[..n] + [order[n]];
    }
  }

  lemma {:induction false} NoUnits(units: seq<Unit>, node: string, cols: seq<Target>)
    requires forall i :: 0 <= i < |units| ==> units[i].nodeId != node
    ensures SumTotal(units, node, cols) == 0
  {
    hide Total;
    if units != [] {
      NoUnits(units[..|units| - 1], node, cols);
    }
  }

  // ----- failure notes -----

  function Truncate(s: string, n: nat): string {
    if |s| <= n then s else s[..n] + "…"
  }

  function Missed(u: Unit, targets: seq<Target>): seq<string> {
    if targets == [] then []
    else
      var t := targets[|targets| - 1];
      Missed(u, targets[..|targets| - 1]) + (if Applies(u, t.id) && !Reached(u, t.id) then [t.name] else [])
  }

  function JoinNames(names: seq<string>): string {
    if names == [] then ""
    else if |names| == 1 then names[0]
    else JoinNames(names[..|names| - 1]) + "、" + names[|names| - 1]
  }

  datatype Reason = Fine | Because(text: string)

  function ReasonOf(u: Unit, targets: seq<Target>): Reason {
    if !u.tarOk then
      Because(if Truncate(u.err, 60) == "" then "归档失败" else Truncate(u.err, 60))
    else if Missed(u, targets) == [] then Fine
    else Because("推送失败：" + JoinNames(Missed(u, targets)))
  }

  function NoteKeys(units: seq<Unit>, targets: seq<Target>): set<string> {
    if units == [] then {}
    else
      var u := units[|units| - 1];
      NoteKeys(units[..|units| - 1], targets)
      + (match ReasonOf(u, targets) case Fine => {} case Because(text) => {u.nodeId + "|" + text})
  }

  function NoteOf(u: Unit, text: string): string {
    (if u.nodeName == "" then ShortId(u.nodeId) else u.nodeName) + "：" + text
  }

  function Notes(units: seq<Unit>, targets: seq<Target>): seq<string> {
    if units == [] then []
    else
      var front, u := units[..|units| - 1], units[|units| - 1];
      Notes(front, targets)
      + (match ReasonOf(u, targets)
         case Fine => []
         case Because(text) => if u.nodeId + "|" + text in NoteKeys(front, targets) then [] else [NoteOf(u, text)])
  }

  /** All targets that apply were reached, the nameless one included. */
  predicate NothingMissed(u: Unit, targets: seq<Target>) {
    forall i :: 0 <= i < |targets| && Applies(u, targets[i].id) ==> Reached(u, targets[i].id)
  }

  lemma {:induction false} MissedIff(u: Unit, targets: seq<Target>)
    ensures Missed(u, targets) == [] <==> NothingMissed(u, targets)
  {
    hide Applies, Reached;
    if targets != [] {
      var n := |targets| - 1;
      MissedIff(u, targets[..n]);
      assert NothingMissed(u, targets)
        <==> NothingMissed(u, targets[..n]) && (Applies(u, targets[n].id) ==> Reached(u, targets[n].id));
    }
  }

  lemma {:induction false} NotesIff(units: seq<Unit>, targets: seq<Target>)
    ensures Notes(units, targets) == [] <==> forall i :: 0 <= i < |units| ==> ReasonOf(units[i], targets) == Fine
    ensures Notes(units, targets) == [] ==> NoteKeys(units, targets) == {}
  {
    hide ReasonOf, NoteOf;
    if units != [] {
      NotesIff(units[..|units| - 1], targets);
    }
  }

  lemma CleanOrNameless(u: Unit, targets: seq<Target>)
    ensures ReasonOf(u, targets) == Fine
       <==> CleanUnit(u, Columns(targets)) && forall j :: 0 <= j < |targets| && targets[j].id == "" ==> Reached(u, "")
  {
    MissedIff(u, targets);
    hide Missed, Reached;
    if CleanUnit(u, Columns(targets)) && forall j :: 0 <= j < |targets| && targets[j].id == "" ==> Reached(u, "") {
      assert NothingMissed(u, targets);
    }
  }

  predicate AllGreen(units: seq<Unit>, targets: seq<Target>) {
    forall r :: 0 <= r < |Rows(units, targets)| ==> Rows(units, targets)[r].status == Green
  }

  lemma AllGreenIff(units: seq<Unit>, targets: seq<Target>)
    ensures AllGreen(units, targets) <==> forall i :: 0 <= i < |units| ==> CleanUnit(units[i], Columns(targets))
  {
    hide CleanUnit, RowOf, Rows;
    var cols := Columns(targets);
    if AllGreen(units, targets) {
      forall i | 0 <= i < |units|
        ensures CleanUnit(units[i], cols)
      {
        var r := RowFor(units, targets, i);
        RowTellsTruth(units, targets, i);
      }
    } else {
      var r :| 0 <= r < |Rows(units, targets)| && Rows(units, targets)[r].status != Green;
      var i := UnitFor(units, targets, r);
      RowTellsTruth(units, targets, i);
      assert !CleanNode(units, units[i].nodeId, cols);
    }
  }

  /** The two loops agree: there is nothing to explain exactly when every row is green, provided every target with
      an empty id was reached by every unit; without such targets, always. */
  lemma NoNotesIffAllGreen(units: seq<Unit>, targets: seq<Target>)
    ensures Notes(units, targets) == []
       <==> AllGreen(units, targets)
            && forall i, j :: 0 <= i < |units| && 0 <= j < |targets| && targets[j].id == "" ==> Reached(units[i], "")
    ensures (forall j :: 0 <= j < |targets| ==> targets[j].id != "") ==> (Notes(units, targets) == [] <==> AllGreen(units, targets))
  {
    NotesIff(units, targets);
    AllGreenIff(units, targets);
    hide ReasonOf, CleanUnit, AllGreen, Notes, Reached;
    forall i | 0 <= i < |units|
      ensures ReasonOf(units[i], targets) == Fine
         <==> CleanUnit(units[i], Columns(targets)) && forall j :: 0 <= j < |targets| && targets[j].id == "" ==> Reached(units[i], "")
    {
      CleanOrNameless(units[i], targets);
    }
  }

  /** A target is named as missed exactly if the unit was meant for it, or the target has an empty id, and it was not
      reached. */
  lemma {:induction false} MissedAre(u: Unit, targets: seq<Target>, name: string)
    ensures name in Missed(u, targets) <==>
      exists j :: 0 <= j < |targets| && MissedTarget(u, targets[j]) && targets[j].name == name
  {
    hide Applies, Reached, MissedTarget;
    if targets != [] {
      var n := |targets| - 1;
      MissedAre(u, targets[..n], name);
      MissedOne(u, targets[n]);
      if j :| 0 <= j < n && MissedTarget(u, targets[j]) && targets[j].name == name {
        assert targets[..n][j] == targets[j];
      }
      assert MissedTarget(u, targets[n]) && targets[n].name == name ==> name in Missed(u, targets);
    }
  }

  predicate MissedTarget(u: Unit, t: Target) {
    && (t.id == "" || u.targetIds == [] || t.id in u.targetIds)
    && !(t.id in u.targetOk && u.targetOk[t.id])
  }

  lemma MissedOne(u: Unit, t: Target)
    ensures MissedTarget(u, t) <==> Applies(u, t.id) && !Reached(u, t.id)
  {
  }

  /** Every unit with a failure is explained: some note of the list gives its reason, under the name of a unit with
      the same node and reason. And every note is some unit's. */
  lemma {:induction false} NotesExplain(units: seq<Unit>, targets: seq<Target>, i: nat)
    requires i < |units| && ReasonOf(units[i], targets).Because?
    ensures exists j :: 0 <= j < |units| && ExplainedBy(units, targets, i, j)
  {
    hide ReasonOf, NoteOf;
    var n := |units| - 1;
    if i < n {
      NotesExplain(units[..n], targets, i);
      var j :| 0 <= j < n && ExplainedBy(units[..n], targets, i, j);
      assert units[..n][i] == units[i] && units[..n][j] == units[j];
      assert ExplainedBy(units, targets, i, j);
    } else {
      var key := units[n].nodeId + "|" + ReasonOf(units[n], targets).text;
      if key in NoteKeys(units[..n], targets) {
        var j := KeyedBy(units[..n], targets, key);
        assert units[..n][j] == units[j];
        assert ExplainedBy(units, targets, i, j);
      } else {
        assert ExplainedBy(units, targets, i, i);
      }
    }
  }

  /** Each combination of node and reason is listed once. */
  lemma {:induction false} NotesOnce(units: seq<Unit>, targets: seq<Target>)
    ensures |Notes(units, targets)| == |NoteKeys(units, targets)|
  {
    hide ReasonOf, NoteOf;
    if units != [] {
      NotesOnce(units[..|units| - 1], targets);
    }
  }

  /** The note made for unit j is listed and has unit i's node and reason, written together. */
  predicate ExplainedBy(units: seq<Unit>, targets: seq<Target>, i: nat, j: nat)
    requires i < |units| && j < |units|
  {
    var a, b := ReasonOf(units[i], targets), ReasonOf(units[j], targets);
    && a.Because? && b.Because? && units[i].nodeId + "|" + a.text == units[j].nodeId + "|" + b.text
    && NoteOf(units[j], b.text) in Notes(units, targets)
  }

  lemma {:induction false} KeyedBy(units: seq<Unit>, targets: seq<Target>, key: string) returns (j: nat)
    requires key in NoteKeys(units, targets)
    ensures j < |units| && ReasonOf(units[j], targets).Because?
    ensures units[j].nodeId + "|" + ReasonOf(units[j], targets).text == key
    ensures NoteOf(units[j], ReasonOf(units[j], targets).text) in Notes(units, targets)
  {
    hide ReasonOf, NoteOf;
    var n := |units| - 1;
    if key in NoteKeys(units[..n], targets) {
      j := KeyedBy(units[..n], targets, key);
      assert units[..n][j] == units[j];
    } else {
      j := n;
    }
  }

  /** What a note says: of an archive that failed its error, no longer than sixty characters, or that it failed; of
      one that was made the targets that were missed. */
  lemma ReasonSays(u: Unit, targets: seq<Target>)
    ensures !u.tarOk && u.err != "" && |u.err| <= 60 ==> ReasonOf(u, targets) == Because(u.err)
    ensures !u.tarOk && |u.err| > 60 ==> ReasonOf(u, targets) == Because(u.err[..60] + "…")
    ensures !u.tarOk && u.err == "" ==> ReasonOf(u, targets) == Because("归档失败")
    ensures u.tarOk && |Missed(u, targets)| == 1 ==> ReasonOf(u, targets) == Because("推送失败：" + Missed(u, targets)[0])
    ensures u.tarOk && |Missed(u, targets)| > 1 ==>
      var names := Missed(u, targets); var n := |names| - 1;
      ReasonOf(u, targets) == Because("推送失败：" + JoinNames(names[..n]) + "、" + names[n])
    ensures forall text :: NoteOf(u, text) == (if u.nodeName != "" then u.nodeName else if |u.nodeId| > 8 then u.nodeId[..8] else u.nodeId) + "：" + text
  {
    hide Missed;
    var names := Missed(u, targets);
    if |names| > 1 {
      var n := |names| - 1;
      assert "推送失败：" + (JoinNames(names[..n]) + "、" + names[n]) == "推送失败：" + JoinNames(names[..n]) + "、" + names[n];
    }
  }

  function UnitsOf(units: seq<Unit>, node: string): set<nat> {
    set i: nat | i < |units| && units[i].nodeId == node
  }

  /** A row counts the units of its node. */
  lemma {:induction false} UnitsCounted(units: seq<Unit>, node: string)
    ensures UnitCount(units, node) == |UnitsOf(units, node)|
  {
    if units == [] {
      assert UnitsOf(units, node) == {};
    } else {
      var n := |units| - 1;
      UnitsCounted(units[..n], node);
      MoreUnits(units, node, n);
      hide UnitsOf;
    }
  }

  lemma MoreUnits(units: seq<Unit>, node: string, n: nat)
    requires n == |units| - 1
    ensures |UnitsOf(units, node)| == |UnitsOf(units[..n], node)| + (if units[n].nodeId == node then 1 else 0)
  {
    var one: set<nat> := if units[n].nodeId == node then {n} else {};
    forall i: nat
      ensures i in UnitsOf(units, node) <==> i in UnitsOf(units[..n], node) + one
    {
    }
    assert UnitsOf(units, node) == UnitsOf(units[..n], node) + one;
  }

  /** A row is headed by the last name its node was given, or by its short id. */
  lemma {:induction false} RowName(units: seq<Unit>, node: string, cols: seq<Target>, i: nat)
    requires i < |units| && units[i].nodeId == node && units[i].nodeName != ""
    requires forall j :: i < j < |units| && units[j].nodeId == node ==> units[j].nodeName == ""
    ensures LastName(units, node) == RowOf(units, node, cols).name == units[i].nodeName
  {
    hide SumOk, SumTotal, UnitCount;
    LastNamed(units, node, i);
  }

  lemma {:induction false} LastNamed(units: seq<Unit>, node: string, i: nat)
    requires i < |units| && units[i].nodeId == node && units[i].nodeName != ""
    requires forall j :: i < j < |units| && units[j].nodeId == node ==> units[j].nodeName == ""
    ensures LastName(units, node) == units[i].nodeName
  {
    if i < |units| - 1 {
      LastNamed(units[..|units| - 1], node, i);
    }
  }

  // ----- the program -----

  datatype Agg = Agg(name: string, count: nat, ok: nat, total: nat)

  function AggOf(units: seq<Unit>, node: string, cols: seq<Target>): Agg {
    Agg(LastName(units, node), UnitCount(units, node), SumOk(units, node, cols), SumTotal(units, node, cols))
  }

  ghost predicate Aggregated(units: seq<Unit>, cols: seq<Target>, order: seq<string>, nodes: map<string, Agg>) {
    && order == Order(units)
    && (forall id :: id in nodes <==> id in order)
    && (forall id :: id in nodes ==> nodes[id] == AggOf(units, id, cols))
  }

  lemma AggregateOne(units: seq<Unit>, n: nat, cols: seq<Target>, order: seq<string>, nodes: map<string, Agg>)
    requires n < |units| && Aggregated(units[..n], cols, order, nodes)
    ensures var u := units[n];
      var a := if u.nodeId in nodes then nodes[u.nodeId] else Agg("", 0, 0, 0);
      var a' := Agg(if u.nodeName != "" then u.nodeName else a.name, a.count + 1, a.ok + Ok(u, cols), a.total + Total(u, cols));
      Aggregated(units[..n + 1], cols, if u.nodeId in nodes then order else order + [u.nodeId], nodes[u.nodeId := a'])
  {
    hide Ok, Total;
    assert units[..n + 1][..n] == units[..n];
    OrderIs(units[..n]);
    if units[n].nodeId !in nodes {
      NewNode(units[..n], units[n].nodeId, cols);
    }
  }

  lemma {:induction false} NewNode(units: seq<Unit>, node: string, cols: seq<Target>)
    requires forall i :: 0 <= i < |units| ==> units[i].nodeId != node
    ensures AggOf(units, node, cols) == Agg("", 0, 0, 0)
  {
    hide Ok, Total;
    if units != [] {
      NewNode(units[..|units| - 1], node, cols);
    }
  }

  method CountCells(u: Unit, cols: seq<Target>) returns (ok: nat, total: nat)
    ensures ok == Ok(u, cols) && total == Total(u, cols)
  {
    hide Applies, Reached;
    var applicable := 0;
    ok, total := 0, 0;
    var i := 0;
    while i < |cols|
      invariant 0 <= i <= |cols|
      invariant applicable == total == Applicable(u, cols[..i]) && ok == ReachedCells(u, cols[..i])
    {
      var t := cols[i];
      assert cols[..i + 1][..i] == cols[..i];
      i := i + 1;
      if t.id == "" || !Applies(u, t.id) {
        continue;
      }
      applicable, total := applicable + 1, total + 1;
      if u.tarOk && Reached(u, t.id) {
        ok := ok + 1;
      }
    }
    assert cols[..i] == cols;
    CellsOfUnit(u, cols);
    if applicable == 0 {
      total := total + 1;
      if u.tarOk {
        ok := ok + 1;
      }
    }
  }

  method BuildRows(units: seq<Unit>, targets: seq<Target>) returns (rows: seq<Row>)
    ensures rows == Rows(units, targets)
  {
    hide Aggregated, Ok, Total, Order;
    var cols := if |targets| == 0 then [Target("", "备份")] else targets;
    var order: seq<string> := [];
    var nodes: map<string, Agg> := map[];
    var i := 0;
    assert Aggregated(units[..0], cols, order, nodes) by { NoneAggregated(cols); assert units[..0] == []; }
    while i < |units|
      invariant 0 <= i <= |units| && Aggregated(units[..i], cols, order, nodes)
    {
      var u := units[i];
      AggregateOne(units, i, cols, order, nodes);
      var ok, total := CountCells(u, cols);
      var a := if u.nodeId in nodes then nodes[u.nodeId] else Agg("", 0, 0, 0);
      if u.nodeId !in nodes {
        order := order + [u.nodeId];
      }
      nodes := nodes[u.nodeId := Agg(if u.nodeName != "" then u.nodeName else a.name, a.count + 1, a.ok + ok, a.total + total)];
      i := i + 1;
    }
    assert units[..i] == units;
    rows := [];
    var k := 0;
    while k < |order|
      invariant 0 <= k <= |order| && rows == RowsFor(units, order[..k], cols)
    {
      var id := order[k];
      AggregateAt(units, cols, order, nodes, id);
      var name := if nodes[id].name == "" then ShortId(id) else nodes[id].name;
      rows := rows + [Row(id, name, nodes[id].count, NodeStatus(nodes[id].ok, nodes[id].total))];
      assert order[..k + 1][..k] == order[..k];
      k := k + 1;
    }
    assert order[..k] == order;
    assert order == Order(units) by { AggregateOrder(units, cols, order, nodes); }
  }

  lemma NoneAggregated(cols: seq<Target>)
    ensures Aggregated([], cols, [], map[])
  {
  }

  lemma AggregateAt(units: seq<Unit>, cols: seq<Target>, order: seq<string>, nodes: map<string, Agg>, id: string)
    requires Aggregated(units, cols, order, nodes) && id in order
    ensures id in nodes && nodes[id] == AggOf(units, id, cols)
  {
  }

  lemma AggregateOrder(units: seq<Unit>, cols: seq<Target>, order: seq<string>, nodes: map<string, Agg>)
    requires Aggregated(units, cols, order, nodes)
    ensures order == Order(units)
  {
  }

  method BuildNotes(units: seq<Unit>, targets: seq<Target>) returns (notes: seq<string>)
    ensures notes == Notes(units, targets)
  {
    hide Applies, Reached, JoinNames, Truncate;
    notes := [];
    var seen: set<string> := {};
    var i := 0;
    while i < |units|
      invariant 0 <= i <= |units|
      invariant notes == Notes(units[..i], targets) && seen == NoteKeys(units[..i], targets)
    {
      var u := units[i];
      assert units[..i + 1][..i] == units[..i];
      i := i + 1;
      var reason: string;
      if !u.tarOk {
        reason := Truncate(u.err, 60);
        if reason == "" {
          reason := "归档失败";
        }
      } else {
        var bad := CollectMissed(u, targets);
        if |bad| == 0 {
          continue;
        }
        reason := "推送失败：" + JoinNames(bad);
      }
      var key := u.nodeId + "|" + reason;
      if key in seen {
        continue;
      }
      seen := seen + {key};
      notes := notes + [NoteOf(u, reason)];
    }
    assert units[..i] == units;
  }

  method CollectMissed(u: Unit, targets: seq<Target>) returns (bad: seq<string>)
    ensures bad == Missed(u, targets)
  {
    hide Applies, Reached;
    bad := [];
    var i := 0;
    while i < |targets|
      invariant 0 <= i <= |targets| && bad == Missed(u, targets[..i])
    {
      assert targets[..i + 1][..i] == targets[..i];
      if Applies(u, targets[i].id) && !Reached(u, targets[i].id) {
        bad := bad + [targets[i].name];
      }
      i := i + 1;
    }
    assert targets[..i] == targets;
  }
}
