/** Collecting the reports of overlapping backup batches into one message: an in-flight counter, a pending queue
    and a debounce timer whose Stop may come too late. */
module ReportDebounce {

  /** What one batch contributes: the outcomes of its units and the targets they were pushed to. */
  datatype Target = Target(id: string, kind: string, name: string)
  datatype Section<R> = Section(results: seq<R>, targets: seq<Target>)

  /** Armed: counting down. Fired: its callback was started but has not taken the lock yet; Stop no longer helps. */
  datatype Timer = Armed | Fired | Ran | Stopped

  /** The scheduler's fields, every timer ever made, and what has happened so far:
      `queued` are all sections handed in, `sent` the snapshots taken, `ends` counts the moments the last batch in
      flight ended, `activity` counts batch starts and ends, `armedAt` is its value when each timer was made. */
  datatype State<R> = State(
    notifier: bool,
    inFlight: nat,
    pending: seq<Section<R>>,
    timer: int,
    timers: seq<Timer>,
    queued: seq<Section<R>>,
    sent: seq<seq<Section<R>>>,
    ends: nat,
    activity: nat,
    armedAt: seq<nat>)

  const NO_TIMER := -1

  function Init<R>(notifier: bool): State<R> {
    State(notifier, 0, [], NO_TIMER, [], [], [], 0, 0, [])
  }

  /** A batch starts or ends, a timer runs out, a started callback gets the lock. */
  datatype Step<R> = Start | Finish(section: Section<R>) | Expire(t: nat) | Callback(t: nat)

  function TrackStart<R>(s: State<R>): State<R> {
    s.(inFlight := s.inFlight + 1, activity := s.activity + 1)
  }

  /** Stop cancels a timer that is still counting and does nothing to one that has fired. */
  function StopTimer(timers: seq<Timer>, t: int): seq<Timer> {
    if 0 <= t < |timers| && timers[t] == Armed then timers[t := Stopped] else timers
  }

  function Queue<R>(s: State<R>, section: Section<R>): State<R>
    requires s.inFlight > 0
  {
    var left := s.inFlight - 1;
    var ended := s.(inFlight := left, activity := s.activity + 1, ends := s.ends + (if left == 0 then 1 else 0));
    if !s.notifier then ended
    else
      var queued := ended.(pending := s.pending + [section], queued := s.queued + [section]);
      if left > 0 then queued
      else
        queued.(timers := StopTimer(s.timers, s.timer) + [Armed], timer := |s.timers|,
                armedAt := s.armedAt + [s.activity + 1])
  }

  predicate Flushes<R>(s: State<R>) {
    s.inFlight == 0 && |s.pending| > 0
  }

  function Flush<R>(s: State<R>): State<R> {
    if !Flushes(s) then s
    else s.(pending := [], timer := NO_TIMER, sent := if s.notifier then s.sent + [s.pending] else s.sent)
  }

  function Next<R>(s: State<R>, step: Step<R>): State<R> {
    match step
    case Start => TrackStart(s)
    case Finish(section) => if s.inFlight > 0 then Queue(s, section) else s
    case Expire(t) => if t < |s.timers| && s.timers[t] == Armed then s.(timers := s.timers[t := Fired]) else s
    case Callback(t) => if t < |s.timers| && s.timers[t] == Fired then Flush(s.(timers := s.timers[t := Ran])) else s
  }

  function Run<R>(s: State<R>, steps: seq<Step<R>>): State<R> {
    if steps == [] then s else Next(Run(s, steps[..|steps| - 1]), steps[|steps| - 1])
  }

  // ----- what every run keeps -----

  function Flatten<T>(batches: seq<seq<T>>): seq<T> {
    if batches == [] then [] else Flatten(batches[..|batches| - 1]) + batches[|batches| - 1]
  }

  predicate Outstanding<R>(s: State<R>, t: nat) {
    t < |s.timers| && (s.timers[t] == Armed || s.timers[t] == Fired)
  }

  predicate CallbackDue<R>(s: State<R>) {
    exists t :: 0 <= t < |s.timers| && Outstanding(s, t)
  }

  ghost predicate Inv<R>(s: State<R>) {
    && Flatten(s.sent) + s.pending == s.queued
    && (!s.notifier ==> s.queued == [])
    && (Flushes(s) ==> CallbackDue(s))
    && |s.sent| + (if Flushes(s) then 1 else 0) <= s.ends
    && |s.armedAt| == |s.timers|
    && (s.notifier && s.inFlight == 0 && s.activity > 0
        ==> |s.armedAt| > 0 && s.armedAt[|s.armedAt| - 1] == s.activity)
    && (forall i, j :: 0 <= i < j < |s.armedAt| ==> s.armedAt[i] < s.armedAt[j])
    && (forall i :: 0 <= i < |s.armedAt| ==> s.armedAt[i] <= s.activity)
  }

  lemma FlattenOne<T>(batches: seq<seq<T>>, batch: seq<T>)
    ensures Flatten(batches + [batch]) == Flatten(batches) + batch
  {
    assert (batches + [batch])[..|batches|] == batches;
  }

  lemma QueueKeepsInv<R>(s: State<R>, section: Section<R>)
    requires Inv(s) && s.inFlight > 0
    ensures Inv(Queue(s, section))
  {
    hide Flatten;
    var s' := Queue(s, section);
    assert Flatten(s.sent) + (s.pending + [section]) == s.queued + [section];
    if s.notifier && s'.inFlight == 0 {
      assert Outstanding(s', |s.timers|);
    }
  }

  lemma CallbackKeepsInv<R>(s: State<R>, t: nat)
    requires Inv(s)
    ensures Inv(Next(s, Callback(t)))
  {
    hide Flatten;
    if t < |s.timers| && s.timers[t] == Fired {
      if Flushes(s) {
        FlattenOne(s.sent, s.pending);
        assert s.queued + [] == s.queued;
        assert s.queued != [];
      }
    }
  }

  lemma ExpireKeepsInv<R>(s: State<R>, t: nat)
    requires Inv(s)
    ensures Inv(Next(s, Expire(t)))
  {
    hide Flatten;
    if t < |s.timers| && s.timers[t] == Armed {
      var s' := Next(s, Expire(t));
      assert Outstanding(s', t);
    }
  }

  lemma {:induction false} RunKeepsInv<R>(notifier: bool, steps: seq<Step<R>>)
    ensures Inv(Run(Init(notifier), steps))
  {
    if steps != [] {
      var front, step := steps[..|steps| - 1], steps[|steps| - 1];
      RunKeepsInv(notifier, front);
      var s := Run(Init(notifier), front);
      hide Run;
      match step {
        case Start => hide Flatten, CallbackDue;
        case Finish(section) =>
          hide Inv, Queue;
          if s.inFlight > 0 {
            QueueKeepsInv(s, section);
          }
        case Expire(t) =>
          hide Inv;
          ExpireKeepsInv(s, t);
        case Callback(t) =>
          hide Inv;
          CallbackKeepsInv(s, t);
      }
    }
  }

  // ----- the promises -----

  /** The sections a run hands in, read off its steps: one per Finish of a running batch. */
  function Handed<R>(s: State<R>, steps: seq<Step<R>>): seq<Section<R>> {
    if steps == [] then []
    else
      var front, step := steps[..|steps| - 1], steps[|steps| - 1];
      Handed(s, front) + (if step.Finish? && Run(s, front).inFlight > 0 then [step.section] else [])
  }

  lemma {:induction false} NotifierStays<R>(s: State<R>, steps: seq<Step<R>>)
    ensures Run(s, steps).notifier == s.notifier
  {
    if steps != [] {
      NotifierStays(s, steps[..|steps| - 1]);
    }
  }

  lemma {:induction false} QueuedIsHanded<R>(steps: seq<Step<R>>)
    ensures Run(Init(true), steps).queued == Handed(Init(true), steps)
  {
    if steps != [] {
      QueuedIsHanded(steps[..|steps| - 1]);
      NotifierStays<R>(Init(true), steps[..|steps| - 1]);
    }
  }

  /** Nothing is lost, repeated or reordered, whichever callbacks Stop fails to cancel: what was sent, followed by
      what is pending, is what the batches handed in. Without a notifier nothing is kept at all. */
  lemma SentThenPendingIsQueued<R>(notifier: bool, steps: seq<Step<R>>)
    ensures var s := Run(Init(notifier), steps);
      Flatten(s.sent) + s.pending == (if notifier then Handed(Init(true), steps) else [])
  {
    RunKeepsInv(notifier, steps);
    NotifierStays<R>(Init(notifier), steps);
    if notifier {
      QueuedIsHanded(steps);
    }
  }

  /** A snapshot is only ever taken while no batch is in flight. */
  lemma SnapshotsAreIdle<R>(s: State<R>, step: Step<R>)
    ensures Next(s, step).sent != s.sent ==>
      s.inFlight == 0 && s.notifier && s.pending != [] && Next(s, step).sent == s.sent + [s.pending]
  {
  }

  /** No report is stranded: when nothing runs and no callback is due any more, nothing is pending. And whichever
      outstanding callback comes first takes all of it. */
  lemma NothingIsStranded<R>(notifier: bool, steps: seq<Step<R>>)
    ensures var s := Run(Init(notifier), steps);
      s.inFlight == 0 && !CallbackDue(s) ==> s.pending == []
    ensures var s := Run(Init(notifier), steps);
      forall t :: s.inFlight == 0 && Outstanding(s, t) ==>
        var s' := Run(s, [Expire(t), Callback(t)]);
        s'.pending == [] && Flatten(s'.sent) == s.queued
  {
    var s := Run(Init(notifier), steps);
    RunKeepsInv(notifier, steps);
    hide Run;
    forall t | s.inFlight == 0 && Outstanding(s, t)
      ensures Run(s, [Expire(t), Callback(t)]).pending == []
      ensures Flatten(Run(s, [Expire(t), Callback(t)]).sent) == s.queued
    {
      FirstCallbackTakesAll(s, t);
    }
  }

  lemma FirstCallbackTakesAll<R>(s: State<R>, t: nat)
    requires Inv(s) && s.inFlight == 0 && Outstanding(s, t)
    ensures var s' := Run(s, [Expire(t), Callback(t)]); s'.pending == [] && Flatten(s'.sent) == s.queued
  {
    var one: seq<Step<R>> := [Expire(t)];
    assert [Expire(t), Callback(t)][..1] == one && one[..0] == [];
    var s1 := Next(s, Expire(t));
    assert Run(s, one) == s1;
    ExpireKeepsInv(s, t);
    CallbackKeepsInv(s1, t);
    var s2 := Next(s1, Callback(t));
    assert Run(s, [Expire(t), Callback(t)]) == s2;
    hide Run, Flatten;
    assert Flatten(s2.sent) + [] == Flatten(s2.sent);
  }

  /** However the batches overlap, there are at most as many messages as moments at which the last one ended. */
  lemma OneMessagePerWindow<R>(notifier: bool, steps: seq<Step<R>>)
    ensures |Run(Init(notifier), steps).sent| <= Run(Init(notifier), steps).ends
  {
    RunKeepsInv(notifier, steps);
  }

  // ----- how long the report waits -----

  /** Nothing started or ended since timer t was made: the full delay passed in silence. */
  predicate QuietSince<R>(s: State<R>, t: nat) {
    t < |s.armedAt| && s.armedAt[t] == s.activity
  }

  /** The delay promised between the last batch and the report is kept exactly when the callback that sends it is
      the newest timer's. */
  lemma DelayIsKeptIff<R>(steps: seq<Step<R>>, t: nat)
    ensures var s := Run(Init(true), steps);
      Outstanding(s, t) && Flushes(s) ==> (QuietSince(s, t) <==> t == |s.timers| - 1)
  {
    var s := Run(Init(true), steps);
    RunKeepsInv<R>(true, steps);
    NotifierStays<R>(Init(true), steps);
    hide Run, Flatten, CallbackDue;
    if Outstanding(s, t) && Flushes(s) {
      assert s.queued != [];
      QueuedMeansActivity<R>(steps);
    }
  }

  lemma {:induction false} QueuedMeansActivity<R>(steps: seq<Step<R>>)
    ensures Run(Init(true), steps).activity == 0 ==> Run(Init(true), steps).queued == []
  {
    if steps != [] {
      QueuedMeansActivity(steps[..|steps| - 1]);
    }
  }

  /** When the last batch in flight ends, the remembered timer, if it still counts, is stopped, a new one is armed
      and remembered, and no other timer changes. */
  lemma LastEndRearms<R>(s: State<R>, section: Section<R>, t: nat)
    requires s.notifier && s.inFlight == 1
    ensures var s' := Next(s, Finish(section));
      && s'.timer == |s.timers| && |s'.timers| == |s.timers| + 1 && s'.timers[s'.timer] == Armed
      && (t < |s.timers| ==>
            s'.timers[t] == if t == s.timer && s.timers[t] == Armed then Stopped else s.timers[t])
  {
  }

  /** While other batches run, the end of one arms nothing and stops nothing: its section only joins the others. */
  lemma EarlierEndsWait<R>(s: State<R>, section: Section<R>)
    requires s.notifier && s.inFlight > 1
    ensures var s' := Next(s, Finish(section));
      s'.timers == s.timers && s'.timer == s.timer && s'.pending == s.pending + [section] && s'.inFlight == s.inFlight - 1
  {
  }

  /** Every callback that sent a report was the remembered timer's. */
  predicate InTime<R>(steps: seq<Step<R>>) {
    forall k :: 0 <= k < |steps| && steps[k].Callback? && Sends(Run(Init(true), steps[..k]), steps[k].t) ==>
      steps[k].t == Run(Init(true), steps[..k]).timer
  }

  predicate Sends<R>(s: State<R>, t: nat) {
    t < |s.timers| && s.timers[t] == Fired && Flushes(s)
  }

  /** The delay starts anew with every batch: as long as no callback comes late, at most the remembered timer is
      counting. */
  lemma {:induction false} OneTimerCounts<R>(steps: seq<Step<R>>, t: nat)
    requires InTime(steps)
    ensures Counting(Run(Init(true), steps), t)
  {
    if steps != [] {
      var n := |steps| - 1;
      InTimeFront(steps, n);
      OneTimerCounts(steps[..n], t);
      hide Next, Run, InTime, Counting;
      CountingStep(Run(Init(true), steps[..n]), steps[n], t);
      RunLast(steps);
    }
  }

  /** If timer t counts, it is the remembered one. */
  predicate Counting<R>(s: State<R>, t: nat) {
    s.notifier && s.timer < |s.timers| && (t < |s.timers| && s.timers[t] == Armed ==> t == s.timer)
  }

  lemma RunLast<R>(steps: seq<Step<R>>)
    requires steps != []
    ensures Run(Init(true), steps) == Next(Run(Init(true), steps[..|steps| - 1]), steps[|steps| - 1])
  {
  }

  lemma InTimeFront<R>(steps: seq<Step<R>>, n: nat)
    requires InTime(steps) && n < |steps|
    ensures InTime(steps[..n])
    ensures var s := Run(Init(true), steps[..n]);
      steps[n].Callback? && Sends(s, steps[n].t) ==> steps[n].t == s.timer
  {
    hide Sends, Run;
    var front := steps[..n];
    forall k | 0 <= k < n && front[k].Callback? && Sends(Run(Init(true), front[..k]), front[k].t)
      ensures front[k].t == Run(Init(true), front[..k]).timer
    {
      assert front[..k] == steps[..k] && front[k] == steps[k];
    }
  }

  lemma CountingStep<R>(s: State<R>, step: Step<R>, t: nat)
    requires Counting(s, t) && (step.Callback? && Sends(s, step.t) ==> step.t == s.timer)
    ensures Counting(Next(s, step), t)
  {
  }

  /** It is not always: a callback that fired before a short batch started and ended, and gets the lock after it,
      sends that batch's report at once, with the newer timer still counting. */
  lemma LateCallbackSkipsDelay<R>(a: Section<R>, b: Section<R>)
    ensures var s := Run(Init(true), [Start, Finish(a), Expire(0), Start, Finish(b)]);
      && Flushes(s) && Outstanding(s, 0) && !QuietSince(s, 0)
      && Next(s, Callback(0)).sent == [[a, b]]
      && Next(s, Callback(0)).timers == [Ran, Armed]
  {
    var s0: State<R> := Init(true);
    var s1 := RunSnoc(s0, [], Start);
    var s2 := RunSnoc(s0, [] + [Start], Finish(a));
    var s3 := RunSnoc(s0, [] + [Start] + [Finish(a)], Expire(0));
    var s4 := RunSnoc(s0, [] + [Start] + [Finish(a)] + [Expire(0)], Start);
    var s5 := RunSnoc(s0, [] + [Start] + [Finish(a)] + [Expire(0)] + [Start], Finish(b));
    assert [] + [Start] + [Finish(a)] + [Expire(0)] + [Start] + [Finish(b)]
        == [Start, Finish(a), Expire(0), Start, Finish(b)];
    hide Run;
    assert s2.timers == [Armed] && s2.pending == [a] && s2.armedAt == [2];
    assert s3.timers == [Fired];
    assert s4.timers == [Fired] && s4.pending == [a] && s4.armedAt == [2] && s4.activity == 3;
    assert s5.timers == [Fired, Armed] && s5.pending == [a, b] && s5.armedAt == [2, 4];
  }

  lemma RunSnoc<R>(s: State<R>, steps: seq<Step<R>>, step: Step<R>) returns (s': State<R>)
    ensures s' == Run(s, steps + [step]) == Next(Run(s, steps), step)
  {
    assert (steps + [step])[..|steps|] == steps;
    s' := Next(Run(s, steps), step);
  }

  // ----- the merged message -----

  /** Is this the first target with its id? */
  predicate IsFirst(ts: seq<Target>, i: nat)
    requires i < |ts|
  {
    forall j :: 0 <= j < i ==> ts[j].id != ts[i].id
  }

  function FirstSeen(ts: seq<Target>): seq<Target> {
    if ts == [] then []
    else FirstSeen(ts[..|ts| - 1]) + (if IsFirst(ts, |ts| - 1) then [ts[|ts| - 1]] else [])
  }

  predicate HasId(ts: seq<Target>, id: string) {
    exists i :: 0 <= i < |ts| && ts[i].id == id
  }

  /** The union has each id once and leaves none out. */
  lemma {:induction false} FirstSeenIsUnion(ts: seq<Target>)
    ensures forall i, j :: 0 <= i < j < |FirstSeen(ts)| ==> FirstSeen(ts)[i].id != FirstSeen(ts)[j].id
    ensures forall id :: HasId(FirstSeen(ts), id) <==> HasId(ts, id)
  {
    if ts != [] {
      var n := |ts| - 1;
      FirstSeenIsUnion(ts[..n]);
      forall id
        ensures HasId(FirstSeen(ts), id) <==> HasId(ts, id)
      {
        HasIdSnoc(ts[..n], ts[n], id);
        HasIdSnoc(FirstSeen(ts[..n]), ts[n], id);
        HasIdSnoc(ts[..n], ts[n], ts[n].id);
        assert ts[..n] + [ts[n]] == ts;
        assert FirstSeen(ts[..n]) + [] == FirstSeen(ts[..n]);
      }
      assert IsFirst(ts, n) ==> !HasId(ts[..n], ts[n].id);
    }
  }

  /** The first target with each id is kept as it is, and they stay in order: each comes after those that came
      first with other ids before it. */
  lemma {:induction false} FirstSeenAt(ts: seq<Target>, i: nat)
    requires i < |ts| && IsFirst(ts, i)
    ensures var k := |FirstSeen(ts[..i])|; k < |FirstSeen(ts)| && FirstSeen(ts)[k] == ts[i]
  {
    var n := |ts| - 1;
    if i < n {
      assert IsFirst(ts[..n], i);
      FirstSeenAt(ts[..n], i);
      assert ts[..n][..i] == ts[..i];
    }
  }

  lemma HasIdSnoc(ts: seq<Target>, t: Target, id: string)
    ensures HasId(ts + [t], id) <==> HasId(ts, id) || t.id == id
  {
    if HasId(ts, id) {
      var i :| 0 <= i < |ts| && ts[i].id == id;
      assert (ts + [t])[i].id == id;
    }
    if t.id == id {
      assert (ts + [t])[|ts|].id == id;
    }
  }

  function AllResults<R>(sections: seq<Section<R>>): seq<R> {
    if sections == [] then [] else AllResults(sections[..|sections| - 1]) + sections[|sections| - 1].results
  }

  function AllTargets<R>(sections: seq<Section<R>>): seq<Target> {
    if sections == [] then [] else AllTargets(sections[..|sections| - 1]) + sections[|sections| - 1].targets
  }

  lemma FirstSeenSnoc(ts: seq<Target>, t: Target)
    ensures FirstSeen(ts + [t]) == FirstSeen(ts) + (if HasId(ts, t.id) then [] else [t])
  {
    assert (ts + [t])[..|ts|] == ts;
    assert IsFirst(ts + [t], |ts|) <==> !HasId(ts, t.id);
  }

  // ----- the program -----

  class Reports<R(0)> {
    var notifier: bool
    var inFlight: nat
    var pending: seq<Section<R>>
    var timer: int
    var timers: seq<Timer>
    ghost var queued: seq<Section<R>>
    ghost var sent: seq<seq<Section<R>>>
    ghost var ends: nat
    ghost var activity: nat
    ghost var armedAt: seq<nat>

    ghost function Abs(): State<R>
      reads this
    {
      State(notifier, inFlight, pending, timer, timers, queued, sent, ends, activity, armedAt)
    }

    constructor (notifier: bool)
      ensures Abs() == Init(notifier)
    {
      this.notifier, inFlight, pending, timer, timers := notifier, 0, [], NO_TIMER, [];
      queued, sent, ends, activity, armedAt := [], [], 0, 0, [];
    }

    method TrackBackupStart()
      modifies this
      ensures Abs() == Next(old(Abs()), Start)
    {
      inFlight := inFlight + 1;
      activity := activity + 1;
    }

    method QueueBackupReport(section: Section<R>)
      requires inFlight > 0
      modifies this
      ensures Abs() == Next(old(Abs()), Finish(section))
    {
      inFlight := inFlight - 1;
      activity := activity + 1;
      ends := ends + (if inFlight == 0 then 1 else 0);
      if !notifier {
        return;
      }
      pending := pending + [section];
      queued := queued + [section];
      if inFlight > 0 {
        return;
      }
      if timer != NO_TIMER {
        timers := StopTimer(timers, timer);
      }
      timer := |timers|;
      timers := timers + [Armed];
      armedAt := armedAt + [activity];
    }

    /** The callback of timer t, once it has the lock. Returns what it sends, if it sends anything. */
    method FlushBackupReports(t: nat) returns (sends: bool, results: seq<R>, targets: seq<Target>)
      requires t < |timers| && timers[t] == Fired
      modifies this
      ensures Abs() == Next(old(Abs()), Callback(t))
      ensures sends <==> sent != old(sent)
      ensures sends ==> results == AllResults(old(pending)) && targets == FirstSeen(AllTargets(old(pending)))
    {
      sends, results, targets := false, [], [];
      timers := timers[t := Ran];
      if inFlight > 0 || |pending| == 0 {
        return;
      }
      var batch := pending;
      pending := [];
      timer := NO_TIMER;
      if !notifier {
        return;
      }
      sent := sent + [batch];
      sends := true;
      results, targets := Merge(batch);
    }
  }

  method Merge<R>(sections: seq<Section<R>>) returns (results: seq<R>, targets: seq<Target>)
    ensures results == AllResults(sections)
    ensures targets == FirstSeen(AllTargets(sections))
  {
    results, targets := [], [];
    var seen: map<string, bool> := map[];
    ghost var all: seq<Target> := [];
    var i := 0;
    while i < |sections|
      invariant 0 <= i <= |sections|
      invariant results == AllResults(sections[..i]) && all == AllTargets(sections[..i])
      invariant targets == FirstSeen(all)
      invariant forall id :: id in seen <==> HasId(all, id)
    {
      var section := sections[i];
      results := results + section.results;
      ghost var before := all;
      var j := 0;
      while j < |section.targets|
        invariant 0 <= j <= |section.targets|
        invariant all == before + section.targets[..j]
        invariant targets == FirstSeen(all)
        invariant forall id :: id in seen <==> HasId(all, id)
      {
        var t := section.targets[j];
        FirstSeenSnoc(all, t);
        forall id
          ensures HasId(all + [t], id) <==> HasId(all, id) || t.id == id
        {
          HasIdSnoc(all, t, id);
        }
        if t.id !in seen {
          seen := seen[t.id := true];
          targets := targets + [t];
        }
        all := all + [t];
        j := j + 1;
      }
      assert section.targets[..j] == section.targets;
      assert sections[..i + 1][..i] == sections[..i];
      i := i + 1;
    }
    assert sections[..i] == sections;
  }
}
