/** Node health alerts: a breach that lasts is announced once per outage. */
module HealthAlerts {

  datatype Option<T> = None | Some(value: T)

  // ----- one alert over time -----

  /** What is stored per alert; 0 stands for "never". */
  datatype State = State(breachSince: int, lastNotified: int)

  /** One evaluated sample: when, whether it is over the threshold, and the window the rule has at that moment. */
  datatype Obs = Obs(now: int, breaching: bool, window: int)

  predicate Fires(s: State, o: Obs) {
    o.breaching && s.breachSince != 0 && o.now - s.breachSince >= o.window && s.lastNotified < s.breachSince
  }

  /** Storing a zero for lastNotified leaves the stored value alone. */
  function Touch(s: State, breachSince: int, lastNotified: int): State {
    State(breachSince, if lastNotified > 0 then lastNotified else s.lastNotified)
  }

  function Advance(s: State, o: Obs): State {
    if o.breaching && s.breachSince == 0 then Touch(s, o.now, 0)
    else if Fires(s, o) then Touch(s, s.breachSince, o.now)
    else if !o.breaching && s.breachSince != 0 then Touch(s, 0, 0)
    else s
  }

  /** The stored state after a sequence of evaluated samples, for an alert that starts fresh. */
  function After(obs: seq<Obs>): State {
    if obs == [] then State(0, 0) else Advance(After(obs[..|obs| - 1]), obs[|obs| - 1])
  }

  /** Sample i sends a message. */
  predicate Fired(obs: seq<Obs>, i: nat)
    requires i < |obs|
  {
    Fires(After(obs[..i]), obs[i])
  }

  // ----- what an outage is, without the machine -----

  /** The first sample of the unbroken run of breaching samples that i belongs to. */
  function RunStart(obs: seq<Obs>, i: nat): (start: nat)
    requires i < |obs|
    ensures start <= i
    ensures obs[i].breaching ==> forall k :: start <= k <= i ==> obs[k].breaching
    ensures start > 0 ==> !obs[start - 1].breaching || !obs[i].breaching
  {
    if i == 0 || !obs[i].breaching || !obs[i - 1].breaching then i else RunStart(obs, i - 1)
  }

  predicate Held(obs: seq<Obs>, start: nat, i: nat)
    requires start <= i < |obs|
  {
    obs[i].now - obs[start].now >= obs[i].window
  }

  /** The first sample after the start of its outage that is at least the window away from it. */
  predicate FirstHeld(obs: seq<Obs>, i: nat)
    requires i < |obs|
  {
    var start := RunStart(obs, i);
    && obs[i].breaching && start < i && Held(obs, start, i)
    && forall k :: start < k < i ==> !Held(obs, start, k)
  }

  predicate Positive(obs: seq<Obs>) {
    forall i :: 0 <= i < |obs| ==> obs[i].now > 0
  }

  predicate NeverBack(obs: seq<Obs>) {
    forall i, j :: 0 <= i < j < |obs| ==> obs[i].now <= obs[j].now
  }

  predicate Forward(obs: seq<Obs>) {
    forall i, j :: 0 <= i < j < |obs| ==> obs[i].now < obs[j].now
  }

  // ----- the machine against the outages -----

  lemma RunStartStable(obs: seq<Obs>, i: nat, k: nat)
    requires k <= i < |obs| && obs[i].breaching && RunStart(obs, i) <= k
    ensures RunStart(obs, k) == RunStart(obs, i)
  {
    if k < i {
      RunStartStable(obs, i - 1, k);
    }
  }

  predicate LastIs(obs: seq<Obs>, n: nat, last: int)
    requires n <= |obs|
  {
    && 0 <= last
    && (forall k :: 0 <= k < n && Fired(obs, k) ==> obs[k].now <= last)
    && (last > 0 ==> exists k :: 0 <= k < n && Fired(obs, k) && obs[k].now == last)
  }

  lemma AfterOne(obs: seq<Obs>, n: nat)
    requires n < |obs|
    ensures After(obs[..n + 1]) == Advance(After(obs[..n]), obs[n])
    ensures Fired(obs, n) <==> Fires(After(obs[..n]), obs[n])
  {
    assert obs[..n + 1][..n] == obs[..n];
  }

  lemma {:induction false} SinceMeaning(obs: seq<Obs>, n: nat)
    requires n <= |obs| && Positive(obs)
    ensures After(obs[..n]).breachSince
         == (if n == 0 || !obs[n - 1].breaching then 0 else obs[RunStart(obs, n - 1)].now)
  {
    if n > 0 {
      SinceMeaning(obs, n - 1);
      AfterOne(obs, n - 1);
      hide After, Fired, Positive;
      PositiveAt(obs, n - 1);
      if n > 1 {
        PositiveAt(obs, RunStart(obs, n - 2));
      }
    }
  }

  lemma {:induction false} LastMeaning(obs: seq<Obs>, n: nat)
    requires n <= |obs| && Positive(obs) && NeverBack(obs)
    ensures LastIs(obs, n, After(obs[..n]).lastNotified)
  {
    if n > 0 {
      LastMeaning(obs, n - 1);
      AfterOne(obs, n - 1);
      PositiveAt(obs, n - 1);
      hide After, Fired, Positive, LastIs, NeverBack;
      LastStep(obs, n - 1, After(obs[..n - 1]).lastNotified);
    }
  }

  lemma PositiveAt(obs: seq<Obs>, i: nat)
    requires Positive(obs) && i < |obs|
    ensures obs[i].now > 0
  {
  }

  lemma LastStep(obs: seq<Obs>, n: nat, last: int)
    requires n < |obs| && Positive(obs) && NeverBack(obs) && LastIs(obs, n, last)
    ensures LastIs(obs, n + 1, if Fired(obs, n) then obs[n].now else last)
  {
    hide Fired;
    if Fired(obs, n) {
      assert obs[n].now > 0;
    } else if last > 0 {
      var k :| 0 <= k < n && Fired(obs, k) && obs[k].now == last;
    }
  }

  /** An announcement was already made in the very second the outage began. */
  predicate AnnouncedAt(obs: seq<Obs>, start: nat)
    requires start < |obs|
  {
    exists k :: 0 <= k < start && Fired(obs, k) && obs[k].now == obs[start].now
  }

  /** Sample i announces exactly when it is past the window and nothing at or after the start of its outage has
      announced yet. */
  lemma FiredIffNoneSince(obs: seq<Obs>, i: nat)
    requires i < |obs| && Positive(obs) && NeverBack(obs)
    ensures var start := RunStart(obs, i);
      Fired(obs, i)
      <==> obs[i].breaching && start < i && Held(obs, start, i) && !AnnouncedAt(obs, start)
           && forall k :: start <= k < i ==> !Fired(obs, k)
  {
    SinceMeaning(obs, i);
    LastMeaning(obs, i);
    var s := After(obs[..i]);
    assert Fired(obs, i) <==> Fires(s, obs[i]);
    var start := RunStart(obs, i);
    PositiveAt(obs, start);
    hide Fired, After, Positive;
    if obs[i].breaching && start < i {
      assert RunStart(obs, i - 1) == start && s.breachSince == obs[start].now;
      if s.lastNotified < obs[start].now {
        forall k | 0 <= k < i && Fired(obs, k)
          ensures k < start && obs[k].now < obs[start].now
        {
          assert obs[k].now <= s.lastNotified;
        }
      } else {
        var k :| 0 <= k < i && Fired(obs, k) && obs[k].now == s.lastNotified;
        if k < start {
          assert obs[k].now <= obs[start].now;
        }
      }
    }
  }

  /** The first sample past the window within an outage. */
  lemma {:induction false} FindFirstHeld(obs: seq<Obs>, i: nat) returns (first: nat)
    requires i < |obs| && obs[i].breaching && RunStart(obs, i) < i && Held(obs, RunStart(obs, i), i)
    ensures RunStart(obs, i) < first <= i && FirstHeld(obs, first) && RunStart(obs, first) == RunStart(obs, i)
    decreases i
  {
    var start := RunStart(obs, i);
    if k :| start < k < i && Held(obs, start, k) {
      RunStartStable(obs, i, k);
      first := FindFirstHeld(obs, k);
    } else {
      first := i;
    }
  }

  /** For a clock that never goes back: a sample announces exactly when it is the first of its outage past the
      window and the outage did not begin in the very second of an earlier announcement. Shorter outages are
      never announced, longer ones once. */
  lemma {:induction false} FiredIff(obs: seq<Obs>, i: nat)
    requires i < |obs| && Positive(obs) && NeverBack(obs)
    ensures Fired(obs, i) <==> FirstHeld(obs, i) && !AnnouncedAt(obs, RunStart(obs, i))
    decreases i
  {
    hide Fired, AnnouncedAt, Positive, NeverBack;
    FiredIffNoneSince(obs, i);
    var start := RunStart(obs, i);
    if obs[i].breaching && start < i && Held(obs, start, i) && !AnnouncedAt(obs, start) {
      if k :| start < k < i && Held(obs, start, k) {
        RunStartStable(obs, i, k);
        var first := FindFirstHeld(obs, k);
        FiredIff(obs, first);
        assert Fired(obs, first);
      } else {
        forall k | start <= k < i
          ensures !Fired(obs, k)
        {
          RunStartStable(obs, i, k);
          FiredIff(obs, k);
        }
      }
    }
  }

  /** With a clock that moves forward between samples, the second condition always holds. */
  lemma OncePerOutage(obs: seq<Obs>, i: nat)
    requires i < |obs| && Positive(obs) && Forward(obs)
    ensures Fired(obs, i) <==> FirstHeld(obs, i)
  {
    FiredIff(obs, i);
    assert !AnnouncedAt(obs, RunStart(obs, i));
  }

  /** An outage is announced exactly when it lasts: never twice, and by the time it has held the window at the
      latest. */
  lemma OutageAnnouncedOnce(obs: seq<Obs>, i: nat)
    requires i < |obs| && Positive(obs) && Forward(obs) && obs[i].breaching
    ensures var start := RunStart(obs, i);
      (exists k :: start <= k <= i && Fired(obs, k)) <==> exists k :: start < k <= i && Held(obs, start, k)
    ensures forall j, k :: RunStart(obs, i) <= j < k <= i ==> !(Fired(obs, j) && Fired(obs, k))
  {
    hide Fired;
    var start := RunStart(obs, i);
    forall k | start <= k <= i
      ensures RunStart(obs, k) == start && (Fired(obs, k) <==> FirstHeld(obs, k))
    {
      RunStartStable(obs, i, k);
      OncePerOutage(obs, k);
    }
    if k :| start < k <= i && Held(obs, start, k) {
      var first := FindFirstHeld(obs, k);
      assert Fired(obs, first);
    }
  }

  /** Between two announcements the alert recovered. */
  lemma RecoveredBetween(obs: seq<Obs>, i: nat, j: nat)
    requires i < j < |obs| && Positive(obs) && NeverBack(obs) && Fired(obs, i) && Fired(obs, j)
    ensures exists k :: i < k < j && !obs[k].breaching
  {
    hide Fired, Positive, NeverBack, AnnouncedAt;
    FiredIffNoneSince(obs, j);
    assert i < RunStart(obs, j);
    FiredIffNoneSince(obs, i);
    assert obs[i].breaching && !obs[RunStart(obs, j) - 1].breaching;
  }

  /** An outage that began in the second of an earlier announcement stays silent however long it lasts. */
  lemma SameSecondOutageIsSilent(obs: seq<Obs>, i: nat)
    requires i < |obs| && obs[i].breaching && Positive(obs) && NeverBack(obs) && AnnouncedAt(obs, RunStart(obs, i))
    ensures forall k :: RunStart(obs, i) <= k <= i ==> !Fired(obs, k)
  {
    hide Fired, AnnouncedAt, Positive, NeverBack;
    forall k | RunStart(obs, i) <= k <= i
      ensures !Fired(obs, k)
    {
      RunStartStable(obs, i, k);
      FiredIff(obs, k);
    }
  }

  /** An announcement, then recovery and a new breach within the same second. */
  function SameSecond(window: int): seq<Obs> {
    [Obs(1, true, window), Obs(1 + window, true, window), Obs(1 + window, false, window), Obs(1 + window, true, window)]
  }

  /** Such outages exist: whatever comes after, as long as it breaches, is never announced. */
  lemma SilentOutage(window: int, more: seq<Obs>)
    requires 0 < window && (forall k :: 0 <= k < |more| ==> more[k].breaching) && NeverBack(SameSecond(window) + more)
    ensures var obs := SameSecond(window) + more;
      Fired(obs, 1) && forall k :: 3 <= k < |obs| ==> !Fired(obs, k)
  {
    var obs := SameSecond(window) + more;
    assert obs[..0] == [] && obs[..1] == [Obs(1, true, window)] && obs[..1][..0] == [];
    assert After(obs[..1]) == State(1, 0);
    assert Fired(obs, 1);
    forall k | 0 <= k < |obs|
      ensures obs[k].now > 0
    {
      assert obs[0].now <= obs[k].now;
    }
    hide Fired;
    forall k: nat | 3 <= k < |obs|
      ensures !Fired(obs, k)
    {
      StartsAt(obs, k);
      SameSecondOutageIsSilent(obs, k);
    }
  }

  lemma {:induction false} StartsAt(obs: seq<Obs>, k: nat)
    requires 3 <= k < |obs| && !obs[2].breaching && forall j :: 3 <= j < |obs| ==> obs[j].breaching
    ensures RunStart(obs, k) == 3
  {
    if k > 3 {
      StartsAt(obs, k - 1);
    }
  }

  // ----- samples and rules -----

  datatype Sample = Sample(load1: real, load5: real, load15: real, iowait: real, cpu: real, mem: real, swap: real,
                           disk: real, cores: int)

  function Value(sp: Sample, metric: string): Option<real> {
    if metric == "load1" || metric == "load" then Some(sp.load1)
    else if metric == "load5" then Some(sp.load5)
    else if metric == "load15" then Some(sp.load15)
    else if metric == "iowait" then Some(sp.iowait)
    else if metric == "cpu" then Some(sp.cpu)
    else if metric == "mem" then Some(sp.mem)
    else if metric == "swap" then Some(sp.swap)
    else if metric == "disk" then Some(sp.disk)
    else None
  }

  datatype Alert = Alert(id: string, nodeId: string, metric: string, threshold: real, windowSec: int, enabled: bool,
                         state: State)

  /** A zero threshold on "load" (not on "load1") scales with the cores, or is 4 when those are unknown. */
  function Threshold(a: Alert, sp: Sample): real {
    if a.metric == "load" && a.threshold == 0.0
    then (if sp.cores == 0 then 4.0 else sp.cores as real * 2.0)
    else a.threshold
  }

  function Observe(a: Alert, sp: Sample, now: int): Option<Obs> {
    match Value(sp, a.metric)
    case None => None
    case Some(v) => Some(Obs(now, v > Threshold(a, sp), a.windowSec))
  }

  /** A sample breaches a rule if its value is above the threshold, equal is not enough; a load rule without a
      threshold takes twice the cores, or four when those are unknown; metrics the sample does not carry are passed
      over. */
  lemma BreachIff(a: Alert, sp: Sample, now: int)
    ensures a.metric == "cpu" ==> Observe(a, sp, now) == Some(Obs(now, sp.cpu > a.threshold, a.windowSec))
    ensures a.metric == "mem" ==> Observe(a, sp, now) == Some(Obs(now, sp.mem > a.threshold, a.windowSec))
    ensures a.metric == "swap" ==> Observe(a, sp, now) == Some(Obs(now, sp.swap > a.threshold, a.windowSec))
    ensures a.metric == "disk" ==> Observe(a, sp, now) == Some(Obs(now, sp.disk > a.threshold, a.windowSec))
    ensures a.metric == "iowait" ==> Observe(a, sp, now) == Some(Obs(now, sp.iowait > a.threshold, a.windowSec))
    ensures a.metric == "load1" ==> Observe(a, sp, now) == Some(Obs(now, sp.load1 > a.threshold, a.windowSec))
    ensures a.metric == "load5" ==> Observe(a, sp, now) == Some(Obs(now, sp.load5 > a.threshold, a.windowSec))
    ensures a.metric == "load15" ==> Observe(a, sp, now) == Some(Obs(now, sp.load15 > a.threshold, a.windowSec))
    ensures a.metric == "load" && a.threshold != 0.0
        ==> Observe(a, sp, now) == Some(Obs(now, sp.load1 > a.threshold, a.windowSec))
    ensures a.metric == "load" && a.threshold == 0.0
        ==> Observe(a, sp, now)
            == Some(Obs(now, sp.load1 > (if sp.cores == 0 then 4.0 else 2.0 * sp.cores as real), a.windowSec))
    ensures Observe(a, sp, now) == None
       <==> a.metric !in {"cpu", "mem", "swap", "disk", "iowait", "load", "load1", "load5", "load15"}
  {
  }

  /** The alert after one evaluation, and whether it sends a message. */
  function Evolved(a: Alert, sp: Sample, now: int): Alert {
    match Observe(a, sp, now)
    case None => a
    case Some(o) => a.(state := Advance(a.state, o))
  }

  predicate Sends(a: Alert, sp: Sample, now: int) {
    match Observe(a, sp, now)
    case None => false
    case Some(o) => Fires(a.state, o)
  }

  function Senders(alerts: seq<Alert>, sp: Sample, now: int): seq<string> {
    if alerts == [] then []
    else
      var last := alerts[|alerts| - 1];
      Senders(alerts[..|alerts| - 1], sp, now) + (if Sends(last, sp, now) then [last.id] else [])
  }

  // ----- a rule that is polled and, now and then, saved -----

  /** A rule as it is stored under an id: a window that is not positive becomes a minute. */
  function Stored(rule: Alert, id: string, state: State): Alert {
    rule.(id := id, windowSec := if rule.windowSec <= 0 then 60 else rule.windowSec, state := state)
  }

  /** A poll of a node, or the rule is saved with new settings. */
  datatype Event = Poll(node: string, sp: Sample, now: int) | Save(rule: Alert)

  /** The poll concerns the rule. */
  predicate Looks(a: Alert, ev: Event) {
    ev.Poll? && a.enabled && a.nodeId == ev.node
  }

  function Step(a: Alert, ev: Event): Alert {
    match ev
    case Poll(_, sp, now) => if Looks(a, ev) then Evolved(a, sp, now) else a
    case Save(rule) => Stored(rule, a.id, a.state)
  }

  function Polled(a: Alert, events: seq<Event>): Alert {
    if events == [] then a else Step(Polled(a, events[..|events| - 1]), events[|events| - 1])
  }

  /** The settings last saved. */
  function Settings(a: Alert, events: seq<Event>): Alert {
    if events == [] then a
    else
      match events[|events| - 1]
      case Poll(_, _, _) => Settings(a, events[..|events| - 1])
      case Save(rule) => Stored(rule, a.id, a.state)
  }

  /** What the polls that concern the rule observe, each with the settings of its time. */
  function Evaluated(a: Alert, events: seq<Event>): seq<Obs> {
    if events == [] then []
    else
      var n := |events| - 1;
      var rule, ev := Settings(a, events[..n]), events[n];
      Evaluated(a, events[..n])
      + (if !Looks(rule, ev) then [] else match Observe(rule, ev.sp, ev.now) case None => [] case Some(o) => [o])
  }

  lemma StateUnobserved(a: Alert, state: State, sp: Sample, now: int)
    ensures Observe(a.(state := state), sp, now) == Observe(a, sp, now)
  {
    hide Value;
  }

  /** The stored row has the settings last saved, and its state follows the machine over the samples that concerned
      the rule and had a value: saving neither ends an outage nor begins one. */
  lemma {:induction false} PolledIsAfter(a: Alert, events: seq<Event>)
    requires a.state == State(0, 0)
    ensures Polled(a, events) == Settings(a, events).(state := After(Evaluated(a, events)))
    ensures Settings(a, events).id == a.id
  {
    hide Value, Threshold, Advance;
    if events != [] {
      var front, ev := events[..|events| - 1], events[|events| - 1];
      PolledIsAfter(a, front);
      var obs, rule := Evaluated(a, front), Settings(a, front);
      if Looks(rule, ev) {
        StateUnobserved(rule, After(obs), ev.sp, ev.now);
        match Observe(rule, ev.sp, ev.now)
        case None =>
          assert obs + [] == obs;
        case Some(o) =>
          assert (obs + [o])[..|obs|] == obs;
      } else {
        assert obs + [] == obs;
      }
    }
  }

  /** A poll of another node, and any poll while the rule is switched off, leaves the rule as it was. */
  lemma OtherPollsPass(a: Alert, events: seq<Event>, n: nat)
    requires n < |events| && events[n].Poll?
    requires !Polled(a, events[..n]).enabled || Polled(a, events[..n]).nodeId != events[n].node
    ensures Polled(a, events[..n + 1]) == Polled(a, events[..n])
  {
    hide Evolved;
    assert events[..n + 1][..n] == events[..n];
  }

  /** When a poll notifies, for a rule that is saved between polls, with other thresholds, windows, metrics or nodes,
      or switched off and on: exactly if this sample is the first of its outage to have lasted the window in force,
      counted from the sample the outage began with, and the outage did not begin in the second of an earlier
      notification. */
  lemma NotifiesIff(a: Alert, events: seq<Event>, n: nat)
    requires a.state == State(0, 0) && n < |events|
    requires var rule := Polled(a, events[..n]);
      events[n].Poll? && rule.enabled && rule.nodeId == events[n].node && Value(events[n].sp, rule.metric).Some?
    requires Positive(Evaluated(a, events[..n + 1])) && NeverBack(Evaluated(a, events[..n + 1]))
    ensures var obs := Evaluated(a, events[..n + 1]);
      && obs != [] && obs[|obs| - 1].now == events[n].now && obs[|obs| - 1].window == Polled(a, events[..n]).windowSec
      && (Sends(Polled(a, events[..n]), events[n].sp, events[n].now)
          <==> FirstHeld(obs, |obs| - 1) && !AnnouncedAt(obs, RunStart(obs, |obs| - 1)))
  {
    hide Value, Threshold, Positive, NeverBack, FirstHeld, AnnouncedAt, Fires;
    var front, ev := events[..n], events[n];
    assert events[..n + 1][..n] == front;
    PolledIsAfter(a, front);
    var rule := Settings(a, front);
    StateUnobserved(rule, After(Evaluated(a, front)), ev.sp, ev.now);
    var before, obs := Evaluated(a, front), Evaluated(a, events[..n + 1]);
    assert obs == before + [Observe(rule, ev.sp, ev.now).value];
    hide Evaluated, Polled, Settings, RunStart;
    assert obs[..|obs| - 1] == before;
    FiredIff(obs, |obs| - 1);
  }

  // ----- the store and the evaluation loop -----

  predicate DistinctIds(alerts: seq<Alert>) {
    forall i, j :: 0 <= i < j < |alerts| ==> alerts[i].id != alerts[j].id
  }

  class AlertStore {
    var rows: map<string, Alert>

    constructor ()
      ensures rows == map[]
    {
      rows := map[];
    }

    /** Saving a rule keeps the breach state it already has; a new rule starts fresh. */
    method PutHealthAlert(a: Alert, newId: string) returns (id: string)
      modifies this
      ensures id == if a.id == "" then newId else a.id
      ensures rows == old(rows)[id := Stored(a, id, if id in old(rows) then old(rows)[id].state else State(0, 0))]
      ensures rows[id].windowSec == (if a.windowSec <= 0 then 60 else a.windowSec) && rows[id].threshold == a.threshold
      ensures rows[id].metric == a.metric && rows[id].enabled == a.enabled && rows[id].nodeId == a.nodeId
    {
      id := a.id;
      if id == "" {
        id := newId;
      }
      var window := a.windowSec;
      if window <= 0 {
        window := 60;
      }
      var state := if id in rows then rows[id].state else State(0, 0);
      rows := rows[id := a.(id := id, windowSec := window, state := state)];
    }

    method TouchHealthAlertState(id: string, breachSince: int, lastNotified: int)
      modifies this
      ensures rows == if id in old(rows)
        then old(rows)[id := old(rows)[id].(state := Touch(old(rows)[id].state, breachSince, lastNotified))]
        else old(rows)
    {
      if id !in rows {
        return;
      }
      var a := rows[id];
      if lastNotified > 0 {
        rows := rows[id := a.(state := State(breachSince, lastNotified))];
      } else {
        rows := rows[id := a.(state := State(breachSince, a.state.lastNotified))];
      }
    }

    /** One poll of a node: every rule that has a value advances, no other row changes, and the messages sent
        are those of the rules that fire, in order. */
    method Evaluate(sp: Sample, now: int, alerts: seq<Alert>, notifier: bool) returns (sent: seq<string>)
      requires DistinctIds(alerts)
      requires forall i :: 0 <= i < |alerts| ==> alerts[i].id in rows && rows[alerts[i].id] == alerts[i]
      modifies this
      ensures rows.Keys == old(rows).Keys
      ensures forall i :: 0 <= i < |alerts| ==> rows[alerts[i].id] == Evolved(alerts[i], sp, now)
      ensures forall id :: id in rows && (forall i :: 0 <= i < |alerts| ==> alerts[i].id != id) ==> rows[id] == old(rows)[id]
      ensures sent == if notifier then Senders(alerts, sp, now) else []
    {
      hide Evolved, Sends;
      sent := [];
      var i := 0;
      while i < |alerts|
        invariant 0 <= i <= |alerts|
        invariant rows.Keys == old(rows).Keys
        invariant forall j :: 0 <= j < i ==> rows[alerts[j].id] == Evolved(alerts[j], sp, now)
        invariant forall j :: i <= j < |alerts| ==> rows[alerts[j].id] == alerts[j]
        invariant forall id :: id in rows && (forall j :: 0 <= j < |alerts| ==> alerts[j].id != id) ==> rows[id] == old(rows)[id]
        invariant sent == if notifier then Senders(alerts[..i], sp, now) else []
      {
        var a := alerts[i];
        assert alerts[..i + 1][..i] == alerts[..i];
        var fires := EvaluateOne(sp, now, a);
        if fires && notifier {
          sent := sent + [a.id];
        }
        i := i + 1;
      }
      assert alerts[..i] == alerts;
    }

    method EvaluateOne(sp: Sample, now: int, a: Alert) returns (fires: bool)
      requires a.id in rows && rows[a.id] == a
      modifies this
      ensures rows == old(rows)[a.id := Evolved(a, sp, now)]
      ensures fires <==> Sends(a, sp, now)
    {
      fires := false;
      var v := Value(sp, a.metric);
      if v.None? {
        return;
      }
      var threshold := a.threshold;
      if a.metric == "load" && threshold == 0.0 {
        threshold := sp.cores as real * 2.0;
        if threshold == 0.0 {
          threshold := 4.0;
        }
      }
      var breaching := v.value > threshold;
      if breaching && a.state.breachSince == 0 {
        TouchHealthAlertState(a.id, now, 0);
      } else if breaching && now - a.state.breachSince >= a.windowSec && a.state.lastNotified < a.state.breachSince {
        fires := true;
        TouchHealthAlertState(a.id, a.state.breachSince, now);
      } else if !breaching && a.state.breachSince != 0 {
        TouchHealthAlertState(a.id, 0, 0);
      }
    }
  }
}
