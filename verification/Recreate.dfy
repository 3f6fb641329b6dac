/** Recreating a container from its snapshot: whatever the Docker daemon answers, what is left behind is exactly
    the one started container that was promised, or nothing but what the daemon lost or refused to delete. */
module Recreate {
  import opened Text

  datatype Error = Http(code: int, body: string) | Transport(message: string)

  datatype Option<T> = None | Some(value: T)

  function ErrBody(e: Error): string {
    match e
    case Http(_, body) => ToLower(body)
    case Transport(message) => ToLower(message)
  }

  function ErrCode(e: Error): int {
    match e
    case Http(code, _) => code
    case Transport(_) => 0
  }

  predicate ImageMissing(e: Error) {
    ErrCode(e) == 404 || Contains(ErrBody(e), "no such image") || Contains(ErrBody(e), "manifest unknown")
  }

  predicate NetworkMissing(e: Error) {
    Contains(ErrBody(e), "network") && (Contains(ErrBody(e), "not found") || Contains(ErrBody(e), "not exist"))
  }

  predicate PortAllocated(e: Error) {
    || Contains(ErrBody(e), "port is already allocated")
    || Contains(ErrBody(e), "address already in use")
    || Contains(ErrBody(e), "bind: address already in use")
  }

  /** The part of a host configuration that recreating changes; one that does not parse is passed on as it is. */
  datatype Host = Host(parses: bool, network: string, ports: seq<nat>)

  function WithBridge(h: Host): Host {
    if h.parses then h.(network := "bridge") else h
  }

  datatype Box = Box(host: Host, nets: Option<set<string>>, started: bool)

  type Id = nat

  // ----- which call follows which answer -----

  datatype Event =
    | Created(bridge: bool, err: Option<Error>)
    | Pulled(ok: bool)
    | Started(err: Option<Error>)
    | Removed
    | Remapped(changed: bool)

  datatype Phase =
    | First | Pulling | Second | Bridging
    | Starting | Removing(err: Error) | Remapping
    | Again(bridge: bool) | StartingAgain | RemovingAgain
    | End(recreated: bool) | Stuck

  /** A create error sends the attempt to the bridge, or ends it. */
  function Fallback(e: Error): Phase {
    if NetworkMissing(e) then Bridging else End(false)
  }

  /** The next phase after a call and its answer; Stuck if the call has no place in this phase. */
  function After(pullable: bool, ph: Phase, ev: Event): Phase {
    match (ph, ev)
    case (First, Created(false, err)) =>
      if err == None then Starting
      else if ImageMissing(err.value) then (if pullable then Pulling else End(false))
      else Fallback(err.value)
    case (Pulling, Pulled(ok)) => if ok then Second else End(false)
    case (Second, Created(false, err)) => if err == None then Starting else Fallback(err.value)
    case (Bridging, Created(true, err)) => if err == None then Starting else End(false)
    case (Starting, Started(err)) => if err == None then End(true) else Removing(err.value)
    case (Removing(e), Removed) => if NetworkMissing(e) then Again(true) else if PortAllocated(e) then Remapping else End(false)
    case (Remapping, Remapped(changed)) => if changed then Again(false) else End(false)
    case (Again(bridge), Created(b, err)) => if b != bridge then Stuck else if err == None then StartingAgain else End(false)
    case (StartingAgain, Started(err)) => if err == None then End(true) else RemovingAgain
    case (RemovingAgain, Removed) => End(false)
    case _ => Stuck
  }

  function PhaseOf(pullable: bool, events: seq<Event>): Phase {
    if events == [] then First else After(pullable, PhaseOf(pullable, events[..|events| - 1]), events[|events| - 1])
  }

  function Creates(events: seq<Event>): nat {
    if events == [] then 0 else Creates(events[..|events| - 1]) + (if events[|events| - 1].Created? then 1 else 0)
  }

  function Starts(events: seq<Event>): nat {
    if events == [] then 0 else Starts(events[..|events| - 1]) + (if events[|events| - 1].Started? then 1 else 0)
  }

  function CreatesLeft(ph: Phase): nat {
    match ph
    case First => 4
    case Pulling => 3
    case Second => 3
    case Bridging => 2
    case Starting => 1
    case Removing(_) => 1
    case Remapping => 1
    case Again(_) => 1
    case _ => 0
  }

  function StartsLeft(ph: Phase): nat {
    if ph.StartingAgain? || ph.Removing? || ph.Remapping? || ph.Again? then 1
    else if ph.End? || ph.Stuck? || ph.RemovingAgain? then 0
    else 2
  }

  /** However the daemon answers, there are at most four creates and two starts. */
  lemma {:induction false} CallsAreBounded(pullable: bool, events: seq<Event>)
    requires PhaseOf(pullable, events) != Stuck
    ensures Creates(events) + CreatesLeft(PhaseOf(pullable, events)) <= 4
    ensures Starts(events) + StartsLeft(PhaseOf(pullable, events)) <= 2
  {
    hide ImageMissing, NetworkMissing, PortAllocated;
    if events != [] {
      CallsAreBounded(pullable, events[..|events| - 1]);
    }
  }

  /** Who is left: those who were there, untouched, and of the client's own ones exactly those in `own`. */
  ghost predicate Leaves(before: map<Id, Box>, now: map<Id, Box>, own: set<Id>) {
    && now.Keys == before.Keys + own
    && before.Keys !! own
    && forall id :: id in before ==> now[id] == before[id]
  }

  /** The daemon. `before` are the containers it had when the client came; of those the client made, `own` are the
      ones it holds, `lost` those whose id never arrived, `stuck` those it failed to delete. `events`
      are the calls so far with their answers. */
  class Docker {
    var containers: map<Id, Box>
    var next: Id
    ghost const before: map<Id, Box>
    ghost var own: set<Id>
    ghost var lost: set<Id>
    ghost var stuck: set<Id>
    ghost var events: seq<Event>
    ghost var found: bool

    ghost predicate Valid()
      reads this
    {
      && (forall id :: id in containers ==> id < next)
      && Leaves(before, containers, own + lost + stuck)
      && own !! lost && own !! stuck && lost !! stuck
    }

    lemma Ledger()
      requires Valid()
      ensures Leaves(before, containers, own + lost + stuck)
    {
    }

    constructor (containers: map<Id, Box>, next: Id)
      requires forall id :: id in containers ==> id < next
      ensures Valid() && this.containers == containers == before
      ensures own == lost == stuck == {} && events == []
    {
      this.containers, this.next, before := containers, next, containers;
      own, lost, stuck, events, found := {}, {}, {}, [], false;
    }

    /** Creates a container or not, and answers with its id or with an error. */
    method Create(host: Host, nets: Option<set<string>>) returns (id: Id, err: Option<Error>)
      requires Valid()
      modifies this
      ensures Valid() && stuck == old(stuck) && found == old(found) && events == old(events) + [Created(nets == None, err)]
      ensures err == None ==> own == old(own) + {id} && lost == old(lost)
      ensures err == None ==> containers == old(containers)[id := Box(host, nets, false)]
      ensures err != None ==> own == old(own) && old(lost) <= lost
    {
      var took: bool := *;
      err := *;
      id := next;
      if took || err == None {
        containers := containers[id := Box(host, nets, false)];
        next := next + 1;
        if err == None {
          own := own + {id};
        } else {
          lost := lost + {id};
        }
      }
      events := events + [Created(nets == None, err)];
    }

    /** No error means it runs; with an error it may or may not have come up. */
    method Start(id: Id) returns (err: Option<Error>)
      requires Valid() && id in own
      modifies this
      ensures Valid() && own == old(own) && lost == old(lost) && stuck == old(stuck) && found == old(found)
      ensures events == old(events) + [Started(err)] && id in old(containers)
      ensures err == None ==> containers == old(containers)[id := old(containers)[id].(started := true)]
    {
      var up: bool := *;
      err := *;
      if up || err == None {
        containers := containers[id := containers[id].(started := true)];
      }
      events := events + [Started(err)];
    }

    /** Forced deletion; the answer is ignored. */
    method Remove(id: Id)
      requires Valid() && id in own
      modifies this
      ensures Valid() && own == old(own) - {id} && lost == old(lost) && found == old(found) && events == old(events) + [Removed]
      ensures stuck == old(stuck) || stuck == old(stuck) + {id}
    {
      var fails: bool := *;
      own := own - {id};
      events := events + [Removed];
      if fails {
        stuck := stuck + {id};
      } else {
        containers := containers - {id};
      }
    }

    method Exists(name: string) returns (r: bool)
      requires Valid()
      modifies this`found
      ensures Valid() && found == r
    {
      r := *;
      found := r;
    }

    method Pull(image: string) returns (ok: bool)
      requires Valid()
      modifies this`events
      ensures Valid() && events == old(events) + [Pulled(ok)]
    {
      ok := *;
      events := events + [Pulled(ok)];
    }

    /** Notes the outcome of moving every bound port. */
    ghost method Note(changed: bool)
      requires Valid()
      modifies this`events
      ensures Valid() && events == old(events) + [Remapped(changed)]
    {
      events := events + [Remapped(changed)];
    }
  }

  /** Some bound ports are moved, or none. */
  method RemapPorts(h: Host) returns (moved: Host, changed: bool)
    ensures moved.network == h.network && moved.parses == h.parses && |moved.ports| == |h.ports| && (!changed ==> moved == h)
    ensures !h.parses ==> !changed
  {
    changed, moved := false, h;
    if !h.parses {
      return;
    }
    var i := 0;
    while i < |h.ports|
      invariant 0 <= i <= |h.ports| == |moved.ports|
      invariant moved.network == h.network && moved.parses && (!changed ==> moved == h)
    {
      var move: bool := *;
      if move {
        var port: nat := *;
        changed, moved := true, moved.(ports := moved.ports[i := port]);
      }
      i := i + 1;
    }
  }

  datatype Config = Absent | Unreadable | Parsed

  datatype Outcome = DataOnly | Failed | Recreated(id: Id)

  /** The two shapes a recreated container may have: on its own networks, or on the default bridge, for which the
      host configuration has to parse. */
  predicate Shape(box: Box, host: Host, networks: set<string>) {
    || (box.nets == Some(networks) && box.host.network == host.network)
    || (box.nets == None && box.host.network == if host.parses then "bridge" else host.network)
  }

  predicate Runs(containers: map<Id, Box>, id: Id, host: Host, networks: set<string>) {
    id in containers && containers[id].started && Shape(containers[id], host, networks)
  }

  /** The calls follow the phases, starting from the first create and ending where the outcome says. */
  ghost predicate Followed(docker: Docker, pullable: bool, recreated: bool)
    reads docker
  {
    PhaseOf(pullable, docker.events) == End(recreated)
  }

  /** Recreated means: one started container of the requested shape, and no other outcome leaves one. Apart from
      it there is only what the daemon made without saying so and what it would not delete, so nothing at all
      when it does neither. An existing container or a missing description means no call at all; otherwise every
      answer is met with the prescribed next call, to the end. */
  method RecreateContainer(docker: Docker, name: string, image: string, cfg: Config, host: Host, networks: set<string>,
                           autoPull: bool)
    returns (outcome: Outcome)
    requires docker.Valid() && docker.own == docker.lost == docker.stuck == {} && docker.events == []
    modifies docker
    ensures docker.Valid() && docker.own == if outcome.Recreated? then {outcome.id} else {}
    ensures Leaves(docker.before, docker.containers, docker.own + docker.lost + docker.stuck)
    ensures outcome.Recreated? ==> Runs(docker.containers, outcome.id, host, networks)
    ensures outcome == DataOnly <==> docker.found || cfg == Absent
    ensures docker.found || cfg != Parsed ==> docker.events == []
    ensures !docker.found && cfg == Parsed ==> Followed(docker, autoPull && image != "", outcome.Recreated?)
    ensures !docker.found && cfg == Parsed ==> Script(autoPull && image != "", docker.events)
    ensures !docker.found && cfg == Parsed ==> (outcome.Recreated? <==> EndsStarted(docker.events))
    ensures Creates(docker.events) <= 4 && Starts(docker.events) <= 2
  {
    hide ImageMissing, NetworkMissing, PortAllocated, Leaves, Shape, Runs, PhaseOf;
    docker.Ledger();
    var found := docker.Exists(name);
    if found || cfg == Absent {
      return DataOnly;
    }
    if cfg == Unreadable {
      return Failed;
    }
    hide Docker.Valid;
    var useHost, _ := RemapPorts(host);
    var cid, created := CreateFirst(docker, image, useHost, networks, autoPull);
    if created {
      outcome := StartFirst(docker, cid, useHost, networks, autoPull && image != "");
      SameNetwork(docker.containers, outcome, useHost, host, networks);
    } else {
      outcome := Failed;
    }
    docker.Ledger();
    hide Script, EndsStarted;
    CallsAreBounded(autoPull && image != "", docker.events);
    PhasesAreScripts(autoPull && image != "", docker.events, outcome.Recreated?);
  }

  lemma SameNetwork(containers: map<Id, Box>, outcome: Outcome, a: Host, b: Host, networks: set<string>)
    requires a.network == b.network && a.parses == b.parses
    ensures outcome.Recreated? && Runs(containers, outcome.id, a, networks) ==> Runs(containers, outcome.id, b, networks)
  {
  }

  lemma PhaseSnoc(pullable: bool, events: seq<Event>, ev: Event)
    ensures PhaseOf(pullable, events + [ev]) == After(pullable, PhaseOf(pullable, events), ev)
  {
    assert (events + [ev])[..|events|] == events;
  }

  /** The create calls: after a missing image once more when it could be pulled, after a missing network once more
      on the bridge. */
  method CreateFirst(docker: Docker, image: string, useHost: Host, networks: set<string>, autoPull: bool)
    returns (cid: Id, created: bool)
    requires docker.Valid() && docker.own == {} && docker.events == []
    modifies docker
    ensures docker.Valid() && docker.own == if created then {cid} else {}
    ensures created ==> cid in docker.containers && Shape(docker.containers[cid], useHost, networks)
    ensures docker.stuck == old(docker.stuck) && docker.found == old(docker.found)
    ensures PhaseOf(autoPull && image != "", docker.events) == if created then Starting else End(false)
  {
    hide ImageMissing, NetworkMissing, PhaseOf;
    hide Docker.Valid;
    ghost var pullable := autoPull && image != "";
    StartsFirst(pullable);
    created := false;
    var cerr;
    ghost var before := docker.events;
    cid, cerr := docker.Create(useHost, Some(networks));
    PhaseSnoc(pullable, before, Created(false, cerr));
    if cerr.Some? && ImageMissing(cerr.value) {
      if autoPull && image != "" {
        before := docker.events;
        var pulled := docker.Pull(image);
        PhaseSnoc(pullable, before, Pulled(pulled));
        if !pulled {
          return;
        }
        before := docker.events;
        cid, cerr := docker.Create(useHost, Some(networks));
        PhaseSnoc(pullable, before, Created(false, cerr));
      } else {
        return;
      }
    }
    if cerr.Some? && NetworkMissing(cerr.value) {
      before := docker.events;
      cid, cerr := docker.Create(WithBridge(useHost), None);
      PhaseSnoc(pullable, before, Created(true, cerr));
    }
    created := cerr.None?;
  }

  lemma StartsFirst(pullable: bool)
    ensures PhaseOf(pullable, []) == First
  {
  }

  /** The start calls: a container that does not start is removed, and a missing network or a taken port gives a
      second container its chance. */
  method StartFirst(docker: Docker, cid: Id, useHost: Host, networks: set<string>, ghost pullable: bool) returns (outcome: Outcome)
    requires docker.Valid() && docker.own == {cid} && cid in docker.containers
    requires Shape(docker.containers[cid], useHost, networks) && PhaseOf(pullable, docker.events) == Starting
    modifies docker
    ensures docker.Valid() && docker.own == if outcome.Recreated? then {outcome.id} else {}
    ensures outcome != DataOnly && docker.found == old(docker.found)
    ensures outcome.Recreated? ==> Runs(docker.containers, outcome.id, useHost, networks)
    ensures Followed(docker, pullable, outcome.Recreated?)
  {
    hide NetworkMissing, PortAllocated, PhaseOf;
    hide Docker.Valid;
    ghost var before := docker.events;
    var serr := docker.Start(cid);
    PhaseSnoc(pullable, before, Started(serr));
    if serr == None {
      return Recreated(cid);
    }
    before := docker.events;
    PhaseSnoc(pullable, before, Removed);
    if NetworkMissing(serr.value) {
      docker.Remove(cid);
      outcome := RunAgain(docker, WithBridge(useHost), None, pullable);
    } else if PortAllocated(serr.value) {
      docker.Remove(cid);
      var moved, changed := RemapPorts(useHost);
      PhaseSnoc(pullable, docker.events, Remapped(changed));
      docker.Note(changed);
      if changed {
        outcome := RunAgain(docker, moved, Some(networks), pullable);
      } else {
        outcome := Failed;
      }
    } else {
      docker.Remove(cid);
      outcome := Failed;
    }
  }

  /** The second and last attempt: create, start, and clean up after a failed start. */
  method RunAgain(docker: Docker, host: Host, nets: Option<set<string>>, ghost pullable: bool) returns (outcome: Outcome)
    requires docker.Valid() && docker.own == {} && PhaseOf(pullable, docker.events) == Again(nets == None)
    modifies docker
    ensures docker.Valid() && docker.own == if outcome.Recreated? then {outcome.id} else {}
    ensures outcome.Recreated? ==> outcome.id in docker.containers && docker.containers[outcome.id] == Box(host, nets, true)
    ensures outcome != DataOnly && docker.found == old(docker.found)
    ensures Followed(docker, pullable, outcome.Recreated?)
  {
    hide PhaseOf, NetworkMissing, PortAllocated, ImageMissing;
    hide Docker.Valid;
    ghost var before := docker.events;
    var cid, cerr := docker.Create(host, nets);
    PhaseSnoc(pullable, before, Created(nets == None, cerr));
    if cerr.Some? {
      return Failed;
    }
    before := docker.events;
    var serr := docker.Start(cid);
    PhaseSnoc(pullable, before, Started(serr));
    if serr == None {
      return Recreated(cid);
    }
    PhaseSnoc(pullable, docker.events, Removed);
    docker.Remove(cid);
    outcome := Failed;
  }

  // ----- the error messages -----

  lemma {:induction false} ContainsAt(a: string, p: string, b: string)
    ensures Contains(a + p + b, p)
  {
    if a == [] {
      assert (a + p + b)[..|p|] == p;
    } else {
      ContainsAt(a[1..], p, b);
      assert (a + p + b)[1..] == a[1..] + p + b;
    }
  }

  lemma {:induction false} ContainsSplit(s: string, p: string) returns (a: string, b: string)
    requires Contains(s, p)
    ensures s == a + p + b
  {
    if HasPrefix(s, p) {
      a, b := [], s[|p|..];
    } else {
      a, b := ContainsSplit(s[1..], p);
      a := [s[0]] + a;
    }
  }

  lemma ContainsSuffix(s: string, p: string, q: string)
    requires Contains(s, p + q)
    ensures Contains(s, q)
  {
    var a, b := ContainsSplit(s, p + q);
    assert s == (a + p) + q + b;
    ContainsAt(a + p, q, b);
  }

  /** The text occurs somewhere in the answer, in upper or lower case. */
  ghost predicate Says(e: Error, text: string) {
    var message := if e.Http? then e.body else e.message;
    exists pre, post :: ToLower(message) == pre + text + post
  }

  lemma SaysIff(e: Error, text: string)
    ensures Says(e, text) <==> Contains(ErrBody(e), text)
  {
    hide Contains, ToLower;
    var message := if e.Http? then e.body else e.message;
    if Contains(ErrBody(e), text) {
      var pre, post := ContainsSplit(ErrBody(e), text);
      assert ToLower(message) == pre + text + post;
    }
    if Says(e, text) {
      var pre, post :| ToLower(message) == pre + text + post;
      ContainsAt(pre, text, post);
    }
  }

  /** What the daemon's answers are taken for. */
  lemma ErrorsByText(e: Error)
    ensures ImageMissing(e) <==> (e.Http? && e.code == 404) || Says(e, "no such image") || Says(e, "manifest unknown")
    ensures NetworkMissing(e) <==> Says(e, "network") && (Says(e, "not found") || Says(e, "not exist"))
    ensures PortAllocated(e) <==> Says(e, "port is already allocated") || Says(e, "address already in use")
  {
    hide Contains, ErrBody, Says;
    SaysIff(e, "no such image");
    SaysIff(e, "manifest unknown");
    SaysIff(e, "network");
    SaysIff(e, "not found");
    SaysIff(e, "not exist");
    SaysIff(e, "port is already allocated");
    SaysIff(e, "address already in use");
    TwoPortMessages(e);
  }

  /** The third message looked for is an instance of the second. */
  lemma TwoPortMessages(e: Error)
    ensures PortAllocated(e)
       <==> Contains(ErrBody(e), "port is already allocated") || Contains(ErrBody(e), "address already in use")
  {
    hide Contains, ErrBody;
    assert "bind: " + "address already in use" == "bind: address already in use";
    if Contains(ErrBody(e), "bind: address already in use") {
      ContainsSuffix(ErrBody(e), "bind: ", "address already in use");
    }
  }

  /** An answer with status 404 that says a network was not found is taken for a missing image first: it ends the
      attempt, or sends it to the pull, from where the bridge is reached if the answer is the same again. */
  lemma MissingNetworkCountsAsMissingImage(pre: string, mid: string, post: string, pullable: bool)
    ensures var e := Http(404, pre + "network" + mid + "not found" + post);
      var created := Created(false, Some(e));
      ToLower(e.body) == e.body ==>
        && NetworkMissing(e) && ImageMissing(e)
        && PhaseOf(pullable, [created]) == (if pullable then Pulling else End(false))
        && PhaseOf(true, [created, Pulled(true), created]) == Bridging
  {
    var body := pre + "network" + mid + "not found" + post;
    ContainsAt(pre, "network", mid + "not found" + post);
    assert body == pre + "network" + (mid + "not found" + post);
    ContainsAt(pre + "network" + mid, "not found", post);
    var e := Http(404, body);
    var created := Created(false, Some(e));
    if ToLower(body) == body {
      assert NetworkMissing(e) && ImageMissing(e);
      hide NetworkMissing, ImageMissing, ErrBody, ToLower, Contains;
      PhaseSnoc(pullable, [], created);
      PhaseSnoc(true, [], created);
      assert [] + [created] == [created];
      PhaseSnoc(true, [created], Pulled(true));
      PhaseSnoc(true, [created, Pulled(true)], created);
      assert [created] + [Pulled(true)] + [created] == [created, Pulled(true), created];
      assert [created] + [Pulled(true)] == [created, Pulled(true)];
    }
  }

  /** The phase after k calls. */
  function PhaseAt(pullable: bool, events: seq<Event>, k: nat): Phase
    requires k <= |events|
  {
    PhaseOf(pullable, events[..k])
  }

  lemma PhaseNext(pullable: bool, events: seq<Event>, k: nat)
    requires k < |events|
    ensures PhaseAt(pullable, events, k + 1) == After(pullable, PhaseAt(pullable, events, k), events[k])
  {
    hide PhaseOf;
    assert events[..k + 1] == events[..k] + [events[k]];
    PhaseSnoc(pullable, events[..k], events[k]);
  }

  /** A run that has got stuck stays so. */
  lemma {:induction false} NeverStuck(pullable: bool, events: seq<Event>, k: nat)
    requires k <= |events| && PhaseOf(pullable, events) != Stuck
    ensures PhaseAt(pullable, events, k) != Stuck
    decreases |events| - k
  {
    if k == |events| {
      assert events[..k] == events;
    } else {
      NeverStuck(pullable, events, k + 1);
      PhaseNext(pullable, events, k);
    }
  }

  /** The phases of the create calls have their fixed places. */
  lemma {:induction false} EarlyPhases(pullable: bool, events: seq<Event>, k: nat)
    requires k <= |events|
    ensures PhaseAt(pullable, events, k) == First ==> k == 0
    ensures PhaseAt(pullable, events, k) == Pulling ==> k == 1
    ensures PhaseAt(pullable, events, k) == Second ==> k == 2
    ensures PhaseAt(pullable, events, k) == Bridging ==> k == 1 || k == 3
  {
    hide ImageMissing, NetworkMissing, PortAllocated, PhaseOf, PhaseAt;
    if k == 0 {
      FirstPhase(pullable, events);
    } else {
      EarlyPhases(pullable, events, k - 1);
      PhaseNext(pullable, events, k - 1);
    }
  }

  /** The run comes to the create on the bridge that follows a failed create. */
  predicate ReachesBridge(pullable: bool, events: seq<Event>) {
    exists k :: 0 <= k <= |events| && PhaseAt(pullable, events, k) == Bridging
  }

  /** After a pull that worked, the second create was refused for its network. */
  predicate PulledThenRefused(events: seq<Event>) {
    && |events| >= 3 && events[1] == Pulled(true)
    && events[2].Created? && events[2].err.Some? && NetworkMissing(events[2].err.value)
  }

  /** When a first create refused for its network leads to the bridge: at once if the answer does not read as a
      missing image too, and otherwise only through a pull and the same refusal once more. */
  lemma BridgeReachedIff(pullable: bool, events: seq<Event>, e: Error)
    requires NetworkMissing(e) && events != [] && events[0] == Created(false, Some(e))
    requires PhaseOf(pullable, events) != Stuck
    ensures After(pullable, First, Created(false, Some(e))) == Bridging <==> !ImageMissing(e)
    ensures ReachesBridge(pullable, events) <==> !ImageMissing(e) || (pullable && PulledThenRefused(events))
  {
    hide ImageMissing, NetworkMissing, PortAllocated, PhaseOf, PhaseAt;
    FirstPhase(pullable, events);
    PhaseNext(pullable, events, 0);
    if !ImageMissing(e) {
      assert PhaseAt(pullable, events, 1) == Bridging;
    } else {
      if |events| >= 3 {
        PhaseNext(pullable, events, 1);
        PhaseNext(pullable, events, 2);
        NeverStuck(pullable, events, 3);
        assert pullable && PulledThenRefused(events) <==> PhaseAt(pullable, events, 3) == Bridging;
      }
      if k: nat :| k <= |events| && PhaseAt(pullable, events, k) == Bridging {
        EarlyPhases(pullable, events, k);
      }
    }
  }

  lemma FirstPhase(pullable: bool, events: seq<Event>)
    ensures PhaseAt(pullable, events, 0) == First
  {
  }

  // ----- the calls, written out -----

  /** The second attempt: a create on the bridge or with other ports, a start, and the removal of what did not
      start. */
  predicate SecondScript(es: seq<Event>, bridge: bool) {
    && es != [] && es[0].Created? && es[0].bridge == bridge
    && if es[0].err.Some? then |es| == 1
       else
         && |es| >= 2 && es[1].Started?
         && if es[1].err == None then |es| == 2 else |es| == 3 && es[2] == Removed
  }

  /** From the first start on: a container that does not start is removed; a missing network brings the second
      attempt on the bridge, a taken port the one with moved ports, if any could be moved. */
  predicate StartScript(es: seq<Event>) {
    && es != [] && es[0].Started?
    && if es[0].err == None then |es| == 1
       else
         && |es| >= 2 && es[1] == Removed
         && if NetworkMissing(es[0].err.value) then SecondScript(es[2..], true)
            else if PortAllocated(es[0].err.value) then
              && |es| >= 3 && es[2].Remapped?
              && if es[2].changed then SecondScript(es[3..], false) else |es| == 3
            else |es| == 2
  }

  /** From a create on the requested networks that is not the first any more, or whose image was there. */
  predicate CreatedScript(es: seq<Event>) {
    && es != [] && es[0].Created? && !es[0].bridge
    && if es[0].err == None then StartScript(es[1..])
       else if NetworkMissing(es[0].err.value) then
         && |es| >= 2 && es[1].Created? && es[1].bridge
         && if es[1].err == None then StartScript(es[2..]) else |es| == 2
       else |es| == 1
  }

  /** All calls and answers of one recreation: a missing image is pulled, if that is allowed, and the create
      repeated. */
  predicate Script(pullable: bool, es: seq<Event>) {
    && es != [] && es[0].Created? && !es[0].bridge
    && if es[0].err.Some? && ImageMissing(es[0].err.value) then
         if !pullable then |es| == 1
         else
           && |es| >= 2 && es[1].Pulled?
           && if es[1].ok then CreatedScript(es[2..]) else |es| == 2
       else CreatedScript(es)
  }

  /** It ended with a container that started. */
  predicate EndsStarted(es: seq<Event>) {
    es != [] && es[|es| - 1] == Started(None)
  }

  /** The phases, taken from the front. */
  function PhaseFrom(pullable: bool, ph: Phase, es: seq<Event>): Phase
    decreases |es|
  {
    if es == [] then ph else PhaseFrom(pullable, After(pullable, ph, es[0]), es[1..])
  }

  lemma {:induction false} FromSnoc(pullable: bool, ph: Phase, es: seq<Event>, ev: Event)
    ensures PhaseFrom(pullable, ph, es + [ev]) == After(pullable, PhaseFrom(pullable, ph, es), ev)
    decreases |es|
  {
    hide After;
    if es == [] {
      assert [ev][1..] == [];
    } else {
      assert (es + [ev])[1..] == es[1..] + [ev];
      FromSnoc(pullable, After(pullable, ph, es[0]), es[1..], ev);
    }
  }

  lemma {:induction false} PhaseIsFrom(pullable: bool, es: seq<Event>)
    ensures PhaseOf(pullable, es) == PhaseFrom(pullable, First, es)
  {
    hide After;
    if es != [] {
      var n := |es| - 1;
      PhaseIsFrom(pullable, es[..n]);
      FromSnoc(pullable, First, es[..n], es[n]);
      assert es[..n] + [es[n]] == es;
    }
  }

  lemma {:induction false} StuckStays(pullable: bool, es: seq<Event>)
    ensures PhaseFrom(pullable, Stuck, es) == Stuck
  {
    if es != [] {
      StuckStays(pullable, es[1..]);
    }
  }

  lemma EndStays(pullable: bool, recreated: bool, es: seq<Event>)
    ensures PhaseFrom(pullable, End(recreated), es) == if es == [] then End(recreated) else Stuck
  {
    if es != [] {
      StuckStays(pullable, es[1..]);
    }
  }

  /** One call from the front. */
  lemma FromOne(pullable: bool, ph: Phase, es: seq<Event>)
    requires es != []
    ensures PhaseFrom(pullable, ph, es) == PhaseFrom(pullable, After(pullable, ph, es[0]), es[1..])
    ensures EndsStarted(es) <==> if es[1..] == [] then es[0] == Started(None) else EndsStarted(es[1..])
  {
    hide After;
    if es[1..] != [] {
      assert es[1..][|es[1..]| - 1] == es[|es| - 1];
    }
  }

  predicate EndsWell(pullable: bool, ph: Phase, es: seq<Event>, recreated: bool) {
    PhaseFrom(pullable, ph, es) == End(recreated)
  }

  lemma SecondIs(pullable: bool, bridge: bool, es: seq<Event>, recreated: bool)
    ensures EndsWell(pullable, Again(bridge), es, recreated) <==> SecondScript(es, bridge) && recreated == EndsStarted(es)
  {
    hide PhaseFrom;
    Steps(pullable, Again(bridge), es);
    if es != [] && es[0].Created? && es[0].bridge == bridge && es[0].err == None {
      assert After(pullable, Again(bridge), es[0]) == StartingAgain;
      Steps(pullable, StartingAgain, es[1..]);
      if |es| >= 2 && es[1].Started? && es[1].err.Some? {
        RemovedLast(pullable, es[1..][1..]);
        assert es[1..][1..] == es[2..] && (|es| == 3 ==> es[2..] == [es[2]]);
      }
    }
  }

  lemma RemovedLast(pullable: bool, es: seq<Event>)
    ensures forall r :: PhaseFrom(pullable, RemovingAgain, es) == End(r) <==> es == [Removed] && !r
    ensures es == [Removed] ==> !EndsStarted(es)
  {
    Steps(pullable, RemovingAgain, es);
    if es != [] {
      assert es[1..] == [] <==> es == [es[0]];
    }
  }

  /** One call from the front, and where it ends or gets stuck. */
  lemma Steps(pullable: bool, ph: Phase, es: seq<Event>)
    ensures es == [] ==> PhaseFrom(pullable, ph, es) == ph
    ensures es != [] ==>
      PhaseFrom(pullable, ph, es) == PhaseFrom(pullable, After(pullable, ph, es[0]), es[1..])
    ensures es != [] ==> (EndsStarted(es) <==> if es[1..] == [] then es[0] == Started(None) else EndsStarted(es[1..]))
    ensures forall r, rest :: PhaseFrom(pullable, End(r), rest) == if rest == [] then End(r) else Stuck
    ensures forall rest :: PhaseFrom(pullable, Stuck, rest) == Stuck
  {
    hide After, EndsStarted;
    if es != [] {
      FromOne(pullable, ph, es);
    }
    forall r, rest
      ensures PhaseFrom(pullable, End(r), rest) == if rest == [] then End(r) else Stuck
    {
      EndStays(pullable, r, rest);
    }
    forall rest
      ensures PhaseFrom(pullable, Stuck, rest) == Stuck
    {
      StuckStays(pullable, rest);
    }
  }

  lemma StartIs(pullable: bool, es: seq<Event>, recreated: bool)
    ensures EndsWell(pullable, Starting, es, recreated) <==> StartScript(es) && recreated == EndsStarted(es)
  {
    hide PhaseFrom, NetworkMissing, PortAllocated, SecondScript, EndsStarted;
    Steps(pullable, Starting, es);
    if es != [] && es[0].Started? && es[0].err.Some? {
      var e := es[0].err.value;
      var one := es[1..];
      Steps(pullable, Removing(e), one);
      if one != [] && one[0] == Removed {
        var two := one[1..];
        assert two == es[2..];
        SecondIs(pullable, true, two, recreated);
        Steps(pullable, Remapping, two);
        if two != [] {
          SecondIs(pullable, false, two[1..], recreated);
          assert two[1..] == es[|es| - |two| + 1..];
        }
        NotEmpty(es);
      }
    }
  }

  lemma NotEmpty(es: seq<Event>)
    ensures !EndsStarted([]) && !SecondScript([], true) && !SecondScript([], false)
    ensures |es| >= 3 ==> es[2..][1..] == es[3..]
  {
  }

  lemma CreatedIs(pullable: bool, es: seq<Event>, recreated: bool)
    ensures EndsWell(pullable, Second, es, recreated) <==> CreatedScript(es) && recreated == EndsStarted(es)
  {
    hide PhaseFrom, NetworkMissing, ImageMissing, PortAllocated, StartScript, EndsStarted;
    Steps(pullable, Second, es);
    NoStart();
    if es != [] {
      StartIs(pullable, es[1..], recreated);
      Steps(pullable, Bridging, es[1..]);
      if |es| >= 2 {
        StartIs(pullable, es[1..][1..], recreated);
        assert es[1..][1..] == es[2..];
      }
    }
  }

  lemma NoStart()
    ensures !EndsStarted([]) && !StartScript([])
  {
  }

  /** The phases accept exactly the scripts, and call a recreation successful exactly if its last call was a start
      that worked. */
  lemma PhasesAreScripts(pullable: bool, es: seq<Event>, recreated: bool)
    ensures PhaseOf(pullable, es) == End(recreated) <==> Script(pullable, es) && recreated == EndsStarted(es)
  {
    hide PhaseFrom, NetworkMissing, ImageMissing, PortAllocated, CreatedScript, EndsStarted;
    PhaseIsFrom(pullable, es);
    Steps(pullable, First, es);
    CreatedIs(pullable, es, recreated);
    Steps(pullable, Second, es);
    NoCreate();
    if es != [] {
      Steps(pullable, Pulling, es[1..]);
      if |es| >= 2 {
        CreatedIs(pullable, es[1..][1..], recreated);
        assert es[1..][1..] == es[2..];
      }
    }
  }

  lemma NoCreate()
    ensures !EndsStarted([]) && !CreatedScript([])
    ensures forall es: seq<Event> :: CreatedScript(es) ==> es != [] && es[0].Created? && !es[0].bridge
  {
  }

  /** The container of this start is the first that was created. */
  predicate FirstStart(es: seq<Event>, i: nat) {
    i < |es| && es[i].Started? && forall j :: 0 <= j < i ==> !es[j].Started?
  }

  lemma StartOfScript(pullable: bool, es: seq<Event>, i: nat)
    requires Script(pullable, es) && FirstStart(es, i)
    ensures StartScript(es[i..])
  {
    hide NetworkMissing, ImageMissing, PortAllocated, StartScript;
    if es[0].err.Some? && ImageMissing(es[0].err.value) {
      StartOfCreated(es[2..], i - 2);
      assert es[2..][i - 2..] == es[i..];
    } else {
      StartOfCreated(es, i);
    }
  }

  lemma StartOfCreated(es: seq<Event>, i: nat)
    requires CreatedScript(es) && FirstStart(es, i)
    ensures StartScript(es[i..])
  {
    hide NetworkMissing, PortAllocated;
    NoStart();
    if es[0].err == None {
      assert es[1..] != [] && es[1..][0] == es[1];
    } else if NetworkMissing(es[0].err.value) && es[1].err == None {
      assert es[2..] != [] && es[2..][0] == es[2];
    }
  }

  /** What follows a first start that failed, in every finished recreation: the container is removed; a create on the
      bridge comes next exactly when a network was missing, moved ports exactly when a port was taken and no network
      missing, and nothing otherwise. */
  lemma AfterFailedStart(pullable: bool, es: seq<Event>, i: nat, e: Error)
    requires PhaseOf(pullable, es).End? && FirstStart(es, i) && es[i].err == Some(e)
    ensures i + 1 < |es| && es[i + 1] == Removed
    ensures NetworkMissing(e) <==> i + 2 < |es| && es[i + 2].Created? && es[i + 2].bridge
    ensures PortAllocated(e) && !NetworkMissing(e) <==> i + 2 < |es| && es[i + 2].Remapped?
    ensures !NetworkMissing(e) && !PortAllocated(e) <==> |es| == i + 2
  {
    hide NetworkMissing, ImageMissing, PortAllocated, Script, PhaseOf, EndsStarted;
    PhasesAreScripts(pullable, es, PhaseOf(pullable, es).recreated);
    StartOfScript(pullable, es, i);
    var rest := es[i..];
    assert rest[2..] == es[i + 2..];
  }

  predicate CreateFailed(es: seq<Event>, i: nat) {
    i < |es| && es[i].Created? && es[i].err.Some?
  }

  predicate StartFailed(es: seq<Event>, i: nat) {
    i < |es| && es[i].Started? && es[i].err.Some?
  }

  /** After a start refused for its network, a recreation ends without a container only if the create on the bridge
      is refused or its start fails; with a taken port, only if no port could be moved, or the same. */
  lemma SecondChance(pullable: bool, es: seq<Event>, i: nat, e: Error)
    requires PhaseOf(pullable, es).End? && FirstStart(es, i) && es[i].err == Some(e)
    ensures NetworkMissing(e) ==>
      (PhaseOf(pullable, es) == End(false) <==> CreateFailed(es, i + 2) || StartFailed(es, i + 3))
    ensures PortAllocated(e) && !NetworkMissing(e) ==>
      (PhaseOf(pullable, es) == End(false)
       <==> (i + 2 < |es| && es[i + 2] == Remapped(false)) || CreateFailed(es, i + 3) || StartFailed(es, i + 4))
    ensures !PortAllocated(e) && !NetworkMissing(e) ==> PhaseOf(pullable, es) == End(false)
  {
    hide NetworkMissing, ImageMissing, PortAllocated, Script, PhaseOf;
    AfterFailedStart(pullable, es, i, e);
    PhasesAreScripts(pullable, es, PhaseOf(pullable, es).recreated);
    StartOfScript(pullable, es, i);
    var rest := es[i..];
    assert rest[2..] == es[i + 2..];
    assert |rest| >= 3 ==> rest[3..] == es[i + 3..];
  }
}
