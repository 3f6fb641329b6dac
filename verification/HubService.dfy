/** The hub as an object: the maps it keeps under its mutex, changed in place by methods that each equal one
    step of AgentHub, and RequestOne on top of them with every other goroutine free to act in between. */
module HubService {
  import opened AgentHub
  import HubLaws

  datatype SendResult = Sent | Offline | SlowConsumer

  datatype Reply = Message(env: Envelope) | ErrOffline | ErrSlow | ErrTimeout

  /** What a request does to the hub, in order. */
  datatype Call = DidSubscribe(id: string) | DidSend(node: string, env: Envelope, r: SendResult) | DidUnsubscribe(id: string)

  /** A step another goroutine may take while a request waits. */
  predicate ByOthers(step: Step, id: string, ch: ChanId) {
    Avoids(step, id) && step != Receive(ch)
  }

  /** What a request that waits on ch returns after these steps: the first reply that arrived, if it does not time
      out; nothing else can be returned for a message; without one and without a timeout its waiter was removed. */
  predicate Answers(waiting: State, steps: seq<Step>, id: string, ch: ChanId, r: Reply, fired: bool) {
    var replies := HubLaws.Accepted(waiting, steps, id, ch);
    && r != ErrSlow
    && (r.Message? ==> replies != [] && r.env == replies[0] && r.env.id == id)
    && (!fired && replies != [] ==> r == Message(replies[0]))
    && (!fired && replies == [] ==> r == ErrOffline)
    && (r == ErrOffline ==> replies == [] && !HubLaws.Holds(Run(waiting, steps), id, ch))
    && (r == ErrTimeout ==> fired)
  }

  class Hub {
    var clients: map<string, ConnId>
    var subs: map<string, Sub>
    var chans: seq<Chan>
    var conns: seq<Conn>
    /** The calls made by the methods below, not by others. */
    ghost var calls: seq<Call>

    constructor ()
      ensures View() == EMPTY && Valid()
    {
      clients, subs, chans, conns, calls := map[], map[], [], [], [];
      new;
      InitInv();
    }

    function View(): State
      reads this
    {
      State(clients, subs, chans, conns)
    }

    ghost predicate Valid()
      reads this
    {
      Inv(View())
    }

    /** close(ch): panics on a closed channel, so callers must know that it is open. */
    method Close(ch: ChanId)
      requires ch < |chans| && chans[ch].closes == 0
      modifies this`chans
      ensures chans == CloseChan(old(chans), ch)
    {
      chans := chans[ch := chans[ch].(closes := chans[ch].closes + 1)];
    }

    method Register(node: string) returns (c: ConnId)
      requires Valid()
      modifies this
      ensures View() == Next(old(View()), Accept(node)) && Valid()
      ensures c == |old(conns)| && node in clients && clients[node] == c
    {
      StepKeepsInv(View(), Accept(node));
      c := |conns|;
      if node in clients && clients[node] < |conns| {
        var prev := clients[node];
        conns := conns[prev := conns[prev].(open := false)];
      }
      clients := clients[node := c];
      conns := conns + [Conn(node, true, Serving, [])];
    }

    method Send(node: string, env: Envelope) returns (r: SendResult)
      requires Valid()
      modifies this
      ensures View() == Next(old(View()), AgentHub.Send(node, env)) && Valid()
      ensures r == Offline <==> node !in old(clients)
      ensures r == Sent <==> node in old(clients) && conns != old(conns)
      ensures chans == old(chans) && subs.Keys == old(subs).Keys
      ensures forall id :: id in subs ==> subs[id].ch == old(subs)[id].ch
      ensures calls == old(calls) + [DidSend(node, env, r)]
    {
      hide ChansOk, BoundOk, RepliesOk, ConnOk;
      StepKeepsInv(View(), AgentHub.Send(node, env));
      assert ClientsOk(View());
      if node !in clients {
        calls := calls + [DidSend(node, env, Offline)];
        return Offline;
      }
      var c := clients[node];
      if env.id != "" && env.id in subs {
        subs := subs[env.id := subs[env.id].(client := Some(c))];
      }
      if |conns[c].out| < BUFFER {
        assert |(conns[c].out + [env])| == |conns[c].out| + 1;
        conns := conns[c := conns[c].(out := conns[c].out + [env])];
        r := Sent;
      } else {
        r := SlowConsumer;
      }
      calls := calls + [DidSend(node, env, r)];
    }

    method Subscribe(id: string) returns (ch: ChanId)
      requires Valid()
      modifies this
      ensures View() == Next(old(View()), AgentHub.Subscribe(id)) && Valid()
      ensures ch == |old(chans)| && id in subs && subs[id] == Sub(None, ch) && chans == old(chans) + [Chan(id, [], 0)]
      ensures calls == old(calls) + [DidSubscribe(id)]
    {
      StepKeepsInv(View(), AgentHub.Subscribe(id));
      ch := |chans|;
      chans := chans + [Chan(id, [], 0)];
      subs := subs[id := Sub(None, ch)];
      calls := calls + [DidSubscribe(id)];
    }

    method Unsubscribe(id: string)
      requires Valid()
      modifies this
      ensures View() == Next(old(View()), AgentHub.Unsubscribe(id)) && Valid()
      ensures id !in subs && calls == old(calls) + [DidUnsubscribe(id)]
    {
      calls := calls + [DidUnsubscribe(id)];
      StepKeepsInv(View(), AgentHub.Unsubscribe(id));
      if id in subs {
        var s := subs[id];
        assert ChansOk(View());
        subs := subs - {id};
        Close(s.ch);
      }
    }

    method Route(env: Envelope)
      requires Valid()
      modifies this
      ensures View() == Next(old(View()), AgentHub.Route(env)) && Valid()
    {
      StepKeepsInv(View(), AgentHub.Route(env));
      assert ChansOk(View());
      if env.id in subs {
        var ch := subs[env.id].ch;
        if |chans[ch].buffer| < BUFFER {
          chans := chans[ch := chans[ch].(buffer := chans[ch].buffer + [env])];
        }
      }
    }

    /** cancelClientSubs: collect the doomed request ids, then close and delete them one by one. */
    method CancelClientSubs(c: ConnId)
      requires Valid()
      modifies this`subs, this`chans
      ensures View() == CancelStep(old(View()), c)
    {
      hide ClientsOk, BoundOk, RepliesOk, CloseAll, ChansOf, CancelStep;
      var doomed := DoomedIds(c);
      ghost var s0 := View();
      assert ChansOk(s0);
      hide ChansOk;
      NoneDoomed(s0);
      assert doomed[..0] == [];
      var i := 0;
      while i < |doomed|
        invariant 0 <= i <= |doomed|
        invariant clients == s0.clients && conns == s0.conns
        invariant subs == map id | id in s0.subs && id !in doomed[..i] :: s0.subs[id]
        invariant chans == CloseAll(s0.chans, ChansOf(s0, doomed[..i]))
      {
        var id := doomed[i];
        assert id !in doomed[..i];
        ClosedSoFar(s0, doomed, i);
        SubsSoFar(s0, doomed, i);
        Close(subs[id].ch);
        subs := subs - {id};
        i := i + 1;
      }
      assert doomed[..|doomed|] == doomed;
      AllDoomed(s0, c, doomed);
    }

    /** The first loop: the ids of the waiters bound to c, in any order, each once. */
    method DoomedIds(c: ConnId) returns (doomed: seq<string>)
      ensures forall id :: id in doomed <==> BoundTo(View(), id, c)
      ensures forall i, j :: 0 <= i < j < |doomed| ==> doomed[i] != doomed[j]
    {
      doomed := [];
      var todo := subs.Keys;
      while todo != {}
        invariant todo <= subs.Keys
        invariant forall id :: id in doomed <==> BoundTo(View(), id, c) && id !in todo
        invariant forall i, j :: 0 <= i < j < |doomed| ==> doomed[i] != doomed[j]
        decreases todo
      {
        var id :| id in todo;
        todo := todo - {id};
        if subs[id].client == Some(c) {
          doomed := doomed + [id];
        }
      }
    }

    /** The end of ServeAgent: cancel first, then leave the client table if still its entry. */
    method Teardown(c: ConnId) returns (wasCurrent: bool)
      requires Valid() && c < |conns| && conns[c].phase == Drained
      modifies this
      ensures View() == Run(old(View()), [Cancel(c), Deregister(c)]) && Valid()
      ensures wasCurrent <==> old(conns[c].node in clients && clients[conns[c].node] == c)
    {
      hide ChansOk, ClientsOk, BoundOk, RepliesOk;
      ghost var s0 := View();
      StepKeepsInv(s0, Cancel(c));
      CancelClientSubs(c);
      conns := conns[c := conns[c].(phase := Cancelled)];
      assert View() == Next(s0, Cancel(c));
      StepKeepsInv(View(), Deregister(c));
      var node := conns[c].node;
      wasCurrent := node in clients && clients[node] == c;
      if wasCurrent {
        clients := clients - {node};
      }
      conns := conns[c := conns[c].(phase := Gone)];
      assert [Cancel(c), Deregister(c)][..1] == [Cancel(c)] && [Cancel(c)][..0] == [];
      assert Run(s0, []) == s0;
      assert Run(s0, [Cancel(c)]) == Next(s0, Cancel(c));
    }

    /** Any number of steps of other goroutines, which never use request id `id` themselves and do not have its
        channel. */
    method Others(id: string, ch: ChanId) returns (ghost steps: seq<Step>)
      requires Valid()
      modifies this
      ensures Valid() && calls == old(calls)
      ensures View() == Run(old(View()), steps) && forall k :: 0 <= k < |steps| ==> ByOthers(steps[k], id, ch)
      ensures |chans| >= |old(chans)|
      ensures id in subs ==> id in old(subs) && subs[id].ch == old(subs)[id].ch
      ensures id in old(subs) && id !in subs ==> chans[old(subs)[id].ch].closes == 1
      ensures forall k :: 0 <= k < |old(chans)| ==> chans[k].id == old(chans)[k].id
      ensures forall k :: 0 <= k < |old(chans)| && old(chans)[k].closes == 1 ==> chans[k].closes == 1
    {
      hide Next, ClientsOk, BoundOk, RepliesOk, Run;
      var n: nat := *;
      ghost var s0 := View();
      steps := [];
      NoSteps(s0);
      while n > 0
        invariant Valid() && |chans| >= |s0.chans| && calls == old(calls)
        invariant View() == Run(s0, steps) && forall k :: 0 <= k < |steps| ==> ByOthers(steps[k], id, ch)
        invariant id in subs ==> id in s0.subs && subs[id].ch == s0.subs[id].ch
        invariant id in s0.subs && id !in subs ==> chans[s0.subs[id].ch].closes == 1
        invariant forall k :: 0 <= k < |s0.chans| ==> chans[k].id == s0.chans[k].id
        invariant forall k :: 0 <= k < |s0.chans| && s0.chans[k].closes == 1 ==> chans[k].closes == 1
      {
        var step: Step := *;
        if ByOthers(step, id, ch) {
          StepKeepsInv(View(), step);
          AvoidingStep(View(), step, id);
          RunSnoc(s0, steps, step);
          steps := steps + [step];
          var s := Next(View(), step);
          clients, subs, chans, conns := s.clients, s.subs, s.chans, s.conns;
        }
        n := n - 1;
      }
    }

    /** RequestOne: it subscribes, sends and unsubscribes, in this order; `steps` are its own Send and what the other
        goroutines did while it waited. When it returns its waiter is gone and its channel has been closed exactly
        once. Of the replies that reached it by then it returns the first, unless the timer fired; without a reply
        and without the timer its connection is gone; and a failed send is reported as what it was. */
    method RequestOne(node: string, env: Envelope)
      returns (r: Reply, ghost steps: seq<Step>, ghost sent: SendResult, ghost fired: bool)
      requires Valid() && env.id !in subs
      modifies this
      ensures Valid() && env.id !in subs
      ensures |old(chans)| < |chans| && chans[|old(chans)|].closes == 1
      ensures calls == old(calls) + [DidSubscribe(env.id), DidSend(node, env, sent), DidUnsubscribe(env.id)]
      ensures sent == Offline ==> r == ErrOffline
      ensures sent == SlowConsumer ==> r == ErrSlow
      ensures var waiting := Next(old(View()), AgentHub.Subscribe(env.id));
        && AgentHub.Send(node, env) in steps
        && View() == Next(Run(waiting, steps), AgentHub.Unsubscribe(env.id))
        && (sent == Sent ==> Answers(waiting, steps, env.id, |old(chans)|, r, fired))
    {
      hide Next, ChansOk, ClientsOk, BoundOk, RepliesOk, Run, Answers;
      ghost var s0 := View();
      var ch := Subscribe(env.id);
      ghost var waiting := View();
      ghost var before := Others(env.id, ch);
      sent := Sent;
      var result := Send(node, env);
      sent, fired := result, false;
      RunSnoc(waiting, before, AgentHub.Send(node, env));
      steps := before + [AgentHub.Send(node, env)];
      assert steps[|before|] == AgentHub.Send(node, env);
      ghost var made := [DidSubscribe(env.id), DidSend(node, env, sent), DidUnsubscribe(env.id)];
      assert old(calls) + made == old(calls) + [DidSubscribe(env.id)] + [DidSend(node, env, sent)] + [DidUnsubscribe(env.id)];
      if result != Sent {
        Finish(env.id, ch);
        r := if result == Offline then ErrOffline else ErrSlow;
        return;
      }
      ghost var after := Others(env.id, ch);
      RunAppend(waiting, steps, after);
      NotTaken(before, after, env.id, ch, AgentHub.Send(node, env));
      steps := steps + after;
      Arrived(waiting, steps, env.id, ch);
      var timer: bool := *;
      var ready := chans[ch].buffer != [] || chans[ch].closes > 0;
      if !ready {
        timer := true;
      }
      var takes: bool := *;
      if ready && (!timer || takes) {
        r := if chans[ch].buffer != [] then Message(chans[ch].buffer[0]) else ErrOffline;
      } else {
        r := ErrTimeout;
      }
      fired := timer;
      AnswersAre(waiting, steps, env.id, ch, r, fired);
      Finish(env.id, ch);
    }

    /** The deferred Unsubscribe. */
    method Finish(id: string, ch: ChanId)
      requires Valid() && ch < |chans|
      requires if id in subs then subs[id].ch == ch else chans[ch].closes == 1
      modifies this
      ensures Valid() && id !in subs && |chans| == |old(chans)| && chans[ch].closes == 1
      ensures View() == Next(old(View()), AgentHub.Unsubscribe(id))
      ensures calls == old(calls) + [DidUnsubscribe(id)]
    {
      assert ChansOk(View());
      Unsubscribe(id);
    }
  }

  function ChansOf(s: State, ids: seq<string>): set<ChanId> {
    set id | id in ids && id in s.subs :: s.subs[id].ch
  }

  lemma NoneDoomed(s: State)
    ensures s.subs == map id | id in s.subs && id !in [] :: s.subs[id]
    ensures CloseAll(s.chans, ChansOf(s, [])) == s.chans
  {
    assert ChansOf(s, []) == {};
  }

  /** With all doomed waiters closed and deleted, the cancellation is done. */
  lemma AllDoomed(s: State, c: ConnId, doomed: seq<string>)
    requires forall id :: id in doomed <==> BoundTo(s, id, c)
    ensures CancelStep(s, c)
         == s.(subs := map id | id in s.subs && id !in doomed :: s.subs[id], chans := CloseAll(s.chans, ChansOf(s, doomed)))
  {
    hide CloseAll;
    assert ChansOf(s, doomed) == DoomedChans(s, c);
  }

  /** Closing the waiters one by one never meets a closed channel. */
  lemma ClosedSoFar(s: State, doomed: seq<string>, i: nat)
    requires ChansOk(s) && i < |doomed|
    requires forall id :: id in doomed ==> id in s.subs
    requires doomed[i] !in doomed[..i]
    ensures var ch := s.subs[doomed[i]].ch;
      && ch < |s.chans| && |CloseAll(s.chans, ChansOf(s, doomed[..i]))| == |s.chans|
      && CloseAll(s.chans, ChansOf(s, doomed[..i]))[ch].closes == 0
      && CloseChan(CloseAll(s.chans, ChansOf(s, doomed[..i])), ch) == CloseAll(s.chans, ChansOf(s, doomed[..i + 1]))
  {
    var ch := s.subs[doomed[i]].ch;
    assert doomed[..i + 1] == doomed[..i] + [doomed[i]];
    assert ChansOf(s, doomed[..i + 1]) == ChansOf(s, doomed[..i]) + {ch};
    assert ch !in ChansOf(s, doomed[..i]);
    CloseOneMore(s.chans, ChansOf(s, doomed[..i]), ch);
  }

  lemma CloseOneMore(chans: seq<Chan>, which: set<ChanId>, ch: ChanId)
    requires ch < |chans| && ch !in which
    ensures CloseChan(CloseAll(chans, which), ch) == CloseAll(chans, which + {ch})
  {
  }

  /** Steps of others leave a waiter alone or, when its connection dies, close and remove it. */
  lemma AvoidingStep(s: State, step: Step, id: string)
    requires Inv(s) && Avoids(step, id)
    ensures var s' := Next(s, step);
      && |s'.chans| >= |s.chans|
      && (id in s'.subs ==> id in s.subs && s'.subs[id].ch == s.subs[id].ch)
      && (id in s.subs && id !in s'.subs ==> s'.chans[s.subs[id].ch].closes == 1)
      && (forall k :: 0 <= k < |s.chans| ==> s'.chans[k].id == s.chans[k].id)
      && (forall k :: 0 <= k < |s.chans| && s.chans[k].closes == 1 ==> s'.chans[k].closes == 1)
  {
    hide ChansOk, ClientsOk, RepliesOk, BoundOk;
    StepKeepsInv(s, step);
    ClosesStep(s, step);
    if id in s.subs {
      HubLaws.ClosedIffRemoved(s, step, id, s.subs[id].ch);
    }
  }

  lemma ClosesStep(s: State, step: Step)
    requires ChansOk(s) && ChansOk(Next(s, step))
    ensures var s' := Next(s, step);
      && |s'.chans| >= |s.chans|
      && (forall id :: id in s.subs ==> s.subs[id].ch < |s.chans|)
      && (forall k :: 0 <= k < |s.chans| ==> s'.chans[k].id == s.chans[k].id && s.chans[k].closes <= s'.chans[k].closes <= 1)
  {
    ClosesGrow(s, step);
    hide Next;
  }

  lemma ClosesGrow(s: State, step: Step)
    ensures var s' := Next(s, step);
      && |s'.chans| >= |s.chans|
      && (forall k :: 0 <= k < |s.chans| ==> s'.chans[k].id == s.chans[k].id && s.chans[k].closes <= s'.chans[k].closes)
  {
  }

  /** Deleting the next doomed waiter. */
  lemma SubsSoFar(s: State, doomed: seq<string>, i: nat)
    requires i < |doomed|
    ensures (map id | id in s.subs && id !in doomed[..i] :: s.subs[id]) - {doomed[i]}
         == map id | id in s.subs && id !in doomed[..i + 1] :: s.subs[id]
  {
    assert doomed[..i + 1] == doomed[..i] + [doomed[i]];
  }

  lemma NoSteps(s: State)
    ensures Run(s, []) == s
  {
  }

  lemma RunSnoc(s: State, steps: seq<Step>, step: Step)
    ensures Run(s, steps + [step]) == Next(Run(s, steps), step)
  {
    assert (steps + [step])[..|steps|] == steps;
  }

  lemma {:induction false} RunAppend(s: State, a: seq<Step>, b: seq<Step>)
    ensures Run(s, a + b) == Run(Run(s, a), b)
  {
    hide Next;
    if b == [] {
      assert a + b == a;
    } else {
      RunAppend(s, a, b[..|b| - 1]);
      assert (a + b)[..|a + b| - 1] == a + b[..|b| - 1];
    }
  }

  lemma NotTaken(a: seq<Step>, b: seq<Step>, id: string, ch: ChanId, own: Step)
    requires own.Send? && forall k :: 0 <= k < |a| ==> ByOthers(a[k], id, ch)
    requires forall k :: 0 <= k < |b| ==> ByOthers(b[k], id, ch)
    ensures forall k :: 0 <= k < |a + [own] + b| ==> (a + [own] + b)[k] != Receive(ch)
  {
  }

  lemma {:induction false} NothingTaken(s: State, steps: seq<Step>, ch: ChanId)
    requires forall k :: 0 <= k < |steps| ==> steps[k] != Receive(ch)
    ensures HubLaws.Taken(s, steps, ch) == []
  {
    hide Run;
    if steps != [] {
      NothingTaken(s, steps[..|steps| - 1], ch);
    }
  }

  /** What lies in the channel of a request that has taken nothing yet is what arrived for it. */
  lemma Arrived(waiting: State, steps: seq<Step>, id: string, ch: ChanId)
    requires Inv(waiting) && HubLaws.Holds(waiting, id, ch) && ch < |waiting.chans| && waiting.chans[ch].buffer == []
    requires forall k :: 0 <= k < |steps| ==> steps[k] != Receive(ch)
    ensures ch < |Run(waiting, steps).chans|
    ensures Run(waiting, steps).chans[ch].buffer == HubLaws.Accepted(waiting, steps, id, ch)
  {
    hide Inv, Next, Run;
    HubLaws.RepliesArrive(waiting, steps, id, ch);
    NothingTaken(waiting, steps, ch);
    var buffer := Run(waiting, steps).chans[ch].buffer;
    assert [] + buffer == buffer;
  }

  lemma {:induction false} AcceptedAnswer(s: State, steps: seq<Step>, id: string, ch: ChanId)
    ensures forall i :: 0 <= i < |HubLaws.Accepted(s, steps, id, ch)| ==> HubLaws.Accepted(s, steps, id, ch)[i].id == id
  {
    hide Run;
    if steps != [] {
      AcceptedAnswer(s, steps[..|steps| - 1], id, ch);
    }
  }

  lemma AnswersAre(waiting: State, steps: seq<Step>, id: string, ch: ChanId, r: Reply, fired: bool)
    requires Inv(waiting) && HubLaws.Holds(waiting, id, ch)
    requires ch < |Run(waiting, steps).chans|
    requires var c := Run(waiting, steps).chans[ch];
      && c.buffer == HubLaws.Accepted(waiting, steps, id, ch)
      && (c.buffer == [] && c.closes == 0 ==> fired)
      && (if r.Message? then c.buffer != [] && r.env == c.buffer[0]
          else if r == ErrOffline then c.buffer == [] && c.closes > 0
          else r == ErrTimeout && fired)
    ensures Answers(waiting, steps, id, ch, r, fired)
  {
    hide Inv, Next, Run;
    AcceptedAnswer(waiting, steps, id, ch);
    RunKeepsInv(waiting, steps);
    if HubLaws.Holds(Run(waiting, steps), id, ch) {
      HubLaws.SoleHolder(Run(waiting, steps), id, ch);
    }
  }
}
