/** What the hub promises over whole runs: channels close exactly when their waiter is removed, a replaced
    connection is never bound again once it has cancelled its waiters, and where those promises stop. */
module HubLaws {
  import opened AgentHub

  predicate Holds(s: State, id: string, ch: ChanId) {
    id in s.subs && s.subs[id].ch == ch
  }

  predicate Closed(s: State, ch: ChanId) {
    ch < |s.chans| && s.chans[ch].closes > 0
  }

  // ----- channels close with their waiter -----

  /** One step closes an open channel exactly when it removes the waiter that holds it. */
  lemma ClosedIffRemoved(s: State, step: Step, id: string, ch: ChanId)
    requires Inv(s) && Holds(s, id, ch)
    ensures Closed(Next(s, step), ch) <==> id !in Next(s, step).subs
    ensures id in Next(s, step).subs && !step.Subscribe? ==> Holds(Next(s, step), id, ch)
  {
    hide ClientsOk, RepliesOk, BoundOk;
    assert ChansOk(s);
    if step.Cancel? {
      CancelCloses(s, step.c, id, ch);
      hide CancelStep, ChansOk;
    } else {
      hide CancelStep, DeregisterStep, AcceptStep, SendStep, RouteStep;
      OtherStepsClose(s, step, id, ch);
    }
  }

  lemma CancelCloses(s: State, c: ConnId, id: string, ch: ChanId)
    requires ChansOk(s) && Holds(s, id, ch)
    ensures var s' := CancelStep(s, c);
      && ch < |s.chans| && !Closed(s, ch)
      && (Closed(s', ch) <==> id !in s'.subs) && (id in s'.subs ==> Holds(s', id, ch))
  {
    if ch in DoomedChans(s, c) {
      var other :| other in s.subs && BoundTo(s, other, c) && s.subs[other].ch == ch;
    }
  }

  lemma OtherStepsClose(s: State, step: Step, id: string, ch: ChanId)
    requires ChansOk(s) && Holds(s, id, ch) && !step.Cancel?
    ensures Closed(Next(s, step), ch) <==> id !in Next(s, step).subs
    ensures id in Next(s, step).subs && !step.Subscribe? ==> Holds(Next(s, step), id, ch)
  {
    hide CloseAll;
  }

  /** A channel nobody holds is never closed by the hub: it has been closed already or is orphaned. */
  lemma UnheldChannelStays(s: State, step: Step, ch: ChanId)
    requires Inv(s) && ch < |s.chans| && forall id :: !Holds(s, id, ch)
    ensures Closed(Next(s, step), ch) == Closed(s, ch)
    ensures forall id :: !Holds(Next(s, step), id, ch)
  {
    hide ClientsOk, RepliesOk, BoundOk;
    assert ChansOk(s);
    if step.Cancel? {
      UnheldByCancel(s, step.c, ch);
      hide CancelStep, ChansOk;
      forall id
        ensures !Holds(Next(s, step), id, ch)
      {
        assert !Holds(s, id, ch) && !Holds(CancelStep(s, step.c), id, ch);
      }
    } else {
      assert forall id :: id in s.subs ==> Holds(s, id, s.subs[id].ch);
      hide CancelStep, CloseAll;
    }
  }

  lemma UnheldByCancel(s: State, c: ConnId, ch: ChanId)
    requires ch < |s.chans| && forall id :: !Holds(s, id, ch)
    ensures Closed(CancelStep(s, c), ch) == Closed(s, ch) && forall id :: !Holds(CancelStep(s, c), id, ch)
  {
    assert forall id :: id in s.subs ==> Holds(s, id, s.subs[id].ch);
  }

  /** Step k of the run removes the waiter that holds ch. */
  predicate RemovedAt(s: State, steps: seq<Step>, k: nat, id: string, ch: ChanId)
    requires k < |steps|
  {
    Holds(Run(s, steps[..k]), id, ch) && id !in Run(s, steps[..k + 1]).subs
  }

  /** Whatever happens after a waiter was looked up, its channel is closed now exactly if some step in
      between removed that waiter. */
  lemma {:induction false} ClosedSinceIff(s: State, steps: seq<Step>, id: string, ch: ChanId)
    requires Inv(s) && Holds(s, id, ch)
    ensures Closed(Run(s, steps), ch) <==> exists k :: 0 <= k < |steps| && RemovedAt(s, steps, k, id, ch)
    ensures !Holds(Run(s, steps), id, ch) ==> forall any :: !Holds(Run(s, steps), any, ch)
  {
    hide Inv, Next, Closed;
    SoleHolder(s, id, ch);
    if steps != [] {
      var n := |steps| - 1;
      var front := steps[..n];
      var mid := Run(s, front);
      RunKeepsInv(s, front);
      ClosedSinceIff(s, front, id, ch);
      assert steps[..n + 1] == steps;
      forall k | 0 <= k < n
        ensures RemovedAt(s, steps, k, id, ch) == RemovedAt(s, front, k, id, ch)
      {
        assert steps[..k] == front[..k] && steps[..k + 1] == front[..k + 1];
      }
      if Holds(mid, id, ch) {
        ClosedIffRemoved(mid, steps[n], id, ch);
        HolderMayLose(mid, steps[n], id, ch);
        SoleHolder(mid, id, ch);
        assert RemovedAt(s, steps, n, id, ch) <==> id !in Run(s, steps).subs;
      } else {
        UnheldAllocated(s, front, id, ch);
        UnheldChannelStays(mid, steps[n], ch);
        assert !RemovedAt(s, steps, n, id, ch);
        if k: nat :| k < n && RemovedAt(s, front, k, id, ch) {
          assert RemovedAt(s, steps, k, id, ch);
        }
      }
    }
  }

  lemma SoleHolder(s: State, id: string, ch: ChanId)
    requires Inv(s) && Holds(s, id, ch)
    ensures ch < |s.chans| && !Closed(s, ch)
    ensures forall any :: Holds(s, any, ch) ==> any == id
  {
    assert ChansOk(s);
  }

  lemma HolderMayLose(s: State, step: Step, id: string, ch: ChanId)
    requires Inv(s) && Holds(s, id, ch)
    ensures !Holds(Next(s, step), id, ch) ==> forall any :: !Holds(Next(s, step), any, ch)
    ensures Holds(Next(s, step), id, ch) ==> id in Next(s, step).subs
    ensures id in Next(s, step).subs && !Holds(Next(s, step), id, ch) ==> !Closed(Next(s, step), ch)
  {
    SoleHolder(s, id, ch);
    StepKeepsInv(s, step);
    if Holds(Next(s, step), id, ch) {
      SoleHolder(Next(s, step), id, ch);
    }
    ClosedIffRemoved(s, step, id, ch);
    forall any | Holds(Next(s, step), any, ch)
      ensures any == id
    {
      assert any in s.subs ==> Holds(s, any, s.subs[any].ch);
    }
  }

  lemma {:induction false} UnheldAllocated(s: State, steps: seq<Step>, id: string, ch: ChanId)
    requires Inv(s) && Holds(s, id, ch)
    ensures ch < |Run(s, steps).chans|
  {
    hide Inv;
    SoleHolder(s, id, ch);
    if steps != [] {
      UnheldAllocated(s, steps[..|steps| - 1], id, ch);
    }
  }

  /** route looks the waiter up under the lock but sends after releasing it: from every state in which it has found
      a channel, one step of another goroutine closes that channel. By ClosedSinceIff the removal of the waiter is
      the only way. */
  lemma SplitRouteCanHitClosedChannel(s: State, id: string, ch: ChanId)
    requires Inv(s) && Holds(s, id, ch)
    ensures Inv(Next(s, Unsubscribe(id))) && Closed(Next(s, Unsubscribe(id)), ch)
  {
    StepKeepsInv(s, Unsubscribe(id));
    ClosedIffRemoved(s, Unsubscribe(id), id, ch);
  }

  // ----- replies reach their waiter -----

  /** A reply goes into the channel of whoever waits for its id, unless that already holds 64; nothing else
      changes. Without a waiter it is dropped. */
  lemma RouteDelivers(s: State, env: Envelope)
    requires Inv(s)
    ensures var s' := Next(s, Route(env));
      if env.id in s.subs && |s.chans[s.subs[env.id].ch].buffer| < 64 then
        var ch := s.subs[env.id].ch;
        && s'.chans[ch].buffer == s.chans[ch].buffer + [env]
        && (forall k :: 0 <= k < |s.chans| && k != ch ==> s'.chans[k] == s.chans[k])
        && s'.chans[ch].closes == 0 && |s'.chans| == |s.chans|
        && s'.subs == s.subs && s'.clients == s.clients && s'.conns == s.conns
      else s' == s
  {
    assert ChansOk(s);
  }

  /** Step k routes a reply to the waiter that holds ch. */
  predicate RoutedAt(s: State, steps: seq<Step>, k: nat, id: string, ch: ChanId)
    requires k < |steps|
  {
    steps[k].Route? && steps[k].env.id == id && Holds(Run(s, steps[..k]), id, ch)
  }

  /** The replies routed to the waiter, in order. */
  function Routed(s: State, steps: seq<Step>, id: string, ch: ChanId): seq<Envelope> {
    if steps == [] then []
    else
      var n := |steps| - 1;
      Routed(s, steps[..n], id, ch) + (if RoutedAt(s, steps, n, id, ch) then [steps[n].env] else [])
  }

  /** What was taken out of the channel, in order. */
  function Taken(s: State, steps: seq<Step>, ch: ChanId): seq<Envelope> {
    if steps == [] then []
    else
      var n := |steps| - 1;
      var before := Run(s, steps[..n]);
      Taken(s, steps[..n], ch)
      + (if steps[n] == Receive(ch) && ch < |before.chans| && before.chans[ch].buffer != [] then [before.chans[ch].buffer[0]] else [])
  }

  /** The routed replies less those that came while 64 were waiting to be taken. */
  function Accepted(s: State, steps: seq<Step>, id: string, ch: ChanId): seq<Envelope> {
    if steps == [] then []
    else
      var n := |steps| - 1;
      var front := Accepted(s, steps[..n], id, ch);
      front + (if RoutedAt(s, steps, n, id, ch) && |front| < |Taken(s, steps[..n], ch)| + 64 then [steps[n].env] else [])
  }

  /** No step but Route adds to an existing channel, and only Receive takes from it. */
  lemma BufferStep(s: State, step: Step, ch: ChanId)
    requires ch < |s.chans|
    ensures ch < |Next(s, step).chans|
    ensures var b, b' := s.chans[ch].buffer, Next(s, step).chans[ch].buffer;
      b' == if step == Receive(ch) && b != [] then b[1..]
            else if step.Route? && Holds(s, step.env.id, ch) && |b| < 64 then b + [step.env] else b
  {
  }

  /** In every run, from the moment a request waits on an empty channel: what has been taken from the channel,
      followed by what is still in it, is what was routed to the request, in order, less what met a full channel. */
  lemma {:induction false} RepliesArrive(s: State, steps: seq<Step>, id: string, ch: ChanId)
    requires Inv(s) && Holds(s, id, ch) && s.chans[ch].buffer == []
    ensures ch < |Run(s, steps).chans|
    ensures Taken(s, steps, ch) + Run(s, steps).chans[ch].buffer == Accepted(s, steps, id, ch)
    ensures |Run(s, steps).chans[ch].buffer| <= 64
  {
    hide Inv, Next;
    SoleHolder(s, id, ch);
    if steps != [] {
      var n := |steps| - 1;
      var front, step := steps[..n], steps[n];
      var mid := Run(s, front);
      RepliesArrive(s, front, id, ch);
      BufferStep(mid, step, ch);
      RunKeepsInv(s, front);
      OnlyHolder(s, front, id, ch);
      ArriveStep(Taken(s, front, ch), mid.chans[ch].buffer);
    }
  }

  lemma ArriveStep(taken: seq<Envelope>, buffer: seq<Envelope>)
    ensures buffer != [] ==> taken + [buffer[0]] + buffer[1..] == taken + buffer
    ensures forall env :: taken + (buffer + [env]) == taken + buffer + [env]
    ensures taken + [] == taken
  {
  }

  /** Whoever holds the channel later is the request it was made for. */
  lemma OnlyHolder(s: State, steps: seq<Step>, id: string, ch: ChanId)
    requires Inv(s) && Holds(s, id, ch)
    ensures forall any :: Holds(Run(s, steps), any, ch) ==> any == id
  {
    hide Inv, Next;
    ClosedSinceIff(s, steps, id, ch);
    RunKeepsInv(s, steps);
    if Holds(Run(s, steps), id, ch) {
      SoleHolder(Run(s, steps), id, ch);
    }
  }

  /** With no more than 64 replies none is dropped. */
  lemma {:induction false} FewRepliesAllArrive(s: State, steps: seq<Step>, id: string, ch: ChanId)
    requires |Routed(s, steps, id, ch)| <= 64
    ensures Accepted(s, steps, id, ch) == Routed(s, steps, id, ch)
  {
    hide Run, RoutedAt;
    if steps != [] {
      FewRepliesAllArrive(s, steps[..|steps| - 1], id, ch);
    }
  }

  /** A message to a node: the waiter of its id is bound to the node's connection, the message joins the queue of
      that connection unless it holds 64, and nothing else changes; a node without one changes nothing. */
  lemma SendBindsAndQueues(s: State, node: string, env: Envelope)
    requires Inv(s)
    ensures var s' := Next(s, Send(node, env));
      if node in s.clients then
        var c := s.clients[node];
        && (forall id :: id in s.subs <==> id in s'.subs)
        && (forall id :: id in s.subs ==>
              s'.subs[id] == if id == env.id && id != "" then Sub(Some(c), s.subs[id].ch) else s.subs[id])
        && c < |s.conns| == |s'.conns| && (forall k :: 0 <= k < |s.conns| && k != c ==> s'.conns[k] == s.conns[k])
        && s'.conns[c].out == (if |s.conns[c].out| < 64 then s.conns[c].out + [env] else s.conns[c].out)
        && s'.chans == s.chans && s'.clients == s.clients
      else s' == s
  {
    assert ClientsOk(s);
  }

  /** What was written to the connection's socket, in order. */
  function Written(s: State, steps: seq<Step>, c: ConnId): seq<Envelope> {
    if steps == [] then []
    else
      var n := |steps| - 1;
      var before := Run(s, steps[..n]);
      Written(s, steps[..n], c)
      + (if steps[n] == Write(c) && c < |before.conns| && before.conns[c].out != [] then [before.conns[c].out[0]] else [])
  }

  /** Step k sends a message to the node while c is its connection. */
  predicate SentAt(s: State, steps: seq<Step>, k: nat, c: ConnId)
    requires k < |steps|
  {
    var before := Run(s, steps[..k]);
    steps[k].Send? && c < |before.conns| && steps[k].node in before.clients && before.clients[steps[k].node] == c
  }

  /** The messages sent to the connection less those that came while 64 were waiting to be written. */
  function Queued(s: State, steps: seq<Step>, c: ConnId): seq<Envelope> {
    if steps == [] then []
    else
      var n := |steps| - 1;
      var front := Queued(s, steps[..n], c);
      front + (if SentAt(s, steps, n, c) && |front| < |Written(s, steps[..n], c)| + 64 then [steps[n].env] else [])
  }

  lemma OutStep(s: State, step: Step, c: ConnId)
    requires Inv(s) && c < |s.conns|
    ensures c < |Next(s, step).conns|
    ensures var o, o' := s.conns[c].out, Next(s, step).conns[c].out;
      o' == if step == Write(c) && o != [] then o[1..]
            else if step.Send? && step.node in s.clients && s.clients[step.node] == c && |o| < 64 then o + [step.env] else o
  {
    assert ClientsOk(s);
  }

  /** In every run each connection is written what was sent to it, in order: what has been written, followed by what
      still waits. */
  lemma {:induction false} MessagesArrive(s: State, steps: seq<Step>, c: ConnId)
    requires Inv(s) && c < |s.conns| && s.conns[c].out == []
    ensures c < |Run(s, steps).conns|
    ensures Written(s, steps, c) + Run(s, steps).conns[c].out == Queued(s, steps, c)
  {
    hide Inv, Next;
    if steps != [] {
      var n := |steps| - 1;
      var front := steps[..n];
      MessagesArrive(s, front, c);
      RunKeepsInv(s, front);
      OutStep(Run(s, front), steps[n], c);
      ArriveStep(Written(s, front, c), Run(s, front).conns[c].out);
    }
  }

  /** A connection serves, has its read pump return, cancels its waiters and leaves the client table, in this order
      and each step by itself; when it has cancelled no waiter is bound to it. */
  lemma PhasesInOrder(s: State, step: Step, c: ConnId)
    requires c < |s.conns|
    ensures c < |Next(s, step).conns|
    ensures var ph, ph' := s.conns[c].phase, Next(s, step).conns[c].phase;
      ph' == if step == ReadEnds(c) && ph == Serving then Drained
             else if step == Cancel(c) && ph == Drained then Cancelled
             else if step == Deregister(c) && ph == Cancelled then Gone else ph
    ensures step == Cancel(c) && s.conns[c].phase == Drained ==> forall id :: !BoundTo(Next(s, step), id, c)
    ensures step == Deregister(c) && s.conns[c].phase == Cancelled ==>
      var node := s.conns[c].node; node !in Next(s, step).clients || Next(s, step).clients[node] != c
  {
  }

  // ----- which connection a waiter is bound to -----

  predicate Current(s: State, c: ConnId)
    requires c < |s.conns|
  {
    s.conns[c].node in s.clients && s.clients[s.conns[c].node] == c
  }

  /** A waiter becomes bound to a connection only by a Send to its node while it is the node's client. */
  lemma BoundOnlyBySend(s: State, step: Step, id: string, c: ConnId)
    requires Inv(s) && !BoundTo(s, id, c) && BoundTo(Next(s, step), id, c)
    ensures step.Send? && step.env.id == id && c < |s.conns| && Current(s, c) && step.node == s.conns[c].node
    ensures s.conns[c].phase != Gone
  {
    assert ClientsOk(s);
    assert c < |s.conns| ==> ConnOk(s, c);
  }

  /** Replaced or deregistered, and no waiter is bound to it. */
  predicate Dead(s: State, c: ConnId) {
    c < |s.conns| && !Current(s, c) && forall id :: id in s.subs ==> !BoundTo(s, id, c)
  }

  lemma DeadStays(s: State, step: Step, c: ConnId)
    requires Inv(s) && Dead(s, c)
    ensures Dead(Next(s, step), c)
  {
    hide ChansOk, RepliesOk, BoundOk, IsNewest;
    var s' := Next(s, step);
    assert ClientsOk(s) && ConnOk(s, c);
    assert c < |s'.conns| && s'.conns[c].node == s.conns[c].node;
    assert !Current(s', c);
    forall id
      ensures !BoundTo(s', id, c)
    {
      if BoundTo(s', id, c) {
        BoundOnlyBySend(s, step, id, c);
        assert false;
      }
    }
  }

  /** Once a replaced connection has cancelled its waiters, no waiter is ever bound to it again. */
  lemma {:induction false} ReplacedThenCancelledIsFinal(s: State, c: ConnId, later: seq<Step>)
    requires Inv(s) && c < |s.conns| && s.conns[c].phase == Drained && !Current(s, c)
    ensures Inv(Run(Next(s, Cancel(c)), later)) && Dead(Run(Next(s, Cancel(c)), later), c)
  {
    hide Inv;
    var s' := Next(s, Cancel(c));
    StepKeepsInv(s, Cancel(c));
    if later == [] {
      assert forall id :: !BoundTo(s', id, c);
    } else {
      ReplacedThenCancelledIsFinal(s, c, later[..|later| - 1]);
      var before := Run(s', later[..|later| - 1]);
      StepKeepsInv(before, later[|later| - 1]);
      DeadStays(before, later[|later| - 1], c);
    }
  }

  /** A teardown removes the node's entry only if no newer connection has replaced it. */
  lemma TeardownSparesSuccessor(s: State, c: ConnId)
    requires Inv(s) && c < |s.conns| && s.conns[c].phase == Cancelled
    ensures var node := s.conns[c].node; var s' := Next(s, Deregister(c));
      && (IsNewest(s, c) ==> s'.clients == s.clients - {node})
      && (!IsNewest(s, c) ==> s'.clients == s.clients)
  {
    assert ClientsOk(s) && ConnOk(s, c);
  }

  /** The newest connection of a node, whenever one exists. */
  lemma ClientIsNewest(s: State, steps: seq<Step>, c: ConnId)
    requires Inv(s)
    ensures var t := Run(s, steps); c < |t.conns| ==>
      (Current(t, c) <==> IsNewest(t, c) && t.conns[c].phase != Gone)
  {
    RunKeepsInv(s, steps);
    var t := Run(s, steps);
    assert ClientsOk(t);
    if c < |t.conns| {
      assert ConnOk(t, c);
    }
  }

  // ----- the gap between cancelling and deregistering -----

  /** A Send in the gap binds its waiter to a dying connection: nothing but the waiter itself (its timeout)
      ever releases it, because that connection cancels only once. */
  lemma {:induction false} GapWaiterIsStranded(s: State, c: ConnId, env: Envelope, later: seq<Step>)
    requires Inv(s) && c < |s.conns| && s.conns[c].phase == Cancelled && Current(s, c)
    requires env.id != "" && env.id in s.subs
    requires forall k :: 0 <= k < |later| ==> Avoids(later[k], env.id)
    ensures var s' := Run(Next(s, Send(s.conns[c].node, env)), later);
      BoundTo(s', env.id, c) && c < |s'.conns| && s'.conns[c].phase in {Cancelled, Gone}
  {
    hide Inv, ChansOk, ClientsOk, BoundOk;
    var bound := Next(s, Send(s.conns[c].node, env));
    assert BoundTo(bound, env.id, c) && bound.conns[c].phase == Cancelled;
    if later != [] {
      var n := |later| - 1;
      assert Avoids(later[n], env.id);
      assert forall k :: 0 <= k < n ==> later[..n][k] == later[k];
      GapWaiterIsStranded(s, c, env, later[..n]);
      hide Next;
      StrandedStays(Run(bound, later[..n]), later[n], c, env.id);
    }
  }

  lemma StrandedStays(s: State, step: Step, c: ConnId, id: string)
    requires BoundTo(s, id, c) && c < |s.conns| && s.conns[c].phase in {Cancelled, Gone} && Avoids(step, id)
    ensures var s' := Next(s, step);
      BoundTo(s', id, c) && c < |s'.conns| && s'.conns[c].phase in {Cancelled, Gone}
  {
  }

  /** Exactly when a connection that has cancelled its waiters gets one again: a Send to its node, for a
      pending request, while it is still the node's client. */
  lemma LateBindingIff(s: State, c: ConnId, step: Step, id: string)
    requires Inv(s) && c < |s.conns| && s.conns[c].phase in {Cancelled, Gone} && !BoundTo(s, id, c)
    ensures BoundTo(Next(s, step), id, c)
       <==> step.Send? && step.node == s.conns[c].node && step.env.id == id && id != "" && id in s.subs && Current(s, c)
  {
    if BoundTo(Next(s, step), id, c) {
      BoundOnlyBySend(s, step, id, c);
    }
  }
}
