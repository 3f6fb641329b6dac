/** The hub that routes messages between the panel and its agents: connected clients by node, pending
    request waiters by request id.  Every step below is one critical section of the hub's mutex (or one
    event outside it), so a run is any interleaving of connections, requests and replies. */
module AgentHub {

  datatype Option<T> = None | Some(value: T)

  type ConnId = nat
  type ChanId = nat

  datatype Envelope = Envelope(id: string, payload: nat)

  const BUFFER: nat := 64

  /** A waiter's channel.  `closes` counts close() calls; a second one, or a send after the first, panics.
      `id`, the request it was made for, is a history variable. */
  datatype Chan = Chan(id: string, buffer: seq<Envelope>, closes: nat)

  /** An in-flight request: the connection it was sent on, once sent, and where its replies go. */
  datatype Sub = Sub(client: Option<ConnId>, ch: ChanId)

  /** ServeAgent's life: serving; read pump returned; waiters cancelled; deregistered. */
  datatype Phase = Serving | Drained | Cancelled | Gone

  datatype Conn = Conn(node: string, open: bool, phase: Phase, out: seq<Envelope>)

  datatype State = State(clients: map<string, ConnId>, subs: map<string, Sub>, chans: seq<Chan>, conns: seq<Conn>)

  const EMPTY: State := State(map[], map[], [], [])

  // ----- the steps -----

  datatype Step =
    | Accept(node: string)
    | ReadEnds(c: ConnId)
    | Cancel(c: ConnId)
    | Deregister(c: ConnId)
    | Send(node: string, env: Envelope)
    | Subscribe(id: string)
    | Unsubscribe(id: string)
    | Route(env: Envelope)
    | Receive(ch: ChanId)
    | Write(c: ConnId)

  function SetPhase(s: State, c: ConnId, p: Phase): State
    requires c < |s.conns|
  {
    s.(conns := s.conns[c := s.conns[c].(phase := p)])
  }

  /** A new connection replaces the node's entry and closes the previous socket. */
  function AcceptStep(s: State, node: string): State {
    var conns := if node in s.clients && s.clients[node] < |s.conns|
                 then s.conns[s.clients[node] := s.conns[s.clients[node]].(open := false)] else s.conns;
    s.(clients := s.clients[node := |s.conns|], conns := conns + [Conn(node, true, Serving, [])])
  }

  /** Send binds the waiter to the node's current connection, then queues the envelope if there is room. */
  function SendStep(s: State, node: string, env: Envelope): State {
    if node !in s.clients || s.clients[node] >= |s.conns| then s
    else
      var c := s.clients[node];
      var bound := if env.id != "" && env.id in s.subs then s.subs[env.id := s.subs[env.id].(client := Some(c))] else s.subs;
      var conn := s.conns[c];
      var queued := if |conn.out| < BUFFER then conn.(out := conn.out + [env]) else conn;
      s.(subs := bound, conns := s.conns[c := queued])
  }

  function SubscribeStep(s: State, id: string): State {
    s.(subs := s.subs[id := Sub(None, |s.chans|)], chans := s.chans + [Chan(id, [], 0)])
  }

  function CloseChan(chans: seq<Chan>, ch: ChanId): seq<Chan> {
    if ch < |chans| then chans[ch := chans[ch].(closes := chans[ch].closes + 1)] else chans
  }

  function UnsubscribeStep(s: State, id: string): State {
    if id !in s.subs then s
    else s.(subs := s.subs - {id}, chans := CloseChan(s.chans, s.subs[id].ch))
  }

  /** Lookup and non-blocking send: a full channel drops the message. */
  function RouteStep(s: State, env: Envelope): State {
    if env.id !in s.subs || s.subs[env.id].ch >= |s.chans| then s
    else
      var ch := s.subs[env.id].ch;
      if |s.chans[ch].buffer| >= BUFFER then s
      else s.(chans := s.chans[ch := s.chans[ch].(buffer := s.chans[ch].buffer + [env])])
  }

  predicate BoundTo(s: State, id: string, c: ConnId) {
    id in s.subs && s.subs[id].client == Some(c)
  }

  function DoomedChans(s: State, c: ConnId): set<ChanId> {
    set id | id in s.subs && BoundTo(s, id, c) :: s.subs[id].ch
  }

  function CloseAll(chans: seq<Chan>, which: set<ChanId>): seq<Chan> {
    seq(|chans|, k requires 0 <= k < |chans| =>
      if k in which then chans[k].(closes := chans[k].closes + 1) else chans[k])
  }

  /** Close and forget every waiter bound to c. */
  function CancelStep(s: State, c: ConnId): State {
    s.(subs := map id | id in s.subs && !BoundTo(s, id, c) :: s.subs[id],
       chans := CloseAll(s.chans, DoomedChans(s, c)))
  }

  /** The teardown removes the node's entry only if it is still this connection's. */
  function DeregisterStep(s: State, c: ConnId): State
    requires c < |s.conns|
  {
    var node := s.conns[c].node;
    if node in s.clients && s.clients[node] == c then s.(clients := s.clients - {node}) else s
  }

  function Next(s: State, step: Step): State {
    match step
    case Accept(node) => AcceptStep(s, node)
    case ReadEnds(c) => if c < |s.conns| && s.conns[c].phase == Serving then SetPhase(s, c, Drained) else s
    case Cancel(c) =>
      if c < |s.conns| && s.conns[c].phase == Drained then SetPhase(CancelStep(s, c), c, Cancelled) else s
    case Deregister(c) =>
      if c < |s.conns| && s.conns[c].phase == Cancelled then SetPhase(DeregisterStep(s, c), c, Gone) else s
    case Send(node, env) => SendStep(s, node, env)
    case Subscribe(id) => SubscribeStep(s, id)
    case Unsubscribe(id) => UnsubscribeStep(s, id)
    case Route(env) => RouteStep(s, env)
    case Receive(ch) =>
      if ch < |s.chans| && s.chans[ch].buffer != [] then s.(chans := s.chans[ch := s.chans[ch].(buffer := s.chans[ch].buffer[1..])]) else s
    case Write(c) =>
      if c < |s.conns| && s.conns[c].out != [] then s.(conns := s.conns[c := s.conns[c].(out := s.conns[c].out[1..])]) else s
  }

  function Run(s: State, steps: seq<Step>): State {
    if steps == [] then s else Next(Run(s, steps[..|steps| - 1]), steps[|steps| - 1])
  }

  /** Steps that leave a request id to its owner. */
  predicate Avoids(step: Step, id: string) {
    && !(step.Subscribe? && step.id == id)
    && !(step.Unsubscribe? && step.id == id)
    && !(step.Send? && step.env.id == id)
  }

  // ----- waiters and channels -----

  /** Pending requests hold distinct, open channels, and no channel was ever closed twice. */
  predicate ChansOk(s: State) {
    && (forall id :: id in s.subs ==> s.subs[id].ch < |s.chans| && s.chans[s.subs[id].ch].closes == 0)
    && (forall a, b :: a in s.subs && b in s.subs && s.subs[a].ch == s.subs[b].ch ==> a == b)
    && (forall k :: 0 <= k < |s.chans| ==> s.chans[k].closes <= 1)
  }

  predicate IsNewest(s: State, c: ConnId)
    requires c < |s.conns|
  {
    forall k :: c < k < |s.conns| ==> s.conns[k].node != s.conns[c].node
  }

  /** A connection is its node's client exactly when it is the node's newest and not deregistered; a
      replaced connection has had its socket closed. */
  predicate ConnOk(s: State, c: ConnId)
    requires c < |s.conns|
  {
    var conn := s.conns[c];
    && ((conn.node in s.clients && s.clients[conn.node] == c) <==> (IsNewest(s, c) && conn.phase != Gone))
    && (!IsNewest(s, c) ==> !conn.open || conn.phase == Gone)
  }

  predicate ClientsOk(s: State) {
    && (forall node :: node in s.clients ==> s.clients[node] < |s.conns| && s.conns[s.clients[node]].node == node)
    && (forall c :: 0 <= c < |s.conns| ==> ConnOk(s, c))
  }

  predicate BoundOk(s: State) {
    forall id :: id in s.subs && s.subs[id].client.Some? ==> s.subs[id].client.value < |s.conns|
  }

  /** A channel belongs to the request it was made for and holds only replies to it. */
  predicate RepliesOk(s: State) {
    && (forall id :: id in s.subs ==> s.subs[id].ch < |s.chans| && s.chans[s.subs[id].ch].id == id)
    && (forall k, i :: 0 <= k < |s.chans| && 0 <= i < |s.chans[k].buffer| ==> s.chans[k].buffer[i].id == s.chans[k].id)
  }

  predicate Inv(s: State) {
    ChansOk(s) && ClientsOk(s) && BoundOk(s) && RepliesOk(s)
  }

  lemma StepKeepsChans(s: State, step: Step)
    requires ChansOk(s)
    ensures ChansOk(Next(s, step))
  {
    hide ChansOk;
    var s' := Next(s, step);
    if step.Subscribe? {
      SubscribeKeepsChans(s, step.id);
    } else if step.Unsubscribe? {
      UnsubscribeKeepsChans(s, step.id);
    } else if step.Send? {
      SendKeepsChans(s, step.node, step.env);
    } else if step.Cancel? && s' != s {
      CancelKeepsChans(s, step.c);
      BufferKeepsChans(CancelStep(s, step.c), s');
    } else {
      BufferKeepsChans(s, s');
    }
  }

  lemma BufferKeepsChans(s: State, s': State)
    requires ChansOk(s) && s'.subs == s.subs && |s'.chans| == |s.chans|
    requires forall k :: 0 <= k < |s.chans| ==> s'.chans[k].closes == s.chans[k].closes
    ensures ChansOk(s')
  {
  }

  lemma SubscribeKeepsChans(s: State, id: string)
    requires ChansOk(s)
    ensures ChansOk(SubscribeStep(s, id))
  {
  }

  lemma UnsubscribeKeepsChans(s: State, id: string)
    requires ChansOk(s)
    ensures ChansOk(UnsubscribeStep(s, id))
  {
  }

  lemma SendKeepsChans(s: State, node: string, env: Envelope)
    requires ChansOk(s)
    ensures ChansOk(SendStep(s, node, env))
  {
  }

  lemma CancelKeepsChans(s: State, c: ConnId)
    requires ChansOk(s)
    ensures ChansOk(CancelStep(s, c))
  {
    var s' := CancelStep(s, c);
    forall k | 0 <= k < |s.chans|
      ensures s'.chans[k].closes <= 1
    {
      if k in DoomedChans(s, c) {
        var id :| id in s.subs && BoundTo(s, id, c) && s.subs[id].ch == k;
      }
    }
  }

  /** A step that changes at most one connection's phase, and removes it from the clients exactly when that
      phase is Gone, keeps the clients right. */
  lemma PhaseKeepsClients(s: State, s': State, d: ConnId)
    requires ClientsOk(s) && d < |s.conns| && |s'.conns| == |s.conns|
    requires forall c :: 0 <= c < |s.conns| ==> s'.conns[c].node == s.conns[c].node && s'.conns[c].open == s.conns[c].open
    requires forall c :: 0 <= c < |s.conns| && c != d ==> s'.conns[c].phase == s.conns[c].phase
    requires s.conns[d].phase == Gone ==> s'.conns[d].phase == Gone
    requires if s.conns[d].phase != Gone && s'.conns[d].phase == Gone then s'.clients == DeregisterStep(s, d).clients else s'.clients == s.clients
    ensures ClientsOk(s')
  {
    forall c | 0 <= c < |s'.conns|
      ensures ConnOk(s', c)
    {
      assert ConnOk(s, c) && ConnOk(s, d);
      assert IsNewest(s', c) == IsNewest(s, c);
    }
  }

  lemma StepKeepsClients(s: State, step: Step)
    requires ClientsOk(s)
    ensures ClientsOk(Next(s, step))
  {
    hide ClientsOk;
    var s' := Next(s, step);
    if step.Accept? {
      AcceptKeepsClients(s, step.node);
    } else if step.Send? && step.node in s.clients && s.clients[step.node] < |s.conns| {
      PhaseKeepsClients(s, s', s.clients[step.node]);
    } else if (step.ReadEnds? || step.Cancel? || step.Deregister? || step.Write?) && step.c < |s.conns| {
      PhaseKeepsClients(s, s', step.c);
    } else {
      SameClients(s, s');
    }
  }

  lemma SameClients(s: State, s': State)
    requires ClientsOk(s) && s'.clients == s.clients && s'.conns == s.conns
    ensures ClientsOk(s')
  {
    forall c | 0 <= c < |s'.conns|
      ensures ConnOk(s', c)
    {
      assert ConnOk(s, c) && IsNewest(s', c) == IsNewest(s, c);
    }
  }

  lemma AcceptKeepsClients(s: State, node: string)
    requires ClientsOk(s)
    ensures ClientsOk(AcceptStep(s, node))
  {
    var s' := AcceptStep(s, node);
    var n := |s.conns|;
    forall c | 0 <= c < |s'.conns|
      ensures ConnOk(s', c)
    {
      if c < n {
        assert ConnOk(s, c);
        AcceptNewest(s, node, c);
      } else {
        assert IsNewest(s', c);
      }
    }
  }

  lemma AcceptNewest(s: State, node: string, c: ConnId)
    requires c < |s.conns|
    ensures IsNewest(AcceptStep(s, node), c) <==> IsNewest(s, c) && s.conns[c].node != node
  {
    var s' := AcceptStep(s, node);
    assert s'.conns[|s.conns|].node == node;
    assert forall k :: 0 <= k < |s.conns| ==> s'.conns[k].node == s.conns[k].node;
  }

  /** Steps other than Subscribe and Route keep every waiter's channel and never add to a buffer. */
  lemma FewerReplies(s: State, s': State)
    requires RepliesOk(s) && |s'.chans| == |s.chans|
    requires forall id :: id in s'.subs ==> id in s.subs && s'.subs[id].ch == s.subs[id].ch
    requires forall k :: 0 <= k < |s.chans| ==> s'.chans[k].id == s.chans[k].id
    requires forall k :: 0 <= k < |s.chans| ==>
      s'.chans[k].buffer == s.chans[k].buffer || (s.chans[k].buffer != [] && s'.chans[k].buffer == s.chans[k].buffer[1..])
    ensures RepliesOk(s')
  {
  }

  lemma RouteKeepsReplies(s: State, env: Envelope)
    requires RepliesOk(s)
    ensures RepliesOk(RouteStep(s, env))
  {
  }

  lemma RepliesOnlyLeave(s: State, step: Step)
    requires !step.Route? && !step.Subscribe?
    ensures var s' := Next(s, step);
      && |s'.chans| == |s.chans|
      && (forall id :: id in s'.subs ==> id in s.subs && s'.subs[id].ch == s.subs[id].ch)
      && (forall k :: 0 <= k < |s.chans| ==> s'.chans[k].id == s.chans[k].id)
      && (forall k :: 0 <= k < |s.chans| ==>
            s'.chans[k].buffer == s.chans[k].buffer || (s.chans[k].buffer != [] && s'.chans[k].buffer == s.chans[k].buffer[1..]))
  {
  }

  lemma StepKeepsReplies(s: State, step: Step)
    requires RepliesOk(s)
    ensures RepliesOk(Next(s, step))
  {
    if step.Route? {
      RouteKeepsReplies(s, step.env);
    } else if !step.Subscribe? {
      hide RepliesOk;
      RepliesOnlyLeave(s, step);
      hide Next;
      FewerReplies(s, Next(s, step));
    }
  }

  lemma StepKeepsBound(s: State, step: Step)
    requires BoundOk(s)
    ensures BoundOk(Next(s, step))
  {
  }

  lemma StepKeepsInv(s: State, step: Step)
    requires Inv(s)
    ensures Inv(Next(s, step))
  {
    hide ChansOk, ClientsOk, RepliesOk, BoundOk;
    StepKeepsReplies(s, step);
    StepKeepsBound(s, step);
    StepKeepsChans(s, step);
    StepKeepsClients(s, step);
  }

  /** In every reachable state: waiters hold distinct open channels, no channel is closed twice, a node's
      client is its newest connection or absent. */
  lemma {:induction false} RunKeepsInv(s: State, steps: seq<Step>)
    requires Inv(s)
    ensures Inv(Run(s, steps))
  {
    if steps != [] {
      RunKeepsInv(s, steps[..|steps| - 1]);
      StepKeepsInv(Run(s, steps[..|steps| - 1]), steps[|steps| - 1]);
    }
  }

  lemma InitInv()
    ensures Inv(EMPTY)
  {
  }
}
