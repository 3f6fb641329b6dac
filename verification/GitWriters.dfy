/** Any number of writers committing to one branch.  Each runs the retry loop shared by gitDataPush and
    gitDataDelete: read the ref, read its commit's tree, make a tree, make a commit, fast-forward the ref;
    start over (at most five times) when the ref update fails.  Every request is its own step, so the
    writers interleave freely; a request may reach the server without its answer reaching the writer. */
module GitWriters {
  import opened GitServer

  const TRIES: nat := 5

  datatype Phase =
    | Ready                           // about to read HEAD
    | HaveRef(head: nat)              // knows the branch's commit
    | HaveBase(head: nat, base: Tree) // knows that commit's tree
    | HaveTree(head: nat, tree: Tree) // has made its own tree
    | HaveCommit(commit: nat)         // has made its commit, is moving the ref
    | Succeeded
    | Failed

  datatype WriterState = WriterState(change: Change, attempt: nat, phase: Phase)

  datatype System = System(server: Server, writers: map<nat, WriterState>)

  datatype Step =
    | Spawn(w: nat, change: Change)
    | ReadRef(w: nat)
    | ReadBase(w: nat)
    | MakeTree(w: nat)
    | MakeCommit(w: nat, answered: bool)
    | UpdateRef(w: nat, answered: bool)
    | RefError(w: nat)    // the ref update is reported failed without a server verdict
    | Abort(w: nat)       // any other request fails, or the context ends while waiting
    | Outside(entry: Entry)

  /** The ref update failed: wait and try again, or give up after the last attempt. */
  function Retry(x: WriterState): WriterState {
    if x.attempt + 1 < TRIES then WriterState(x.change, x.attempt + 1, Ready) else x.(phase := Failed)
  }

  function Init(t: Tree): System {
    System(InitServer(t), map[])
  }

  function Next(s: System, step: Step): System {
    match step
    case Spawn(w, change) =>
      if w in s.writers then s else s.(writers := s.writers[w := WriterState(change, 0, Ready)])
    case Outside(e) =>
      if s.server.head < |s.server.commits| then s.(server := DirectWrite(s.server, e)) else s
    case _ =>
      if step.w !in s.writers then s else WriterStep(s, step, s.writers[step.w])
  }

  function WriterStep(s: System, step: Step, x: WriterState): System
    requires !step.Spawn? && !step.Outside?
    requires step.w in s.writers && s.writers[step.w] == x
  {
    var w := step.w;
    match (step, x.phase)
    case (ReadRef(_), Ready) =>
      s.(writers := s.writers[w := x.(phase := HaveRef(s.server.head))])
    case (ReadBase(_), HaveRef(h)) =>
      if h < |s.server.commits| then
        s.(writers := s.writers[w := x.(phase := HaveBase(h, s.server.commits[h].tree))])
      else s
    case (MakeTree(_), HaveBase(h, base)) =>
      s.(writers := s.writers[w := x.(phase := HaveTree(h, ApplyEntries(base, x.change)))])
    case (MakeCommit(_, answered), HaveTree(h, tree)) =>
      var made := AddCommit(s.server, tree, h, Landing(Writer(w), x.change));
      System(made, if answered then s.writers[w := x.(phase := HaveCommit(|s.server.commits|))] else s.writers)
    case (UpdateRef(_, answered), HaveCommit(c)) =>
      var verdict := if FastForward(s.server, c) then x.(phase := Succeeded) else Retry(x);
      System(MoveRef(s.server, c), if answered then s.writers[w := verdict] else s.writers)
    case (RefError(_), HaveCommit(_)) =>
      s.(writers := s.writers[w := Retry(x)])
    case (Abort(_), _) =>
      if x.phase.Succeeded? then s else s.(writers := s.writers[w := x.(phase := Failed)])
    case _ => s
  }

  // ----- the invariant -----

  predicate LandedIn(s: Server, landing: Landing)
    requires ServerInv(s)
  {
    landing in Log(s)
  }

  predicate WriterOk(s: Server, w: nat, x: WriterState)
    requires ServerInv(s)
  {
    && x.attempt < TRIES
    && match x.phase
       case Ready => true
       case HaveRef(h) => h in s.trail
       case HaveBase(h, base) => h in s.trail && base == s.commits[h].tree
       case HaveTree(h, tree) => h in s.trail && tree == ApplyEntries(s.commits[h].tree, x.change)
       case HaveCommit(c) => 0 < c < |s.commits| && s.made[c] == Landing(Writer(w), x.change)
       case Succeeded => LandedIn(s, Landing(Writer(w), x.change))
       case Failed => true
  }

  predicate Inv(s: System) {
    && ServerInv(s.server)
    && forall w :: w in s.writers ==> WriterOk(s.server, w, s.writers[w])
  }

  lemma WriterOkGrows(a: Server, b: Server, w: nat, x: WriterState)
    requires ServerInv(a) && ServerInv(b) && Grows(a, b) && WriterOk(a, w, x)
    ensures WriterOk(b, w, x)
  {
    LogGrows(a, b);
    if x.phase.Succeeded? {
      var i :| 0 <= i < |Log(a)| && Log(a)[i] == Landing(Writer(w), x.change);
      assert Log(b)[i] == Landing(Writer(w), x.change);
    } else if x.phase.HaveRef? || x.phase.HaveBase? || x.phase.HaveTree? {
      var h := x.phase.head;
      var i :| 0 <= i < |a.trail| && a.trail[i] == h;
      assert b.trail[i] == h;
    }
  }

  /** A commit the branch points to is the last landing of the log. */
  lemma HeadLanded(s: Server, c: nat)
    requires ServerInv(s) && c > 0 && s.head == c
    ensures s.made[c] in Log(s)
  {
    assert Log(s)[|Log(s)| - 1] == s.made[c];
  }

  lemma ServerStepKeepsInv(s: System, step: Step)
    requires Inv(s)
    ensures ServerInv(Next(s, step).server) && Grows(s.server, Next(s, step).server)
  {
    if step.Outside? {
      DirectWriteKeepsInv(s.server, step.entry);
    } else if !step.Spawn? && step.w in s.writers {
      var x := s.writers[step.w];
      assert WriterOk(s.server, step.w, x);
      hide ServerInv, MoveRef;
      if step.MakeCommit? && x.phase.HaveTree? {
        AddCommitKeepsInv(s.server, x.phase.tree, x.phase.head, Landing(Writer(step.w), x.change));
      } else if step.UpdateRef? && x.phase.HaveCommit? {
        MoveRefKeepsInv(s.server, x.phase.commit);
      }
    }
  }

  lemma StepKeepsInv(s: System, step: Step)
    requires Inv(s)
    ensures Inv(Next(s, step)) && Grows(s.server, Next(s, step).server)
  {
    ServerStepKeepsInv(s, step);
    var s' := Next(s, step);
    hide ServerInv, Grows;
    forall w | w in s'.writers
      ensures WriterOk(s'.server, w, s'.writers[w])
    {
      if w in s.writers && s'.writers[w] == s.writers[w] {
        WriterOkGrows(s.server, s'.server, w, s.writers[w]);
      } else if w in s.writers {
        MovedWriterOk(s, step);
      }
    }
  }

  /** The writer a step moves satisfies the invariant of its new phase. */
  lemma MovedWriterOk(s: System, step: Step)
    requires Inv(s) && !step.Spawn? && !step.Outside? && step.w in s.writers
    requires ServerInv(Next(s, step).server) && Grows(s.server, Next(s, step).server)
    ensures WriterOk(Next(s, step).server, step.w, Next(s, step).writers[step.w])
  {
    var s' := Next(s, step);
    var x := s.writers[step.w];
    WriterOkGrows(s.server, s'.server, step.w, x);
    assert s.server.trail[|s.server.trail| - 1] in s.server.trail;
    if step.UpdateRef? && x.phase.HaveCommit? && FastForward(s.server, x.phase.commit) {
      HeadLanded(s'.server, x.phase.commit);
    }
  }

  // ----- whole runs -----

  function Run(t: Tree, steps: seq<Step>): System {
    if steps == [] then Init(t) else Next(Run(t, steps[..|steps| - 1]), steps[|steps| - 1])
  }

  lemma {:induction false} RunInv(t: Tree, steps: seq<Step>)
    ensures Inv(Run(t, steps))
  {
    if steps != [] {
      RunInv(t, steps[..|steps| - 1]);
      StepKeepsInv(Run(t, steps[..|steps| - 1]), steps[|steps| - 1]);
    }
  }

  lemma {:induction false} InitialTreeStays(t: Tree, steps: seq<Step>)
    ensures |Run(t, steps).server.commits| > 0
    ensures Run(t, steps).server.commits[0].tree == t
  {
    if steps != [] {
      var before := Run(t, steps[..|steps| - 1]);
      InitialTreeStays(t, steps[..|steps| - 1]);
      RunInv(t, steps[..|steps| - 1]);
      StepKeepsInv(before, steps[|steps| - 1]);
    }
  }

  /** The landings of a run, in ref-update order. */
  function LogOf(t: Tree, steps: seq<Step>): seq<Landing> {
    RunInv(t, steps);
    Log(Run(t, steps).server)
  }

  function HeadTree(t: Tree, steps: seq<Step>): Tree {
    RunInv(t, steps);
    var s := Run(t, steps).server;
    s.commits[s.head].tree
  }

  /** In every run the branch is one linear chain from the initial commit to HEAD. */
  lemma BranchIsLinear(t: Tree, steps: seq<Step>)
    ensures var s := Run(t, steps).server;
      && |s.trail| > 0 && s.trail[0] == 0 && s.trail[|s.trail| - 1] == s.head
      && (forall i :: 0 <= i < |s.trail| ==> s.trail[i] < |s.commits|)
      && (forall i :: 0 < i < |s.trail| ==> s.commits[s.trail[i]].parents == [s.trail[i - 1]])
  {
    RunInv(t, steps);
  }

  /** In every run the tree at HEAD is the fold of the landings, in ref-update order, over the initial
      tree, and every writer that reports success has landed. */
  lemma BranchIsFoldOfLandings(t: Tree, steps: seq<Step>)
    ensures HeadTree(t, steps) == Fold(t, LogOf(t, steps))
    ensures var s := Run(t, steps);
      forall w :: w in s.writers && s.writers[w].phase.Succeeded? ==> Landing(Writer(w), s.writers[w].change) in LogOf(t, steps)
  {
    var s := Run(t, steps);
    RunInv(t, steps);
    InitialTreeStays(t, steps);
    TreeIsFold(s.server, |s.server.trail| - 1);
    assert Log(s.server)[..|s.server.trail| - 1] == Log(s.server);
    forall w | w in s.writers && s.writers[w].phase.Succeeded?
      ensures Landing(Writer(w), s.writers[w].change) in Log(s.server)
    {
      assert WriterOk(s.server, w, s.writers[w]);
    }
  }

  /** No race loses a landed path: whatever landing i left at a path is at HEAD unless a later landing
      names that path. */
  lemma NoLandedPathIsLost(t: Tree, steps: seq<Step>, i: nat, p: string, e: Entry)
    requires i < |LogOf(t, steps)| && LastAt(LogOf(t, steps)[i].change, p, e)
    requires forall k :: i < k < |LogOf(t, steps)| ==> !Touches(LogOf(t, steps)[k].change, p)
    ensures At(HeadTree(t, steps), p) == Outcome(e)
  {
    BranchIsFoldOfLandings(t, steps);
    FoldKeeps(t, LogOf(t, steps), i, p, e);
  }

  /** Landings are never undone or reordered by what happens next. */
  lemma {:induction false} LogOnlyGrows(t: Tree, steps: seq<Step>, more: seq<Step>)
    ensures LogOf(t, steps) <= LogOf(t, steps + more)
  {
    if more == [] {
      assert steps + more == steps;
    } else {
      var front := steps + more[..|more| - 1];
      assert (steps + more)[..|steps + more| - 1] == front;
      LogOnlyGrows(t, steps, more[..|more| - 1]);
      RunInv(t, front);
      StepKeepsInv(Run(t, front), more[|more| - 1]);
      LogGrows(Run(t, front).server, Run(t, steps + more).server);
    }
  }

  /** A commit by anybody else lands at once, on top of HEAD, and disturbs no writer's own state. */
  lemma OutsideLands(s: System, e: Entry)
    requires Inv(s)
    ensures var s' := Next(s, Outside(e));
      && Inv(s') && Log(s'.server) == Log(s.server) + [Landing(External, [e])] && s'.writers == s.writers
      && At(s'.server.commits[s'.server.head].tree, e.path) == Outcome(e)
  {
    StepKeepsInv(s, Outside(e));
    HeadIsOnTrail(s.server);
    var s' := Next(s, Outside(e));
    LogOfStep(s, Outside(e));
    assert [e][..0] == [];
    hide Log, ServerInv, WriterOk;
    assert s'.server == DirectWrite(s.server, e);
  }

  /** A writer gives up exactly when it is aborted before its success, or when its fifth ref update fails. */
  lemma FailsIff(s: System, step: Step, w: nat)
    requires Inv(s) && w in s.writers && s.writers[w].phase != Failed
    ensures w in Next(s, step).writers
    ensures var x := s.writers[w];
      Next(s, step).writers[w].phase == Failed
      <==> (step == Abort(w) && x.phase != Succeeded)
           || (x.attempt == 4 && x.phase.HaveCommit?
               && (step == RefError(w) || (step == UpdateRef(w, true) && !FastForward(s.server, x.phase.commit))))
  {
    assert WriterOk(s.server, w, s.writers[w]);
    hide ServerInv, WriterOk, FastForward;
  }

  // ----- how often a change lands -----

  function Landings(log: seq<Landing>, w: nat): nat {
    if log == [] then 0
    else Landings(log[..|log| - 1], w) + (if log[|log| - 1].author == Writer(w) then 1 else 0)
  }

  /** A ref update of `w` moves the branch, and its answer is lost. */
  predicate LandsUnseen(s: System, step: Step, w: nat) {
    && step == UpdateRef(w, false) && w in s.writers && s.writers[w].phase.HaveCommit?
    && FastForward(s.server, s.writers[w].phase.commit) && s.writers[w].phase.commit != s.server.head
  }

  predicate OnceOk(s: System, w: nat)
    requires Inv(s)
  {
    && Landings(Log(s.server), w) == (if w in s.writers && s.writers[w].phase.Succeeded? then 1 else 0)
    && (w in s.writers && s.writers[w].phase.HaveCommit? ==> s.writers[w].phase.commit !in s.server.trail)
    && (w !in s.writers ==> forall c :: 0 <= c < |s.server.made| ==> s.server.made[c].author != Writer(w))
  }

  /** The log gains at most the commit a step moves the branch to. */
  lemma LogOfStep(s: System, step: Step)
    requires Inv(s)
    ensures ServerInv(Next(s, step).server)
    ensures var a, b := s.server, Next(s, step).server;
      Log(b) == (if b.trail == a.trail then Log(a) else Log(a) + [b.made[b.head]])
  {
    StepKeepsInv(s, step);
    var a, b := s.server, Next(s, step).server;
    LogGrows(a, b);
  }

  /** Only a writer's own ref update, or an outside write, moves the branch. */
  lemma WhoMovesTheBranch(s: System, step: Step)
    requires Inv(s) && Next(s, step).server.trail != s.server.trail
    ensures var s' := Next(s, step);
      if step.Outside? then s'.server.made[s'.server.head].author == External
      else
        && step.UpdateRef? && step.w in s.writers && s.writers[step.w].phase == HaveCommit(s'.server.head)
        && s'.server.trail == s.server.trail + [s'.server.head] && s'.server.made == s.server.made
        && s'.server.made[s'.server.head].author == Writer(step.w)
        && s'.writers == (if step.answered then s.writers[step.w := s.writers[step.w].(phase := Succeeded)] else s.writers)
  {
    if !step.Outside? && step.w in s.writers {
      assert WriterOk(s.server, step.w, s.writers[step.w]);
    }
  }

  lemma OnceCount(s: System, step: Step, w: nat)
    requires Inv(s) && OnceOk(s, w) && step != UpdateRef(w, false)
    requires ServerInv(Next(s, step).server)
    ensures var s' := Next(s, step);
      Landings(Log(s'.server), w) == (if w in s'.writers && s'.writers[w].phase.Succeeded? then 1 else 0)
  {
    hide ServerInv, WriterOk;
    LogOfStep(s, step);
    var s' := Next(s, step);
    if s'.server.trail != s.server.trail {
      WhoMovesTheBranch(s, step);
      var log := Log(s'.server);
      assert log[..|log| - 1] == Log(s.server);
    } else {
      SuccessMovesTheBranch(s, step, w);
    }
  }

  /** A writer that has not landed before cannot succeed without moving the branch. */
  lemma SuccessMovesTheBranch(s: System, step: Step, w: nat)
    requires Inv(s) && OnceOk(s, w) && Next(s, step).server.trail == s.server.trail
    ensures var s' := Next(s, step);
      (w in s'.writers && s'.writers[w].phase.Succeeded?) <==> (w in s.writers && s.writers[w].phase.Succeeded?)
  {
    assert s.server.trail[|s.server.trail| - 1] in s.server.trail;
  }

  lemma OnceCommit(s: System, step: Step, w: nat)
    requires Inv(s) && OnceOk(s, w) && step != UpdateRef(w, false)
    requires ServerInv(Next(s, step).server)
    ensures var s' := Next(s, step);
      w in s'.writers && s'.writers[w].phase.HaveCommit? ==> s'.writers[w].phase.commit !in s'.server.trail
  {
    hide ServerInv;
    var s' := Next(s, step);
    HeadIsOnTrail(s.server);
    if w in s'.writers && s'.writers[w].phase.HaveCommit? {
      var c := s'.writers[w].phase.commit;
      if s'.server.trail != s.server.trail {
        WhoMovesTheBranch(s, step);
        assert WriterOk(s.server, w, s.writers[w]);
      }
    }
  }

  lemma OnceStep(s: System, step: Step, w: nat)
    requires Inv(s) && OnceOk(s, w) && !LandsUnseen(s, step, w)
    ensures Inv(Next(s, step)) && OnceOk(Next(s, step), w)
  {
    StepKeepsInv(s, step);
    if step == UpdateRef(w, false) {
      hide OnceOk, Inv;
      assert Next(s, step) == s;
    } else {
      OnceFresh(s, step, w);
      hide Next, ServerInv, WriterOk;
      OnceCount(s, step, w);
      OnceCommit(s, step, w);
    }
  }

  /** Nobody else makes commits in a writer's name. */
  lemma OnceFresh(s: System, step: Step, w: nat)
    requires Inv(s) && OnceOk(s, w)
    ensures var s' := Next(s, step);
      w !in s'.writers ==> forall c :: 0 <= c < |s'.server.made| ==> s'.server.made[c].author != Writer(w)
  {
    hide ServerInv, WriterOk, Log;
  }

  /** Step k of the run is a ref update of `w` that lands unseen. */
  predicate UnseenAt(t: Tree, steps: seq<Step>, w: nat, k: nat)
    requires k < |steps|
  {
    LandsUnseen(Run(t, steps[..k]), steps[k], w)
  }

  predicate NeverUnseen(t: Tree, steps: seq<Step>, w: nat) {
    forall k :: 0 <= k < |steps| ==> !UnseenAt(t, steps, w, k)
  }

  /** The change of `w` is on the branch once if `w` has succeeded, and not at all otherwise. */
  predicate LandedOnce(t: Tree, steps: seq<Step>, w: nat) {
    var s := Run(t, steps);
    Landings(LogOf(t, steps), w) == if w in s.writers && s.writers[w].phase.Succeeded? then 1 else 0
  }

  lemma UnseenPrefix(t: Tree, steps: seq<Step>, w: nat, k: nat)
    requires NeverUnseen(t, steps, w) && k <= |steps|
    ensures NeverUnseen(t, steps[..k], w)
  {
    forall i | 0 <= i < k
      ensures !UnseenAt(t, steps[..k], w, i)
    {
      assert steps[..k][..i] == steps[..i];
      assert !UnseenAt(t, steps, w, i);
    }
  }

  lemma {:induction false} LandsOnce(t: Tree, steps: seq<Step>, w: nat)
    requires NeverUnseen(t, steps, w)
    ensures Inv(Run(t, steps)) && OnceOk(Run(t, steps), w)
  {
    if steps == [] {
      assert Log(Run(t, steps).server) == [];
    } else {
      hide OnceOk, Inv, Next, LandsUnseen;
      var n := |steps| - 1;
      UnseenPrefix(t, steps, w, n);
      assert !UnseenAt(t, steps, w, n);
      LandsOnce(t, steps[..n], w);
      OnceStep(Run(t, steps[..n]), steps[n], w);
    }
  }

  lemma UnseenCounts(s: System, step: Step, w: nat)
    requires Inv(s) && LandsUnseen(s, step, w)
    ensures Inv(Next(s, step)) && Next(s, step).writers == s.writers
    ensures Landings(Log(Next(s, step).server), w) == Landings(Log(s.server), w) + 1
  {
    StepKeepsInv(s, step);
    LogOfStep(s, step);
    WhoMovesTheBranch(s, step);
    var log := Log(Next(s, step).server);
    hide Log, ServerInv, WriterOk;
    assert log[..|log| - 1] == Log(s.server);
  }

  /** A landing unseen is a landing before success. */
  lemma UnseenIsEarly(t: Tree, steps: seq<Step>, w: nat, k: nat)
    requires k < |steps| && UnseenAt(t, steps, w, k)
    ensures !LandedOnce(t, steps[..k], w) || !LandedOnce(t, steps[..k + 1], w)
  {
    hide Run, Next, Log, Landings, Inv;
    assert steps[..k + 1] == steps[..k] + [steps[k]];
    RunExtend(t, steps[..k], steps[k]);
    RunInv(t, steps[..k]);
    UnseenCounts(Run(t, steps[..k]), steps[k], w);
  }

  /** Exactly when the branch and the writer agree all along, at every moment of a run: no ref update of the writer
      that moved the branch lost its answer. */
  lemma LandsOnceIff(t: Tree, steps: seq<Step>, w: nat)
    ensures (forall k :: 0 <= k <= |steps| ==> LandedOnce(t, steps[..k], w)) <==> NeverUnseen(t, steps, w)
  {
    hide LandsUnseen, Inv, Landings;
    if NeverUnseen(t, steps, w) {
      forall k | 0 <= k <= |steps|
        ensures LandedOnce(t, steps[..k], w)
      {
        UnseenPrefix(t, steps, w, k);
        LandsOnce(t, steps[..k], w);
      }
    } else {
      hide LandedOnce, UnseenAt;
      var k: nat :| k < |steps| && UnseenAt(t, steps, w, k);
      UnseenIsEarly(t, steps, w, k);
    }
  }

  // ----- how often it has landed when it succeeds -----

  predicate IsReady(s: System, w: nat) {
    w in s.writers && s.writers[w].phase.Ready?
  }

  /** How often the change of `w` had landed when `w` last set out on a pass. */
  function LandedBefore(t: Tree, steps: seq<Step>, w: nat): nat {
    if IsReady(Run(t, steps), w) then Landings(LogOf(t, steps), w)
    else if steps == [] then 0
    else LandedBefore(t, steps[..|steps| - 1], w)
  }

  /** Some pass of `w` sets out although its change is on the branch. */
  predicate SetsOutAgain(t: Tree, steps: seq<Step>, w: nat) {
    exists k :: 0 <= k <= |steps| && IsReady(Run(t, steps[..k]), w) && Landings(LogOf(t, steps[..k]), w) > 0
  }

  /** With n landings of `w`: those before the current pass, and one more once this pass's own commit is on the
      branch. */
  predicate PassCount(s: System, w: nat, before: nat, n: nat) {
    if w !in s.writers then
      n == before == 0 && forall c :: 0 <= c < |s.server.made| ==> s.server.made[c].author != Writer(w)
    else
      && before <= s.writers[w].attempt
      && match s.writers[w].phase
         case HaveCommit(c) => n == before + (if c in s.server.trail then 1 else 0)
         case Succeeded => n == before + 1
         case Failed => before <= n <= before + 1
         case _ => n == before
  }

  predicate PassOk(s: System, w: nat, before: nat)
    requires Inv(s)
  {
    PassCount(s, w, before, Landings(Log(s.server), w))
  }

  function BeforeNext(s: System, step: Step, w: nat, before: nat): nat
    requires Inv(Next(s, step))
  {
    if IsReady(Next(s, step), w) then Landings(Log(Next(s, step).server), w) else before
  }

  /** The commit a ref update moves the branch to was not on it. */
  lemma NewHeadIsNew(s: Server, c: nat)
    requires ServerInv(s) && FastForward(s, c) && c != s.head
    ensures c !in s.trail
  {
    AncestorIsOlder(s.commits, s.head, c);
  }

  /** A step that leaves the branch alone. */
  lemma PassStill(s: System, step: Step, w: nat, before: nat, n: nat)
    requires PassCount(s, w, before, n) && Next(s, step).server.trail == s.server.trail
    requires s.server.head in s.server.trail && forall c :: c in s.server.trail ==> c < |s.server.commits|
    ensures PassCount(Next(s, step), w, if IsReady(Next(s, step), w) then n else before, n)
  {
    hide FastForward;
  }

  /** A step of somebody else that moves the branch. */
  lemma PassOthers(s: System, s': System, w: nat, before: nat, n: nat, h: nat)
    requires PassCount(s, w, before, n) && s'.server.trail == s.server.trail + [h]
    requires if w in s.writers then w in s'.writers && s'.writers[w] == s.writers[w] else w !in s'.writers
    requires w in s.writers && s.writers[w].phase.HaveCommit? ==> s.writers[w].phase.commit != h
    requires forall c :: 0 <= c < |s'.server.made| && s'.server.made[c].author == Writer(w) ==>
               c < |s.server.made| && s'.server.made[c] == s.server.made[c]
    ensures PassCount(s', w, if IsReady(s', w) then n else before, n)
  {
  }

  /** The writer's own ref update that moves the branch. */
  lemma PassOwn(s: System, s': System, w: nat, before: nat, n: nat, h: nat)
    requires PassCount(s, w, before, n) && s'.server.trail == s.server.trail + [h] && h !in s.server.trail
    requires w in s.writers && s.writers[w].phase == HaveCommit(h)
    requires w in s'.writers && (s'.writers[w] == s.writers[w] || s'.writers[w] == s.writers[w].(phase := Succeeded))
    ensures PassCount(s', w, if IsReady(s', w) then n + 1 else before, n + 1)
  {
  }

  /** A step that moves the branch. */
  lemma PassMoves(s: System, step: Step, w: nat, before: nat)
    requires Inv(s) && PassOk(s, w, before) && Inv(Next(s, step)) && Next(s, step).server.trail != s.server.trail
    ensures PassOk(Next(s, step), w, BeforeNext(s, step, w, before))
  {
    var s' := Next(s, step);
    LogOfStep(s, step);
    WhoMovesTheBranch(s, step);
    var log, n, h := Log(s'.server), Landings(Log(s.server), w), s'.server.head;
    assert log == Log(s.server) + [s'.server.made[h]];
    LandingsSnoc(Log(s.server), s'.server.made[h], w);
    hide Log, Landings, PassCount, ServerInv, FastForward;
    if step.UpdateRef? && step.w == w {
      NewHeadIsNew(s.server, h);
      PassOwn(s, s', w, before, n, h);
    } else {
      if w in s.writers && s.writers[w].phase.HaveCommit? {
        assert WriterOk(s.server, w, s.writers[w]);
      }
      PassOthers(s, s', w, before, n, h);
    }
  }

  lemma LandingsSnoc(log: seq<Landing>, landing: Landing, w: nat)
    ensures Landings(log + [landing], w) == Landings(log, w) + (if landing.author == Writer(w) then 1 else 0)
  {
    assert (log + [landing])[..|log|] == log;
  }

  lemma PassStep(s: System, step: Step, w: nat, before: nat)
    requires Inv(s) && PassOk(s, w, before)
    ensures Inv(Next(s, step)) && PassOk(Next(s, step), w, BeforeNext(s, step, w, before))
  {
    StepKeepsInv(s, step);
    LogOfStep(s, step);
    HeadIsOnTrail(s.server);
    hide PassCount, Inv, ServerInv, Next, Log, Landings;
    if Next(s, step).server.trail == s.server.trail {
      PassStill(s, step, w, before, Landings(Log(s.server), w));
    } else {
      PassMoves(s, step, w, before);
    }
  }

  lemma {:induction false} RunPasses(t: Tree, steps: seq<Step>, w: nat)
    ensures Inv(Run(t, steps)) && PassOk(Run(t, steps), w, LandedBefore(t, steps, w))
  {
    if steps == [] {
      assert Log(Run(t, steps).server) == [];
    } else {
      hide PassOk, Inv, Next;
      var n := |steps| - 1;
      RunPasses(t, steps[..n], w);
      PassStep(Run(t, steps[..n]), steps[n], w, LandedBefore(t, steps[..n], w));
    }
  }

  lemma NobodyYet(t: Tree, w: nat)
    ensures !IsReady(Run(t, []), w)
  {
  }

  lemma LandingsGrow(t: Tree, steps: seq<Step>, w: nat)
    requires steps != []
    ensures Landings(LogOf(t, steps), w) >= LandedBefore(t, steps[..|steps| - 1], w)
  {
    var n := |steps| - 1;
    var s := Run(t, steps[..n]);
    RunPasses(t, steps[..n], w);
    LogOfStep(s, steps[n]);
    var log := Log(Run(t, steps).server);
    hide LandedBefore, Run, Next, Log;
    if log != Log(s.server) {
      assert log[..|log| - 1] == Log(s.server);
    }
  }

  lemma {:induction false} LandedBeforeIff(t: Tree, steps: seq<Step>, w: nat)
    ensures LandedBefore(t, steps, w) > 0 <==> SetsOutAgain(t, steps, w)
  {
    hide Next, Landings, Log, IsReady;
    var n := |steps|;
    assert steps[..n] == steps;
    if n > 0 {
      var front := steps[..n - 1];
      LandedBeforeIff(t, front, w);
      LandingsGrow(t, steps, w);
      assert forall k :: 0 <= k < n ==> front[..k] == steps[..k];
      assert SetsOutAgain(t, steps, w)
        <==> SetsOutAgain(t, front, w) || (IsReady(Run(t, steps), w) && Landings(LogOf(t, steps), w) > 0);
      hide SetsOutAgain;
    } else {
      assert !IsReady(Run(t, steps), w) by {
        NobodyYet(t, w);
      }
    }
  }

  /** A writer that succeeds has landed once more than before its last pass, so at most five times in all, and just
      once exactly when it never set out again after a landing. */
  lemma SucceedsOnceIff(t: Tree, steps: seq<Step>, w: nat)
    requires var s := Run(t, steps); w in s.writers && s.writers[w].phase.Succeeded?
    ensures Landings(LogOf(t, steps), w) == LandedBefore(t, steps, w) + 1 <= TRIES
    ensures Landings(LogOf(t, steps), w) == 1 <==> !SetsOutAgain(t, steps, w)
  {
    hide Landings, LandedBefore, SetsOutAgain;
    RunPasses(t, steps, w);
    LandedBeforeIff(t, steps, w);
    assert WriterOk(Run(t, steps).server, w, Run(t, steps).writers[w]);
  }

  lemma RunExtend(t: Tree, steps: seq<Step>, step: Step)
    ensures Run(t, steps + [step]) == Next(Run(t, steps), step)
  {
    assert (steps + [step])[..|steps + [step]| - 1] == steps;
  }

  /** The state a pass of the retry loop reaches just before its ref update: a new commit on HEAD. */
  function PassMade(s: System, w: nat): System
    requires s.server.head < |s.server.commits| && w in s.writers
  {
    var x := s.writers[w];
    System(AddCommit(s.server, ApplyEntries(s.server.commits[s.server.head].tree, x.change), s.server.head,
                     Landing(Writer(w), x.change)),
           s.writers[w := x.(phase := HaveCommit(|s.server.commits|))])
  }

  function Pass(w: nat): seq<Step> {
    [ReadRef(w), ReadBase(w), MakeTree(w), MakeCommit(w, true)]
  }

  lemma PassRuns(t: Tree, steps: seq<Step>, w: nat)
    requires var s := Run(t, steps); w in s.writers && s.writers[w].phase == Ready && s.server.head < |s.server.commits|
    ensures Run(t, steps + Pass(w)) == PassMade(Run(t, steps), w)
  {
    var s := Run(t, steps);
    var x := s.writers[w];
    var h := s.server.head;
    var base := s.server.commits[h].tree;
    var a := steps + [ReadRef(w)];
    var b := a + [ReadBase(w)];
    var c := b + [MakeTree(w)];
    RunExtend(t, steps, ReadRef(w));
    RunExtend(t, a, ReadBase(w));
    RunExtend(t, b, MakeTree(w));
    RunExtend(t, c, MakeCommit(w, true));
    assert steps + Pass(w) == c + [MakeCommit(w, true)];
    PassStates(s, w, Run(t, a), Run(t, b), Run(t, c));
  }

  lemma PassStates(s: System, w: nat, a: System, b: System, c: System)
    requires s.server.head < |s.server.commits| && w in s.writers && s.writers[w].phase == Ready
    requires a == Next(s, ReadRef(w)) && b == Next(a, ReadBase(w)) && c == Next(b, MakeTree(w))
    ensures Next(c, MakeCommit(w, true)) == PassMade(s, w)
  {
    var x := s.writers[w];
    var h := s.server.head;
    var base := s.server.commits[h].tree;
    assert a.writers == s.writers[w := x.(phase := HaveRef(h))];
    assert b.writers == s.writers[w := x.(phase := HaveBase(h, base))];
    assert c.writers == s.writers[w := x.(phase := HaveTree(h, ApplyEntries(base, x.change)))];
  }

  /** A ref update on the unmoved branch lands, whether or not its answer arrives. */
  lemma UpdateLands(s: System, w: nat, answered: bool)
    requires Inv(s) && w in s.writers && s.writers[w].phase.HaveCommit?
    requires var c := s.writers[w].phase.commit;
      c < |s.server.commits| && s.server.commits[c].parents == [s.server.head]
    ensures var c := s.writers[w].phase.commit;
      Next(s, UpdateRef(w, answered)) ==
        System(s.server.(head := c, trail := s.server.trail + [c]),
               if answered then s.writers[w := s.writers[w].(phase := Succeeded)] else s.writers)
  {
    assert WriterOk(s.server, w, s.writers[w]);
    var c := s.writers[w].phase.commit;
    FastForwardMeansOnHead(s.server, c);
    assert CommitOk(s.server, c);
  }

  /** A whole successful pass: the writer's commit becomes HEAD. */
  lemma PassLands(t: Tree, steps: seq<Step>, w: nat, answered: bool)
    requires var s := Run(t, steps); w in s.writers && s.writers[w].phase == Ready
    ensures Inv(Run(t, steps))
    ensures var s, s' := Run(t, steps), Run(t, steps + Pass(w) + [UpdateRef(w, answered)]);
      var c := |s.server.commits|; var x := s.writers[w];
      && |s'.server.commits| == c + 1 && |s.server.made| == c
      && s'.server.head == c && s'.server.trail == s.server.trail + [c]
      && s'.server.made == s.server.made + [Landing(Writer(w), x.change)]
      && s'.writers == s.writers[w := x.(phase := if answered then Succeeded else HaveCommit(c))]
  {
    RunInv(t, steps);
    PassRuns(t, steps, w);
    RunInv(t, steps + Pass(w));
    RunExtend(t, steps + Pass(w), UpdateRef(w, answered));
    UpdateLands(Run(t, steps + Pass(w)), w, answered);
  }

  /** Why the answers matter: a push whose ref update lands without an answer is committed a second time,
      so a path deleted in between comes back. */
  lemma LostAnswerLandsTwice(p: string, b: Bytes)
    ensures exists steps :: var log := LogOf(map[], steps);
      && |log| == 3 && Landings(log, 1) == 2
      && log[1] == Landing(Writer(2), [Remove(p)]) && log[2] == Landing(Writer(1), [Put(p, b)])
      && At(HeadTree(map[], steps), p) == {b}
  {
    var push: Change := [Put(p, b)];
    var delete: Change := [Remove(p)];
    var r2 := LostPush(push);
    var r4 := DeleteAfter(r2, push, delete);
    var r6 := PushAgain(r4, push, delete);
    ReturnedPath(map[], r6, p, b);
  }

  lemma LostPush(push: Change) returns (r: seq<Step>)
    ensures var s := Run(map[], r);
      && s.server.trail == [0, 1] && s.server.head == 1 && |s.server.commits| == |s.server.made| == 2
      && s.server.made[1..] == [Landing(Writer(1), push)]
      && s.writers == map[1 := WriterState(push, 0, HaveCommit(1))]
  {
    RunExtend(map[], [], Spawn(1, push));
    r := [Spawn(1, push)];
    assert [] + r == r;
    assert Run(map[], []) == Init(map[]);
    PassLands(map[], r, 1, false);
    r := r + Pass(1) + [UpdateRef(1, false)];
  }

  lemma DeleteAfter(r: seq<Step>, push: Change, delete: Change) returns (r': seq<Step>)
    requires var s := Run(map[], r);
      && s.server.trail == [0, 1] && s.server.head == 1 && |s.server.commits| == |s.server.made| == 2
      && s.server.made[1..] == [Landing(Writer(1), push)]
      && s.writers == map[1 := WriterState(push, 0, HaveCommit(1))]
    ensures var s := Run(map[], r');
      && s.server.trail == [0, 1, 2] && s.server.head == 2 && |s.server.commits| == |s.server.made| == 3
      && s.server.made[1..] == [Landing(Writer(1), push), Landing(Writer(2), delete)]
      && s.writers == map[1 := WriterState(push, 0, HaveCommit(1)), 2 := WriterState(delete, 0, Succeeded)]
  {
    RunExtend(map[], r, Spawn(2, delete));
    r' := r + [Spawn(2, delete)];
    var s := Run(map[], r);
    assert Run(map[], r') == s.(writers := s.writers[2 := WriterState(delete, 0, Ready)]);
    hide Run, Inv, Pass, Next;
    PassLands(map[], r', 2, true);
    r' := r' + Pass(2) + [UpdateRef(2, true)];
    MoreMade(s.server.made, Landing(Writer(1), push), Landing(Writer(2), delete));
  }

  lemma MoreMade(made: seq<Landing>, first: Landing, next: Landing)
    requires |made| > 0 && made[1..] == [first]
    ensures (made + [next])[1..] == [first, next]
  {
    assert (made + [next])[1..] == made[1..] + [next];
  }

  lemma PushAgain(r: seq<Step>, push: Change, delete: Change) returns (r': seq<Step>)
    requires var s := Run(map[], r);
      && s.server.trail == [0, 1, 2] && s.server.head == 2 && |s.server.commits| == |s.server.made| == 3
      && s.server.made[1..] == [Landing(Writer(1), push), Landing(Writer(2), delete)]
      && s.writers == map[1 := WriterState(push, 0, HaveCommit(1)), 2 := WriterState(delete, 0, Succeeded)]
    ensures var s := Run(map[], r').server;
      && s.trail == [0, 1, 2, 3] && |s.commits| == |s.made| == 4
      && s.made[1..] == [Landing(Writer(1), push), Landing(Writer(2), delete), Landing(Writer(1), push)]
  {
    RunInv(map[], r);
    RunExtend(map[], r, UpdateRef(1, true));
    var s := Run(map[], r);
    FastForwardMeansOnHead(s.server, 1);
    assert s.server.commits[s.server.trail[1]].parents == [s.server.trail[0]];
    r' := r + [UpdateRef(1, true)];
    assert Run(map[], r').writers[1].phase == Ready;
    PassLands(map[], r', 1, true);
    r' := r' + Pass(1) + [UpdateRef(1, true)];
  }

  lemma ReturnedPath(t: Tree, steps: seq<Step>, p: string, b: Bytes)
    requires var s := Run(t, steps).server;
      && s.trail == [0, 1, 2, 3] && |s.commits| == 4 && |s.made| == 4
      && s.made[1..] == [Landing(Writer(1), [Put(p, b)]), Landing(Writer(2), [Remove(p)]), Landing(Writer(1), [Put(p, b)])]
    ensures var log := LogOf(t, steps);
      && |log| == 3 && Landings(log, 1) == 2
      && log[1] == Landing(Writer(2), [Remove(p)]) && log[2] == Landing(Writer(1), [Put(p, b)])
      && At(HeadTree(t, steps), p) == {b}
  {
    RunInv(t, steps);
    var s := Run(t, steps).server;
    var log := LogOf(t, steps);
    assert s.made[1] == s.made[1..][0] && s.made[2] == s.made[1..][1] && s.made[3] == s.made[1..][2];
    assert log[..2][..1] == [log[0]] && log[..2] == [log[0], log[1]];
    assert [log[0]][..0] == [];
    assert Landings([log[0]], 1) == 1;
    assert Landings(log[..2], 1) == 1;
    assert UntouchedFrom([Put(p, b)], 1, p) && [Put(p, b)][0] == Put(p, b);
    assert LastAt(log[2].change, p, Put(p, b));
    NoLandedPathIsLost(t, steps, 2, p, Put(p, b));
  }
}
