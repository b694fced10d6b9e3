/** What holds in every run of the connection protocol, from the first snapshot to the last join. */
module ProtocolRuns {
  import opened Basics
  import opened Platform
  import opened RunPolicy
  import opened Onboarding
  import opened ControlLoop
  import opened Protocol
  import opened ProtocolSafety

  lemma StepKeepsInv(s: State, e: Event)
    requires Inv(s) && Enabled(s, e)
    ensures Inv(Step(s, e))
  {
    match e {
      case Handle(c, identity) => CommandStep(s, c, identity);
      case CloseCommands => CloseStep(s);
      case Receive => ReceiveStep(s);
      case Joined(identity) => JoinStep(s, identity);
      case TaskAcquires(_) => TaskStep(s, e);
      case TaskSends(_, _) => TaskStep(s, e);
      case TaskReturns(_) => TaskStep(s, e);
      case TaskEnds(_) => TaskStep(s, e);
    }
  }

  lemma {:induction false} RunKeepsInv(s: State, run: seq<Event>)
    requires Inv(s) && Legal(s, run)
    ensures Inv(After(s, run))
    decreases |run|
  {
    if run != [] {
      StepKeepsInv(s, run[0]);
      RunKeepsInv(Step(s, run[0]), run[1..]);
    }
  }

  /** The state some run of the whole program reaches. */
  ghost predicate Reachable(s: State) {
    exists capabilities, run :: Legal(Initial(capabilities), run) && After(Initial(capabilities), run) == s
  }

  lemma ReachableInv(s: State)
    requires Reachable(s)
    ensures Inv(s)
  {
    var capabilities, run :| Legal(Initial(capabilities), run) && After(Initial(capabilities), run) == s;
    RunKeepsInv(Initial(capabilities), run);
  }

  lemma RunFrom(s: State, e: Event, rest: seq<Event>)
    requires Enabled(s, e) && Legal(Step(s, e), rest)
    ensures Legal(s, [e] + rest) && After(s, [e] + rest) == After(Step(s, e), rest)
  {
    assert ([e] + rest)[1..] == rest;
  }

  function LastLaunch(s: State): Launch
    requires s.launches != []
  {
    s.launches[|s.launches| - 1]
  }

  // ---------- Agreement of the loop's separate pieces of state ----------

  /** Policy, held attempt, stored request and view agree whenever the loop is at its select. */
  lemma LoopStateAgrees(s: State)
    requires Reachable(s) && s.control.AtSelect?
    ensures var l := s.loop;
      && (l.policy.active <==> l.active.Some?)
      && (l.active.Some? ==> l.active.value == l.view.generation)
      && (l.policy.requested <==> l.request.Some?)
      && (l.policy.requested <==> l.view.requestRetained)
      && (l.policy.resumePending ==> l.policy.requested && l.policy.Blocked() && !l.policy.active)
      && (l.policy.active ==> !l.policy.Blocked())
      && (l.request.Some? ==> l.view.endpoint == l.request.value.endpoint && l.view.tokenOffered == l.request.value.hasToken)
      && (l.active.Some? ==> l.view.identity == Some(l.view.capabilities.deviceBacked))
  {
    ReachableInv(s);
  }

  /** No `expect` fires: the loop never panics, and every stop directive comes with a blocker. */
  lemma NothingPanics(s: State, x: AppLifecycle, n: NetworkStatus)
    requires Reachable(s)
    ensures !s.control.Panicked?
    ensures s.control.AtSelect? && ChangeLifecycle(s.loop.policy, x).directive.Stop? ==>
      ChangeLifecycle(s.loop.policy, x).policy.Blocked()
    ensures s.control.AtSelect? && ChangeNetwork(s.loop.policy, n).directive.Stop? ==>
      ChangeNetwork(s.loop.policy, n).policy.Blocked()
  {
    ReachableInv(s);
  }

  /** A directive to start or restart always finds the stored request. */
  lemma StartFindsRequest(s: State, x: AppLifecycle, n: NetworkStatus)
    requires Reachable(s) && s.control.AtSelect?
    ensures ChangeLifecycle(s.loop.policy, x).directive.Start? ==> s.loop.request.Some?
    ensures !ChangeLifecycle(s.loop.policy, x).directive.Restart?
    ensures ChangeNetwork(s.loop.policy, n).directive in {Start, Restart} ==> s.loop.request.Some?
    ensures RetryRetained(s.loop.policy).directive.Start? ==> s.loop.request.Some?
  {
    ReachableInv(s);
  }

  /** The snapshot the shell last received is a faithful picture of the policy. */
  lemma SnapshotRefinesPolicy(s: State)
    requires Reachable(s) && s.control.AtSelect?
    ensures s.shown != []
    ensures var shot := s.shown[|s.shown| - 1]; var p := s.loop.policy;
      && shot == Render(s.loop.view)
      && (shot.phase.Blocked? <==> p.resumePending)
      && (shot.pendingConnection <==> p.active || p.resumePending)
      && (shot.canDisconnect <==> p.active || p.resumePending)
      && (shot.canConnect <==> !p.active && !p.resumePending)
      && (shot.busy <==> p.active && !shot.phase.Online?)
      && (shot.canRetry ==> RetryRetained(p).directive.Start? || RetryRetained(p).policy.resumePending)
      && shot.lifecycle == p.lifecycle && shot.network == p.network
  {
    ReachableInv(s);
  }

  /** The shell sees every revision at most once and in order. */
  lemma ShownRevisionsIncrease(s: State)
    requires Reachable(s)
    ensures forall i, j | 0 <= i < j < |s.shown| :: s.shown[i].revision < s.shown[j].revision
  {
    ReachableInv(s);
  }

  // ---------- One attempt at a time ----------

  /** At most one task is alive, the slot belongs to it, and no task was ever refused the slot. */
  lemma AtMostOneAttempt(s: State)
    requires Reachable(s)
    ensures |s.tasks| <= 1
    ensures forall g <- s.tasks :: !s.tasks[g].Refused? && (s.tasks[g].Spawned? ==> s.slot.None?)
    ensures s.tasks == map[] ==> s.slot.None?
    ensures forall m <- s.queue :: m.update != AttemptFailed(ControllerBusy)
  {
    ReachableInv(s);
    match Owner(s) {
      case None =>
        assert s.tasks.Keys == {};
      case Some(g) =>
        assert s.tasks.Keys <= {g};
        SubsetSize(s.tasks.Keys, {g});
    }
  }

  /** Join before spawn: a step that launches a task starts with no task alive and the slot idle. */
  lemma SpawnsIntoIdleSlot(s: State, e: Event, g: nat)
    requires Reachable(s) && Enabled(s, e)
    requires g !in s.tasks && g in Step(s, e).tasks
    ensures s.tasks == map[] && s.slot.None?
    ensures Step(s, e).loop.active == Some(g) && forall m <- s.queue :: m.generation < g
  {
    ReachableInv(s);
    match e {
      case Handle(c, identity) =>
        CommandTurn(s.loop, c, identity);
      case Joined(identity) =>
        ResumeTurn(s.loop, s.control.generation, s.control.next, identity);
      case _ =>
    }
  }

  /** The live attempt is the last one launched, and it serves the request that is stored now. */
  lemma LiveAttemptServesStoredRequest(s: State)
    requires Reachable(s) && s.control.AtSelect? && s.loop.active.Some?
    ensures s.launches != [] && LastLaunch(s).generation == s.loop.active.value && s.loop.request.Some?
    ensures LastLaunch(s).request == s.loop.request
  {
    ReachableInv(s);
  }

  /** The awaited task ends, if it has not yet, and the turn goes on. */
  function JoinRun(s: State, identity: bool): seq<Event>
    requires s.control.Joining?
  {
    if s.control.generation in s.tasks then [TaskEnds(s.control.generation), Joined(identity)] else [Joined(identity)]
  }

  /** How a join that started in `s` leaves the loop. */
  predicate JoinEnds(s: State, s': State)
    requires s.control.Joining?
  {
    && Inv(s') && s'.tasks.Keys <= {s'.loop.view.generation}
    && (if s.control.next.Finished? then s'.control.Ended? else s'.control.AtSelect?)
    && (!s.control.next.LaunchAttempt? ==> s'.loop.policy == s.loop.policy && s'.launches == s.launches)
    && s'.loop.identityReady == s.loop.identityReady
  }

  lemma JoinFinishes(s: State, identity: bool)
    requires Inv(s) && s.control.Joining? && s.tasks == map[]
    ensures JoinEnds(s, Step(s, Joined(identity)))
  {
    JoinStep(s, identity);
    ResumeTurn(s.loop, s.control.generation, s.control.next, identity);
  }

  /** No join waits forever: once the awaited task is gone the turn always finishes. */
  lemma JoinCompletes(s: State, identity: bool)
    requires Inv(s) && s.control.Joining?
    ensures Legal(s, JoinRun(s, identity)) && JoinEnds(s, After(s, JoinRun(s, identity)))
  {
    var g, join := s.control.generation, Joined(identity);
    var gone := if g in s.tasks then Step(s, TaskEnds(g)) else s;
    if g in s.tasks {
      TaskStep(s, TaskEnds(g));
    }
    assert gone.tasks == map[];
    JoinFinishes(gone, identity);
    RunFrom(gone, join, []);
    assert [join] + [] == [join];
    if g in s.tasks {
      RunFrom(s, TaskEnds(g), [join]);
      assert [TaskEnds(g)] + [join] == [TaskEnds(g), join];
    }
  }

  /** Only the live attempt can change what is on screen; a superseded or ended one never does. */
  lemma OnlyLiveAttemptIsRendered(s: State)
    requires Reachable(s) && Enabled(s, Receive)
    ensures s.loop.active != Some(s.queue[0].generation) ==> Step(s, Receive).loop == s.loop
  {
    ReachableInv(s);
    assert s.queue[0] in s.queue;
  }

  // ---------- When a live view has a task behind it ----------

  predicate EndsInQueue(queue: seq<Message>, generation: nat) {
    exists m <- queue :: m.generation == generation && m.update.Terminal()
  }

  /** The held attempt has a living task, or its end is already in the queue. */
  predicate Attended(s: State) {
    s.loop.active.Some? ==> s.loop.active.value in s.tasks || EndsInQueue(s.queue, s.loop.active.value)
  }

  /** The held attempt's task is gone before it told how it ended. */
  predicate EndsUntold(s: State, e: Event) {
    e.TaskEnds? && s.loop.active == Some(e.task) && !EndsInQueue(s.queue, e.task)
  }

  lemma CommandAttends(s: State, t: Turn)
    requires s.control.AtSelect? && Attended(s) && CommandOk(s.loop, t)
    ensures Attended(Commit(s, t))
  {
  }

  lemma ReceiveAttends(s: State)
    requires Inv(s) && Enabled(s, Receive) && Attended(s)
    ensures Attended(Step(s, Receive))
  {
    var m := s.queue[0];
    assert m in s.queue;
    UpdateTurn(s.loop, m.generation, m.update);
    var s' := Step(s, Receive);
    if s'.loop.active.Some? && EndsInQueue(s.queue, s'.loop.active.value) {
      var end :| end in s.queue && end.generation == s'.loop.active.value && end.update.Terminal();
      assert end in s.queue[1..];
    }
  }

  lemma JoinAttends(s: State, identity: bool)
    requires Inv(s) && Enabled(s, Joined(identity))
    ensures Attended(Step(s, Joined(identity)))
  {
    ResumeTurn(s.loop, s.control.generation, s.control.next, identity);
  }

  lemma SendAttends(s: State, g: nat, u: Update)
    requires Inv(s) && Enabled(s, TaskSends(g, u)) && Attended(s)
    ensures Attended(Step(s, TaskSends(g, u)))
  {
    assert s.queue + [Message(g, u)] == Step(s, TaskSends(g, u)).queue;
  }

  /** A live view has a task behind it, or its end in the queue, exactly until a task ends untold. */
  lemma AttendedUnlessUntold(s: State, e: Event)
    requires Inv(s) && Enabled(s, e) && Attended(s)
    ensures Attended(Step(s, e)) <==> !EndsUntold(s, e)
  {
    match e {
      case Handle(c, identity) =>
        CommandTurn(s.loop, c, identity);
        CommandAttends(s, HandleCommand(s.loop, c, identity));
      case Receive => ReceiveAttends(s);
      case Joined(identity) => JoinAttends(s, identity);
      case TaskSends(g, u) => SendAttends(s, g, u);
      case _ =>
    }
  }

  /** It happens: the transport ends its streams, or the task dies, and the view goes on connecting. */
  lemma UntoldEndHappens(capabilities: Capabilities, r: ConnectRequest)
    ensures var run := [Handle(Connect(r), true)] + ([TaskEnds(1)] + []);
      && Legal(Initial(capabilities), run)
      && var s := After(Initial(capabilities), run);
         s.control.AtSelect? && s.loop.view.phase.Live() && s.tasks == map[] && s.queue == [] && !Attended(s)
  {
    var s0, e1 := Initial(capabilities), Handle(Connect(r), true);
    var s1 := Step(s0, e1);
    assert s1.control.AtSelect? && s1.loop.active == Some(1) && s1.tasks == map[1 := Spawned] && s1.queue == [];
    assert s1.loop.view.phase == Connecting;
    RunFrom(s1, TaskEnds(1), []);
    RunFrom(s0, e1, [TaskEnds(1)] + []);
  }

  lemma DisconnectSettles(s: State)
    requires Inv(s) && s.control.AtSelect?
    ensures var s' := Step(s, Handle(Disconnect, true));
      && Inv(s') && (s'.control.AtSelect? || (s'.control.Joining? && s'.control.next.DropRequest?))
      && s'.loop.policy == Withdraw(s.loop.policy).policy && s'.launches == s.launches
      && s'.loop.identityReady == s.loop.identityReady
  {
    CommandStep(s, Disconnect, true);
  }

  /** The held attempt was launched for this request and its task lives. */
  predicate Serving(s: State, r: ConnectRequest) {
    && s.loop.active.Some? && s.loop.active.value in s.tasks && s.loop.request == Some(r)
    && s.launches != [] && LastLaunch(s).request == Some(r) && LastLaunch(s).spawned
  }

  /** From a quiet, unblocked loop a Connect launches once, with a task exactly when there is an identity to use. */
  lemma ConnectSpawns(s: State, r: ConnectRequest, identity: bool)
    requires Inv(s) && s.control.AtSelect? && !s.loop.policy.active && !s.loop.policy.Blocked()
    ensures var s' := Step(s, Handle(Connect(r), identity));
      && s'.control.AtSelect? && |s'.launches| == |s.launches| + 1
      && (if s.loop.identityReady || identity then Serving(s', r) else Quiet(s') && s'.loop.view.phase.Failed?)
  {
    CommandTurn(s.loop, Connect(r), identity);
  }

  /**
    Whatever state the attempt is in, a Disconnect, its join and a Connect launch a fresh one, with a
    living task exactly when the platform has yielded an identity by then; otherwise the failure shows.
   */
  lemma ReconnectAlwaysWorks(s: State, r: ConnectRequest, identity: bool)
    requires Inv(s) && s.control.AtSelect? && !s.loop.policy.Blocked()
    ensures var s1 := Step(s, Handle(Disconnect, true));
      var join := if s1.control.Joining? then JoinRun(s1, true) else [];
      && Legal(s1, join)
      && var s2 := After(s1, join);
         && Enabled(s2, Handle(Connect(r), identity)) && s2.loop.identityReady == s.loop.identityReady
         && var s3 := Step(s2, Handle(Connect(r), identity));
            && s3.control.AtSelect? && |s3.launches| == |s.launches| + 1
            && (if s.loop.identityReady || identity then Serving(s3, r) else Quiet(s3) && s3.loop.view.phase.Failed?)
  {
    var s1 := Step(s, Handle(Disconnect, true));
    DisconnectSettles(s);
    if s1.control.Joining? {
      JoinCompletes(s1, true);
      ConnectSpawns(After(s1, JoinRun(s1, true)), r, identity);
    } else {
      ConnectSpawns(s1, r, identity);
    }
  }

  // ---------- When attempts start ----------

  /** Nothing is live, pending or about to be launched. */
  predicate Quiet(s: State) {
    !s.loop.policy.active && !s.loop.policy.resumePending && !(s.control.Joining? && s.control.next.LaunchAttempt?)
  }

  predicate AsksForAttempt(e: Event) {
    e.Handle? && (e.command.Connect? || e.command.Retry?)
  }

  lemma QuietCommand(l: Loop, c: Command, identity: bool)
    requires Resting(l) && !l.policy.active && !l.policy.resumePending && !c.Connect? && !c.Retry?
    ensures var t := HandleCommand(l, c, identity);
      t.launch.None? && !t.loop.policy.active && !t.loop.policy.resumePending && t.control.AtSelect?
  {
  }

  lemma QuietStep(s: State, e: Event)
    requires Inv(s) && Quiet(s) && Enabled(s, e) && !AsksForAttempt(e)
    ensures Quiet(Step(s, e)) && Step(s, e).launches == s.launches
  {
    if e.Handle? {
      QuietCommand(s.loop, e.command, e.identityAvailable);
    }
  }

  /** Once no attempt is live or pending, only Connect or Retry ever launches another. */
  lemma {:induction false} NoSpontaneousLaunch(s: State, run: seq<Event>)
    requires Inv(s) && Quiet(s) && Legal(s, run)
    requires forall e <- run :: !AsksForAttempt(e)
    ensures After(s, run).launches == s.launches
    decreases |run|
  {
    if run != [] {
      assert run[0] in run;
      QuietStep(s, run[0]);
      StepKeepsInv(s, run[0]);
      NoSpontaneousLaunch(Step(s, run[0]), run[1..]);
    }
  }

  /** In particular a terminal update of the live attempt leaves the protocol quiet. */
  lemma TerminalUpdateQuiets(s: State)
    requires Reachable(s) && Enabled(s, Receive)
    requires s.queue[0].generation == s.loop.view.generation && s.queue[0].update.Terminal()
    ensures Quiet(Step(s, Receive)) && Inv(Step(s, Receive))
  {
    ReachableInv(s);
    StepKeepsInv(s, Receive);
    assert s.queue[0] in s.queue;
  }

  /** So does a Disconnect, whatever was live or waiting. */
  lemma DisconnectQuiets(s: State, identity: bool)
    requires Reachable(s) && Enabled(s, Handle(Disconnect, identity))
    ensures var s' := Step(s, Handle(Disconnect, identity)); Quiet(s') && Inv(s') && s'.launches == s.launches
  {
    ReachableInv(s);
    StepKeepsInv(s, Handle(Disconnect, identity));
  }

  /** The operator gives the connection up, or the program ends. */
  predicate GivesUp(e: Event) {
    e.CloseCommands? || (e.Handle? && e.command.Disconnect?)
  }

  /** The stored request after the event: a new Connect replaces it. */
  function Replaced(request: Option<ConnectRequest>, e: Event): Option<ConnectRequest> {
    if e.Handle? && e.command.Connect? then Some(e.command.request) else request
  }

  /** The request of the last Connect of the run, or else the one stored before it. */
  function LastRequest(request: Option<ConnectRequest>, run: seq<Event>): Option<ConnectRequest>
    decreases |run|
  {
    if run == [] then request else LastRequest(Replaced(request, run[0]), run[1..])
  }

  lemma {:induction false} WithoutConnectSameRequest(request: Option<ConnectRequest>, run: seq<Event>)
    requires forall e <- run :: !(e.Handle? && e.command.Connect?)
    ensures LastRequest(request, run) == request
    decreases |run|
  {
    if run != [] {
      assert run[0] in run;
      WithoutConnectSameRequest(request, run[1..]);
    }
  }

  /** The request goes on waiting, and nothing was launched between the two states. */
  predicate StillDeferred(s: State, s': State, request: Option<ConnectRequest>) {
    s'.loop.policy.resumePending && s'.loop.request == request && s'.launches == s.launches
  }

  /** Between the two states exactly one attempt was launched, for this request. */
  predicate Launched(s: State, s': State, request: Option<ConnectRequest>) {
    && !s'.loop.policy.resumePending && request.Some?
    && |s'.launches| == |s.launches| + 1 && s.launches <= s'.launches
    && LastLaunch(s').request == request
  }

  /** A Connect or Retry that meets a blocker goes on waiting, with nothing launched. */
  lemma DeferredAgain(l: Loop, c: Command, identity: bool)
    requires Resting(l) && l.policy.resumePending && (c.Connect? || c.Retry?)
    ensures var t := HandleCommand(l, c, identity);
      && t.control.AtSelect? && t.loop.policy.Blocked() && t.loop.policy.resumePending && t.launch.None?
      && t.loop.request == Replaced(l.request, Handle(c, identity))
  {
  }

  lemma DeferredCommand(l: Loop, c: Command, identity: bool)
    requires Resting(l) && l.policy.resumePending && !c.Connect? && !c.Retry? && !c.Disconnect?
    ensures var t := HandleCommand(l, c, identity);
      t.control.AtSelect?
      && (t.loop.policy.Blocked() <==> t.loop.policy.resumePending)
      && (t.loop.policy.Blocked() <==> t.launch.None?)
      && t.loop.request == l.request
      && (t.launch.Some? ==> t.launch.value.request == l.request)
  {
  }

  /** One step with a request waiting for its blocker: it goes on waiting, or launches, by the new environment. */
  lemma DeferredStep(s: State, e: Event)
    requires Inv(s) && s.control.AtSelect? && s.loop.policy.resumePending && Enabled(s, e) && !GivesUp(e)
    ensures var s' := Step(s, e);
      && s'.control.AtSelect?
      && if s'.loop.policy.Blocked() then StillDeferred(s, s', Replaced(s.loop.request, e))
         else Launched(s, s', s.loop.request) && Replaced(s.loop.request, e) == s.loop.request
  {
    if e.Handle? {
      if e.command.Connect? || e.command.Retry? {
        DeferredAgain(s.loop, e.command, e.identityAvailable);
      } else {
        DeferredCommand(s.loop, e.command, e.identityAvailable);
      }
    } else if e.Receive? {
      assert s.queue[0] in s.queue;
    }
  }

  /** Every state before the last one of the run is blocked. */
  predicate BlockedUntilEnd(s: State, run: seq<Event>)
    requires Legal(s, run)
    decreases |run|
  {
    run == [] || (s.loop.policy.Blocked() && BlockedUntilEnd(Step(s, run[0]), run[1..]))
  }

  /**
    A deferred request launches nothing for as long as the run stays blocked, whatever is connected
    or retried meanwhile, and the first unblocked state has launched exactly once, for the request
    connected last; only giving up cancels it.
   */
  lemma {:induction false} DeferredRequestLaunchesOnce(s: State, run: seq<Event>)
    requires Inv(s) && s.control.AtSelect? && s.loop.policy.resumePending
    requires Legal(s, run) && BlockedUntilEnd(s, run) && forall e <- run :: !GivesUp(e)
    ensures var s' := After(s, run);
      if s'.loop.policy.Blocked() then StillDeferred(s, s', LastRequest(s.loop.request, run))
      else Launched(s, s', LastRequest(s.loop.request, run))
    decreases |run|
  {
    if run != [] {
      assert run[0] in run;
      DeferredStep(s, run[0]);
      StepKeepsInv(s, run[0]);
      if Step(s, run[0]).loop.policy.Blocked() {
        DeferredRequestLaunchesOnce(Step(s, run[0]), run[1..]);
      }
    }
  }
}
