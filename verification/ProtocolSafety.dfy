/** The inductive invariant of the protocol and what it says about every run. */
module ProtocolSafety {
  import opened Basics
  import opened RunPolicy
  import opened Onboarding
  import opened ControlLoop
  import opened Protocol

  // ---------- The loop's own state ----------

  /** The view tells the truth about the policy. */
  predicate Faithful(l: Loop) {
    l.policy.Coherent()
    && l.view.lifecycle == l.policy.lifecycle
    && l.view.network == l.policy.network
    && l.view.requestRetained == l.policy.requested
    && l.view.phase.Blocked? == l.policy.resumePending
    && l.view.phase.Live() == l.policy.active
  }

  predicate UpToDate(l: Loop) {
    l.last == Some(Render(l.view))
  }

  /** The address and credential on screen are those of the stored request. */
  predicate Addressed(l: Loop) {
    l.request.Some? ==> l.view.endpoint == l.request.value.endpoint && l.view.tokenOffered == l.request.value.hasToken
  }

  predicate Resting(l: Loop) {
    Faithful(l) && UpToDate(l) && Addressed(l)
    && l.request.Some? == l.policy.requested
    && l.active == (if l.policy.active then Some(l.view.generation) else None)
    && (l.active.Some? ==> l.identityReady && l.view.identity == Some(l.view.capabilities.deviceBacked))
  }

  /** What holds while a turn waits for the task of generation `g` to end. */
  predicate Waiting(l: Loop, g: nat, next: Continuation) {
    l.active.None? && Addressed(l)
    && match next
       case Republish => Faithful(l) && UpToDate(l) && !l.policy.active && g < l.view.generation
                         && l.request.Some? == l.policy.requested
       case DropRequest => Faithful(l) && UpToDate(l) && !l.policy.active && g < l.view.generation
                           && !l.policy.requested
       case LaunchAttempt => Faithful(l) && l.policy.active && g < l.view.generation && l.identityReady
                             && l.request.Some? && l.view.identity.None?
                             && l.last.Some? && l.last.value.revision < l.view.revision
       case BackToSelect => Faithful(l) && UpToDate(l) && !l.policy.active && g == l.view.generation
                            && l.request.Some? == l.policy.requested
       case Finished => UpToDate(l) && g == l.view.generation
  }

  predicate LoopOk(l: Loop, control: Control) {
    match control
    case AtSelect => Resting(l)
    case Joining(g, next) => Waiting(l, g, next)
    case Ended => UpToDate(l) && l.active.None?
    case Panicked => false
  }

  // ---------- Tasks, slot and queue ----------

  /** The one attempt that may still have a task: held by the loop or being joined. */
  function Owner(s: State): Option<nat> {
    match s.control
    case Joining(g, _) => Some(g)
    case _ => s.loop.active
  }

  predicate TasksOk(s: State) {
    && (forall g <- s.tasks :: Owner(s) == Some(g))
    && (forall g <- s.tasks :: !s.tasks[g].Refused? && (s.tasks[g].Closing? ==> s.tasks[g].lease))
    && (forall g <- s.tasks :: s.tasks[g].HoldsLease() == (s.slot == Some(g)))
    && (s.slot.Some? ==> s.slot.value in s.tasks)
  }

  // The update queue, seen from the generation on screen.

  predicate Plausible(queue: seq<Message>, generation: nat) {
    forall m <- queue :: m.generation <= generation && FromTransport(m.update)
  }

  predicate NoneFrom(queue: seq<Message>, generation: nat) {
    forall m <- queue :: m.generation != generation
  }

  predicate NoTerminalFrom(queue: seq<Message>, generation: nat) {
    forall m <- queue :: m.generation == generation ==> !m.update.Terminal()
  }

  /** An attempt's terminal update is the last one it has in the queue. */
  predicate TerminalLast(queue: seq<Message>, generation: nat) {
    forall i, j | 0 <= i < j < |queue| && queue[i].generation == generation && queue[j].generation == generation ::
      !queue[i].update.Terminal()
  }

  predicate AllSilent(tasks: map<nat, Stage>) {
    forall g <- tasks :: tasks[g].Silent()
  }

  /** The loop still cares about updates of the generation on screen. */
  predicate Listening(s: State) {
    (s.control.AtSelect? && s.loop.active.Some?) || (s.control.Joining? && s.control.next.Finished?)
    || s.control.Ended?
  }

  predicate QueueOk(s: State) {
    && Plausible(s.queue, s.loop.view.generation)
    && (Listening(s) || NoneFrom(s.queue, s.loop.view.generation))
    && TerminalLast(s.queue, s.loop.view.generation)
    && (AllSilent(s.tasks) || NoTerminalFrom(s.queue, s.loop.view.generation))
    && (s.control.Joining? && s.control.next.BackToSelect? ==> AllSilent(s.tasks))
  }

  // ---------- What the run has shown and launched ----------

  predicate Increasing(shown: seq<Snapshot>) {
    forall i, j | 0 <= i < j < |shown| :: shown[i].revision < shown[j].revision
  }

  predicate HistoryOk(s: State) {
    && s.shown != [] && Increasing(s.shown)
    && s.loop.last == Some(s.shown[|s.shown| - 1])
    && (s.loop.active.Some? ==>
          s.launches != [] && s.launches[|s.launches| - 1].generation == s.loop.active.value
          && s.launches[|s.launches| - 1].request == s.loop.request)
  }

  predicate Inv(s: State) {
    LoopOk(s.loop, s.control) && TasksOk(s) && QueueOk(s) && HistoryOk(s)
  }

  // ---------- Preservation ----------

  /** What any turn that starts at rest guarantees, whatever the tasks are doing. */
  predicate TurnOk(l: Loop, t: Turn) {
    && LoopOk(t.loop, t.control)
    && l.view.generation <= t.loop.view.generation
    && (t.launch.Some? ==> t.control.AtSelect? && t.launch.value.generation == t.loop.view.generation
                           && t.launch.value.request == t.loop.request)
    && (t.loop.active.Some? && t.loop.active == l.active ==> t.loop.request == l.request)
    && (t.launch.Some? && t.launch.value.spawned <==> t.loop.active.Some? && t.loop.active != l.active)
    && (t.shown == [] ==> t.loop.last == l.last)
    && (t.shown != [] ==> l.last.Some? && |t.shown| == 1 && t.loop.last == Some(t.shown[0])
                          && l.last.value.revision < t.shown[0].revision)
  }

  /** A command turn: the held attempt survives untouched, or is superseded, or there was none. */
  predicate CommandOk(l: Loop, t: Turn) {
    && TurnOk(l, t)
    && (t.control.Joining? ==> l.active == Some(t.control.generation) && !t.control.next.BackToSelect?
                               && !t.control.next.Finished? && t.loop.view.generation > l.view.generation)
    && (t.control.AtSelect? && l.active.Some? ==> t.loop.active == l.active && t.launch.None?)
    && (t.control.AtSelect? && l.active.None? && t.loop.active.Some? ==> t.loop.view.generation > l.view.generation)
    && !t.control.Ended?
  }

  /** `m` is the resting loop `l` in the middle of a turn, before anything was published. */
  predicate Drafted(l: Loop, m: Loop) {
    Resting(l) && m.last == l.last && m.active == l.active
    && l.view.generation <= m.view.generation
    && (m.view == l.view || l.view.revision < m.view.revision)
  }

  lemma Publishes(l: Loop, m: Loop)
    requires Drafted(l, m) && Faithful(m) && m.request.Some? == m.policy.requested
    requires m.policy.active == l.policy.active
    requires Addressed(m)
    requires m.active.Some? ==> m.identityReady && m.view.generation == l.view.generation && m.request == l.request
    requires m.active.Some? ==> m.view.identity == Some(m.view.capabilities.deviceBacked)
    ensures CommandOk(l, Publish(m, None))
  {
  }

  lemma Stops(l: Loop, m: Loop, next: Continuation)
    requires Drafted(l, m) && Faithful(m) && l.active.Some? && !m.policy.active
    requires l.view.generation < m.view.generation && Addressed(m)
    requires (next.Republish? && m.request.Some? == m.policy.requested) || (next.DropRequest? && !m.policy.requested)
    ensures CommandOk(l, PublishAndStop(m, next))
  {
  }

  /** A start or restart, given the policy has just turned active for a stored request. */
  lemma Starts(l: Loop, m: Loop, restart: bool, r: ConnectRequest, identity: bool)
    requires Drafted(l, m) && m.policy.Coherent() && m.policy.active
    requires restart == l.active.Some? && m.identityReady == l.identityReady && m.request == Some(r)
    requires m.view.lifecycle == m.policy.lifecycle && m.view.network == m.policy.network
    ensures CommandOk(l, StartAttempt(m, restart, r, identity))
  {
  }

  lemma ConnectTurn(l: Loop, r: ConnectRequest, identity: bool)
    requires Resting(l)
    ensures CommandOk(l, HandleCommand(l, Connect(r), identity))
  {
    var Decision(p, d) := Request(l.policy);
    var m := l.(policy := p, request := Some(r));
    if p.Blocked() {
      Publishes(l, m.(view := Defer(m.view, r, p.Blocker().value)));
    } else {
      Starts(l, m, d.Restart?, r, identity);
    }
  }

  lemma WithdrawTurn(l: Loop, identity: bool)
    requires Resting(l)
    ensures CommandOk(l, HandleCommand(l, Disconnect, identity))
  {
    var Decision(p, d) := Withdraw(l.policy);
    var m := l.(policy := p, view := RequestStop(l.view));
    if d.Stop? {
      Stops(l, m, DropRequest);
    } else {
      Publishes(l, m.(request := None));
    }
  }

  lemma RetryTurn(l: Loop, identity: bool)
    requires Resting(l)
    ensures CommandOk(l, HandleCommand(l, Retry, identity))
  {
    var Decision(p, d) := RetryRetained(l.policy);
    var m := l.(policy := p);
    if m.request.Some? && p.Blocked() {
      Publishes(l, m.(view := Defer(m.view, m.request.value, p.Blocker().value)));
    } else if m.request.Some? && d.Start? {
      Starts(l, m, false, m.request.value, identity);
    } else {
      Publishes(l, m);
    }
  }

  lemma EnvironmentTurn(l: Loop, p: Policy, d: Directive, mayRestart: bool, identity: bool)
    requires Resting(l) && p.requested == l.policy.requested
    requires d.Stop? ==> l.policy.active && !p.active && p.Coherent() && p.resumePending
    requires d.Start? ==> !l.policy.active && p.active && p.Coherent()
    requires d.Restart? ==> mayRestart && l.policy.active && p.active && p.Coherent()
    requires d.Stay? ==> p.active == l.policy.active && p.resumePending == l.policy.resumePending && p.Coherent()
    ensures CommandOk(l, Obey(l.(policy := p, view := SetEnvironment(l.view, p.lifecycle, p.network)), d, mayRestart, identity))
  {
    var m := l.(policy := p, view := SetEnvironment(l.view, p.lifecycle, p.network));
    match d {
      case Stop => Stops(l, m.(view := Suspend(m.view, p.Blocker().value)), Republish);
      case Start => Starts(l, m, false, m.request.value, identity);
      case Restart => Starts(l, m, true, m.request.value, identity);
      case Stay => Publishes(l, m);
    }
  }

  lemma CommandTurn(l: Loop, c: Command, identity: bool)
    requires Resting(l)
    ensures CommandOk(l, HandleCommand(l, c, identity))
  {
    match c {
      case Connect(r) => ConnectTurn(l, r, identity);
      case Reject(code) =>
        Publishes(l, if l.policy.active || l.policy.resumePending then l
                     else l.(view := Apply(l.view, l.view.generation, AttemptFailed(FromRejection(code)))));
      case Disconnect => WithdrawTurn(l, identity);
      case Retry => RetryTurn(l, identity);
      case Lifecycle(x) =>
        var Decision(p, d) := ChangeLifecycle(l.policy, x);
        EnvironmentTurn(l, p, d, false, identity);
      case NetworkChanged(n) =>
        var Decision(p, d) := ChangeNetwork(l.policy, n);
        EnvironmentTurn(l, p, d, true, identity);
      case DiscoveryChanged(readiness) =>
        Publishes(l, l.(view := SetCapabilities(l.view, l.view.capabilities.(discovery := readiness))));
    }
  }

  /** An update turn: a terminal update of the live attempt ends it, everything else leaves it held. */
  lemma UpdateTurn(l: Loop, generation: nat, u: Update)
    requires Resting(l) && FromTransport(u)
    requires generation == l.view.generation ==> l.active.Some?
    ensures var t := HandleUpdate(l, generation, u);
            TurnOk(l, t) && t.launch.None? && t.loop.view.generation == l.view.generation
            && if generation == l.view.generation && u.Terminal()
               then t.control == Joining(generation, BackToSelect)
               else t.control.AtSelect? && t.loop.active == l.active
  {
    if Changes(l.view, generation, u) {
      assert l.view.phase.Live() && !l.view.phase.Blocked?;
      var m := l.(view := Apply(l.view, generation, u));
      assert RenderUpdate(l, generation, u) == Turn(Published(m), AtSelect, [Render(m.view)], None);
    } else {
      assert RenderUpdate(l, generation, u) == Turn(l, AtSelect, [], None);
    }
  }

  lemma ResumeTurn(l: Loop, g: nat, next: Continuation, identity: bool)
    requires Waiting(l, g, next)
    ensures var t := Resume(l, next, identity);
            TurnOk(l, t) && !t.control.Joining? && t.control.Ended? == next.Finished?
            && t.loop.view.generation == l.view.generation
            && (next.LaunchAttempt? <==> t.loop.active.Some?)
  {
  }

  // ---------- Whole states ----------

  lemma Shows(s: State, t: Turn)
    requires HistoryOk(s) && TurnOk(s.loop, t)
    ensures HistoryOk(Commit(s, t))
  {
  }

  lemma CommandStep(s: State, c: Command, identity: bool)
    requires Inv(s) && s.control.AtSelect?
    ensures Inv(Step(s, Handle(c, identity)))
  {
    CommandTurn(s.loop, c, identity);
    CommitsCommand(s, HandleCommand(s.loop, c, identity));
  }

  lemma CommitsCommand(s: State, t: Turn)
    requires Inv(s) && s.control.AtSelect? && CommandOk(s.loop, t)
    ensures Inv(Commit(s, t))
  {
    Shows(s, t);
  }

  lemma ReceiveStep(s: State)
    requires Inv(s) && s.control.AtSelect? && s.queue != []
    ensures Inv(Step(s, Receive))
  {
    var m := s.queue[0];
    assert m in s.queue;
    UpdateTurn(s.loop, m.generation, m.update);
    CommitsUpdate(s, HandleUpdate(s.loop, m.generation, m.update));
  }

  lemma CommitsUpdate(s: State, t: Turn)
    requires Inv(s) && s.control.AtSelect? && s.queue != []
    requires TurnOk(s.loop, t) && t.launch.None? && t.loop.view.generation == s.loop.view.generation
    requires var m := s.queue[0];
             if m.generation == s.loop.view.generation && m.update.Terminal()
             then t.control == Joining(m.generation, BackToSelect)
             else t.control.AtSelect? && t.loop.active == s.loop.active
    ensures Inv(Commit(s.(queue := s.queue[1..]), t))
  {
    Shows(s.(queue := s.queue[1..]), t);
    if t.control.Joining? {
      assert NoneFrom(s.queue[1..], s.loop.view.generation);
      assert !NoTerminalFrom(s.queue, s.loop.view.generation) by { assert s.queue[0] in s.queue; }
    }
  }

  lemma JoinStep(s: State, identity: bool)
    requires Inv(s) && Enabled(s, Joined(identity))
    ensures Inv(Step(s, Joined(identity)))
  {
    ResumeTurn(s.loop, s.control.generation, s.control.next, identity);
    Shows(s, Resume(s.loop, s.control.next, identity));
  }

  lemma CloseStep(s: State)
    requires Inv(s) && s.control.AtSelect?
    ensures Inv(Step(s, CloseCommands))
  {
  }

  lemma TaskStep(s: State, e: Event)
    requires Inv(s) && Enabled(s, e)
    requires e.TaskAcquires? || e.TaskSends? || e.TaskReturns? || e.TaskEnds?
    ensures Inv(Step(s, e))
  {
  }
}
