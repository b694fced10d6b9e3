/** What the shell sees: the last snapshot shown, in terms of events, requests and the environment alone. */
module ProtocolView {
  import opened Basics
  import opened Platform
  import opened RunPolicy
  import opened Onboarding
  import opened ControlLoop
  import opened Protocol
  import opened ProtocolSafety
  import opened ProtocolRuns

  function Seen(s: State): Snapshot
    requires s.shown != []
  {
    s.shown[|s.shown| - 1]
  }

  /** The view of `l'` is that of `l` but for phase and revision. */
  predicate OnlyPhase(l: Loop, l': Loop) {
    l'.view == l.view.(phase := l'.view.phase, revision := l'.view.revision)
  }

  // ---------- Updates of the live attempt ----------

  /** The phase an update reports; the transport never reports an identity. */
  function SaidBy(u: Update): Phase {
    match u
    case IdentityCreated(_) => Idle
    case NowConnecting => Connecting
    case NowAuthenticating => Authenticating
    case NowReady(epoch) => Online(epoch)
    case NowReconnecting(attempt, delay) => Reconnecting(attempt, delay)
    case AttemptFailed(reason) => Failed(reason)
    case AttemptStopped => Stopped
  }

  /** Every update of the live attempt is shown as what it says, once, and changes nothing else of the view. */
  lemma UpdateIsShown(s: State)
    requires Reachable(s) && Enabled(s, Receive) && s.loop.active == Some(s.queue[0].generation)
    ensures s.shown != []
    ensures var s' := Step(s, Receive);
      && s'.shown != [] && OnlyPhase(s.loop, s'.loop) && s'.loop.view.phase == Seen(s').phase
      && !s.queue[0].update.IdentityCreated? && Seen(s').phase == SaidBy(s.queue[0].update)
      && (Seen(s).phase == SaidBy(s.queue[0].update) ==> s'.shown == s.shown)
  {
    ReachableInv(s);
    var m := s.queue[0];
    assert m in s.queue;
    UpToDateShows(s);
    UpdateView(s.loop, m.generation, m.update);
    ReceiveStep(s);
    UpToDateShows(Step(s, Receive));
  }

  lemma UpdateView(l: Loop, generation: nat, u: Update)
    requires Resting(l) && l.active == Some(generation) && FromTransport(u)
    ensures var l' := HandleUpdate(l, generation, u).loop;
      && OnlyPhase(l, l') && UpToDate(l') && l'.view.phase == SaidBy(u)
      && (l.view.phase == SaidBy(u) ==> HandleUpdate(l, generation, u).shown == [])
  {
  }

  // ---------- The fields that follow the request ----------

  /** In every reachable state at the select the snapshot shows the stored request, and what can be done about it. */
  lemma RequestIsShown(s: State)
    requires Reachable(s) && s.control.AtSelect?
    ensures s.shown != []
    ensures var shot, l := Seen(s), s.loop;
      && (l.request.Some? ==> shot.endpoint == l.request.value.endpoint && shot.tokenOffered == l.request.value.hasToken)
      && (l.active.Some? ==> shot.identity == Some(shot.capabilities.deviceBacked))
      && (shot.canRetry <==> l.request.Some? && shot.phase.Failed?)
      && (shot.canConnect <==> shot.phase == Idle || shot.phase.Failed? || shot.phase == Stopped)
  {
    ReachableInv(s);
  }

  // ---------- Capabilities ----------

  /** The capabilities the shell has reported: those at the start, with the discovery reported last. */
  function Reported(c: Capabilities, e: Event): Capabilities {
    if e.Handle? && e.command.DiscoveryChanged? then Capabilities(c.deviceBacked, e.command.readiness) else c
  }

  function ReportedAfter(c: Capabilities, run: seq<Event>): Capabilities
    decreases |run|
  {
    if run == [] then c else ReportedAfter(Reported(c, run[0]), run[1..])
  }

  lemma StepKeepsCapabilities(s: State, e: Event)
    requires Inv(s) && Enabled(s, e)
    ensures Step(s, e).loop.view.capabilities == Reported(s.loop.view.capabilities, e)
  {
    if e.Handle? {
      CommandView(s.loop, e.command, e.identityAvailable);
    }
  }

  lemma {:induction false} CapabilitiesFollow(s: State, run: seq<Event>)
    requires Inv(s) && Legal(s, run)
    ensures After(s, run).loop.view.capabilities == ReportedAfter(s.loop.view.capabilities, run)
    decreases |run|
  {
    if run != [] {
      StepKeepsCapabilities(s, run[0]);
      StepKeepsInv(s, run[0]);
      CapabilitiesFollow(Step(s, run[0]), run[1..]);
    }
  }

  /** In every run the snapshot shows the capabilities of the start with the discovery reported last. */
  lemma CapabilitiesAreShown(capabilities: Capabilities, run: seq<Event>)
    requires Legal(Initial(capabilities), run) && After(Initial(capabilities), run).control.AtSelect?
    ensures var s := After(Initial(capabilities), run);
      s.shown != [] && Seen(s).capabilities == ReportedAfter(capabilities, run)
  {
    RunKeepsInv(Initial(capabilities), run);
    CapabilitiesFollow(Initial(capabilities), run);
  }

  // ---------- Commands ----------

  /** What a launch shows: connecting, or that there is no identity to connect with. */
  function LaunchPhase(l: Loop, identity: bool): Phase {
    if l.identityReady || identity then Connecting else Failed(FromIdentity(0))
  }

  /** The background comes first, then a network that is known to be down; an unknown one does not block. */
  function BlockedBy(lifecycle: AppLifecycle, network: NetworkStatus): Option<ConnectionBlocker> {
    match (lifecycle, network)
    case (Background, _) => Some(InBackground)
    case (Foreground, Unavailable) => Some(NoNetwork)
    case (Foreground, _) => None
  }

  /** Two networks that are up, over different transports or in different generations. */
  predicate Moved(n: NetworkStatus, n': NetworkStatus) {
    n.Available? && n'.Available? && (n.transport, n.generation) != (n'.transport, n'.generation)
  }

  /** An attempt is live only in the foreground with a network not known to be down; a request waits only otherwise. */
  lemma LiveOnlyUnblocked(s: State)
    requires Reachable(s) && s.control.AtSelect?
    ensures var p := s.loop.policy;
      && (s.loop.active.Some? ==> BlockedBy(p.lifecycle, p.network).None?)
      && (p.resumePending ==> BlockedBy(p.lifecycle, p.network).Some?)
  {
    ReachableInv(s);
  }

  /** The phase on screen once the command is handled, or once its restart has joined. */
  function PhaseAfter(l: Loop, c: Command, identity: bool): Phase {
    var blocker := BlockedBy(if c.Lifecycle? then c.lifecycle else l.policy.lifecycle,
                             if c.NetworkChanged? then c.network else l.policy.network);
    match c
    case Connect(_) => if blocker.Some? then Blocked(blocker.value) else LaunchPhase(l, identity)
    case Reject(code) => if l.policy.active || l.policy.resumePending then l.view.phase else Failed(FromRejection(code))
    case Disconnect => Stopped
    case Retry =>
      if l.request.None? || l.policy.active then l.view.phase
      else if blocker.Some? then Blocked(blocker.value) else LaunchPhase(l, identity)
    case Lifecycle(_) =>
      if blocker.Some? && l.policy.active then Blocked(blocker.value)
      else if blocker.None? && l.policy.resumePending then LaunchPhase(l, identity)
      else l.view.phase
    case NetworkChanged(n) =>
      if blocker.Some? && l.policy.active then Blocked(blocker.value)
      else if blocker.None? && l.policy.resumePending then LaunchPhase(l, identity)
      else if blocker.None? && l.policy.active && Moved(l.policy.network, n) then Connecting
      else l.view.phase
    case DiscoveryChanged(_) => l.view.phase
  }

  /** What a command leaves in the view: its phase, and of the environment what it reports and no more. */
  predicate ViewAfter(l: Loop, c: Command, identity: bool, v: View) {
    && v.phase == PhaseAfter(l, c, identity)
    && v.lifecycle == (if c.Lifecycle? then c.lifecycle else l.view.lifecycle)
    && v.network == (if c.NetworkChanged? then c.network else l.view.network)
    && v.capabilities == Reported(l.view.capabilities, Handle(c, identity))
  }

  predicate SameFacts(v: View, v': View) {
    v'.lifecycle == v.lifecycle && v'.network == v.network && v'.capabilities == v.capabilities
  }

  lemma StartView(l: Loop, restart: bool, r: ConnectRequest, identity: bool)
    ensures var v := StartAttempt(l, restart, r, identity).loop.view;
      SameFacts(l.view, v) && v.phase == if restart && l.active.Some? then Connecting else LaunchPhase(l, identity)
  {
  }

  lemma ObeyView(l: Loop, d: Directive, mayRestart: bool, identity: bool)
    requires d.Stop? ==> l.policy.Blocked()
    requires d.Start? || d.Restart? ==> l.request.Some? && (d.Restart? ==> mayRestart && l.active.Some?)
    ensures var v := Obey(l, d, mayRestart, identity).loop.view;
      && SameFacts(l.view, v)
      && match d
         case Stop => v.phase == Blocked(l.policy.Blocker().value)
         case Start => v.phase == LaunchPhase(l, identity)
         case Restart => v.phase == Connecting
         case Stay => v.phase == l.view.phase
  {
    if d.Start? || d.Restart? {
      StartView(l, d.Restart?, l.request.value, identity);
    }
  }

  lemma ConnectView(l: Loop, r: ConnectRequest, identity: bool)
    requires Resting(l)
    ensures ViewAfter(l, Connect(r), identity, HandleCommand(l, Connect(r), identity).loop.view)
  {
    var Decision(p, d) := Request(l.policy);
    StartView(l.(policy := p, request := Some(r)), d.Restart?, r, identity);
  }

  lemma RetryView(l: Loop, identity: bool)
    requires Resting(l)
    ensures ViewAfter(l, Retry, identity, HandleCommand(l, Retry, identity).loop.view)
  {
    var Decision(p, d) := RetryRetained(l.policy);
    if l.request.Some? {
      StartView(l.(policy := p), false, l.request.value, identity);
    }
  }

  lemma LifecycleView(l: Loop, x: AppLifecycle, identity: bool)
    requires Resting(l)
    ensures ViewAfter(l, Lifecycle(x), identity, HandleCommand(l, Lifecycle(x), identity).loop.view)
  {
    var Decision(p, d) := ChangeLifecycle(l.policy, x);
    ObeyView(l.(policy := p, view := SetEnvironment(l.view, p.lifecycle, p.network)), d, false, identity);
  }

  lemma NetworkDirective(p: Policy, n: NetworkStatus)
    requires p.Coherent()
    ensures var blocked, d := BlockedBy(p.lifecycle, n).Some?, ChangeNetwork(p, n).directive;
      && (d.Stop? <==> blocked && p.active)
      && (d.Start? <==> !blocked && p.resumePending)
      && (d.Restart? <==> !blocked && p.active && Moved(p.network, n))
    ensures ChangeNetwork(p, n).policy.network == n && ChangeNetwork(p, n).policy.lifecycle == p.lifecycle
  {
  }

  lemma NetworkView(l: Loop, n: NetworkStatus, identity: bool)
    requires Resting(l)
    ensures ViewAfter(l, NetworkChanged(n), identity, HandleCommand(l, NetworkChanged(n), identity).loop.view)
  {
    var Decision(p, d) := ChangeNetwork(l.policy, n);
    NetworkDirective(l.policy, n);
    var m := l.(policy := p, view := SetEnvironment(l.view, p.lifecycle, p.network));
    assert HandleCommand(l, NetworkChanged(n), identity) == Obey(m, d, true, identity);
    ObeyView(m, d, true, identity);
  }

  lemma SimpleView(l: Loop, c: Command, identity: bool)
    requires Resting(l) && (c.Reject? || c.Disconnect? || c.DiscoveryChanged?)
    ensures ViewAfter(l, c, identity, HandleCommand(l, c, identity).loop.view)
  {
  }

  lemma CommandView(l: Loop, c: Command, identity: bool)
    requires Resting(l)
    ensures ViewAfter(l, c, identity, HandleCommand(l, c, identity).loop.view)
  {
    match c {
      case Connect(r) => ConnectView(l, r, identity);
      case Retry => RetryView(l, identity);
      case Lifecycle(x) => LifecycleView(l, x, identity);
      case NetworkChanged(n) => NetworkView(l, n, identity);
      case _ => SimpleView(l, c, identity);
    }
  }

  /** The snapshot shows this view. */
  predicate Shows(shot: Snapshot, v: View) {
    && shot.phase == v.phase && shot.lifecycle == v.lifecycle && shot.network == v.network
    && shot.capabilities == v.capabilities && shot.endpoint == v.endpoint && shot.tokenOffered == v.tokenOffered
    && shot.identity == v.identity && shot.revision == v.revision
  }

  lemma UpToDateShows(s: State)
    requires HistoryOk(s) && UpToDate(s.loop)
    ensures s.shown != [] && Shows(Seen(s), s.loop.view)
  {
  }

  /** A join that ends back at the select shows the phase that was drafted before it. */
  lemma JoinShows(s: State, identity: bool)
    requires Inv(s) && Enabled(s, Joined(identity)) && !s.control.next.Finished?
    ensures var s' := Step(s, Joined(identity));
      && s'.control.AtSelect? && s'.loop.view.phase == s.loop.view.phase && SameFacts(s.loop.view, s'.loop.view)
      && s'.shown != [] && Shows(Seen(s'), s'.loop.view)
  {
    JoinStep(s, identity);
    ResumeTurn(s.loop, s.control.generation, s.control.next, identity);
    UpToDateShows(Step(s, Joined(identity)));
  }

  /**
    What every command shows, from the state before it: at once, unless it restarts a live attempt,
    and then (`JoinShows`) after the join.
   */
  lemma CommandIsShown(s: State, c: Command, identity: bool)
    requires Reachable(s) && s.control.AtSelect?
    ensures var s' := Step(s, Handle(c, identity));
      && ViewAfter(s.loop, c, identity, s'.loop.view) && s'.shown != []
      && (if s'.control.Joining? && s'.control.next.LaunchAttempt? then s'.shown == s.shown
          else Shows(Seen(s'), s'.loop.view))
  {
    ReachableInv(s);
    CommandView(s.loop, c, identity);
    CommandShows(s, c, identity);
  }

  lemma CommandShows(s: State, c: Command, identity: bool)
    requires Inv(s) && s.control.AtSelect?
    ensures var s' := Step(s, Handle(c, identity));
      && s'.shown != []
      && (if s'.control.Joining? && s'.control.next.LaunchAttempt? then s'.shown == s.shown
          else Shows(Seen(s'), s'.loop.view))
  {
    var s' := Step(s, Handle(c, identity));
    CommandStep(s, c, identity);
    CommandTurn(s.loop, c, identity);
    if s'.control.Joining? && s'.control.next.LaunchAttempt? {
      RestartShowsLater(s.loop, c, identity);
    } else {
      UpToDateShows(s');
    }
  }

  lemma RestartShowsLater(l: Loop, c: Command, identity: bool)
    requires Resting(l) && HandleCommand(l, c, identity).control.Joining?
    requires HandleCommand(l, c, identity).control.next.LaunchAttempt?
    ensures HandleCommand(l, c, identity).shown == []
  {
  }

  /** A rejection or a discovery report changes nothing else. */
  lemma QuietReportsKeepTheRest(s: State, c: Command, identity: bool)
    requires Reachable(s) && s.control.AtSelect? && (c.Reject? || c.DiscoveryChanged?)
    ensures var s' := Step(s, Handle(c, identity));
      && s'.loop.policy == s.loop.policy && s'.loop.request == s.loop.request && s'.loop.active == s.loop.active
      && s'.launches == s.launches && s'.control.AtSelect?
      && s'.loop.view == s.loop.view.(phase := s'.loop.view.phase, revision := s'.loop.view.revision,
                                      capabilities := s'.loop.view.capabilities)
  {
    ReachableInv(s);
  }

  /** Nothing new to show: the report is what is on record already, or there is nothing left to stop. */
  predicate SaysNothingNew(l: Loop, c: Command) {
    match c
    case Lifecycle(x) => x == l.policy.lifecycle
    case NetworkChanged(n) => n == l.policy.network
    case DiscoveryChanged(d) => d == l.view.capabilities.discovery
    case Disconnect => l.view.phase == Stopped && l.request.None?
    case Reject(_) => l.policy.active || l.policy.resumePending
    case Connect(_) => false
    case Retry => l.request.None? || l.policy.active
  }

  /** Then nothing is shown and nothing changes. */
  lemma NothingNewIsSilent(s: State, c: Command, identity: bool)
    requires Reachable(s) && s.control.AtSelect? && SaysNothingNew(s.loop, c)
    ensures Step(s, Handle(c, identity)) == s
  {
    ReachableInv(s);
    NothingNewTurn(s.loop, c, identity);
  }

  lemma NothingNewTurn(l: Loop, c: Command, identity: bool)
    requires Resting(l) && SaysNothingNew(l, c)
    ensures HandleCommand(l, c, identity) == Turn(l, AtSelect, [], None)
  {
  }
}
