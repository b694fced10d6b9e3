/** Whether the live attempt and the view keep up with the environment the shell reports. */
module ProtocolEnvironment {
  import opened Basics
  import opened Platform
  import opened RunPolicy
  import opened Onboarding
  import opened ControlLoop
  import opened Protocol
  import opened ProtocolSafety
  import opened ProtocolRuns

  // ---------- Which route the live attempt is on ----------

  /**
    The route the held attempt is on, as far as the shell ever told: the network it was launched on
    if that was usable, else the first usable one reported while it was held.
   */
  function NextRoute(s: State, route: NetworkStatus, s': State): NetworkStatus {
    if s'.loop.active.None? then Unknown
    else if s'.loop.active != s.loop.active && s'.launches != [] then LastLaunch(s').network
    else if route.Available? then route
    else s'.loop.policy.network
  }

  function RouteAfter(s: State, route: NetworkStatus, run: seq<Event>): NetworkStatus
    requires Legal(s, run)
    decreases |run|
  {
    if run == [] then route
    else RouteAfter(Step(s, run[0]), NextRoute(s, route, Step(s, run[0])), run[1..])
  }

  /** Once the shell has reported a usable network to a held attempt, its route is known. */
  predicate Tracked(s: State, route: NetworkStatus) {
    s.loop.active.Some? && s.loop.policy.network.Available? ==> route.Available?
  }

  /** A held attempt of known route, with a usable network now: it is the same route. */
  predicate OnCurrentRoute(s: State, route: NetworkStatus) {
    s.loop.active.Some? ==> !UsableRouteChanged(route, s.loop.policy.network)
  }

  /** The shell reports a different usable route right after an unknown network. */
  predicate SilentRouteChange(s: State, route: NetworkStatus, e: Event) {
    e.Handle? && e.command.NetworkChanged?
    && s.loop.policy.network.Unknown? && s.loop.active.Some?
    && UsableRouteChanged(route, e.command.network)
  }

  /** What a turn from policy `p` launches is launched on the network of `p`. */
  predicate OnNetworkOf(p: Policy, t: Turn) {
    t.loop.policy.network == p.network && (t.launch.Some? ==> t.launch.value.network == p.network)
  }

  lemma ObeyLaunchesThere(l: Loop, d: Directive, mayRestart: bool, identity: bool)
    ensures OnNetworkOf(l.policy, Obey(l, d, mayRestart, identity))
  {
  }

  lemma LaunchesOnPolicyNetwork(l: Loop, c: Command, identity: bool)
    ensures OnNetworkOf(if c.NetworkChanged? then l.policy.(network := c.network) else l.policy,
                        HandleCommand(l, c, identity))
  {
    if c.Lifecycle? {
      var Decision(p, d) := ChangeLifecycle(l.policy, c.lifecycle);
      ObeyLaunchesThere(l.(policy := p, view := SetEnvironment(l.view, p.lifecycle, p.network)), d, false, identity);
    } else if c.NetworkChanged? {
      var Decision(p, d) := ChangeNetwork(l.policy, c.network);
      ObeyLaunchesThere(l.(policy := p, view := SetEnvironment(l.view, p.lifecycle, p.network)), d, true, identity);
    }
  }

  /** The turn keeps the held attempt, drops it, or launches one where there was none. */
  predicate KeepsOrDrops(l: Loop, t: Turn) {
    TurnOk(l, t) && (l.active.Some? && t.loop.active.Some? ==> t.loop.active == l.active)
  }

  lemma SameNetworkKeepsRoute(s: State, route: NetworkStatus, t: Turn)
    requires Tracked(s, route) && OnCurrentRoute(s, route)
    requires KeepsOrDrops(s.loop, t) && OnNetworkOf(s.loop.policy, t)
    ensures var s' := Commit(s, t); var route' := NextRoute(s, route, s'); Tracked(s', route') && OnCurrentRoute(s', route')
  {
  }

  /** A report leaves the held attempt alone exactly when it neither blocks nor moves a usable route. */
  lemma ReportHolds(l: Loop, n: NetworkStatus, identity: bool)
    requires Resting(l) && l.active.Some?
    ensures HandleCommand(l, NetworkChanged(n), identity).loop.active.Some?
      <==> !n.Unavailable? && !UsableRouteChanged(l.policy.network, n)
  {
  }

  lemma ReportMovesRoute(s: State, route: NetworkStatus, n: NetworkStatus, t: Turn)
    requires Tracked(s, route) && OnCurrentRoute(s, route)
    requires KeepsOrDrops(s.loop, t) && OnNetworkOf(s.loop.policy.(network := n), t)
    requires s.loop.active.Some? ==> !s.loop.policy.Blocked()
    requires s.loop.active.Some? ==> (t.loop.active.Some? <==> !n.Unavailable? && !UsableRouteChanged(s.loop.policy.network, n))
    ensures var s' := Commit(s, t); var route' := NextRoute(s, route, s');
      && Tracked(s', route')
      && (OnCurrentRoute(s', route') <==>
            !(s.loop.policy.network.Unknown? && s.loop.active.Some? && UsableRouteChanged(route, n)))
  {
  }

  lemma CommandRoute(s: State, route: NetworkStatus, c: Command, identity: bool)
    requires Inv(s) && s.control.AtSelect? && Tracked(s, route) && OnCurrentRoute(s, route)
    ensures var e := Handle(c, identity); var s' := Step(s, e); var route' := NextRoute(s, route, s');
      Tracked(s', route') && (OnCurrentRoute(s', route') <==> !SilentRouteChange(s, route, e))
  {
    var t := HandleCommand(s.loop, c, identity);
    CommandTurn(s.loop, c, identity);
    LaunchesOnPolicyNetwork(s.loop, c, identity);
    if c.NetworkChanged? {
      if s.loop.active.Some? {
        ReportHolds(s.loop, c.network, identity);
      }
      ReportMovesRoute(s, route, c.network, t);
    } else {
      SameNetworkKeepsRoute(s, route, t);
    }
  }

  lemma ReceiveRoute(s: State, route: NetworkStatus)
    requires Inv(s) && Enabled(s, Receive) && Tracked(s, route) && OnCurrentRoute(s, route)
    ensures var s' := Step(s, Receive); var route' := NextRoute(s, route, s'); Tracked(s', route') && OnCurrentRoute(s', route')
  {
    var m := s.queue[0];
    assert m in s.queue;
    UpdateTurn(s.loop, m.generation, m.update);
    SameNetworkKeepsRoute(s.(queue := s.queue[1..]), route, HandleUpdate(s.loop, m.generation, m.update));
  }

  lemma JoinRoute(s: State, route: NetworkStatus, identity: bool)
    requires Inv(s) && Enabled(s, Joined(identity)) && Tracked(s, route) && OnCurrentRoute(s, route)
    ensures var s' := Step(s, Joined(identity)); var route' := NextRoute(s, route, s');
      Tracked(s', route') && OnCurrentRoute(s', route')
  {
    ResumeTurn(s.loop, s.control.generation, s.control.next, identity);
    SameNetworkKeepsRoute(s, route, Resume(s.loop, s.control.next, identity));
  }

  /**
    However the attempt was launched, on a known or an unknown network: exactly the reports of
    `SilentRouteChange` leave it on an outdated route.
   */
  lemma RouteKeptUnlessSilent(s: State, route: NetworkStatus, e: Event)
    requires Inv(s) && Enabled(s, e) && Tracked(s, route) && OnCurrentRoute(s, route)
    ensures var s' := Step(s, e); var route' := NextRoute(s, route, s');
      Tracked(s', route') && (OnCurrentRoute(s', route') <==> !SilentRouteChange(s, route, e))
  {
    match e {
      case Handle(c, identity) => CommandRoute(s, route, c, identity);
      case Receive => ReceiveRoute(s, route);
      case Joined(identity) => JoinRoute(s, route, identity);
      case _ =>
    }
  }

  predicate NoSilentRouteChange(s: State, route: NetworkStatus, run: seq<Event>)
    requires Legal(s, run)
    decreases |run|
  {
    run == []
    || (!SilentRouteChange(s, route, run[0])
        && NoSilentRouteChange(Step(s, run[0]), NextRoute(s, route, Step(s, run[0])), run[1..]))
  }

  /** So a run without such reports always has its held attempt on the current route. */
  lemma {:induction false} RouteKeptInRun(s: State, route: NetworkStatus, run: seq<Event>)
    requires Inv(s) && Tracked(s, route) && OnCurrentRoute(s, route) && Legal(s, run) && NoSilentRouteChange(s, route, run)
    ensures Tracked(After(s, run), RouteAfter(s, route, run)) && OnCurrentRoute(After(s, run), RouteAfter(s, route, run))
    decreases |run|
  {
    if run != [] {
      RouteKeptUnlessSilent(s, route, run[0]);
      StepKeepsInv(s, run[0]);
      RouteKeptInRun(Step(s, run[0]), NextRoute(s, route, Step(s, run[0])), run[1..]);
    }
  }

  // ---------- A shell that does not forget the network ----------

  /** The shell goes back to reporting an unknown network. */
  predicate ForgetsNetwork(s: State, e: Event) {
    e.Handle? && e.command == NetworkChanged(Unknown) && !s.loop.policy.network.Unknown?
  }

  predicate NeverForgets(s: State, run: seq<Event>)
    requires Legal(s, run)
    decreases |run|
  {
    run == [] || (!ForgetsNetwork(s, run[0]) && NeverForgets(Step(s, run[0]), run[1..]))
  }

  /** While the network is unknown, so is the route. */
  predicate NeverKnown(s: State, route: NetworkStatus) {
    s.loop.policy.network.Unknown? ==> !route.Available?
  }

  lemma NetworkStaysKnown(s: State, e: Event)
    requires Inv(s) && Enabled(s, e) && !ForgetsNetwork(s, e)
    ensures Step(s, e).loop.policy.network.Unknown? ==> s.loop.policy.network.Unknown?
    ensures var s' := Step(s, e);
      s'.launches != s.launches ==> s'.launches != [] && LastLaunch(s').network == s'.loop.policy.network
  {
    if e.Handle? {
      LaunchesOnPolicyNetwork(s.loop, e.command, e.identityAvailable);
    }
  }

  /** A newly held attempt was launched by the very step. */
  lemma NewlyHeldWasLaunched(s: State, e: Event)
    requires Inv(s) && Enabled(s, e)
    ensures var s' := Step(s, e);
      s'.loop.active.Some? && s'.loop.active != s.loop.active ==> s'.launches != s.launches
  {
    match e {
      case Handle(c, identity) => CommandTurn(s.loop, c, identity);
      case Receive =>
        assert s.queue[0] in s.queue;
        UpdateTurn(s.loop, s.queue[0].generation, s.queue[0].update);
      case Joined(identity) => ResumeTurn(s.loop, s.control.generation, s.control.next, identity);
      case _ =>
    }
  }

  lemma NeverKnownStep(s: State, route: NetworkStatus, e: Event)
    requires Inv(s) && Enabled(s, e) && NeverKnown(s, route) && !ForgetsNetwork(s, e)
    ensures NeverKnown(Step(s, e), NextRoute(s, route, Step(s, e)))
  {
    NetworkStaysKnown(s, e);
    NewlyHeldWasLaunched(s, e);
  }

  /** Such a shell makes no silent route change. */
  lemma {:induction false} KnownNetworkKeepsRoute(s: State, route: NetworkStatus, run: seq<Event>)
    requires Inv(s) && NeverKnown(s, route) && Legal(s, run) && NeverForgets(s, run)
    ensures NoSilentRouteChange(s, route, run) && NeverKnown(After(s, run), RouteAfter(s, route, run))
    decreases |run|
  {
    if run != [] {
      NeverKnownStep(s, route, run[0]);
      StepKeepsInv(s, run[0]);
      KnownNetworkKeepsRoute(Step(s, run[0]), NextRoute(s, route, Step(s, run[0])), run[1..]);
    }
  }

  /** The network is up, over the transport and in the generation of the route. */
  predicate SameRoute(route: NetworkStatus, now: NetworkStatus)
    requires route.Available?
  {
    now.Available? && now.transport == route.transport && now.generation == route.generation
  }

  /** The held attempt has its route under it, or no network was ever reported. */
  predicate LiveRouteIsCurrent(s: State, route: NetworkStatus) {
    s.control.AtSelect? && s.loop.active.Some? ==>
      if route.Available? then SameRoute(route, s.loop.policy.network) else s.loop.policy.network.Unknown?
  }

  lemma LiveRouteFrom(s: State, route: NetworkStatus, run: seq<Event>)
    requires Inv(s) && Tracked(s, route) && OnCurrentRoute(s, route) && NeverKnown(s, route)
    requires Legal(s, run) && NeverForgets(s, run)
    ensures LiveRouteIsCurrent(After(s, run), RouteAfter(s, route, run))
  {
    KnownNetworkKeepsRoute(s, route, run);
    RouteKeptInRun(s, route, run);
    RunKeepsInv(s, run);
  }

  /** With such a shell this holds in every run: same transport, same generation, however it was launched. */
  lemma LiveAttemptIsOnCurrentRoute(capabilities: Capabilities, run: seq<Event>)
    requires Legal(Initial(capabilities), run) && NeverForgets(Initial(capabilities), run)
    ensures LiveRouteIsCurrent(After(Initial(capabilities), run), RouteAfter(Initial(capabilities), Unknown, run))
  {
    LiveRouteFrom(Initial(capabilities), Unknown, run);
  }

  // ---------- The failing case is real ----------

  /** A report without a usable-to-usable move leaves an unblocked loop's attempt alone. */
  lemma ReportKeepsAttempt(s: State, n: NetworkStatus)
    requires s.control.AtSelect? && s.loop.policy.lifecycle.Foreground? && !s.loop.policy.resumePending
    requires !n.Unavailable? && !UsableRouteChanged(s.loop.policy.network, n)
    ensures var s' := Step(s, Handle(NetworkChanged(n), true));
      s'.control.AtSelect? && s'.loop.policy == s.loop.policy.(network := n) && s'.loop.active == s.loop.active
      && s'.launches == s.launches
  {
  }

  lemma ConnectLaunches(s: State, r: ConnectRequest)
    requires s.control.AtSelect? && !s.loop.policy.Blocked() && !s.loop.policy.active && s.loop.active.None?
    ensures var s' := Step(s, Handle(Connect(r), true));
      s'.control.AtSelect? && s'.loop.active.Some? && s'.loop.policy == Request(s.loop.policy).policy
      && s'.launches != [] && LastLaunch(s').network == s.loop.policy.network
  {
  }

  lemma RouteFrom(s: State, route: NetworkStatus, e: Event, rest: seq<Event>)
    requires Enabled(s, e) && Legal(Step(s, e), rest)
    ensures Legal(s, [e] + rest) && After(s, [e] + rest) == After(Step(s, e), rest)
    ensures RouteAfter(s, route, [e] + rest) == RouteAfter(Step(s, e), NextRoute(s, route, Step(s, e)), rest)
  {
    RunFrom(s, e, rest);
    assert ([e] + rest)[1..] == rest;
  }

  const ON_WIFI := Available(Wifi, false, true, 1)
  const ON_CELLULAR := Available(Cellular, true, true, 2)

  /** Unknown, then cellular, under an attempt that is on Wi-Fi: nothing restarts it. */
  lemma LosesRoute(s: State)
    requires s.control.AtSelect? && s.loop.policy == Policy(Foreground, ON_WIFI, true, true, false) && s.loop.active.Some?
    ensures var run := [Handle(NetworkChanged(Unknown), true)] + ([Handle(NetworkChanged(ON_CELLULAR), true)] + []);
      && Legal(s, run) && After(s, run).loop.active == s.loop.active
      && RouteAfter(s, ON_WIFI, run) == ON_WIFI && !OnCurrentRoute(After(s, run), ON_WIFI)
  {
    var e3, e4 := Handle(NetworkChanged(Unknown), true), Handle(NetworkChanged(ON_CELLULAR), true);
    ReportKeepsAttempt(s, Unknown);
    ReportKeepsAttempt(Step(s, e3), ON_CELLULAR);
    RouteFrom(Step(s, e3), ON_WIFI, e4, []);
    RouteFrom(s, ON_WIFI, e3, [e4] + []);
  }

  /** Wi-Fi, then a connection, then unknown and cellular: the socket stays on Wi-Fi. */
  lemma SilentRouteChangeHappens(capabilities: Capabilities, r: ConnectRequest)
    ensures var run := [Handle(NetworkChanged(ON_WIFI), true)] + ([Handle(Connect(r), true)]
                       + ([Handle(NetworkChanged(Unknown), true)] + ([Handle(NetworkChanged(ON_CELLULAR), true)] + [])));
      var s := Initial(capabilities);
      Legal(s, run) && !OnCurrentRoute(After(s, run), RouteAfter(s, Unknown, run))
  {
    var e1, e2 := Handle(NetworkChanged(ON_WIFI), true), Handle(Connect(r), true);
    var rest := [Handle(NetworkChanged(Unknown), true)] + ([Handle(NetworkChanged(ON_CELLULAR), true)] + []);
    var s0 := Initial(capabilities);
    ReportKeepsAttempt(s0, ON_WIFI);
    ConnectLaunches(Step(s0, e1), r);
    LosesRoute(Step(Step(s0, e1), e2));
    RouteFrom(Step(s0, e1), Unknown, e2, rest);
    RouteFrom(s0, Unknown, e1, [e2] + rest);
  }

  /** The same when the connection came before the first report of a network. */
  lemma SilentRouteChangeAfterUnknownLaunch(capabilities: Capabilities, r: ConnectRequest)
    ensures var run := [Handle(Connect(r), true)] + ([Handle(NetworkChanged(ON_WIFI), true)]
                       + ([Handle(NetworkChanged(Unknown), true)] + ([Handle(NetworkChanged(ON_CELLULAR), true)] + [])));
      var s := Initial(capabilities);
      Legal(s, run) && !OnCurrentRoute(After(s, run), RouteAfter(s, Unknown, run))
  {
    var e1, e2 := Handle(Connect(r), true), Handle(NetworkChanged(ON_WIFI), true);
    var rest := [Handle(NetworkChanged(Unknown), true)] + ([Handle(NetworkChanged(ON_CELLULAR), true)] + []);
    var s0 := Initial(capabilities);
    ConnectLaunches(s0, r);
    ReportKeepsAttempt(Step(s0, e1), ON_WIFI);
    LosesRoute(Step(Step(s0, e1), e2));
    RouteFrom(Step(s0, e1), Unknown, e2, rest);
    RouteFrom(s0, Unknown, e1, [e2] + rest);
  }

  /**
    A usable or unknown report restarts the live attempt exactly when it moves from one usable network
    to another of different transport or generation; metering and validation never do.
   */
  lemma RestartsOnlyOnRouteChange(s: State, n: NetworkStatus, identity: bool)
    requires Inv(s) && s.control.AtSelect? && s.loop.active.Some? && !n.Unavailable?
    ensures var s', m := Step(s, Handle(NetworkChanged(n), identity)), s.loop.policy.network;
      if m.Available? && n.Available? && (m.transport != n.transport || m.generation != n.generation)
      then s'.control == Joining(s.loop.active.value, LaunchAttempt)
      else s'.control.AtSelect? && s'.loop.active == s.loop.active && s'.tasks == s.tasks && s'.launches == s.launches
  {
  }

  // ---------- Which blocker is named ----------

  /** A waiting request is shown with the blocker it is waiting for now. */
  predicate NamesBlocker(l: Loop) {
    l.view.phase.Blocked? ==> l.policy.Blocker() == Some(l.view.phase.blocker)
  }

  /** The blocker by what the shell has reported once the event is handled. */
  function Reported(p: Policy, e: Event): Option<ConnectionBlocker> {
    if e.Handle? && e.command.Lifecycle? then BlockerOf(e.command.lifecycle, p.network)
    else if e.Handle? && e.command.NetworkChanged? then BlockerOf(p.lifecycle, e.command.network)
    else p.Blocker()
  }

  /** A report puts one blocker in the place of another while a request is waiting. */
  predicate SwapsBlocker(p: Policy, e: Event) {
    p.resumePending && Reported(p, e).Some? && Reported(p, e) != p.Blocker()
  }

  /** Starting or stopping names the right thing; doing nothing leaves the old name. */
  lemma ObeyNames(l: Loop, d: Directive, mayRestart: bool, identity: bool)
    requires d.Stop? ==> l.policy.Blocked()
    requires d.Start? || d.Restart? ==> l.request.Some? && (d.Restart? ==> mayRestart)
    ensures NamesBlocker(Obey(l, d, mayRestart, identity).loop) <==> (d.Stay? ==> NamesBlocker(l))
  {
  }

  lemma LifecycleNames(l: Loop, x: AppLifecycle, identity: bool)
    requires Resting(l) && NamesBlocker(l)
    ensures var e := Handle(Lifecycle(x), identity);
      NamesBlocker(HandleCommand(l, e.command, identity).loop) <==> !SwapsBlocker(l.policy, e)
  {
    var Decision(p, d) := ChangeLifecycle(l.policy, x);
    ObeyNames(l.(policy := p, view := SetEnvironment(l.view, p.lifecycle, p.network)), d, false, identity);
  }

  lemma NetworkNames(l: Loop, n: NetworkStatus, identity: bool)
    requires Resting(l) && NamesBlocker(l)
    ensures var e := Handle(NetworkChanged(n), identity);
      NamesBlocker(HandleCommand(l, e.command, identity).loop) <==> !SwapsBlocker(l.policy, e)
  {
    var Decision(p, d) := ChangeNetwork(l.policy, n);
    ObeyNames(l.(policy := p, view := SetEnvironment(l.view, p.lifecycle, p.network)), d, true, identity);
  }

  lemma OtherNames(l: Loop, c: Command, identity: bool)
    requires Resting(l) && NamesBlocker(l) && !c.Lifecycle? && !c.NetworkChanged?
    ensures NamesBlocker(HandleCommand(l, c, identity).loop)
  {
  }

  /** The named blocker stays the current one, exactly until a report swaps blockers under a waiting request. */
  lemma BlockerNamedUnlessSwapped(s: State, e: Event)
    requires Inv(s) && Enabled(s, e) && NamesBlocker(s.loop)
    ensures NamesBlocker(Step(s, e).loop) <==> !SwapsBlocker(s.loop.policy, e)
  {
    match e {
      case Handle(c, identity) =>
        match c {
          case Lifecycle(x) => LifecycleNames(s.loop, x, identity);
          case NetworkChanged(n) => NetworkNames(s.loop, n, identity);
          case _ => OtherNames(s.loop, c, identity);
        }
      case _ =>
    }
  }

  /** It happens: a request made without network still names the network once the app is in the background. */
  lemma StaleBlockerHappens(capabilities: Capabilities, r: ConnectRequest)
    ensures var run := [Handle(NetworkChanged(Unavailable), true)]
                       + ([Handle(Connect(r), true)] + ([Handle(Lifecycle(Background), true)] + []));
      Legal(Initial(capabilities), run) && !NamesBlocker(After(Initial(capabilities), run).loop)
  {
    var s0 := Initial(capabilities);
    var e1, e2 := Handle(NetworkChanged(Unavailable), true), Handle(Connect(r), true);
    var e3 := Handle(Lifecycle(Background), true);
    var s1 := Step(s0, e1);
    var s2 := Step(s1, e2);
    assert s1.control.AtSelect? && s1.loop.policy == InitialPolicy.(network := Unavailable);
    assert s2.control.AtSelect? && s2.loop.view.phase == Blocked(NoNetwork) && s2.loop.policy.resumePending;
    RunFrom(s2, e3, []);
    RunFrom(s1, e2, [e3] + []);
    RunFrom(s0, e1, [e2] + ([e3] + []));
  }
}
