/**
  One turn of the Gateway control loop: a command or a dequeued attempt update.

  A turn runs until the loop is back at its `select`, or until it awaits the join of the attempt
  it has just cancelled. In the second case the turn goes on in `Resume` once the task has ended.
 */
module ControlLoop {
  import opened Basics
  import opened Platform
  import opened RunPolicy
  import opened Onboarding

  datatype Command =
    | Connect(request: ConnectRequest)
    | Reject(code: nat)
    | Disconnect
    | Retry
    | Lifecycle(lifecycle: AppLifecycle)
    | NetworkChanged(network: NetworkStatus)
    | DiscoveryChanged(readiness: DiscoveryReadiness)

  /** What the turn does after the join it is waiting for. */
  datatype Continuation = Republish | DropRequest | LaunchAttempt | BackToSelect | Finished

  datatype Control =
    | AtSelect
    | Joining(generation: nat, next: Continuation)
    | Ended
    | Panicked

  /** One call of `start_requested_attempt` that got past its join: which attempt, for what, on which network. */
  datatype Launch = Launch(generation: nat, request: Option<ConnectRequest>, network: NetworkStatus, spawned: bool)

  /** Everything the loop owns. */
  datatype Loop = Loop(
    policy: Policy,
    view: View,
    request: Option<ConnectRequest>,
    identityReady: bool,
    active: Option<nat>,
    last: Option<Snapshot>)

  /** Where a turn (or half a turn) leaves the loop, what it showed and what it launched. */
  datatype Turn = Turn(loop: Loop, control: Control, shown: seq<Snapshot>, launch: Option<Launch>)

  function InitialLoop(capabilities: Capabilities): Loop {
    Loop(InitialPolicy, InitialView(capabilities), None, false, None, None)
  }

  /** What the publisher hands to the sink: the rendered view unless it was the last one shown. */
  function Fresh(l: Loop): seq<Snapshot> {
    if l.last == Some(Render(l.view)) then [] else [Render(l.view)]
  }

  function Published(l: Loop): Loop {
    l.(last := Some(Render(l.view)))
  }

  function Publish(l: Loop, launch: Option<Launch>): Turn {
    Turn(Published(l), AtSelect, Fresh(l), launch)
  }

  /** Publishes, then cancels and joins the held attempt, if any, before going on with `next`. */
  function PublishAndStop(l: Loop, next: Continuation): Turn
    requires !next.LaunchAttempt?
  {
    match l.active
    case None => var t := Resume(Published(l), next, false); t.(shown := Fresh(l) + t.shown)
    case Some(g) => Turn(Published(l).(active := None), Joining(g, next), Fresh(l), None)
  }

  function LaunchNow(l: Loop, identityAvailable: bool): Turn {
    var g := l.view.generation;
    if !l.identityReady && !identityAvailable then
      Publish(l.(view := Apply(l.view, g, AttemptFailed(FromIdentity(0))), policy := Finish(l.policy)),
              Some(Launch(g, l.request, l.policy.network, false)))
    else
      Publish(l.(view := Apply(l.view, g, IdentityCreated(l.view.capabilities.deviceBacked)),
                 identityReady := true, active := Some(g)),
              Some(Launch(g, l.request, l.policy.network, true)))
  }

  /** `begin` comes first, so a restart supersedes the old attempt before it is joined. */
  function StartAttempt(l: Loop, restart: bool, request: ConnectRequest, identityAvailable: bool): Turn {
    var begun := l.(view := Begin(l.view, request));
    if restart && l.active.Some?
    then Turn(begun.(active := None), Joining(l.active.value, LaunchAttempt), [], None)
    else LaunchNow(begun, identityAvailable)
  }

  function Resume(l: Loop, next: Continuation, identityAvailable: bool): Turn {
    match next
    case Republish => Publish(l, None)
    case DropRequest => Publish(l.(request := None), None)
    case LaunchAttempt => LaunchNow(l, identityAvailable)
    case BackToSelect => Turn(l, AtSelect, [], None)
    case Finished => Turn(l, Ended, [], None)
  }

  /** Acts on the directive of a lifecycle or network change. */
  function Obey(l: Loop, d: Directive, mayRestart: bool, identityAvailable: bool): Turn {
    if d.Stop? then
      match l.policy.Blocker()
      case None => Turn(l, Panicked, [], None)
      case Some(b) => PublishAndStop(l.(view := Suspend(l.view, b)), Republish)
    else if (d.Start? || (d.Restart? && mayRestart)) && l.request.Some? then
      StartAttempt(l, d.Restart?, l.request.value, identityAvailable)
    else
      Publish(l, None)
  }

  function HandleCommand(l: Loop, c: Command, identityAvailable: bool): Turn {
    match c
    case Connect(r) =>
      var Decision(p, d) := Request(l.policy);
      var l := l.(policy := p, request := Some(r));
      if p.Blocked() then
        var deferred := l.(view := Defer(l.view, r, p.Blocker().value));
        if d.Stop? then PublishAndStop(deferred, Republish) else Publish(deferred, None)
      else StartAttempt(l, d.Restart?, r, identityAvailable)
    case Reject(code) =>
      Publish(if l.policy.active || l.policy.resumePending then l
              else l.(view := Apply(l.view, l.view.generation, AttemptFailed(FromRejection(code)))), None)
    case Disconnect =>
      var Decision(p, d) := Withdraw(l.policy);
      var stopped := l.(policy := p, view := RequestStop(l.view));
      if d.Stop? then PublishAndStop(stopped, DropRequest) else Publish(stopped.(request := None), None)
    case Retry =>
      var Decision(p, d) := RetryRetained(l.policy);
      var l := l.(policy := p);
      if l.request.None? then Publish(l, None)
      else if p.Blocked() then Publish(l.(view := Defer(l.view, l.request.value, p.Blocker().value)), None)
      else if d.Start? then StartAttempt(l, false, l.request.value, identityAvailable)
      else Publish(l, None)
    case Lifecycle(x) =>
      var Decision(p, d) := ChangeLifecycle(l.policy, x);
      Obey(l.(policy := p, view := SetEnvironment(l.view, p.lifecycle, p.network)), d, false, identityAvailable)
    case NetworkChanged(n) =>
      var Decision(p, d) := ChangeNetwork(l.policy, n);
      Obey(l.(policy := p, view := SetEnvironment(l.view, p.lifecycle, p.network)), d, true, identityAvailable)
    case DiscoveryChanged(readiness) =>
      Publish(l.(view := SetCapabilities(l.view, l.view.capabilities.(discovery := readiness))), None)
  }

  /** The update as far as the screen is concerned: applied, and published if it changed anything. */
  function RenderUpdate(l: Loop, generation: nat, u: Update): Turn {
    if Changes(l.view, generation, u) then Publish(l.(view := Apply(l.view, generation, u)), None)
    else Turn(l, AtSelect, [], None)
  }

  function HandleUpdate(l: Loop, generation: nat, u: Update): Turn {
    var t := RenderUpdate(l, generation, u);
    if generation == l.view.generation && u.Terminal() && l.active == Some(generation)
    then t.(loop := t.loop.(policy := Finish(l.policy), active := None), control := Joining(generation, BackToSelect))
    else t
  }

  /** The command channel closed: join any held attempt, then end. */
  function HandleClose(l: Loop): Turn {
    match l.active
    case None => Turn(l, Ended, [], None)
    case Some(g) => Turn(l.(active := None), Joining(g, Finished), [], None)
  }

  /** The loop as the program runs it: owned objects and variables updated in place. */
  class Controller {
    const policy: MobileRunPolicy
    const model: ViewModel
    var capabilities: Capabilities
    var request: Option<ConnectRequest>
    var identityReady: bool
    var active: Option<nat>
    var last: Option<Snapshot>
    // What the turn in progress has handed to the sink and to the task spawner.
    var shown: seq<Snapshot>
    var launch: Option<Launch>

    ghost predicate Valid()
      reads this, model
    {
      capabilities == model.capabilities
    }

    ghost function Value(): Loop
      reads this, policy, model
    {
      Loop(policy.View(), model.State(), request, identityReady, active, last)
    }

    constructor (platform: Capabilities)
      ensures Valid() && fresh(policy) && fresh(model)
      ensures Value() == Published(InitialLoop(platform))
      ensures shown == Fresh(InitialLoop(platform)) && launch == None
    {
      policy := new MobileRunPolicy();
      model := new ViewModel.WithPlatform(platform);
      capabilities, request, identityReady, active := platform, None, false, None;
      last, shown, launch := None, [], None;
      new;
      PublishModel();
    }

    method PublishModel()
      modifies this`last, this`shown
      ensures Value() == Published(old(Value())) && shown == old(shown) + Fresh(old(Value()))
    {
      var snapshot := Render(model.State());
      if last == Some(snapshot) {
        return;
      }
      shown := shown + [snapshot];
      last := Some(snapshot);
    }

    /** Cancels the held attempt; the caller's turn pauses at the join when there was one. */
    method TakeActive(next: Continuation) returns (control: Control)
      modifies this`active
      ensures active == None
      ensures control == if old(active).None? then AtSelect else Joining(old(active).value, next)
    {
      control := if active.None? then AtSelect else Joining(active.value, next);
      active := None;
    }

    /** The part of `start_requested_attempt` after its join. */
    method FinishLaunch(identityAvailable: bool)
      requires Valid()
      modifies this, policy, model
      ensures Valid()
      ensures Turn(Value(), AtSelect, shown, launch)
              == var t := LaunchNow(old(Value()), identityAvailable); t.(shown := old(shown) + t.shown)
    {
      var generation := model.generation;
      if !identityReady && !identityAvailable {
        var _ := model.ApplyUpdate(generation, AttemptFailed(FromIdentity(0)));
        launch := Some(Launch(generation, request, policy.network, false));
        policy.AttemptFinished();
      } else {
        identityReady := true;
        var _ := model.ApplyUpdate(generation, IdentityCreated(capabilities.deviceBacked));
        launch := Some(Launch(generation, request, policy.network, true));
        active := Some(generation);
      }
      PublishModel();
    }

    method StartRequestedAttempt(restart: bool, r: ConnectRequest, identityAvailable: bool) returns (control: Control)
      requires Valid() && shown == [] && launch == None
      modifies this, policy, model
      ensures Valid()
      ensures Turn(Value(), control, shown, launch)
              == StartAttempt(old(Value()), restart, r, identityAvailable)
    {
      var _ := model.BeginAttempt(r);
      control := AtSelect;
      if restart {
        control := TakeActive(LaunchAttempt);
      }
      if control.AtSelect? {
        FinishLaunch(identityAvailable);
      }
    }

    /** Publishes what the turn changed, then stops the held attempt and finishes with `next`. */
    method StopThen(next: Continuation) returns (control: Control)
      requires Valid() && shown == [] && launch == None
      requires next.Republish? || next.DropRequest?
      modifies this`last, this`shown, this`active, this`request
      ensures Valid()
      ensures Turn(Value(), control, shown, launch) == PublishAndStop(old(Value()), next)
    {
      PublishModel();
      control := TakeActive(next);
      if control.AtSelect? {
        if next.DropRequest? {
          request := None;
        }
        PublishModel();
      }
    }

    method ObeyDirective(d: Directive, mayRestart: bool, identityAvailable: bool) returns (control: Control)
      requires Valid() && shown == [] && launch == None
      modifies this, policy, model
      ensures Valid()
      ensures Turn(Value(), control, shown, launch)
              == Obey(old(Value()), d, mayRestart, identityAvailable)
    {
      control := AtSelect;
      if d.Stop? {
        if policy.Blocker().None? {
          return Panicked;
        }
        model.SuspendAttempt(policy.Blocker().value);
        control := StopThen(Republish);
      } else if (d.Start? || (d.Restart? && mayRestart)) && request.Some? {
        control := StartRequestedAttempt(d.Restart?, request.value, identityAvailable);
      } else {
        PublishModel();
      }
    }

    method OnConnect(r: ConnectRequest, identityAvailable: bool) returns (control: Control)
      requires Valid() && shown == [] && launch == None
      modifies this, policy, model
      ensures Valid()
      ensures Turn(Value(), control, shown, launch) == HandleCommand(old(Value()), Connect(r), identityAvailable)
    {
      control := AtSelect;
      request := Some(r);
      var directive := policy.RequestConnection();
      if policy.Blocker().Some? {
        var _ := model.DeferAttempt(r, policy.Blocker().value);
        if directive.Stop? {
          control := StopThen(Republish);
        } else {
          PublishModel();
        }
      } else {
        control := StartRequestedAttempt(directive.Restart?, r, identityAvailable);
      }
    }

    method OnDisconnect() returns (control: Control)
      requires Valid() && shown == [] && launch == None
      modifies this, policy, model
      ensures Valid()
      ensures Turn(Value(), control, shown, launch) == HandleCommand(old(Value()), Disconnect, false)
    {
      control := AtSelect;
      var directive := policy.Disconnect();
      var _ := model.StopRequested();
      if directive.Stop? {
        control := StopThen(DropRequest);
      } else {
        request := None;
        PublishModel();
      }
    }

    method OnRetry(identityAvailable: bool) returns (control: Control)
      requires Valid() && shown == [] && launch == None
      modifies this, policy, model
      ensures Valid()
      ensures Turn(Value(), control, shown, launch) == HandleCommand(old(Value()), Retry, identityAvailable)
    {
      control := AtSelect;
      var directive := policy.Retry();
      if request.Some? && policy.Blocker().Some? {
        var _ := model.DeferAttempt(request.value, policy.Blocker().value);
        PublishModel();
      } else if request.Some? && directive.Start? {
        control := StartRequestedAttempt(false, request.value, identityAvailable);
      } else {
        PublishModel();
      }
    }

    method OnCommand(c: Command, identityAvailable: bool) returns (control: Control)
      requires Valid() && shown == [] && launch == None
      modifies this, policy, model
      ensures Valid()
      ensures Turn(Value(), control, shown, launch) == HandleCommand(old(Value()), c, identityAvailable)
    {
      control := AtSelect;
      match c {
        case Connect(r) =>
          control := OnConnect(r, identityAvailable);
        case Reject(code) =>
          if !policy.active && !policy.resumePending {
            var _ := model.ApplyUpdate(model.generation, AttemptFailed(FromRejection(code)));
          }
          PublishModel();
        case Disconnect =>
          control := OnDisconnect();
        case Retry =>
          control := OnRetry(identityAvailable);
        case Lifecycle(lifecycle) =>
          var directive := policy.SetLifecycle(lifecycle);
          var _ := model.ChangeEnvironment(policy.lifecycle, policy.network);
          control := ObeyDirective(directive, false, identityAvailable);
        case NetworkChanged(network) =>
          var directive := policy.SetNetwork(network);
          var _ := model.ChangeEnvironment(policy.lifecycle, policy.network);
          control := ObeyDirective(directive, true, identityAvailable);
        case DiscoveryChanged(readiness) =>
          capabilities := Capabilities(capabilities.deviceBacked, readiness);
          var _ := model.ChangeCapabilities(capabilities);
          PublishModel();
      }
    }

    method ShowUpdate(generation: nat, u: Update)
      requires Valid() && shown == [] && launch == None
      modifies this`last, this`shown, model
      ensures Valid()
      ensures Turn(Value(), AtSelect, shown, launch) == RenderUpdate(old(Value()), generation, u)
    {
      var changed := model.ApplyUpdate(generation, u);
      if changed {
        PublishModel();
      }
    }

    method OnUpdate(generation: nat, u: Update) returns (control: Control)
      requires Valid() && shown == [] && launch == None
      modifies this, policy, model
      ensures Valid()
      ensures Turn(Value(), control, shown, launch) == HandleUpdate(old(Value()), generation, u)
    {
      var current := generation == model.generation;
      ShowUpdate(generation, u);
      control := AtSelect;
      if current && u.Terminal() && active == Some(generation) {
        policy.AttemptFinished();
        control := TakeActive(BackToSelect);
      }
    }

    /** The awaited task has ended: the turn goes on where it paused. */
    method OnJoined(next: Continuation, identityAvailable: bool) returns (control: Control)
      requires Valid() && shown == [] && launch == None
      modifies this, policy, model
      ensures Valid()
      ensures Turn(Value(), control, shown, launch) == Resume(old(Value()), next, identityAvailable)
    {
      control := AtSelect;
      match next {
        case Republish =>
          PublishModel();
        case DropRequest =>
          request := None;
          PublishModel();
        case LaunchAttempt =>
          FinishLaunch(identityAvailable);
        case BackToSelect =>
        case Finished =>
          control := Ended;
      }
    }

    method OnClose() returns (control: Control)
      requires Valid() && shown == [] && launch == None
      modifies this`active
      ensures Valid()
      ensures Turn(Value(), control, shown, launch) == HandleClose(old(Value()))
    {
      control := TakeActive(Finished);
      if control.AtSelect? {
        control := Ended;
      }
    }
  }
}
