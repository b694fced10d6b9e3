/** The onboarding view state: one generation-fenced attempt rendered at a time. */
module Onboarding {
  import opened Basics
  import opened Platform

  datatype ConnectRequest = ConnectRequest(endpoint: string, hasToken: bool)

  datatype UserError =
    | FromRejection(code: nat)
    | FromIdentity(code: nat)
    | FromGateway(code: nat)
    | ControllerBusy

  datatype Update =
    | IdentityCreated(deviceBacked: bool)
    | NowConnecting
    | NowAuthenticating
    | NowReady(epoch: nat)
    | NowReconnecting(attempt: nat, delay: nat)
    | AttemptFailed(reason: UserError)
    | AttemptStopped
  {
    predicate Terminal() {
      AttemptFailed? || AttemptStopped?
    }
  }

  datatype Phase =
    | Idle
    | Blocked(blocker: ConnectionBlocker)
    | Connecting
    | Authenticating
    | Online(epoch: nat)
    | Reconnecting(attempt: nat, delay: nat)
    | Failed(error: UserError)
    | Stopped
  {
    /** An attempt is on screen: opening, authenticating, connected or retrying. */
    predicate Live() {
      Connecting? || Authenticating? || Online? || Reconnecting?
    }
  }

  datatype View = View(
    generation: nat,
    revision: nat,
    phase: Phase,
    endpoint: string,
    tokenOffered: bool,
    identity: Option<bool>,
    requestRetained: bool,
    lifecycle: AppLifecycle,
    network: NetworkStatus,
    capabilities: Capabilities)

  datatype Snapshot = Snapshot(
    revision: nat,
    phase: Phase,
    endpoint: string,
    tokenOffered: bool,
    identity: Option<bool>,
    lifecycle: AppLifecycle,
    network: NetworkStatus,
    capabilities: Capabilities,
    pendingConnection: bool,
    busy: bool,
    canConnect: bool,
    canDisconnect: bool,
    canRetry: bool)

  function InitialView(capabilities: Capabilities): View {
    View(0, 0, Idle, "", false, None, false, Foreground, Unknown, capabilities)
  }

  function Touch(v: View): View {
    v.(revision := v.revision + 1)
  }

  function Prepare(v: View, request: ConnectRequest, phase: Phase): View {
    Touch(v.(generation := v.generation + 1, phase := phase, endpoint := request.endpoint,
             identity := None, tokenOffered := request.hasToken, requestRetained := true))
  }

  function Begin(v: View, request: ConnectRequest): View {
    Prepare(v, request, Connecting)
  }

  function Defer(v: View, request: ConnectRequest, blocker: ConnectionBlocker): View {
    Prepare(v, request, Blocked(blocker))
  }

  function Suspend(v: View, blocker: ConnectionBlocker): View {
    Touch(v.(generation := v.generation + 1, phase := Blocked(blocker)))
  }

  function SetEnvironment(v: View, lifecycle: AppLifecycle, network: NetworkStatus): View {
    if v.lifecycle == lifecycle && v.network == network then v
    else Touch(v.(lifecycle := lifecycle, network := network))
  }

  function SetCapabilities(v: View, capabilities: Capabilities): View {
    if v.capabilities == capabilities then v else Touch(v.(capabilities := capabilities))
  }

  function PhaseOf(u: Update): Phase
    requires !u.IdentityCreated?
  {
    match u
    case NowConnecting => Connecting
    case NowAuthenticating => Authenticating
    case NowReady(epoch) => Online(epoch)
    case NowReconnecting(attempt, delay) => Reconnecting(attempt, delay)
    case AttemptFailed(reason) => Failed(reason)
    case AttemptStopped => Stopped
  }

  /** An update counts only for the generation on screen, and only when it changes something. */
  predicate Changes(v: View, generation: nat, u: Update) {
    generation == v.generation
    && if u.IdentityCreated? then v.identity != Some(u.deviceBacked) else v.phase != PhaseOf(u)
  }

  function Apply(v: View, generation: nat, u: Update): View {
    if !Changes(v, generation, u) then v
    else if u.IdentityCreated? then Touch(v.(identity := Some(u.deviceBacked)))
    else Touch(v.(phase := PhaseOf(u)))
  }

  function RequestStop(v: View): View {
    if v.phase.Stopped? && !v.requestRetained then v
    else Touch(v.(generation := v.generation + 1, phase := Stopped, requestRetained := false))
  }

  function Render(v: View): Snapshot {
    var pending := v.phase.Blocked? || v.phase.Live();
    Snapshot(v.revision, v.phase, v.endpoint, v.tokenOffered, v.identity,
             v.lifecycle, v.network, v.capabilities,
             pending,
             v.phase.Connecting? || v.phase.Authenticating? || v.phase.Reconnecting?,
             v.phase.Idle? || v.phase.Failed? || v.phase.Stopped?,
             pending,
             v.requestRetained && v.phase.Failed?)
  }

  /** The mutable view model. */
  class ViewModel {
    var generation: nat
    var revision: nat
    var phase: Phase
    var endpoint: string
    var tokenOffered: bool
    var identity: Option<bool>
    var requestRetained: bool
    var lifecycle: AppLifecycle
    var network: NetworkStatus
    var capabilities: Capabilities

    function State(): View
      reads this
    {
      View(generation, revision, phase, endpoint, tokenOffered, identity, requestRetained,
           lifecycle, network, capabilities)
    }

    constructor WithPlatform(platform: Capabilities)
      ensures State() == InitialView(platform)
    {
      generation, revision, phase := 0, 0, Idle;
      endpoint, tokenOffered, identity, requestRetained := "", false, None, false;
      lifecycle, network, capabilities := Foreground, Unknown, platform;
    }

    method BeginAttempt(request: ConnectRequest) returns (g: nat)
      modifies this
      ensures State() == Begin(old(State()), request) && g == State().generation
    {
      PrepareAttempt(request, Connecting);
      g := generation;
    }

    method DeferAttempt(request: ConnectRequest, blocker: ConnectionBlocker) returns (g: nat)
      modifies this
      ensures State() == Defer(old(State()), request, blocker) && g == State().generation
    {
      PrepareAttempt(request, Blocked(blocker));
      g := generation;
    }

    method SuspendAttempt(blocker: ConnectionBlocker)
      modifies this
      ensures State() == Suspend(old(State()), blocker)
    {
      generation := generation + 1;
      phase := Blocked(blocker);
      Bump();
    }

    method PrepareAttempt(request: ConnectRequest, next: Phase)
      modifies this
      ensures State() == Prepare(old(State()), request, next)
    {
      generation := generation + 1;
      phase := next;
      endpoint := request.endpoint;
      identity := None;
      tokenOffered := request.hasToken;
      requestRetained := true;
      Bump();
    }

    method ChangeEnvironment(l: AppLifecycle, n: NetworkStatus) returns (changed: bool)
      modifies this
      ensures State() == SetEnvironment(old(State()), l, n)
      ensures changed == (State() != old(State()))
    {
      if lifecycle == l && network == n {
        return false;
      }
      lifecycle := l;
      network := n;
      Bump();
      changed := true;
    }

    method ChangeCapabilities(platform: Capabilities) returns (changed: bool)
      modifies this
      ensures State() == SetCapabilities(old(State()), platform)
      ensures changed == (State() != old(State()))
    {
      if capabilities == platform {
        return false;
      }
      capabilities := platform;
      Bump();
      changed := true;
    }

    method ApplyUpdate(g: nat, u: Update) returns (changed: bool)
      modifies this
      ensures State() == Apply(old(State()), g, u)
      ensures changed == Changes(old(State()), g, u)
    {
      if g != generation {
        return false;
      }
      match u {
        case IdentityCreated(backed) =>
          changed := identity != Some(backed);
          identity := Some(backed);
        case NowConnecting => changed := ReplacePhase(Connecting);
        case NowAuthenticating => changed := ReplacePhase(Authenticating);
        case NowReady(epoch) => changed := ReplacePhase(Online(epoch));
        case NowReconnecting(attempt, delay) => changed := ReplacePhase(Reconnecting(attempt, delay));
        case AttemptFailed(reason) => changed := ReplacePhase(Failed(reason));
        case AttemptStopped => changed := ReplacePhase(Stopped);
      }
      if changed {
        Bump();
      }
    }

    method StopRequested() returns (changed: bool)
      modifies this
      ensures State() == RequestStop(old(State()))
      ensures changed == (State() != old(State()))
    {
      if phase.Stopped? && !requestRetained {
        return false;
      }
      generation := generation + 1;
      phase := Stopped;
      requestRetained := false;
      Bump();
      changed := true;
    }

    method ReplacePhase(next: Phase) returns (changed: bool)
      modifies this`phase
      ensures phase == next && changed == (old(phase) != next)
    {
      if phase == next {
        changed := false;
      } else {
        phase := next;
        changed := true;
      }
    }

    method Bump()
      modifies this`revision
      ensures State() == Touch(old(State()))
    {
      revision := revision + 1;
    }
  }
}
