/** The policy that decides when the single connection attempt starts, stops and restarts. */
module RunPolicy {
  import opened Basics
  import opened Platform

  datatype Directive = Stay | Start | Stop | Restart

  /** The policy as a value; `MobileRunPolicy` below holds the same facts in mutable fields. */
  datatype Policy = Policy(
    lifecycle: AppLifecycle,
    network: NetworkStatus,
    requested: bool,
    active: bool,
    resumePending: bool)
  {
    function Blocker(): Option<ConnectionBlocker> {
      BlockerOf(lifecycle, network)
    }

    predicate Blocked() {
      Blocker().Some?
    }

    /** A pending resume is a blocked, idle request; an active attempt is requested and unblocked. */
    predicate Coherent() {
      (active ==> requested && !Blocked())
      && (resumePending ==> requested && Blocked() && !active)
    }
  }

  datatype Decision = Decision(policy: Policy, directive: Directive)

  const InitialPolicy := Policy(Foreground, Unknown, false, false, false)

  // The operations, each as a table over "blocked?" and "active?".

  function Request(p: Policy): Decision {
    Decision(
      p.(requested := true, active := !p.Blocked(), resumePending := p.Blocked()),
      if p.Blocked() then (if p.active then Stop else Stay)
      else if p.active then Restart else Start)
  }

  function RetryRetained(p: Policy): Decision {
    if !p.requested || p.active then Decision(p, Stay)
    else if p.Blocked() then Decision(p.(resumePending := true), Stay)
    else Decision(p.(active := true, resumePending := false), Start)
  }

  function Withdraw(p: Policy): Decision {
    Decision(p.(requested := false, active := false, resumePending := false),
             if p.active then Stop else Stay)
  }

  function Reconcile(p: Policy, restartActive: bool): Decision {
    if p.Blocked() then
      if p.active then Decision(p.(active := false, resumePending := p.requested), Stop) else Decision(p, Stay)
    else if p.active then Decision(p, if restartActive then Restart else Stay)
    else if p.requested && p.resumePending then Decision(p.(active := true, resumePending := false), Start)
    else Decision(p, Stay)
  }

  function ChangeLifecycle(p: Policy, lifecycle: AppLifecycle): Decision {
    if p.lifecycle == lifecycle then Decision(p, Stay)
    else Reconcile(p.(lifecycle := lifecycle), false)
  }

  function ChangeNetwork(p: Policy, network: NetworkStatus): Decision {
    if p.network == network then Decision(p, Stay)
    else Reconcile(p.(network := network), UsableRouteChanged(p.network, network))
  }

  function Finish(p: Policy): Policy {
    p.(active := false, resumePending := false)
  }

  /** The mutable policy of the control loop. */
  class MobileRunPolicy {
    var lifecycle: AppLifecycle
    var network: NetworkStatus
    var requested: bool
    var active: bool
    var resumePending: bool

    function View(): Policy
      reads this
    {
      Policy(lifecycle, network, requested, active, resumePending)
    }

    constructor ()
      ensures View() == InitialPolicy
    {
      lifecycle, network := Foreground, Unknown;
      requested, active, resumePending := false, false, false;
    }

    function Blocker(): (b: Option<ConnectionBlocker>)
      reads this
      ensures b == View().Blocker()
    {
      BlockerOf(lifecycle, network)
    }

    method RequestConnection() returns (d: Directive)
      modifies this
      ensures Decision(View(), d) == Request(old(View()))
    {
      requested := true;
      resumePending := true;
      if Blocker().Some? {
        if active {
          active := false;
          d := Stop;
        } else {
          d := Stay;
        }
      } else if active {
        resumePending := false;
        d := Restart;
      } else {
        active := true;
        resumePending := false;
        d := Start;
      }
    }

    method Retry() returns (d: Directive)
      modifies this
      ensures Decision(View(), d) == RetryRetained(old(View()))
    {
      if !requested || active {
        return Stay;
      }
      resumePending := true;
      if Blocker().Some? {
        d := Stay;
      } else {
        active := true;
        resumePending := false;
        d := Start;
      }
    }

    method Disconnect() returns (d: Directive)
      modifies this
      ensures Decision(View(), d) == Withdraw(old(View()))
    {
      requested := false;
      resumePending := false;
      if active {
        active := false;
        d := Stop;
      } else {
        d := Stay;
      }
    }

    method SetLifecycle(value: AppLifecycle) returns (d: Directive)
      modifies this
      ensures Decision(View(), d) == ChangeLifecycle(old(View()), value)
    {
      if lifecycle == value {
        return Stay;
      }
      lifecycle := value;
      d := ReconcileActive(false);
    }

    method SetNetwork(value: NetworkStatus) returns (d: Directive)
      modifies this
      ensures Decision(View(), d) == ChangeNetwork(old(View()), value)
    {
      if network == value {
        return Stay;
      }
      var routeChanged := UsableRouteChanged(network, value);
      network := value;
      d := ReconcileActive(routeChanged);
    }

    method ReconcileActive(restartActive: bool) returns (d: Directive)
      modifies this
      ensures Decision(View(), d) == Reconcile(old(View()), restartActive)
    {
      if Blocker().Some? {
        if active {
          active := false;
          resumePending := requested;
          d := Stop;
        } else {
          d := Stay;
        }
      } else if active && restartActive {
        d := Restart;
      } else if !active && requested && resumePending {
        active := true;
        resumePending := false;
        d := Start;
      } else {
        d := Stay;
      }
    }

    method AttemptFinished()
      modifies this
      ensures View() == Finish(old(View()))
    {
      active := false;
      resumePending := false;
    }
  }
}
