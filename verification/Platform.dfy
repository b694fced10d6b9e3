/** Platform facts the Android shell reports: lifecycle, connectivity, capabilities. */
module Platform {
  import opened Basics

  datatype AppLifecycle = Foreground | Background

  datatype Transport = UnknownTransport | Wifi | Cellular | Ethernet | Vpn | OtherTransport

  datatype NetworkStatus =
    | Unknown
    | Unavailable
    | Available(transport: Transport, metered: bool, validated: bool, generation: nat)

  datatype ConnectionBlocker = InBackground | NoNetwork

  datatype DiscoveryReadiness = ManualAddressOnly | PermissionRequired | MulticastLockRequired | Ready

  datatype Capabilities = Capabilities(deviceBacked: bool, discovery: DiscoveryReadiness)

  /** The highest-priority reason a connection should not run. */
  function BlockerOf(lifecycle: AppLifecycle, network: NetworkStatus): Option<ConnectionBlocker> {
    if lifecycle.Background? then Some(InBackground)
    else if network.Unavailable? then Some(NoNetwork)
    else None
  }

  /** Two usable networks count as different routes when transport or generation differ. */
  predicate UsableRouteChanged(before: NetworkStatus, after: NetworkStatus) {
    before.Available? && after.Available?
    && (before.generation != after.generation || before.transport != after.transport)
  }
}
