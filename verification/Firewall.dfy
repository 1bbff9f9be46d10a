/** The bookkeeping of the stateful firewall: what is recorded in memory against what is
    installed in the rule backend, across enabling, disabling, changes and failing calls. */
module Firewall {
  import opened Common
  import opened Subnets
  import opened Redirections
  import opened FirewallRules

  // ---------------------------------------------------------------- the configuration

  /** A call on the configuration. */
  datatype Call =
    | Allowing(port: uint16, intf: Interface)
    | Disallowing(port: uint16)
    | Redirecting(intf: Interface, sourcePort: uint16, destinationPort: uint16)
    | Enabling(enabled: bool)
    | Routing(subnets: seq<Prefix>)

  /** How a call ends; Panicked is a Go panic. */
  datatype Outcome = Done | Failed | Panicked

  class Config {
    const backend: Backend
    const defaultRoutes: seq<Route>
    // The rules that enable installs besides those asked for by the records: in front of the
    // outbound subnets, between these and the input ports, and last the user's own.
    const fixedFirst: seq<Rule>
    const fixedThen: seq<Rule>
    const fixedLast: seq<Rule>

    var enabled: bool
    var saved: Rules                    // what restore goes back to
    var outboundSubnets: seq<Prefix>
    var allowedInputPorts: Ports
    var portRedirections: seq<Redirection>
    ghost const pristine: Rules         // the rules found at the start
    ghost var failuresAtEnable: nat     // of the backend, when last enabled
    ghost var orphaned: bool            // since then a redirection has left the record only
    ghost var leftover: bool            // since then a failed call has left an outbound rule

    constructor (
        backend: Backend, defaultRoutes: seq<Route>,
        fixedFirst: seq<Rule>, fixedThen: seq<Rule>, fixedLast: seq<Rule>)
      requires backend.restoreFailures == 0
      ensures Valid() && !enabled
      ensures outboundSubnets == [] && allowedInputPorts == map[] && portRedirections == []
      ensures this.backend == backend && pristine == backend.rules
    {
      this.backend := backend;
      this.defaultRoutes := defaultRoutes;
      this.fixedFirst, this.fixedThen, this.fixedLast := fixedFirst, fixedThen, fixedLast;
      enabled, saved := false, multiset{};
      outboundSubnets, allowedInputPorts, portRedirections := [], map[], [];
      pristine := backend.rules;
      failuresAtEnable, orphaned, leftover := 0, false, false;
    }

    ghost function View(): Records
      reads this
    {
      Records(saved, multiset(fixedFirst) + multiset(fixedThen) + multiset(fixedLast),
              defaultRoutes, outboundSubnets, allowedInputPorts, portRedirections)
    }

    /** Whatever calls have failed: while enabled, exactly the recorded port rules are installed, no
        recorded rule is missing, the redirect rules are exact unless one has been orphaned, and the
        outbound rules are exact unless a failed call has left one too many. As long as restoring
        works, disabling brings back the first rules. */
    ghost predicate Valid()
      reads this, backend
    {
      && Keyed(portRedirections)
      && (enabled ==> Installed(backend.rules, View(), orphaned, leftover) && failuresAtEnable <= backend.failures)
      && (enabled && leftover ==> failuresAtEnable < backend.failures)
      && (backend.restoreFailures == 0 ==> (if enabled then saved else backend.rules) == pristine)
    }

    method SetAllowedPort(port: uint16, intf: Interface) returns (ok: bool)
      requires Valid()
      modifies `allowedInputPorts, backend
      ensures backend.failures >= old(backend.failures)
      ensures Valid()
      ensures allowedInputPorts == if ok && port != 0
        then old(allowedInputPorts)[port := InterfacesOf(old(allowedInputPorts), port) + {intf}]
        else old(allowedInputPorts)
      ensures ok || (enabled && backend.failures > old(backend.failures))
    {
      hide Installed, Keeps, Agree, Keyed;
      if port == 0 {
        return true;
      }
      if !enabled {
        var existingInterfaces := InterfacesOf(allowedInputPorts, port);
        existingInterfaces := existingInterfaces + {intf};
        allowedInputPorts := allowedInputPorts[port := existingInterfaces];
        return true;
      }
      var netInterfaces := InterfacesOf(allowedInputPorts, port);
      if intf in netInterfaces {
        assert netInterfaces + {intf} == netInterfaces;
        return true;
      }
      ghost var rules, view := backend.rules, View();
      PortAdded(rules, view, intf, port);
      ok := backend.Apply(InputPort(intf, port), false);
      if !ok {
        return;
      }
      netInterfaces := netInterfaces + {intf};
      allowedInputPorts := allowedInputPorts[port := netInterfaces];
      KeepsInstalled(rules, view, backend.rules, View(), orphaned, leftover);
    }

    method RemoveAllowedPort(port: uint16) returns (ok: bool)
      requires Valid()
      modifies `allowedInputPorts, backend
      ensures backend.failures >= old(backend.failures)
      ensures Valid()
      ensures ok && port != 0 ==> allowedInputPorts == old(allowedInputPorts) - {port}
      ensures ok && port == 0 ==> allowedInputPorts == old(allowedInputPorts)
      ensures !ok ==> enabled && backend.failures > old(backend.failures)
      ensures !ok ==> InterfacesOf(allowedInputPorts, port) <= InterfacesOf(old(allowedInputPorts), port)
      ensures !ok ==> allowedInputPorts - {port} == old(allowedInputPorts) - {port}
    {
      hide Installed, Keeps, Agree, Keyed;
      if port == 0 {
        return true;
      }
      if !enabled {
        allowedInputPorts := allowedInputPorts - {port};
        return true;
      }
      if port !in allowedInputPorts {
        assert allowedInputPorts == allowedInputPorts - {port};
        return true;
      }
      ok := RemoveFromInterfaces(port);
      if !ok {
        return;
      }
      ghost var view := View();
      EmptyPortDropped(backend.rules, view, port);
      allowedInputPorts := allowedInputPorts - {port};
      KeepsInstalled(backend.rules, view, backend.rules, View(), orphaned, leftover);
    }

    /** The loop of RemoveAllowedPort; an interface leaves the record as soon as its rule is gone. */
    method RemoveFromInterfaces(port: uint16) returns (ok: bool)
      requires Valid() && enabled && port in allowedInputPorts
      modifies `allowedInputPorts, backend
      ensures backend.failures >= old(backend.failures)
      ensures Valid()
      ensures port in allowedInputPorts && allowedInputPorts[port] <= old(allowedInputPorts)[port]
      ensures allowedInputPorts - {port} == old(allowedInputPorts) - {port}
      ensures if ok then allowedInputPorts[port] == {} else backend.failures > old(backend.failures)
    {
      hide Installed, Keeps, Agree, Keyed;
      var interfacesSet := allowedInputPorts[port];
      while interfacesSet != {}
        invariant port in allowedInputPorts && allowedInputPorts[port] == interfacesSet <= old(allowedInputPorts)[port]
        invariant allowedInputPorts - {port} == old(allowedInputPorts) - {port}
        invariant backend.failures == old(backend.failures)
        invariant Valid()
      {
        var netInterface :| netInterface in interfacesSet;
        ghost var rules, view := backend.rules, View();
        PortRemoved(rules, view, netInterface, port);
        ok := backend.Apply(InputPort(netInterface, port), true);
        if !ok {
          return;
        }
        interfacesSet := interfacesSet - {netInterface};
        allowedInputPorts := allowedInputPorts[port := interfacesSet];
        KeepsInstalled(rules, view, backend.rules, View(), orphaned, leftover);
      }
      return true;
    }

    /** RedirectPort. While enabled the code records a redirection to port zero like any other,
        unlike its comment says. */
    method RedirectPort(intf: Interface, sourcePort: uint16, destinationPort: uint16) returns (r: Outcome)
      requires Valid()
      modifies `portRedirections, `orphaned, backend
      ensures backend.failures >= old(backend.failures)
      ensures !r.Panicked? ==> Valid()
      ensures var before, asked := old(portRedirections), Redirection(intf, sourcePort, destinationPort);
        var recording := enabled || destinationPort != 0;
        && (r.Panicked? <==>
              sourcePort == 0 || (Panics(before, asked, recording) && backend.failures == old(backend.failures)))
        && (r.Done? ==> Recorded(before, asked, recording, portRedirections))
        && (r.Failed? ==> portRedirections == before || WithoutConflict(before, asked, portRedirections))
        && (!r.Panicked? ==>
              (orphaned <==> old(orphaned) || (enabled && portRedirections != before && Orphans(before, asked))))
      ensures r.Failed? ==> enabled && backend.failures > old(backend.failures)
    {
      hide Installed, Agree, Keyed, RestOf, Removable, FirstClash, TakesOthers;
      if sourcePort == 0 {
        return Panicked;
      }
      ghost var before := portRedirections;
      var newRedirection := Redirection(intf, sourcePort, destinationPort);
      if !enabled {
        r := RecordRedirection(newRedirection);
        return;
      }
      var present, conflict := CheckRedirection(portRedirections, newRedirection);
      if present {
        return Done;
      }
      if conflict.Some? {
        r := RemoveConflict(conflict.value);
        if !r.Done? {
          return;
        }
      }
      KeyIsFree(before, newRedirection, portRedirections);
      var ok := InstallRedirection(newRedirection);
      r := if ok then Done else Failed;
    }

    /** The last step of RedirectPort on an enabled firewall. */
    method InstallRedirection(newRedirection: Redirection) returns (ok: bool)
      requires Valid() && enabled && Keyed(portRedirections + [newRedirection])
      modifies `portRedirections, backend
      ensures Valid()
      ensures portRedirections == if ok then old(portRedirections) + [newRedirection] else old(portRedirections)
      ensures backend.failures == old(backend.failures) + if ok then 0 else 1
    {
      hide Installed, Keeps, Agree, Keyed;
      ghost var rules, view := backend.rules, View();
      RedirectionAdded(rules, view, newRedirection);
      ok := backend.Apply(Redirect(newRedirection), false);
      if !ok {
        return;
      }
      portRedirections := portRedirections + [newRedirection];
      KeepsInstalled(rules, view, backend.rules, View(), orphaned, leftover);
    }

    /** The branch of RedirectPort for a disabled firewall. */
    method RecordRedirection(newRedirection: Redirection) returns (r: Outcome)
      requires Keyed(portRedirections)
      modifies `portRedirections
      ensures var recording := newRedirection.destinationPort != 0;
        if Panics(old(portRedirections), newRedirection, recording) then r == Panicked
        else r == Done && Keyed(portRedirections)
             && Recorded(old(portRedirections), newRedirection, recording, portRedirections)
    {
      hide Keyed, RestOf, Removable, FirstClash;
      ghost var before := portRedirections;
      if newRedirection.destinationPort == 0 {
        var rest := RemoveRedirection(portRedirections, newRedirection.interfaceName, newRedirection.sourcePort);
        if rest.None? {
          return Panicked;
        }
        KeyedRest(before, newRedirection.interfaceName, newRedirection.sourcePort, rest.value);
        portRedirections := rest.value;
        return Done;
      }
      var present, conflict := CheckRedirection(portRedirections, newRedirection);
      if present {
        return Done;
      } else if conflict.Some? {
        var rest := RemoveRedirection(portRedirections, conflict.value.interfaceName, conflict.value.sourcePort);
        if rest.None? {
          return Panicked;
        }
        portRedirections := rest.value;
      }
      KeyIsFree(before, newRedirection, portRedirections);
      portRedirections := portRedirections + [newRedirection];
      return Done;
    }

    /** The removal of a conflicting redirection from an enabled firewall: one rule goes, and from
        the record all that portRedirections.remove selects. */
    method RemoveConflict(conflict: Redirection) returns (r: Outcome)
      requires Valid() && enabled && conflict in portRedirections
      modifies `portRedirections, `orphaned, backend
      ensures var before := old(portRedirections);
        && (r.Panicked? ==>
              && !Removable(before, conflict.interfaceName, conflict.sourcePort)
              && backend.failures == old(backend.failures))
        && (r.Failed? ==>
              && portRedirections == before && orphaned == old(orphaned)
              && backend.failures == old(backend.failures) + 1)
        && (r.Done? ==>
              && Removable(before, conflict.interfaceName, conflict.sourcePort)
              && RestOf(before, conflict.interfaceName, conflict.sourcePort, portRedirections)
              && (orphaned <==> old(orphaned) || TakesOthers(before, conflict))
              && backend.failures == old(backend.failures))
      ensures !r.Panicked? ==> Valid()
    {
      hide Want, Agree, Covers, Keyed, RestOf, Removable, TakesOthers;
      ghost var before := portRedirections;
      var ok := backend.Apply(Redirect(conflict), true);
      if !ok {
        return Failed;
      }
      var rest := RemoveRedirection(portRedirections, conflict.interfaceName, conflict.sourcePort);
      if rest.None? {
        return Panicked;
      }
      KeyedRest(before, conflict.interfaceName, conflict.sourcePort, rest.value);
      RedirectionDropped(old(backend.rules), View(), conflict, rest.value);
      orphaned := orphaned || TakesOthers(before, conflict);
      portRedirections := rest.value;
      return Done;
    }

    // ---- enabling and disabling

    method SetEnabled(enabled: bool) returns (ok: bool)
      requires Valid()
      modifies `enabled, `saved, `failuresAtEnable, `orphaned, `leftover, backend
      ensures backend.failures >= old(backend.failures)
      ensures Valid()
      ensures ok ==> this.enabled == enabled
      ensures !ok ==> enabled && !this.enabled && !old(this.enabled) && backend.failures > old(backend.failures)
      ensures if ok && enabled && !old(this.enabled)
        then failuresAtEnable == backend.failures && !orphaned && !leftover
        else failuresAtEnable == old(failuresAtEnable) && orphaned == old(orphaned) && leftover == old(leftover)
      ensures ok && enabled ==> AsRecorded(backend.rules, View(), orphaned, leftover)
    {
      hide Want, Keyed, AsRecorded;
      if enabled == this.enabled {
        if enabled {
          InstalledMeaning(backend.rules, View(), orphaned, leftover);
        }
        return true;
      }
      if !enabled {
        backend.Restore(saved);
        this.enabled := false;
        return true;
      }
      ok := Enable();
      if !ok {
        return;
      }
      this.enabled := true;
      failuresAtEnable, orphaned, leftover := backend.failures, false, false;
      InstalledMeaning(backend.rules, View(), orphaned, leftover);
    }

    method Enable() returns (ok: bool)
      requires !enabled && (backend.restoreFailures == 0 ==> backend.rules == pristine)
      modifies `saved, backend
      ensures backend.failures >= old(backend.failures)
      ensures ok ==> Covers(backend.rules, View()) && forall kind: Kind :: Agree(backend.rules, View(), kind)
      ensures backend.restoreFailures == 0 ==> (if ok then saved else backend.rules) == pristine
      ensures !ok ==> backend.failures > old(backend.failures)
    {
      var snapshot := backend.Save();
      if snapshot.None? {
        return false;
      }
      saved := snapshot.value;
      ok := InstallAll();
      if !ok {
        backend.Restore(saved);
      }
    }

    /** The calls of enable between saving the rules and restoring them on an error. */
    method InstallAll() returns (ok: bool)
      requires backend.rules == saved
      modifies backend
      ensures backend.restoreFailures == old(backend.restoreFailures) && backend.failures >= old(backend.failures)
      ensures if ok then forall r :: backend.rules[r] == Want(View(), r) else backend.failures > old(backend.failures)
    {
      ok := AddAll(fixedFirst);
      if !ok {
        return;
      }
      ok := AllowOutboundSubnets();
      if !ok {
        return;
      }
      ok := AddAll(fixedThen);
      if !ok {
        return;
      }
      ok := AllowInputPorts();
      if !ok {
        return;
      }
      ok := RedirectPorts();
      if !ok {
        return;
      }
      ok := AddAll(fixedLast);
    }

    method AddAll(rules: seq<Rule>) returns (ok: bool)
      modifies backend
      ensures backend.restoreFailures == old(backend.restoreFailures) && backend.failures >= old(backend.failures)
      ensures if ok then forall r :: backend.rules[r] == old(backend.rules)[r] + multiset(rules)[r]
              else backend.failures > old(backend.failures)
    {
      for n := 0 to |rules|
        invariant forall r :: backend.rules[r] == old(backend.rules)[r] + multiset(rules[..n])[r]
        invariant backend.failures >= old(backend.failures) && backend.restoreFailures == old(backend.restoreFailures)
      {
        ok := backend.Apply(rules[n], false);
        if !ok {
          return;
        }
        assert rules[..n + 1] == rules[..n] + [rules[n]];
      }
      assert rules[..|rules|] == rules;
      return true;
    }

    method AllowInputPorts() returns (ok: bool)
      modifies backend
      ensures backend.restoreFailures == old(backend.restoreFailures) && backend.failures >= old(backend.failures)
      ensures if ok then forall r :: backend.rules[r] == old(backend.rules)[r] + PortWant(allowedInputPorts, r)
              else backend.failures > old(backend.failures)
    {
      var ports := allowedInputPorts.Keys;
      while ports != {}
        invariant ports <= allowedInputPorts.Keys
        invariant forall r :: backend.rules[r] == old(backend.rules)[r] + PortWant(allowedInputPorts - ports, r)
        invariant backend.failures >= old(backend.failures) && backend.restoreFailures == old(backend.restoreFailures)
      {
        var port :| port in ports;
        ok := AllowInterfaces(port, allowedInputPorts[port]);
        if !ok {
          return;
        }
        ports := ports - {port};
      }
      assert allowedInputPorts - {} == allowedInputPorts;
      return true;
    }

    method AllowInterfaces(port: uint16, netInterfaces: set<Interface>) returns (ok: bool)
      modifies backend
      ensures backend.restoreFailures == old(backend.restoreFailures) && backend.failures >= old(backend.failures)
      ensures if ok then forall r :: backend.rules[r] == old(backend.rules)[r] + PortWant(map[port := netInterfaces], r)
              else backend.failures > old(backend.failures)
    {
      var left := netInterfaces;
      while left != {}
        invariant left <= netInterfaces
        invariant forall r :: backend.rules[r] == old(backend.rules)[r] + PortWant(map[port := netInterfaces - left], r)
        invariant backend.failures >= old(backend.failures) && backend.restoreFailures == old(backend.restoreFailures)
      {
        var netInterface :| netInterface in left;
        ok := backend.Apply(InputPort(netInterface, port), false);
        if !ok {
          return;
        }
        left := left - {netInterface};
      }
      return true;
    }

    method RedirectPorts() returns (ok: bool)
      modifies backend
      ensures backend.restoreFailures == old(backend.restoreFailures) && backend.failures >= old(backend.failures)
      ensures if ok then forall r :: backend.rules[r] == old(backend.rules)[r] + RedirectWant(portRedirections, r)
              else backend.failures > old(backend.failures)
    {
      for n := 0 to |portRedirections|
        invariant forall r :: backend.rules[r] == old(backend.rules)[r] + RedirectWant(portRedirections[..n], r)
        invariant backend.failures >= old(backend.failures) && backend.restoreFailures == old(backend.restoreFailures)
      {
        ok := backend.Apply(Redirect(portRedirections[n]), false);
        if !ok {
          return;
        }
        assert portRedirections[..n + 1] == portRedirections[..n] + [portRedirections[n]];
      }
      assert portRedirections[..|portRedirections|] == portRedirections;
      return true;
    }

    method AllowOutboundSubnets() returns (ok: bool)
      modifies backend
      ensures backend.restoreFailures == old(backend.restoreFailures) && backend.failures >= old(backend.failures)
      ensures if ok
        then forall r :: backend.rules[r] == old(backend.rules)[r] + OutboundWant(defaultRoutes, outboundSubnets, r)
              else backend.failures > old(backend.failures)
    {
      for n := 0 to |outboundSubnets|
        invariant forall r ::
          backend.rules[r] == old(backend.rules)[r] + OutboundWant(defaultRoutes, outboundSubnets[..n], r)
        invariant backend.failures >= old(backend.failures) && backend.restoreFailures == old(backend.restoreFailures)
      {
        var firewallUpdated;
        ok, firewallUpdated := InstallSubnet(outboundSubnets[n]);
        if !ok {
          return;
        }
        assert outboundSubnets[..n + 1] == outboundSubnets[..n] + [outboundSubnets[n]];
        OutboundSnoc(defaultRoutes, outboundSubnets[..n], outboundSubnets[n]);
      }
      assert outboundSubnets[..|outboundSubnets|] == outboundSubnets;
      return true;
    }

    /** The loop over the default routes that adds the rules of one subnet. */
    method InstallSubnet(subnet: Prefix) returns (ok: bool, firewallUpdated: bool)
      modifies backend
      ensures backend.restoreFailures == old(backend.restoreFailures) && backend.failures >= old(backend.failures)
      ensures if ok then forall r :: backend.rules[r] == old(backend.rules)[r] + OneWant(defaultRoutes, subnet, r)
              else backend.failures > old(backend.failures)
      ensures ok ==> backend.failures == old(backend.failures) && firewallUpdated == Routed(defaultRoutes, subnet)
      ensures OnlyOutboundAdded(old(backend.rules), backend.rules)
    {
      hide OneWant, Carries;
      assert defaultRoutes[..0] == [];
      NoRoute([], subnet);
      firewallUpdated := false;
      for n := 0 to |defaultRoutes|
        invariant forall r :: backend.rules[r] == old(backend.rules)[r] + OneWant(defaultRoutes[..n], subnet, r)
        invariant OnlyOutboundAdded(old(backend.rules), backend.rules)
        invariant backend.failures == old(backend.failures) && backend.restoreFailures == old(backend.restoreFailures)
        invariant firewallUpdated == Routed(defaultRoutes[..n], subnet)
      {
        var route := defaultRoutes[n];
        OneWantSnoc(defaultRoutes, n, subnet);
        RoutedSnoc(defaultRoutes, n, subnet);
        if !Carries(route, subnet) {
          continue;
        }
        firewallUpdated := true;
        assert Carries(defaultRoutes[..n + 1][n], subnet);
        ok := backend.Apply(Outbound(route.netInterface, route.assignedIP, subnet), false);
        if !ok {
          return;
        }
      }
      assert defaultRoutes[..|defaultRoutes|] == defaultRoutes;
      return true, firewallUpdated;
    }

    // ---- outbound subnets

    method SetOutboundSubnets(subnets: seq<Prefix>) returns (ok: bool)
      requires Valid()
      modifies `outboundSubnets, `leftover, backend
      ensures backend.failures >= old(backend.failures)
      ensures Valid()
      ensures !enabled ==> ok && outboundSubnets == subnets && backend.rules == old(backend.rules)
      ensures enabled && ok ==> Updated(defaultRoutes, old(outboundSubnets), subnets, outboundSubnets)
      ensures enabled && ok ==>
        (SameSubnets(outboundSubnets, subnets) <==> AllRouted(defaultRoutes, old(outboundSubnets), subnets))
      ensures enabled && ok ==> RecordedAsAsked(defaultRoutes, old(outboundSubnets), subnets, outboundSubnets)
      ensures enabled ==> AsRecorded(backend.rules, View(), orphaned, leftover)
      ensures !ok ==> enabled && UpdatedUpTo(defaultRoutes, old(outboundSubnets), subnets, outboundSubnets)
      ensures backend.failures == old(backend.failures) ==> ok && leftover == old(leftover)
      ensures old(leftover) ==> leftover
      ensures ok || backend.failures > old(backend.failures)
    {
      hide Installed, AsRecorded, RecordedAsAsked, Agree, Keyed, View, Updated, UpdatedUpTo, SameSubnets, AllRouted,
        Without, RoutedOnly;
      if !enabled {
        outboundSubnets := subnets;
        return true;
      }
      ghost var before := outboundSubnets;
      var subnetsToAdd, subnetsToRemove := FindSubnetsToChange(outboundSubnets, subnets);
      if subnetsToAdd == [] && subnetsToRemove == [] {
        NothingToChange(defaultRoutes, before, subnets);
        UpdatedMeaning(defaultRoutes, before, subnets, outboundSubnets);
        InstalledMeaning(backend.rules, View(), orphaned, leftover);
        return true;
      }
      WithoutFits(before, subnets);
      RemoveOutboundSubnets(subnetsToRemove);
      ghost var removed := outboundSubnets;
      ok := AddOutboundSubnets(subnetsToAdd);
      InstalledMeaning(backend.rules, View(), orphaned, leftover);
      if ok {
        UpdatedByDifference(defaultRoutes, before, subnets, outboundSubnets);
        UpdatedMeaning(defaultRoutes, before, subnets, outboundSubnets);
      } else {
        ghost var n :| 0 <= n <= |subnetsToAdd| && outboundSubnets
          == removed + RoutedOnly(defaultRoutes, subnetsToAdd[..n]);
        UpdatedByPart(defaultRoutes, before, subnets, outboundSubnets, n);
      }
    }

    /** removeOutboundSubnets. The record goes even if the backend failed to remove the rules. */
    method RemoveOutboundSubnets(subnets: seq<Prefix>)
      requires Valid() && enabled && multiset(subnets) <= multiset(outboundSubnets)
      modifies `outboundSubnets, `leftover, backend
      ensures Valid() && backend.failures >= old(backend.failures)
      ensures multiset(outboundSubnets) == multiset(old(outboundSubnets)) - multiset(RoutedOnly(defaultRoutes, subnets))
      ensures leftover <==> old(leftover) || backend.failures > old(backend.failures)
    {
      hide *;
      ghost var first := multiset(outboundSubnets);
      FirstAndLast(defaultRoutes, subnets, first, first);
      for n := 0 to |subnets|
        invariant Valid() && backend.failures >= old(backend.failures)
        invariant Left(defaultRoutes, subnets, n, first, multiset(outboundSubnets))
        invariant leftover <==> old(leftover) || backend.failures > old(backend.failures)
      {
        NextIsHeld(defaultRoutes, subnets, n, first, multiset(outboundSubnets));
        ghost var before := outboundSubnets;
        RemoveOutboundSubnet(subnets[n]);
        TakeNext(defaultRoutes, subnets, n, first, before, outboundSubnets);
      }
      FirstAndLast(defaultRoutes, subnets, first, multiset(outboundSubnets));
    }

    /** One turn of that loop. */
    method RemoveOutboundSubnet(subnet: Prefix)
      requires Valid() && enabled && subnet in outboundSubnets
      modifies `outboundSubnets, `leftover, backend
      ensures Valid() && backend.failures >= old(backend.failures)
      ensures Dropped(old(outboundSubnets), defaultRoutes, subnet, outboundSubnets)
      ensures leftover <==> old(leftover) || backend.failures > old(backend.failures)
    {
      hide Installed, Uninstalled, Keyed, OneLess, Dropped, Routed, Carries;
      ghost var rules, view := backend.rules, View();
      var firewallUpdated := UninstallSubnet(subnet);
      ghost var failed := backend.failures > old(backend.failures);
      if !firewallUpdated {
        NothingUninstalled(rules, defaultRoutes, subnet, backend.rules, failed);
        return;
      }
      var rest := RemoveSubnetFromSubnets(outboundSubnets, subnet);
      OutboundUninstalled(rules, view, subnet, backend.rules, failed, rest, orphaned, leftover);
      leftover := leftover || failed;
      outboundSubnets := rest;
    }

    /** The loop over the default routes that removes the rules of one subnet, going on after
        an error. */
    method UninstallSubnet(subnet: Prefix) returns (firewallUpdated: bool)
      modifies backend
      ensures backend.restoreFailures == old(backend.restoreFailures) && backend.failures >= old(backend.failures)
      ensures firewallUpdated == Routed(defaultRoutes, subnet)
      ensures var failed := backend.failures > old(backend.failures);
        Uninstalled(old(backend.rules), defaultRoutes, subnet, backend.rules, failed)
    {
      hide Uninstalled, Carries;
      ghost var first := backend.rules;
      assert defaultRoutes[..0] == [];
      UninstallNothing(first, subnet);
      firewallUpdated := false;
      for n := 0 to |defaultRoutes|
        invariant backend.restoreFailures == old(backend.restoreFailures) && backend.failures >= old(backend.failures)
        invariant firewallUpdated == Routed(defaultRoutes[..n], subnet)
        invariant var failed := backend.failures > old(backend.failures);
          Uninstalled(first, defaultRoutes[..n], subnet, backend.rules, failed)
      {
        var route := defaultRoutes[n];
        var rule := Outbound(route.netInterface, route.assignedIP, subnet);
        UninstallNext(first, defaultRoutes, n, subnet, backend.rules, backend.failures > old(backend.failures), rule);
        RoutedSnoc(defaultRoutes, n, subnet);
        if !Carries(route, subnet) {
          continue;
        }
        firewallUpdated := true;
        var ok := backend.Apply(rule, true);
        if !ok {
          continue;
        }
      }
      assert defaultRoutes[..|defaultRoutes|] == defaultRoutes;
    }

    /** addOutboundSubnets: it stops at the first error. */
    method AddOutboundSubnets(subnets: seq<Prefix>) returns (ok: bool)
      requires Valid() && enabled
      modifies `outboundSubnets, `leftover, backend
      ensures Valid() && backend.failures >= old(backend.failures)
      ensures ok ==> outboundSubnets == old(outboundSubnets) + RoutedOnly(defaultRoutes, subnets)
      ensures ok ==> backend.failures == old(backend.failures) && leftover == old(leftover)
      ensures !ok ==> backend.failures > old(backend.failures) && (old(leftover) ==> leftover)
      ensures exists n ::
        0 <= n <= |subnets| && outboundSubnets == old(outboundSubnets) + RoutedOnly(defaultRoutes, subnets[..n])
    {
      hide Installed, Agree, Keyed;
      for n := 0 to |subnets|
        invariant Valid() && backend.failures == old(backend.failures)
        invariant outboundSubnets == old(outboundSubnets) + RoutedOnly(defaultRoutes, subnets[..n])
        invariant leftover == old(leftover)
      {
        assert subnets[..n + 1][..n] == subnets[..n];
        ok := AddOutboundSubnet(subnets[n]);
        if !ok {
          return;
        }
      }
      assert subnets[..|subnets|] == subnets;
      return true;
    }

    /** One turn of that loop. */
    method AddOutboundSubnet(subnet: Prefix) returns (ok: bool)
      requires Valid() && enabled
      modifies `outboundSubnets, `leftover, backend
      ensures Valid()
      ensures outboundSubnets == if ok && Routed(defaultRoutes, subnet)
        then old(outboundSubnets) + [subnet]
        else old(outboundSubnets)
      ensures ok ==> backend.failures == old(backend.failures) && leftover == old(leftover)
      ensures !ok ==> backend.failures > old(backend.failures)
      ensures !ok ==> (leftover <==> old(leftover) || backend.rules != old(backend.rules))
    {
      hide Installed, Keeps, Agree, Keyed, OneWant;
      ghost var rules, view := backend.rules, View();
      var firewallUpdated;
      ok, firewallUpdated := InstallSubnet(subnet);
      if !ok {
        OutboundGrown(rules, view, backend.rules, orphaned, leftover);
        leftover := leftover || backend.rules != rules;
        return;
      }
      if !firewallUpdated {
        NoRouteNoChange(rules, defaultRoutes, subnet, backend.rules);
        return;
      }
      OutboundAdded(rules, view, subnet, backend.rules);
      outboundSubnets := outboundSubnets + [subnet];
      KeepsInstalled(rules, view, backend.rules, View(), orphaned, leftover);
    }

    // ---- histories

    /** Any history of calls, with the rule backend failing wherever it likes: unless a call
        panics, Valid holds at the end and says what is installed. If every redirection names its
        interface and source port, no call panics and none is orphaned. */
    method Perform(history: seq<Call>) returns (panicked: bool)
      requires Valid()
      modifies this, backend
      ensures !panicked ==> Valid()
      ensures !panicked && leftover ==> old(leftover) || backend.failures > old(backend.failures)
      ensures old(Named(portRedirections)) && NamedCalls(history) ==>
        !panicked && Named(portRedirections) && (orphaned ==> old(orphaned))
    {
      hide *;
      for n := 0 to |history|
        invariant Valid() && backend.failures >= old(backend.failures)
        invariant leftover ==> old(leftover) || backend.failures > old(backend.failures)
        invariant old(Named(portRedirections)) && NamedCalls(history) ==>
          Named(portRedirections) && (orphaned ==> old(orphaned))
      {
        panicked := PerformCall(history[n]);
        if panicked {
          NamedCallsAt(history, n);
          return;
        }
        NamedCallsAt(history, n);
      }
      panicked := false;
    }

    method PerformCall(call: Call) returns (panicked: bool)
      requires Valid()
      modifies this, backend
      ensures backend.failures >= old(backend.failures)
      ensures !panicked ==> Valid()
      ensures !panicked && leftover ==> old(leftover) || backend.failures > old(backend.failures)
      ensures old(Named(portRedirections)) && NamedCall(call) ==>
        !panicked && Named(portRedirections) && (orphaned ==> old(orphaned))
    {
      hide Installed, Agree, Keyed, RestOf, Removable, FirstClash, TakesOthers, View;
      var ok;
      panicked := false;
      match call {
        case Allowing(port, intf) => ok := SetAllowedPort(port, intf);
        case Disallowing(port) => ok := RemoveAllowedPort(port);
        case Redirecting(intf, sourcePort, destinationPort) =>
          ghost var before, asked := portRedirections, Redirection(intf, sourcePort, destinationPort);
          var r := RedirectPort(intf, sourcePort, destinationPort);
          panicked := r.Panicked?;
          if Named(before) && NamedCall(call) {
            NamedIsReplaced(before, asked, enabled || destinationPort != 0);
          }
        case Enabling(enabled) => ok := SetEnabled(enabled);
        case Routing(subnets) => ok := SetOutboundSubnets(subnets);
      }
    }
  }

  predicate NamedCall(call: Call) {
    call.Redirecting? ==> call.intf != "" && call.sourcePort != 0
  }

  predicate NamedCalls(history: seq<Call>) {
    forall n :: 0 <= n < |history| ==> NamedCall(history[n])
  }

  lemma NamedCallsAt(history: seq<Call>, n: nat)
    requires n < |history|
    ensures NamedCalls(history) ==> NamedCall(history[n])
  {
  }
}
