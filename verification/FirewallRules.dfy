/** The rules of the firewall: how often each should be installed for what is recorded. */
module FirewallRules {
  import opened Common
  import opened Subnets
  import opened Redirections

  datatype Route = Route(netInterface: Interface, assignedIP: Addr, ipv6: bool)

  /** A rule as one backend call adds or removes it. */
  datatype Rule =
    | InputPort(intf: Interface, port: uint16)
    | Redirect(redirection: Redirection)
    | Outbound(intf: Interface, ip: Addr, subnet: Prefix)
    | Other(id: nat)

  type Rules = multiset<Rule>

  // ---------------------------------------------------------------- the backend

  /** The firewall implementation. A call succeeds or fails; one that fails to add or remove a
      rule changes nothing. */
  class Backend {
    var rules: Rules
    ghost var failures: nat          // failed calls so far
    ghost var restoreFailures: nat   // failed restores among them

    constructor (rules: Rules)
      ensures this.rules == rules && failures == restoreFailures == 0
    {
      this.rules := rules;
      failures, restoreFailures := 0, 0;
    }

    method Apply(rule: Rule, remove: bool) returns (ok: bool)
      modifies this
      ensures rules == if !ok then old(rules)
        else if remove then old(rules) - multiset{rule}
        else old(rules) + multiset{rule}
      ensures failures == old(failures) + (if ok then 0 else 1) && restoreFailures == old(restoreFailures)
    {
      ok := *;
      if ok {
        rules := if remove then rules - multiset{rule} else rules + multiset{rule};
      } else {
        failures := failures + 1;
      }
    }

    method Save() returns (saved: Option<Rules>)
      modifies this
      ensures rules == old(rules) && restoreFailures == old(restoreFailures)
      ensures saved.Some? ==> saved.value == rules && failures == old(failures)
      ensures saved.None? ==> failures == old(failures) + 1
    {
      var ok: bool := *;
      if ok {
        saved := Some(rules);
      } else {
        saved := None;
        failures := failures + 1;
      }
    }

    /** Restoring reports no error: a failure, for which nothing is promised, is only logged. */
    method Restore(saved: Rules)
      modifies this
      ensures (rules == saved && failures == old(failures) && restoreFailures == old(restoreFailures))
           || (failures == old(failures) + 1 && restoreFailures == old(restoreFailures) + 1)
    {
      var ok: bool := *;
      if ok {
        rules := saved;
      } else {
        rules := *;
        failures, restoreFailures := failures + 1, restoreFailures + 1;
      }
    }
  }

  // ---------------------------------------------------------------- what the records ask for

  type Ports = map<uint16, set<Interface>>

  function InterfacesOf(allowed: Ports, port: uint16): set<Interface> {
    if port in allowed then allowed[port] else {}
  }

  /** The route carries traffic to the subnet: their families agree. */
  predicate Carries(route: Route, subnet: Prefix) {
    subnet.addr.IPv6? == route.ipv6
  }

  predicate Routed(routes: seq<Route>, subnet: Prefix) {
    exists k :: 0 <= k < |routes| && Carries(routes[k], subnet)
  }

  /** How many rules for the subnet have this interface and address. */
  ghost function Times(routes: seq<Route>, intf: Interface, ip: Addr, subnet: Prefix): nat {
    if routes == [] then 0
    else
      var n := |routes| - 1;
      Times(routes[..n], intf, ip, subnet)
      + if Carries(routes[n], subnet) && routes[n].netInterface == intf && routes[n].assignedIP == ip then 1 else 0
  }

  ghost function PortWant(allowed: Ports, r: Rule): nat {
    if r.InputPort? && r.intf in InterfacesOf(allowed, r.port) then 1 else 0
  }

  ghost function RedirectWant(redirections: seq<Redirection>, r: Rule): nat {
    if r.Redirect? then multiset(redirections)[r.redirection] else 0
  }

  ghost function OutboundWant(routes: seq<Route>, subnets: seq<Prefix>, r: Rule): nat {
    if r.Outbound? then multiset(subnets)[r.subnet] * Times(routes, r.intf, r.ip, r.subnet) else 0
  }

  /** All that decides which rules should be installed while enabled. */
  datatype Records = Records(
    saved: Rules,            // the rules found when enabling
    fixed: Rules,            // what enabling adds besides the recorded rules
    routes: seq<Route>,
    outbound: seq<Prefix>,
    allowed: Ports,
    redirections: seq<Redirection>)

  ghost function Want(c: Records, r: Rule): nat {
    c.saved[r] + c.fixed[r]
    + PortWant(c.allowed, r) + RedirectWant(c.redirections, r) + OutboundWant(c.routes, c.outbound, r)
  }

  datatype Kind = Plain | Redirects | Outbounds

  function KindOf(r: Rule): Kind {
    match r
    case Redirect(_) => Redirects
    case Outbound(_, _, _) => Outbounds
    case _ => Plain
  }

  /** The rules of one kind are installed exactly as often as wanted. */
  ghost predicate Agree(rules: Rules, c: Records, kind: Kind) {
    forall r: Rule :: KindOf(r) == kind ==> rules[r] == Want(c, r)
  }

  /** No rule is missing. */
  ghost predicate Covers(rules: Rules, c: Records) {
    forall r: Rule :: rules[r] >= Want(c, r)
  }

  /** Plain rules that agreed before agree after a change of the rules and the records; the other
      kinds agree after exactly if they did before. */
  ghost predicate Keeps(rules: Rules, c: Records, rules': Rules, c': Records) {
    && (Agree(rules, c, Plain) ==> Agree(rules', c', Plain))
    && (Covers(rules, c) ==>
          && Covers(rules', c')
          && (Agree(rules, c, Redirects) <==> Agree(rules', c', Redirects))
          && (Agree(rules, c, Outbounds) <==> Agree(rules', c', Outbounds)))
  }

  /** What is installed while enabled: exactly the plain rules, no recorded rule is missing, the
      redirect rules are exact unless one has been orphaned, and the outbound rules are unless a
      failing call has left one too many. */
  ghost predicate Installed(rules: Rules, c: Records, orphaned: bool, leftover: bool) {
    && Agree(rules, c, Plain) && Covers(rules, c)
    && (Agree(rules, c, Redirects) <==> !orphaned)
    && (Agree(rules, c, Outbounds) <==> !leftover)
  }

  lemma KeepsInstalled(rules: Rules, c: Records, rules': Rules, c': Records, orphaned: bool, leftover: bool)
    requires Keeps(rules, c, rules', c')
    ensures Installed(rules, c, orphaned, leftover) ==> Installed(rules', c', orphaned, leftover)
  {
  }

  lemma SameGap(rules: Rules, c: Records, rules': Rules, c': Records)
    requires forall r :: rules'[r] + Want(c, r) == rules[r] + Want(c', r)
    ensures Keeps(rules, c, rules', c')
  {
    hide Want;
  }

  lemma NeverInstalled(rules: Rules, c: Records, c': Records, x: Rule)
    requires x !in rules && Want(c, x) > 0
    requires forall r :: r != x ==> Want(c, r) == Want(c', r)
    ensures KindOf(x) == Plain ==> Keeps(rules, c, rules, c')
    ensures !Covers(rules, c)
  {
    hide Want;
    assert rules[x] == 0;
  }

  /** Installing a rule as it is recorded, and removing one as its record goes. */
  lemma OneMore(rules: Rules, c: Records, c': Records, x: Rule)
    requires forall r :: Want(c', r) == Want(c, r) + if r == x then 1 else 0
    ensures Keeps(rules, c, rules + multiset{x}, c')
    ensures KindOf(x) == Plain ==> Keeps(rules, c', rules - multiset{x}, c)
  {
    hide Want, Keeps;
    SameGap(rules, c, rules + multiset{x}, c');
    if x in rules {
      SameGap(rules, c', rules - multiset{x}, c);
    } else if KindOf(x) == Plain {
      assert rules - multiset{x} == rules;
      NeverInstalled(rules, c', c, x);
    }
  }

  lemma PortAdded(rules: Rules, c: Records, intf: Interface, port: uint16)
    requires intf !in InterfacesOf(c.allowed, port)
    ensures Keeps(rules, c, rules + multiset{InputPort(intf, port)},
                  c.(allowed := c.allowed[port := InterfacesOf(c.allowed, port) + {intf}]))
  {
    hide OutboundWant, RedirectWant, Keeps;
    OneMore(rules, c, c.(allowed := c.allowed[port := InterfacesOf(c.allowed, port) + {intf}]), InputPort(intf, port));
  }

  lemma PortRemoved(rules: Rules, c: Records, intf: Interface, port: uint16)
    requires intf in InterfacesOf(c.allowed, port)
    ensures Keeps(rules, c, rules - multiset{InputPort(intf, port)},
                  c.(allowed := c.allowed[port := c.allowed[port] - {intf}]))
  {
    hide OutboundWant, RedirectWant, Keeps;
    OneMore(rules, c.(allowed := c.allowed[port := c.allowed[port] - {intf}]), c, InputPort(intf, port));
  }

  lemma EmptyPortDropped(rules: Rules, c: Records, port: uint16)
    requires InterfacesOf(c.allowed, port) == {}
    ensures Keeps(rules, c, rules, c.(allowed := c.allowed - {port}))
  {
    hide OutboundWant;
  }

  lemma RedirectionAdded(rules: Rules, c: Records, x: Redirection)
    ensures Keeps(rules, c, rules + multiset{Redirect(x)}, c.(redirections := c.redirections + [x]))
  {
    hide OutboundWant, PortWant, Keeps;
    OneMore(rules, c, c.(redirections := c.redirections + [x]), Redirect(x));
  }

  /** The rule of x goes, and from the record x goes with all that its removal selects. */
  lemma RedirectionDropped(rules: Rules, c: Records, x: Redirection, rest: seq<Redirection>)
    requires Keyed(c.redirections) && x in c.redirections
    requires RestOf(c.redirections, x.interfaceName, x.sourcePort, rest)
    ensures var rules', c' := rules - multiset{Redirect(x)}, c.(redirections := rest);
      && (Agree(rules, c, Plain) ==> Agree(rules', c', Plain))
      && (Covers(rules, c) ==>
            && Covers(rules', c')
            && (Agree(rules', c', Outbounds) <==> Agree(rules, c, Outbounds))
            && (Agree(rules', c', Redirects) <==> Agree(rules, c, Redirects) && !TakesOthers(c.redirections, x)))
  {
    hide Want, Keyed, RestOf, Selected;
    var rules', c' := rules - multiset{Redirect(x)}, c.(redirections := rest);
    forall r
      ensures Want(c, r) == Want(c', r) + if Taken(c.redirections, x, r) then 1 else 0
    {
      WantDropped(c, x, rest, r);
    }
    TakesItself(c.redirections, x);
    if Covers(rules, c) && TakesOthers(c.redirections, x) {
      var y :| y in c.redirections && y != x && Selected(y, x.interfaceName, x.sourcePort);
      assert rules[Redirect(y)] >= Want(c, Redirect(y)) > Want(c', Redirect(y));
      assert KindOf(Redirect(y)) == Redirects;
    }
  }

  /** The removal of x takes the redirection of this rule out of the record. */
  predicate Taken(redirections: seq<Redirection>, x: Redirection, r: Rule) {
    r.Redirect? && r.redirection in redirections && Selected(r.redirection, x.interfaceName, x.sourcePort)
  }

  lemma TakesItself(redirections: seq<Redirection>, x: Redirection)
    requires x in redirections
    ensures Taken(redirections, x, Redirect(x))
  {
  }

  lemma WantDropped(c: Records, x: Redirection, rest: seq<Redirection>, r: Rule)
    requires Keyed(c.redirections) && RestOf(c.redirections, x.interfaceName, x.sourcePort, rest)
    ensures Want(c, r) == Want(c.(redirections := rest), r) + if Taken(c.redirections, x, r) then 1 else 0
  {
    hide OutboundWant, PortWant;
    if r.Redirect? {
      assert r.redirection in c.redirections <==> r.redirection in multiset(c.redirections);
    }
  }

  // ---------------------------------------------------------------- outbound rules

  /** The rules of one subnet. */
  ghost function OneWant(routes: seq<Route>, subnet: Prefix, r: Rule): nat {
    if r.Outbound? && r.subnet == subnet then Times(routes, r.intf, r.ip, subnet) else 0
  }

  lemma OutboundSnoc(routes: seq<Route>, subnets: seq<Prefix>, subnet: Prefix)
    ensures forall r ::
      OutboundWant(routes, subnets + [subnet], r) == OutboundWant(routes, subnets, r) + OneWant(routes, subnet, r)
  {
  }

  /** The subnets that some default route carries, in order. */
  function RoutedOnly(routes: seq<Route>, subnets: seq<Prefix>): seq<Prefix> {
    if subnets == [] then []
    else
      var n := |subnets| - 1;
      var before := RoutedOnly(routes, subnets[..n]);
      if Routed(routes, subnets[n]) then before + [subnets[n]] else before
  }

  lemma {:induction false} RoutedOnlyCounts(routes: seq<Route>, subnets: seq<Prefix>, p: Prefix)
    ensures multiset(RoutedOnly(routes, subnets))[p] == if Routed(routes, p) then multiset(subnets)[p] else 0
  {
    if subnets != [] {
      var n := |subnets| - 1;
      RoutedOnlyCounts(routes, subnets[..n], p);
      assert subnets == subnets[..n] + [subnets[n]];
    }
  }

  /** With n subnets dealt with, the others are still recorded, and those of the n with a route
      are no longer. */
  ghost predicate Left(
      routes: seq<Route>, subnets: seq<Prefix>, n: nat, first: multiset<Prefix>, held: multiset<Prefix>)
    requires n <= |subnets|
  {
    multiset(subnets[n..]) <= held == first - multiset(RoutedOnly(routes, subnets[..n]))
  }

  lemma NextIsHeld(routes: seq<Route>, subnets: seq<Prefix>, n: nat, first: multiset<Prefix>, held: multiset<Prefix>)
    requires n < |subnets| && Left(routes, subnets, n, first, held)
    ensures subnets[n] in held
  {
    assert subnets[n] in subnets[n..];
  }

  /** One record of the subnet has gone, if some default route carries it. */
  ghost predicate Dropped(before: seq<Prefix>, routes: seq<Route>, subnet: Prefix, after: seq<Prefix>) {
    multiset(after) == multiset(before) - if Routed(routes, subnet) then multiset{subnet} else multiset{}
  }

  lemma TakeNext(
      routes: seq<Route>, subnets: seq<Prefix>, n: nat, first: multiset<Prefix>,
      before: seq<Prefix>, after: seq<Prefix>)
    requires n < |subnets| && Left(routes, subnets, n, first, multiset(before))
    requires Dropped(before, routes, subnets[n], after)
    ensures Left(routes, subnets, n + 1, first, multiset(after))
  {
    assert subnets[n..] == [subnets[n]] + subnets[n + 1..];
    assert subnets[..n + 1][..n] == subnets[..n];
  }

  lemma FirstAndLast(routes: seq<Route>, subnets: seq<Prefix>, first: multiset<Prefix>, held: multiset<Prefix>)
    ensures multiset(subnets) <= first ==> Left(routes, subnets, 0, first, first)
    ensures Left(routes, subnets, |subnets|, first, held) ==> held == first - multiset(RoutedOnly(routes, subnets))
  {
    assert subnets[0..] == subnets == subnets[..|subnets|];
  }

  /** Removing the rules of a recorded subnet and one of its records; a rule that stays is one too
      many. */
  lemma OutboundRemoved(
      rules: Rules, c: Records, subnet: Prefix, rules': Rules, rest: seq<Prefix>, orphaned: bool, leftover: bool)
    requires subnet in c.outbound && multiset(rest) == multiset(c.outbound) - multiset{subnet}
    requires forall r :: rules'[r] <= rules[r] <= rules'[r] + OneWant(c.routes, subnet, r)
    requires Installed(rules, c, orphaned, leftover)
    ensures Installed(rules', c.(outbound := rest), orphaned,
                      leftover || !AllRemoved(rules, c.routes, subnet, rules'))
  {
    var c' := c.(outbound := rest);
    forall r
      ensures Want(c, r) == Want(c', r) + OneWant(c.routes, subnet, r)
    {
      if r.Outbound? && r.subnet == subnet {
        OneFewer(multiset(c.outbound)[subnet], Times(c.routes, r.intf, r.ip, subnet));
      }
    }
    assert forall r: Rule :: !r.Outbound? ==> OneWant(c.routes, subnet, r) == 0;
    hide Want, OneWant;
    GapsGrow(rules, c, rules', c');
    assert AllRemoved(rules, c.routes, subnet, rules') <==> SameGaps(rules, c, rules', c');
  }

  /** Every rule of a recorded subnet is installed. */
  lemma WantsOne(rules: Rules, c: Records, subnet: Prefix, orphaned: bool, leftover: bool)
    requires subnet in c.outbound && Installed(rules, c, orphaned, leftover)
    ensures forall r :: rules[r] >= OneWant(c.routes, subnet, r)
  {
    hide Want, OneWant, Agree;
    forall r
      ensures rules[r] >= OneWant(c.routes, subnet, r)
    {
      OneIsWanted(c, subnet, r);
      assert rules[r] >= Want(c, r);
    }
  }

  lemma OneIsWanted(c: Records, subnet: Prefix, r: Rule)
    requires subnet in c.outbound
    ensures Want(c, r) >= OneWant(c.routes, subnet, r)
  {
    hide PortWant, RedirectWant, Times;
    assert multiset(c.outbound)[subnet] >= 1;
    if r.Outbound? && r.subnet == subnet {
      OneFewer(multiset(c.outbound)[subnet], Times(c.routes, r.intf, r.ip, subnet));
    }
  }

  ghost predicate AllRemoved(rules: Rules, routes: seq<Route>, subnet: Prefix, rules': Rules) {
    forall r :: rules[r] == rules'[r] + OneWant(routes, subnet, r)
  }

  ghost predicate SameGaps(rules: Rules, c: Records, rules': Rules, c': Records) {
    forall r :: rules'[r] + Want(c, r) == rules[r] + Want(c', r)
  }

  /** Where only outbound rules become too many, they agree after exactly if they did before and
      none has. */
  lemma GapsGrow(rules: Rules, c: Records, rules': Rules, c': Records)
    requires Covers(rules, c)
    requires forall r: Rule :: if r.Outbound? then rules'[r] + Want(c, r) >= rules[r] + Want(c', r)
                               else rules'[r] == rules[r] && Want(c', r) == Want(c, r)
    ensures Covers(rules', c')
    ensures forall kind: Kind :: kind != Outbounds ==> (Agree(rules', c', kind) <==> Agree(rules, c, kind))
    ensures Agree(rules', c', Outbounds) <==> Agree(rules, c, Outbounds) && SameGaps(rules, c, rules', c')
  {
    hide Want;
    if Agree(rules', c', Outbounds) {
      forall r: Rule
        ensures rules'[r] + Want(c, r) == rules[r] + Want(c', r)
        ensures KindOf(r) == Outbounds ==> rules[r] == Want(c, r)
      {
        assert rules[r] >= Want(c, r);
      }
    }
  }

  lemma OneFewer(n: nat, t: nat)
    requires n > 0
    ensures n * t == (n - 1) * t + t
  {
  }

  function Minus(a: nat, b: nat): nat {
    if a >= b then a - b else 0
  }

  lemma {:induction false} NoRoute(routes: seq<Route>, subnet: Prefix)
    requires !Routed(routes, subnet)
    ensures forall r :: OneWant(routes, subnet, r) == 0
  {
    if routes != [] {
      var n := |routes| - 1;
      RoutedSnoc(routes, n, subnet);
      NoRoute(routes[..n], subnet);
      assert routes[..n + 1] == routes;
      OneWantSnoc(routes, n, subnet);
      forall r
        ensures OneWant(routes, subnet, r) == 0
      {
        assert OneWant(routes[..n], subnet, r) == 0;
      }
    }
  }

  /** What removing the rules of a subnet, one route after the other, has done to the first rules:
      without a failed call all are gone, and after one a rule is left. */
  ghost predicate Uninstalled(first: Rules, routes: seq<Route>, subnet: Prefix, rules: Rules, failed: bool) {
    && (forall r :: rules[r] <= first[r] <= rules[r] + OneWant(routes, subnet, r))
    && (failed ==> !AllRemoved(first, routes, subnet, rules))
    && (!failed ==> forall r :: rules[r] == Minus(first[r], OneWant(routes, subnet, r)))
  }

  lemma UninstallNext(first: Rules, routes: seq<Route>, n: nat, subnet: Prefix, rules: Rules, failed: bool, rule: Rule)
    requires n < |routes| && Uninstalled(first, routes[..n], subnet, rules, failed)
    requires rule == Outbound(routes[n].netInterface, routes[n].assignedIP, subnet)
    ensures !Carries(routes[n], subnet) ==> Uninstalled(first, routes[..n + 1], subnet, rules, failed)
    ensures Carries(routes[n], subnet) ==>
      && Uninstalled(first, routes[..n + 1], subnet, rules - multiset{rule}, failed)
      && Uninstalled(first, routes[..n + 1], subnet, rules, true)
  {
    hide OneWant, Carries;
    OneWantSnoc(routes, n, subnet);
    var before := (r: Rule) => OneWant(routes[..n], subnet, r);
    var after := (r: Rule) => OneWant(routes[..n + 1], subnet, r);
    forall r
      ensures after(r) == before(r) + if Carries(routes[n], subnet) && r == rule then 1 else 0
    {
    }
    if failed {
      var r :| first[r] != rules[r] + OneWant(routes[..n], subnet, r);
      assert first[r] < rules[r] + OneWant(routes[..n], subnet, r);
      assert Carries(routes[n], subnet) ==>
        first[r] < (rules - multiset{rule})[r] + OneWant(routes[..n + 1], subnet, r);
    }
    if Carries(routes[n], subnet) {
      assert first[rule] < rules[rule] + OneWant(routes[..n + 1], subnet, rule);
    }
  }

  lemma UninstallAll(first: Rules, routes: seq<Route>, subnet: Prefix, rules: Rules, failed: bool)
    requires Uninstalled(first, routes, subnet, rules, failed)
    ensures (forall r :: first[r] >= OneWant(routes, subnet, r)) ==>
      (!failed <==> AllRemoved(first, routes, subnet, rules))
  {
    hide OneWant;
  }

  lemma UninstallNothing(first: Rules, subnet: Prefix)
    ensures Uninstalled(first, [], subnet, first, false)
  {
    NoRoute([], subnet);
  }

  lemma OutboundUninstalled(
      rules: Rules, c: Records, subnet: Prefix, rules': Rules, failed: bool, rest: seq<Prefix>,
      orphaned: bool, leftover: bool)
    requires subnet in c.outbound && OneLess(c.outbound, subnet, rest)
    requires Installed(rules, c, orphaned, leftover) && Uninstalled(rules, c.routes, subnet, rules', failed)
    ensures Installed(rules', c.(outbound := rest), orphaned, leftover || failed)
    ensures Routed(c.routes, subnet) ==> Dropped(c.outbound, c.routes, subnet, rest)
  {
    hide Installed, OneWant;
    WantsOne(rules, c, subnet, orphaned, leftover);
    UninstallAll(rules, c.routes, subnet, rules', failed);
    OutboundRemoved(rules, c, subnet, rules', rest, orphaned, leftover);
  }

  lemma NothingUninstalled(rules: Rules, routes: seq<Route>, subnet: Prefix, rules': Rules, failed: bool)
    requires !Routed(routes, subnet) && Uninstalled(rules, routes, subnet, rules', failed)
    ensures rules' == rules && !failed
    ensures forall held :: Dropped(held, routes, subnet, held)
  {
    hide OneWant;
    NoRouteNoChange(rules, routes, subnet, rules');
  }

  /** Without a default route for the subnet no rule comes or goes. */
  lemma NoRouteNoChange(rules: Rules, routes: seq<Route>, subnet: Prefix, rules': Rules)
    requires !Routed(routes, subnet)
    requires forall r ::
      Minus(rules[r], OneWant(routes, subnet, r)) <= rules'[r] <= rules[r] + OneWant(routes, subnet, r)
    ensures rules' == rules && AllRemoved(rules, routes, subnet, rules')
  {
    hide OneWant;
    NoRoute(routes, subnet);
    forall r
      ensures rules'[r] == rules[r]
    {
      assert OneWant(routes, subnet, r) == 0;
    }
  }

  /** More outbound rules than before and the same others. */
  ghost predicate OnlyOutboundAdded(rules: Rules, rules': Rules) {
    forall r: Rule :: if r.Outbound? then rules'[r] >= rules[r] else rules'[r] == rules[r]
  }

  lemma OutboundGrown(rules: Rules, c: Records, rules': Rules, orphaned: bool, leftover: bool)
    requires OnlyOutboundAdded(rules, rules') && Installed(rules, c, orphaned, leftover)
    ensures Installed(rules', c, orphaned, leftover || rules' != rules)
  {
    hide Want;
    GapsGrow(rules, c, rules', c);
    if SameGaps(rules, c, rules', c) {
      assert forall r :: rules'[r] + Want(c, r) == rules[r] + Want(c, r);
      assert rules' == rules;
    }
  }

  lemma OutboundAdded(rules: Rules, c: Records, subnet: Prefix, rules': Rules)
    requires forall r :: rules'[r] == rules[r] + OneWant(c.routes, subnet, r)
    ensures Keeps(rules, c, rules', c.(outbound := c.outbound + [subnet]))
  {
    hide PortWant, RedirectWant;
    OutboundSnoc(c.routes, c.outbound, subnet);
    hide OutboundWant, Times;
  }

  lemma OneWantSnoc(routes: seq<Route>, n: nat, subnet: Prefix)
    requires n < |routes|
    ensures var rule := Outbound(routes[n].netInterface, routes[n].assignedIP, subnet);
      forall r ::
        OneWant(routes[..n + 1], subnet, r)
        == OneWant(routes[..n], subnet, r) + if Carries(routes[n], subnet) && r == rule then 1 else 0
  {
    assert routes[..n + 1][..n] == routes[..n];
  }

  lemma RoutedSnoc(routes: seq<Route>, n: nat, subnet: Prefix)
    requires n < |routes|
    ensures Routed(routes[..n + 1], subnet) <==> Routed(routes[..n], subnet) || Carries(routes[n], subnet)
    ensures n + 1 == |routes| ==> routes[..n + 1] == routes
  {
    if Routed(routes[..n], subnet) {
      var k :| 0 <= k < n && Carries(routes[..n][k], subnet);
      assert Carries(routes[..n + 1][k], subnet);
    }
    if Carries(routes[n], subnet) {
      assert Carries(routes[..n + 1][n], subnet);
    }
  }

  /** What an update of the outbound subnets from before to after does, when asked for a list. */
  ghost predicate Updated(routes: seq<Route>, before: seq<Prefix>, asked: seq<Prefix>, after: seq<Prefix>) {
    forall p :: multiset(after)[p] ==
      if p in before then (if p in asked || !Routed(routes, p) then multiset(before)[p] else 0)
      else if Routed(routes, p) then multiset(asked)[p] else 0
  }

  ghost predicate SameSubnets(xs: seq<Prefix>, ys: seq<Prefix>) {
    forall p :: p in xs <==> p in ys
  }

  /** Every subnet to add or to remove has a default route of its family. */
  ghost predicate AllRouted(routes: seq<Route>, before: seq<Prefix>, asked: seq<Prefix>) {
    forall p :: (p in before) != (p in asked) ==> Routed(routes, p)
  }

  /** The recorded subnets become those asked for exactly when all that change are routed. */
  lemma ReachedExactly(routes: seq<Route>, before: seq<Prefix>, asked: seq<Prefix>, after: seq<Prefix>)
    requires Updated(routes, before, asked, after)
    ensures SameSubnets(after, asked) <==> AllRouted(routes, before, asked)
  {
    forall p
      ensures p in after <==> if p in before then p in asked || !Routed(routes, p) else Routed(routes, p) && p in asked
    {
      assert p in after <==> p in multiset(after);
      assert p in asked <==> p in multiset(asked);
      assert p in before <==> p in multiset(before);
    }
  }

  lemma UpdatedByDifference(routes: seq<Route>, before: seq<Prefix>, asked: seq<Prefix>, after: seq<Prefix>)
    requires multiset(after) == multiset(before) - multiset(RoutedOnly(routes, Without(before, asked)))
      + multiset(RoutedOnly(routes, Without(asked, before)))
    ensures Updated(routes, before, asked, after)
    ensures SameSubnets(after, asked) <==> AllRouted(routes, before, asked)
  {
    forall p
      ensures multiset(after)[p] ==
        if p in before then (if p in asked || !Routed(routes, p) then multiset(before)[p] else 0)
        else if Routed(routes, p) then multiset(asked)[p] else 0
    {
      RoutedOnlyCounts(routes, Without(before, asked), p);
      RoutedOnlyCounts(routes, Without(asked, before), p);
      WithoutCounts(before, asked, p);
      WithoutCounts(asked, before, p);
      assert p in before <==> p in multiset(before);
    }
    ReachedExactly(routes, before, asked, after);
  }

  /** The same with only the first n of the missing subnets added. */
  ghost predicate UpdatedUpTo(routes: seq<Route>, before: seq<Prefix>, asked: seq<Prefix>, after: seq<Prefix>) {
    exists n :: 0 <= n <= |Without(asked, before)| && UpdatedBy(routes, before, asked, after, n)
  }

  ghost predicate UpdatedBy(routes: seq<Route>, before: seq<Prefix>, asked: seq<Prefix>, after: seq<Prefix>, n: nat)
    requires n <= |Without(asked, before)|
  {
    multiset(after) ==
      multiset(before) - multiset(RoutedOnly(routes, Without(before, asked)))
      + multiset(RoutedOnly(routes, Without(asked, before)[..n]))
  }

  lemma UpdatedByPart(routes: seq<Route>, before: seq<Prefix>, asked: seq<Prefix>, after: seq<Prefix>, n: nat)
    requires n <= |Without(asked, before)| && UpdatedBy(routes, before, asked, after, n)
    ensures UpdatedUpTo(routes, before, asked, after)
  {
  }

  lemma NothingToChange(routes: seq<Route>, before: seq<Prefix>, asked: seq<Prefix>)
    requires Without(before, asked) == Without(asked, before) == []
    ensures Updated(routes, before, asked, before)
    ensures SameSubnets(before, asked) <==> AllRouted(routes, before, asked)
  {
    assert RoutedOnly(routes, []) == [];
    UpdatedByDifference(routes, before, asked, before);
  }

  /** The rules that agree with the records are one multiset: changing the records step by step
      and enabling afresh with the same records install the same rules. */
  lemma AgreeIsUnique(rules: Rules, c: Records, rules': Rules, c': Records)
    requires forall kind: Kind :: Agree(rules, c, kind) && Agree(rules', c', kind)
    requires c' == c.(outbound := c'.outbound, redirections := c'.redirections)
    requires multiset(c'.outbound) == multiset(c.outbound) && multiset(c'.redirections) == multiset(c.redirections)
    ensures rules == rules'
  {
    hide Times;
    forall r: Rule
      ensures rules[r] == rules'[r]
    {
      assert Want(c, r) == Want(c', r);
      assert Agree(rules, c, KindOf(r)) && Agree(rules', c', KindOf(r));
    }
  }

  // ---------------------------------------------------------------- the rules written out

  /** The rules, beside those saved and fixed: one for each recorded port and interface, each recorded
      redirection unless one is orphaned, and for a recorded subnet one at least for the interface
      and address of every default route of its family; and, with none left over, none for other
      subnets, or for an interface and address that no such route has. */
  ghost predicate AsRecorded(rules: Rules, c: Records, orphaned: bool, leftover: bool) {
    && (forall intf, port ::
          rules[InputPort(intf, port)] ==
          c.saved[InputPort(intf, port)] + c.fixed[InputPort(intf, port)]
          + if port in c.allowed && intf in c.allowed[port] then 1 else 0)
    && (!orphaned ==> forall x ::
          rules[Redirect(x)] == c.saved[Redirect(x)] + c.fixed[Redirect(x)] + multiset(c.redirections)[x])
    && (forall p, k ::
          p in c.outbound && 0 <= k < |c.routes| && (c.routes[k].ipv6 <==> p.addr.IPv6?) ==>
          var rule := Outbound(c.routes[k].netInterface, c.routes[k].assignedIP, p);
          rules[rule] > c.saved[rule] + c.fixed[rule])
    && (!leftover ==> forall intf, ip, p ::
          p !in c.outbound || !HasRoute(c.routes, intf, ip, p) ==>
          rules[Outbound(intf, ip, p)] == c.saved[Outbound(intf, ip, p)] + c.fixed[Outbound(intf, ip, p)])
  }

  ghost predicate HasRoute(routes: seq<Route>, intf: Interface, ip: Addr, p: Prefix) {
    exists k :: 0 <= k < |routes| && routes[k].netInterface == intf && routes[k].assignedIP == ip
      && (routes[k].ipv6 <==> p.addr.IPv6?)
  }

  lemma {:induction false} TimesMeaning(routes: seq<Route>, intf: Interface, ip: Addr, p: Prefix)
    ensures Times(routes, intf, ip, p) > 0 <==> HasRoute(routes, intf, ip, p)
  {
    if routes != [] {
      var n := |routes| - 1;
      TimesMeaning(routes[..n], intf, ip, p);
      if HasRoute(routes[..n], intf, ip, p) {
        var k :| 0 <= k < n && routes[..n][k].netInterface == intf && routes[..n][k].assignedIP == ip
          && (routes[..n][k].ipv6 <==> p.addr.IPv6?);
        assert routes[k] == routes[..n][k];
      }
      if HasRoute(routes, intf, ip, p) && !HasRoute(routes[..n], intf, ip, p) {
        var k :| 0 <= k <= n && routes[k].netInterface == intf && routes[k].assignedIP == ip
          && (routes[k].ipv6 <==> p.addr.IPv6?);
        assert k < n ==> routes[..n][k] == routes[k];
      }
    }
  }

  lemma OutboundMeaning(rules: Rules, c: Records, intf: Interface, ip: Addr, p: Prefix)
    ensures p in c.outbound && HasRoute(c.routes, intf, ip, p)
       <==> OutboundWant(c.routes, c.outbound, Outbound(intf, ip, p)) > 0
  {
    TimesMeaning(c.routes, intf, ip, p);
    assert p in c.outbound <==> multiset(c.outbound)[p] > 0;
    PositiveProduct(multiset(c.outbound)[p], Times(c.routes, intf, ip, p));
  }

  lemma PositiveProduct(n: nat, t: nat)
    ensures n * t > 0 <==> n > 0 && t > 0
  {
  }

  /** What is installed says the same. */
  lemma InstalledMeaning(rules: Rules, c: Records, orphaned: bool, leftover: bool)
    requires Installed(rules, c, orphaned, leftover)
    ensures AsRecorded(rules, c, orphaned, leftover)
  {
    hide Times;
    forall p, k | p in c.outbound && 0 <= k < |c.routes| && (c.routes[k].ipv6 <==> p.addr.IPv6?)
      ensures var rule := Outbound(c.routes[k].netInterface, c.routes[k].assignedIP, p);
        rules[rule] > c.saved[rule] + c.fixed[rule]
    {
      OutboundMeaning(rules, c, c.routes[k].netInterface, c.routes[k].assignedIP, p);
      assert HasRoute(c.routes, c.routes[k].netInterface, c.routes[k].assignedIP, p);
    }
    forall intf, ip, p | !leftover && (p !in c.outbound || !HasRoute(c.routes, intf, ip, p))
      ensures rules[Outbound(intf, ip, p)] == c.saved[Outbound(intf, ip, p)] + c.fixed[Outbound(intf, ip, p)]
    {
      OutboundMeaning(rules, c, intf, ip, p);
      assert KindOf(Outbound(intf, ip, p)) == Outbounds;
    }
    forall intf, port
      ensures rules[InputPort(intf, port)] == Want(c, InputPort(intf, port))
    {
      assert KindOf(InputPort(intf, port)) == Plain;
    }
    forall x | !orphaned
      ensures rules[Redirect(x)] == Want(c, Redirect(x))
    {
      assert KindOf(Redirect(x)) == Redirects;
    }
  }

  /** A subnet for whose family there is a default route is recorded if and only if it has been asked
      for, any other if and only if it was before. */
  ghost predicate RecordedAsAsked(routes: seq<Route>, before: seq<Prefix>, asked: seq<Prefix>, after: seq<Prefix>) {
    forall p :: p in after <==>
      if exists k :: 0 <= k < |routes| && (routes[k].ipv6 <==> p.addr.IPv6?) then p in asked else p in before
  }

  lemma UpdatedMeaning(routes: seq<Route>, before: seq<Prefix>, asked: seq<Prefix>, after: seq<Prefix>)
    requires Updated(routes, before, asked, after)
    ensures RecordedAsAsked(routes, before, asked, after)
  {
    forall p
      ensures p in after <==>
        if exists k :: 0 <= k < |routes| && (routes[k].ipv6 <==> p.addr.IPv6?) then p in asked else p in before
    {
      assert p in after <==> p in multiset(after);
      assert p in asked <==> p in multiset(asked);
      assert p in before <==> p in multiset(before);
      RoutedMeaning(routes, p);
    }
  }

  lemma RoutedMeaning(routes: seq<Route>, p: Prefix)
    ensures Routed(routes, p) <==> exists k :: 0 <= k < |routes| && (routes[k].ipv6 <==> p.addr.IPv6?)
  {
    if k :| 0 <= k < |routes| && (routes[k].ipv6 <==> p.addr.IPv6?) {
      assert Carries(routes[k], p);
    }
  }
}
