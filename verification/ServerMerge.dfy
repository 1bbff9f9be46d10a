/** The merge of built-in server data with the servers persisted to file, and its order. */
module ServerMerge {
  import opened Common

  datatype Server = Server(
    vpn: string, country: string, region: string, city: string, isp: string, categories: seq<string>,
    owned: bool, number: uint16, serverName: string, hostname: string, tcp: bool, udp: bool,
    ovpnX509: string, retroLoc: string, multiHop: bool, wgPubKey: string, free: bool, premium: bool,
    stream: bool, secureCore: bool, tor: bool, portForward: bool, keep: bool, ips: seq<Addr>)
  {
    function Key(): string {
      vpn + "-" + (if tcp && udp then "tcp-udp" else if tcp then "tcp" else if udp then "udp" else "") + "-" + hostname
    }
  }

  datatype Servers = Servers(version: uint16, timestamp: int, preferred: bool, servers: seq<Server>)

  // ---------------------------------------------------------------- the keys

  lemma {:induction false} CutAtHyphen(a: string, b: string, x: string, y: string)
    requires '-' !in a && '-' !in b
    ensures a + ['-'] + x == b + ['-'] + y <==> a == b && x == y
  {
    var s, t := a + ['-'] + x, b + ['-'] + y;
    if s == t {
      if a == "" || b == "" {
        assert s[0] == t[0];
        assert a == b == "";
        assert x == s[1..] && y == t[1..];
      } else {
        assert a[0] == s[0] == t[0] == b[0];
        assert s[1..] == a[1..] + ['-'] + x && t[1..] == b[1..] + ['-'] + y;
        CutAtHyphen(a[1..], b[1..], x, y);
        assert a == [a[0]] + a[1..] && b == [b[0]] + b[1..];
      }
    }
  }

  /** The one way for keys of different servers to be equal. */
  ghost predicate Collides(both: Server, tcpOnly: Server) {
    both.tcp && both.udp && tcpOnly.tcp && !tcpOnly.udp && tcpOnly.hostname == "udp-" + both.hostname
  }

  /** With VPN names without hyphens, two servers have the same key if and only if they have the same
      VPN, protocols and hostname, or the hostname of one spells the protocol of the other. */
  lemma KeysEqualExactly(a: Server, b: Server)
    requires '-' !in a.vpn && '-' !in b.vpn
    ensures a.Key() == b.Key() <==>
      a.vpn == b.vpn &&
      ((a.tcp == b.tcp && a.udp == b.udp && a.hostname == b.hostname) || Collides(a, b) || Collides(b, a))
  {
    var x, y := AfterVpn(a), AfterVpn(b);
    assert a.Key() == a.vpn + ['-'] + x && b.Key() == b.vpn + ['-'] + y;
    CutAtHyphen(a.vpn, b.vpn, x, y);
    TailsEqual(a, b);
  }

  ghost function AfterVpn(s: Server): string {
    (if s.tcp && s.udp then "tcp-udp" else if s.tcp then "tcp" else if s.udp then "udp" else "") + "-" + s.hostname
  }

  lemma SameHead(head: string, x: string, y: string)
    ensures head + x == head + y <==> x == y
  {
    assert (head + x)[|head|..] == x && (head + y)[|head|..] == y;
  }

  /** The text up to the first hyphen, and what is behind it. */
  ghost function Head(s: Server): string {
    if s.tcp then "tcp-" else if s.udp then "udp-" else "-"
  }

  ghost function Behind(s: Server): string {
    if s.tcp && s.udp then "udp-" + s.hostname else s.hostname
  }

  lemma HeadAndBehind(s: Server)
    ensures AfterVpn(s) == Head(s) + Behind(s)
    ensures AfterVpn(s)[0] == if s.tcp then 't' else if s.udp then 'u' else '-'
  {
    if s.tcp && s.udp {
      assert AfterVpn(s) == "tcp-" + ("udp-" + s.hostname);
    }
  }

  lemma TailsEqual(a: Server, b: Server)
    ensures AfterVpn(a) == AfterVpn(b) <==>
      (a.tcp == b.tcp && a.udp == b.udp && a.hostname == b.hostname) || Collides(a, b) || Collides(b, a)
  {
    hide AfterVpn;
    HeadAndBehind(a);
    HeadAndBehind(b);
    SameHead(Head(a), Behind(a), Behind(b));
    SameHead("udp-", a.hostname, b.hostname);
  }

  // ---------------------------------------------------------------- the order

  /** Strings are compared unit by unit. */
  predicate StringLess(a: string, b: string) {
    b != "" && (a == "" || a[0] < b[0] || (a[0] == b[0] && StringLess(a[1..], b[1..])))
  }

  /** SortableServers.Less. */
  predicate Less(a: Server, b: Server) {
    if a.country == b.country then
      if a.region == b.region then
        if a.city == b.city then
          if a.serverName == b.serverName then
            if a.number == b.number then
              if a.hostname == b.hostname then
                if a.isp == b.isp then StringLess(a.vpn, b.vpn)
                else StringLess(a.isp, b.isp)
              else StringLess(a.hostname, b.hostname)
            else a.number < b.number
          else StringLess(a.serverName, b.serverName)
        else StringLess(a.city, b.city)
      else StringLess(a.region, b.region)
    else StringLess(a.country, b.country)
  }

  /** The servers agree on all that Less looks at. */
  predicate Tied(a: Server, b: Server) {
    && a.country == b.country && a.region == b.region && a.city == b.city && a.serverName == b.serverName
    && a.number == b.number && a.hostname == b.hostname && a.isp == b.isp && a.vpn == b.vpn
  }

  lemma {:induction false} StringOrder(a: string, b: string, c: string)
    ensures !(StringLess(a, b) && StringLess(b, a))
    ensures a == b || StringLess(a, b) || StringLess(b, a)
    ensures StringLess(a, b) && StringLess(b, c) ==> StringLess(a, c)
    ensures !StringLess(a, a)
  {
    if a != "" && b != "" {
      if c != "" {
        StringOrder(a[1..], b[1..], c[1..]);
      } else {
        StringOrder(a[1..], b[1..], "");
      }
      assert a == [a[0]] + a[1..] && b == [b[0]] + b[1..];
    } else if a != "" {
      StringOrder(a[1..], "", "");
    }
  }

  /** Less is a strict order in which exactly tied servers are not comparable. */
  lemma LessIsStrictOrder(a: Server, b: Server, c: Server)
    ensures !(Less(a, b) && Less(b, a))
    ensures !Less(a, b) && !Less(b, a) <==> Tied(a, b)
    ensures Less(a, b) && Less(b, c) ==> Less(a, c)
    ensures !Less(a, b) && !Less(b, c) ==> !Less(a, c)
  {
    hide StringLess;
    StringOrders(a, b, c);
    StringOrders(b, a, c);
    StringOrders(c, b, a);
  }

  lemma StringOrders(a: Server, b: Server, c: Server)
    ensures Ordered(a.country, b.country, c.country) && Ordered(a.region, b.region, c.region)
    ensures Ordered(a.city, b.city, c.city) && Ordered(a.serverName, b.serverName, c.serverName)
    ensures Ordered(a.hostname, b.hostname, c.hostname) && Ordered(a.isp, b.isp, c.isp) && Ordered(a.vpn, b.vpn, c.vpn)
  {
    hide StringLess;
    StringOrder(a.country, b.country, c.country);
    StringOrder(a.region, b.region, c.region);
    StringOrder(a.city, b.city, c.city);
    StringOrder(a.serverName, b.serverName, c.serverName);
    StringOrder(a.hostname, b.hostname, c.hostname);
    StringOrder(a.isp, b.isp, c.isp);
    StringOrder(a.vpn, b.vpn, c.vpn);
  }

  ghost predicate Ordered(a: string, b: string, c: string) {
    && !(StringLess(a, b) && StringLess(b, a)) && !StringLess(a, a)
    && (a == b || StringLess(a, b) || StringLess(b, a))
    && (StringLess(a, b) && StringLess(b, c) ==> StringLess(a, c))
  }

  predicate Sorted(xs: seq<Server>) {
    forall i, j :: 0 <= i < j < |xs| ==> !Less(xs[j], xs[i])
  }

  /** A string is less if it is a proper prefix, or has the smaller unit at the first difference. */
  lemma {:induction false} StringLessMeaning(a: string, b: string)
    ensures StringLess(a, b) <==>
      exists k :: 0 <= k <= |a| && k < |b| && a[..k] == b[..k] && (k == |a| || a[k] < b[k])
  {
    if StringLess(a, b) {
      if a == "" || a[0] < b[0] {
        assert a[..0] == b[..0];
      } else {
        StringLessMeaning(a[1..], b[1..]);
        var k :| 0 <= k <= |a| - 1 && k < |b| - 1
          && a[1..][..k] == b[1..][..k] && (k == |a| - 1 || a[1..][k] < b[1..][k]);
        assert a[..k + 1] == [a[0]] + a[1..][..k] == b[..k + 1];
      }
    }
    if k :| 0 <= k <= |a| && k < |b| && a[..k] == b[..k] && (k == |a| || a[k] < b[k]) {
      if k > 0 {
        assert a[0] == a[..k][0] == b[..k][0] == b[0];
        assert a[1..][..k - 1] == a[..k][1..] == b[..k][1..] == b[1..][..k - 1];
        assert k - 1 == |a[1..]| || a[1..][k - 1] < b[1..][k - 1];
        StringLessMeaning(a[1..], b[1..]);
      }
    }
  }

  /** Servers are ordered by country, then region, city, server name, number, hostname, ISP and VPN,
      each increasing. */
  lemma LessMeaning(a: Server, b: Server)
    ensures Less(a, b) <==>
      || StringLess(a.country, b.country)
      || (a.country == b.country && StringLess(a.region, b.region))
      || (a.country == b.country && a.region == b.region && StringLess(a.city, b.city))
      || (a.country == b.country && a.region == b.region && a.city == b.city && StringLess(a.serverName, b.serverName))
      || (SamePlace(a, b) && a.number < b.number)
      || (SamePlace(a, b) && a.number == b.number && StringLess(a.hostname, b.hostname))
      || (SamePlace(a, b) && a.number == b.number && a.hostname == b.hostname && StringLess(a.isp, b.isp))
      || (SamePlace(a, b) && a.number == b.number && a.hostname == b.hostname && a.isp == b.isp
          && StringLess(a.vpn, b.vpn))
  {
    hide StringLess;
    StringOrders(a, b, a);
  }

  ghost predicate SamePlace(a: Server, b: Server) {
    a.country == b.country && a.region == b.region && a.city == b.city && a.serverName == b.serverName
  }

  predicate SortOf(xs: seq<Server>, sorted: seq<Server>) {
    Sorted(sorted) && multiset(sorted) == multiset(xs)
  }

  ghost function Insert(x: Server, xs: seq<Server>): seq<Server> {
    if xs == [] then [x]
    else if Less(x, xs[0]) then [x] + xs
    else [xs[0]] + Insert(x, xs[1..])
  }

  lemma {:induction false} InsertSorted(x: Server, xs: seq<Server>)
    requires Sorted(xs)
    ensures Sorted(Insert(x, xs)) && multiset(Insert(x, xs)) == multiset(xs) + multiset{x}
  {
    hide Less;
    if xs != [] {
      if Less(x, xs[0]) {
        forall k | 0 <= k < |xs|
          ensures !Less(xs[k], x)
        {
          LessIsStrictOrder(xs[0], xs[k], x);
          LessIsStrictOrder(x, xs[0], xs[k]);
          LessIsStrictOrder(x, xs[k], xs[0]);
        }
      } else {
        assert xs == [xs[0]] + xs[1..];
        InsertSorted(x, xs[1..]);
        forall y | y in Insert(x, xs[1..])
          ensures !Less(y, xs[0])
        {
          assert y in multiset(xs[1..]) + multiset{x};
        }
      }
    }
  }

  lemma {:induction false} SortExists(xs: seq<Server>)
    ensures exists sorted :: SortOf(xs, sorted)
  {
    if xs == [] {
      assert SortOf(xs, []);
    } else {
      SortExists(xs[1..]);
      var sorted :| SortOf(xs[1..], sorted);
      InsertSorted(xs[0], sorted);
      assert xs == [xs[0]] + xs[1..];
      assert SortOf(xs, Insert(xs[0], sorted));
    }
  }

  /** sort.Sort, which may leave tied servers in any order. */
  method Sort(xs: seq<Server>) returns (sorted: seq<Server>)
    ensures SortOf(xs, sorted)
  {
    SortExists(xs);
    sorted :| SortOf(xs, sorted);
  }

  // ---------------------------------------------------------------- what the merge is made of

  type Kept = map<string, Server>

  /** A server marked to be kept, after which no kept one has its key. */
  ghost predicate LastKept(servers: seq<Server>, s: Server) {
    exists i :: 0 <= i < |servers| && servers[i] == s && s.keep
      && forall j :: i < j < |servers| && servers[j].keep ==> servers[j].Key() != s.Key()
  }

  /** The map holds the last kept server of each key. */
  ghost predicate IsKept(servers: seq<Server>, kept: Kept) {
    && (forall k :: k in kept ==> kept[k].Key() == k && LastKept(servers, kept[k]))
    && (forall i :: 0 <= i < |servers| && servers[i].keep ==> servers[i].Key() in kept)
  }

  /** At the first built-in server with its key the kept server takes its place. */
  function Replaced(builtIn: seq<Server>, kept: Kept): seq<Server> {
    if builtIn == [] then []
    else
      var n := |builtIn| - 1;
      var s := builtIn[n];
      Replaced(builtIn[..n], kept)
      + [if s.Key() in kept && s.Key() !in Keys(builtIn[..n]) then kept[s.Key()] else s]
  }

  function Keys(servers: seq<Server>): set<string> {
    set s | s in servers :: s.Key()
  }

  /** How often the kept server is added besides: once, unless a built-in one has its key. */
  function Added(builtIn: seq<Server>, kept: Kept, s: Server): nat {
    if s.Key() in kept && s.Key() !in Keys(builtIn) && kept[s.Key()] == s then 1 else 0
  }

  /** The servers of a merge. */
  ghost predicate IsMerge(builtIn: seq<Server>, persisted: seq<Server>, merged: seq<Server>) {
    exists kept :: IsKept(persisted, kept) && IsOverride(builtIn, kept, merged)
  }

  ghost predicate IsOverride(builtIn: seq<Server>, kept: Kept, merged: seq<Server>) {
    forall s :: multiset(merged)[s] == multiset(Replaced(builtIn, kept))[s] + Added(builtIn, kept, s)
  }

  /** When the persisted data is used as it is. */
  predicate UsesPersisted(builtIn: Servers, persisted: Servers, now: int) {
    || (persisted.preferred && persisted.version == builtIn.version && persisted.servers != [])
    || builtIn.timestamp < persisted.timestamp <= now
  }

  ghost predicate Outcome(builtIn: Servers, persisted: Servers, now: int, merged: Servers) {
    if UsesPersisted(builtIn, persisted, now) then merged == persisted
    else
      && merged == builtIn.(servers := merged.servers)
      && Sorted(merged.servers)
      && IsMerge(builtIn.servers, persisted.servers, merged.servers)
  }

  // ---------------------------------------------------------------- the code

  /** mergeProviderServers. Persisted data from the future is not used as a whole, but the
      servers it keeps are merged all the same, unlike the code's own warning says. */
  method MergeProviderServers(builtIn: Servers, persisted: Servers, now: int) returns (merged: Servers)
    ensures Outcome(builtIn, persisted, now, merged)
  {
    if persisted.preferred && persisted.version == builtIn.version && |persisted.servers| > 0 {
      return persisted;
    }
    if persisted.timestamp > now {
      // only logged
    } else if persisted.timestamp > builtIn.timestamp {
      return persisted;
    }
    var kept := CollectKept(persisted.servers);
    var servers, left := Override(builtIn.servers, kept);
    servers := AppendRest(servers, left);
    var sorted := Sort(servers);
    assert IsMerge(builtIn.servers, persisted.servers, sorted);
    merged := builtIn.(servers := sorted);
  }

  /** The loop that fills the map; a later server with the same key replaces the earlier one. */
  method CollectKept(servers: seq<Server>) returns (kept: Kept)
    ensures IsKept(servers, kept)
  {
    hide LastKept, Server.Key;
    kept := map[];
    for n := 0 to |servers|
      invariant IsKept(servers[..n], kept)
    {
      var persistedServer := servers[n];
      LastKeptSnoc(servers[..n], persistedServer);
      assert servers[..n + 1] == servers[..n] + [persistedServer];
      if persistedServer.keep {
        kept := kept[persistedServer.Key() := persistedServer];
      }
    }
    assert servers[..|servers|] == servers;
  }

  lemma LastKeptSnoc(servers: seq<Server>, x: Server)
    ensures x.keep ==> LastKept(servers + [x], x)
    ensures forall s :: LastKept(servers, s) && (x.keep ==> x.Key() != s.Key()) ==> LastKept(servers + [x], s)
  {
    hide Server.Key;
    var more := servers + [x];
    assert more[|servers|] == x;
    forall s | LastKept(servers, s) && (x.keep ==> x.Key() != s.Key())
      ensures LastKept(more, s)
    {
      var i :| 0 <= i < |servers| && servers[i] == s && s.keep
        && forall j :: i < j < |servers| && servers[j].keep ==> servers[j].Key() != s.Key();
      assert more[i] == s;
    }
  }

  lemma KeysSnoc(servers: seq<Server>, n: nat)
    requires n < |servers|
    ensures Keys(servers[..n + 1]) == Keys(servers[..n]) + {servers[n].Key()}
  {
    hide Server.Key;
    assert servers[..n + 1] == servers[..n] + [servers[n]];
  }

  /** The loop over the built-in servers; a kept server that is used leaves the map. */
  method Override(builtIn: seq<Server>, kept: Kept) returns (servers: seq<Server>, left: Kept)
    ensures servers == Replaced(builtIn, kept)
    ensures left == kept - Keys(builtIn)
  {
    hide Server.Key;
    left := kept;
    servers := [];
    assert Keys([]) == {};
    for n := 0 to |builtIn|
      invariant servers == Replaced(builtIn[..n], kept)
      invariant left == kept - Keys(builtIn[..n])
    {
      var builtInServer := builtIn[n];
      assert builtIn[..n + 1][..n] == builtIn[..n];
      KeysSnoc(builtIn, n);
      if builtInServer.Key() in left {
        servers := servers + [left[builtInServer.Key()]];
        left := left - {builtInServer.Key()};
      } else {
        servers := servers + [builtInServer];
      }
    }
    assert builtIn[..|builtIn|] == builtIn;
  }

  /** The loop that appends the kept servers left in the map. */
  method AppendRest(servers: seq<Server>, rest: Kept) returns (all: seq<Server>)
    requires forall k :: k in rest ==> rest[k].Key() == k
    ensures forall s ::
      multiset(all)[s] == multiset(servers)[s] + if s.Key() in rest && rest[s.Key()] == s then 1 else 0
  {
    hide Server.Key;
    all := servers;
    var left := rest;
    while left != map[]
      decreases left.Keys
      invariant forall k :: k in left ==> k in rest && left[k] == rest[k]
      invariant forall s ::
        multiset(all)[s] ==
        multiset(servers)[s] + if s.Key() in rest && s.Key() !in left && rest[s.Key()] == s then 1 else 0
    {
      var key :| key in left;
      all := all + [left[key]];
      left := left - {key};
    }
  }

  // ---------------------------------------------------------------- what the merge means

  ghost predicate DistinctKeys(m: multiset<Server>) {
    && (forall s :: s in m ==> m[s] == 1)
    && (forall s, t :: s in m && t in m && s.Key() == t.Key() ==> s == t)
  }

  ghost function KeptKeys(servers: seq<Server>): set<string> {
    set s | s in servers && s.keep :: s.Key()
  }

  /** IsKept determines the map. */
  lemma KeptIsUnique(servers: seq<Server>, kept: Kept, kept': Kept)
    requires IsKept(servers, kept) && IsKept(servers, kept')
    ensures kept == kept' && kept.Keys == KeptKeys(servers)
  {
    hide Server.Key;
    forall k | k in kept || k in kept'
      ensures k in kept && k in kept' && kept[k] == kept'[k]
    {
      LastKeptIsUnique(servers, k);
    }
  }

  lemma LastKeptIsUnique(servers: seq<Server>, k: string)
    ensures forall s, t :: LastKept(servers, s) && LastKept(servers, t) && s.Key() == t.Key() == k ==> s == t
  {
    hide Server.Key;
  }

  lemma CountSnoc(xs: seq<Server>, x: Server, s: Server)
    ensures multiset(xs + [x])[s] == multiset(xs)[s] + if s == x then 1 else 0
  {
  }

  lemma ReplacedSnoc(builtIn: seq<Server>, kept: Kept)
    requires builtIn != [] && builtIn[|builtIn| - 1].Key() !in Keys(builtIn[..|builtIn| - 1])
    ensures var last := builtIn[|builtIn| - 1];
      Replaced(builtIn, kept)
      == Replaced(builtIn[..|builtIn| - 1], kept) + [if last.Key() in kept then kept[last.Key()] else last]
  {
    hide Server.Key;
  }

  lemma {:induction false} ReplacedCounts(builtIn: seq<Server>, kept: Kept, s: Server)
    requires DistinctKeys(multiset(builtIn)) && forall k :: k in kept ==> kept[k].Key() == k
    ensures multiset(Replaced(builtIn, kept))[s] + Added(builtIn, kept, s) == Chosen(builtIn, kept, s)
  {
    if builtIn != [] {
      ReplacedStep(builtIn, kept, s);
      ReplacedCounts(builtIn[..|builtIn| - 1], kept, s);
    }
  }

  lemma ReplacedStep(builtIn: seq<Server>, kept: Kept, s: Server)
    requires builtIn != [] && DistinctKeys(multiset(builtIn)) && forall k :: k in kept ==> kept[k].Key() == k
    ensures var front := builtIn[..|builtIn| - 1];
      && DistinctKeys(multiset(front))
      && multiset(Replaced(builtIn, kept))[s] + Added(builtIn, kept, s) - Chosen(builtIn, kept, s)
         == multiset(Replaced(front, kept))[s] + Added(front, kept, s) - Chosen(front, kept, s)
  {
    hide Server.Key, DistinctKeys, Replaced, Keys;
    var n := |builtIn| - 1;
    var front, last := builtIn[..n], builtIn[n];
    assert builtIn == front + [last] == builtIn[..n + 1];
    FrontDistinct(front, last);
    ReplacedSnoc(builtIn, kept);
    CountSnoc(Replaced(front, kept), if last.Key() in kept then kept[last.Key()] else last, s);
    CountSnoc(front, last, s);
    KeysSnoc(builtIn, n);
  }

  lemma FrontDistinct(front: seq<Server>, last: Server)
    requires DistinctKeys(multiset(front + [last]))
    ensures DistinctKeys(multiset(front)) && last.Key() !in Keys(front)
  {
    hide Server.Key;
    var m := multiset(front + [last]);
    assert m == multiset(front) + multiset{last};
    assert forall s :: s in multiset(front) ==> s in m;
    assert last in m;
  }

  /** How often a server is in a merge of built-in servers with distinct keys. */
  ghost function Chosen(builtIn: seq<Server>, kept: Kept, s: Server): nat {
    if s.Key() in kept then (if kept[s.Key()] == s then 1 else 0) else multiset(builtIn)[s]
  }

  lemma MergeCounts(builtIn: seq<Server>, persisted: seq<Server>, merged: seq<Server>, kept: Kept)
    requires IsMerge(builtIn, persisted, merged) && DistinctKeys(multiset(builtIn)) && IsKept(persisted, kept)
    ensures forall s :: multiset(merged)[s] == Chosen(builtIn, kept, s)
  {
    hide Server.Key;
    var k :| IsKept(persisted, k) && IsOverride(builtIn, k, merged);
    KeptIsUnique(persisted, k, kept);
    forall s
      ensures multiset(merged)[s] == Chosen(builtIn, kept, s)
    {
      ReplacedCounts(builtIn, kept, s);
    }
  }

  // ---------------------------------------------------------------- main results

  /** With distinct built-in keys every key of a built-in or kept server is there exactly once,
      and it is the last kept server with the key, or else the built-in one. */
  lemma EachKeyOnce(builtIn: seq<Server>, persisted: seq<Server>, merged: seq<Server>)
    requires IsMerge(builtIn, persisted, merged) && DistinctKeys(multiset(builtIn))
    ensures DistinctKeys(multiset(merged))
    ensures Keys(merged) == Keys(builtIn) + KeptKeys(persisted)
    ensures forall s :: s in merged <==> if s.Key() in KeptKeys(persisted) then LastKept(persisted, s) else s in builtIn
  {
    hide Server.Key, LastKept, Replaced, Added, KeptKeys, DistinctKeys, Keys;
    var kept :| IsKept(persisted, kept) && IsOverride(builtIn, kept, merged);
    KeptIsUnique(persisted, kept, kept);
    MergeCounts(builtIn, persisted, merged, kept);
    forall s
      ensures s in merged <==> if s.Key() in KeptKeys(persisted) then LastKept(persisted, s) else s in builtIn
    {
      LastKeptIsUnique(persisted, s.Key());
      assert s in merged <==> multiset(merged)[s] > 0;
      assert s in builtIn <==> multiset(builtIn)[s] > 0;
    }
    ChosenDistinct(builtIn, kept, merged);
    ChosenKeys(builtIn, kept, merged);
  }

  lemma ChosenDistinct(builtIn: seq<Server>, kept: Kept, merged: seq<Server>)
    requires DistinctKeys(multiset(builtIn)) && forall s :: multiset(merged)[s] == Chosen(builtIn, kept, s)
    ensures DistinctKeys(multiset(merged))
  {
    hide Server.Key;
  }

  lemma ChosenKeys(builtIn: seq<Server>, kept: Kept, merged: seq<Server>)
    requires forall k :: k in kept ==> kept[k].Key() == k
    requires forall s :: multiset(merged)[s] == Chosen(builtIn, kept, s)
    ensures Keys(merged) == Keys(builtIn) + kept.Keys
  {
    hide Server.Key;
    forall k
      ensures k in Keys(merged) <==> k in Keys(builtIn) || k in kept
    {
      if k in kept {
        assert multiset(merged)[kept[k]] == 1;
      } else {
        forall s: Server | s.Key() == k
          ensures s in merged <==> s in builtIn
        {
          assert s in merged <==> multiset(merged)[s] > 0;
          assert s in builtIn <==> multiset(builtIn)[s] > 0;
        }
      }
    }
  }

  ghost predicate DistinctPositions(xs: seq<Server>) {
    forall i, j :: 0 <= i < j < |xs| ==> xs[i].Key() != xs[j].Key()
  }

  lemma {:induction false} DistinctIsDistinctPositions(xs: seq<Server>)
    ensures DistinctKeys(multiset(xs)) <==> DistinctPositions(xs)
  {
    if xs != [] {
      var n := |xs| - 1;
      assert xs == xs[..n] + [xs[n]];
      DistinctIsDistinctPositions(xs[..n]);
      DistinctSnoc(xs[..n], xs[n]);
    }
  }

  lemma DistinctSnoc(front: seq<Server>, last: Server)
    ensures DistinctKeys(multiset(front + [last])) <==> DistinctKeys(multiset(front)) && last.Key() !in Keys(front)
    ensures DistinctPositions(front + [last]) <==> DistinctPositions(front) && last.Key() !in Keys(front)
  {
    hide Server.Key;
    var more := front + [last];
    if DistinctKeys(multiset(more)) {
      FrontDistinct(front, last);
    }
    if DistinctKeys(multiset(front)) && last.Key() !in Keys(front) {
      LastDistinct(front, last);
    }
    assert forall i :: 0 <= i < |front| ==> more[i] == front[i] && front[i] in front;
    assert more[|front|] == last;
  }

  lemma LastDistinct(front: seq<Server>, last: Server)
    requires DistinctKeys(multiset(front)) && last.Key() !in Keys(front)
    ensures DistinctKeys(multiset(front + [last]))
  {
    hide Server.Key;
    assert multiset(front + [last]) == multiset(front) + multiset{last};
    assert forall s :: s in multiset(front) ==> s in front;
    assert last !in multiset(front);
  }

  lemma UniqueByKey(xs: seq<Server>)
    requires DistinctKeys(multiset(xs))
    ensures forall s, t :: s in xs && t in xs && s.Key() == t.Key() ==> s == t
  {
    hide Server.Key;
    assert forall s :: s in multiset(xs) <==> s in xs;
  }

  lemma {:induction false} ReplacedKeys(builtIn: seq<Server>, kept: Kept)
    requires forall k :: k in kept ==> kept[k].Key() == k
    ensures |Replaced(builtIn, kept)| == |builtIn|
    ensures forall i :: 0 <= i < |builtIn| ==> Replaced(builtIn, kept)[i].Key() == builtIn[i].Key()
  {
    hide Server.Key, Keys;
    if builtIn != [] {
      ReplacedKeys(builtIn[..|builtIn| - 1], kept);
    }
  }

  lemma PartDistinct(part: multiset<Server>, all: multiset<Server>)
    requires part <= all && DistinctKeys(all)
    ensures DistinctKeys(part)
  {
    assert forall s :: s in part ==> s in all;
  }

  /** The keys of the merge are distinct exactly when those of the built-in servers are. */
  lemma DistinctExactly(builtIn: seq<Server>, persisted: seq<Server>, merged: seq<Server>)
    requires IsMerge(builtIn, persisted, merged)
    ensures DistinctKeys(multiset(merged)) <==> DistinctKeys(multiset(builtIn))
  {
    hide Server.Key, LastKept, Replaced, Added, DistinctKeys;
    if DistinctKeys(multiset(builtIn)) {
      EachKeyOnce(builtIn, persisted, merged);
    }
    if DistinctKeys(multiset(merged)) {
      var kept :| IsKept(persisted, kept) && IsOverride(builtIn, kept, merged);
      PartDistinct(multiset(Replaced(builtIn, kept)), multiset(merged));
      ReplacedKeys(builtIn, kept);
      DistinctIsDistinctPositions(Replaced(builtIn, kept));
      DistinctIsDistinctPositions(builtIn);
    }
  }

  /** Merging the result again as the persisted data, at the same time or later, gives the same
      servers. */
  lemma MergeAgain(builtIn: Servers, persisted: Servers, now: int, merged: Servers, later: int, again: Servers)
    requires DistinctKeys(multiset(builtIn.servers)) && now <= later
    requires Outcome(builtIn, persisted, now, merged) && Outcome(builtIn, merged, later, again)
    ensures again == merged.(servers := again.servers)
    ensures multiset(again.servers) == multiset(merged.servers)
  {
    hide IsMerge, DistinctKeys, Sorted;
    if !UsesPersisted(builtIn, persisted, now) && !UsesPersisted(builtIn, merged, later) {
      SameServers(builtIn.servers, persisted.servers, merged.servers, again.servers);
    }
  }

  lemma SameServers(builtIn: seq<Server>, persisted: seq<Server>, merged: seq<Server>, again: seq<Server>)
    requires DistinctKeys(multiset(builtIn))
    requires IsMerge(builtIn, persisted, merged) && IsMerge(builtIn, merged, again)
    ensures multiset(again) == multiset(merged)
  {
    hide Server.Key, LastKept, Keys, DistinctKeys;
    EachKeyOnce(builtIn, persisted, merged);
    EachKeyOnce(builtIn, merged, again);
    UniqueByKey(merged);
    forall s
      ensures s in again <==> s in merged
    {
      KeptAgain(builtIn, persisted, merged, s);
    }
    SameDistinct(merged, again);
  }

  lemma KeptAgain(builtIn: seq<Server>, persisted: seq<Server>, merged: seq<Server>, s: Server)
    requires forall t, u :: t in merged && u in merged && t.Key() == u.Key() ==> t == u
    requires forall t ::
      t in merged <==> if t.Key() in KeptKeys(persisted) then LastKept(persisted, t) else t in builtIn
    ensures (if s.Key() in KeptKeys(merged) then LastKept(merged, s) else s in builtIn) <==> s in merged
  {
    hide Server.Key, LastKept, KeptKeys;
    if s.Key() in KeptKeys(merged) {
      var t := SomeLastKept(merged, s.Key());
      LastKeptIsKept(merged, s);
    } else if s.Key() in KeptKeys(persisted) {
      var t := SomeLastKept(persisted, s.Key());
      assert t in merged;
      LastKeptIsKept(persisted, t);
      KeptKey(merged, t);
      assert false;
    }
  }

  lemma LastKeptIsKept(servers: seq<Server>, s: Server)
    ensures LastKept(servers, s) ==> s in servers && s.keep
  {
  }

  lemma KeptKey(servers: seq<Server>, s: Server)
    requires s in servers && s.keep
    ensures s.Key() in KeptKeys(servers)
  {
    hide Server.Key;
  }

  lemma {:induction false} SomeLastKept(servers: seq<Server>, k: string) returns (s: Server)
    requires k in KeptKeys(servers)
    ensures LastKept(servers, s) && s in servers && s.Key() == k
  {
    hide Server.Key, LastKept;
    var n := |servers| - 1;
    assert servers == servers[..n] + [servers[n]];
    LastKeptSnoc(servers[..n], servers[n]);
    s := servers[n];
    if !s.keep || s.Key() != k {
      s := SomeLastKept(servers[..n], k);
    }
  }

  lemma SameDistinct(xs: seq<Server>, ys: seq<Server>)
    requires DistinctKeys(multiset(xs)) && DistinctKeys(multiset(ys)) && forall s :: s in xs <==> s in ys
    ensures multiset(xs) == multiset(ys)
  {
    hide Server.Key;
    forall s
      ensures multiset(xs)[s] == multiset(ys)[s]
    {
      assert s in multiset(xs) <==> s in xs;
      assert s in multiset(ys) <==> s in ys;
    }
  }

  /** Persisted data that is not used as it is, be it from the future, still counts: the merge has
      other servers than the built-in ones if and only if some last kept server is not built in. */
  lemma KeptCountExactly(builtIn: Servers, persisted: Servers, now: int, merged: Servers)
    requires DistinctKeys(multiset(builtIn.servers))
    requires (persisted.timestamp > now && !persisted.preferred) || !UsesPersisted(builtIn, persisted, now)
    requires Outcome(builtIn, persisted, now, merged)
    ensures multiset(merged.servers) == multiset(builtIn.servers)
       <==> forall s :: LastKept(persisted.servers, s) ==> s in builtIn.servers
  {
    hide Server.Key, LastKept, KeptKeys, DistinctKeys, Sorted, IsMerge, Keys;
    EachKeyOnce(builtIn.servers, persisted.servers, merged.servers);
    forall s | LastKept(persisted.servers, s)
      ensures s.Key() in KeptKeys(persisted.servers) && s in merged.servers
    {
      LastKeptIsKept(persisted.servers, s);
      KeptKey(persisted.servers, s);
    }
    if forall s :: LastKept(persisted.servers, s) ==> s in builtIn.servers {
      UniqueByKey(builtIn.servers);
      forall s
        ensures s in merged.servers <==> s in builtIn.servers
      {
        if s.Key() in KeptKeys(persisted.servers) {
          var t := SomeLastKept(persisted.servers, s.Key());
        }
      }
      SameDistinct(merged.servers, builtIn.servers);
    }
    assert forall s :: s in merged.servers <==> s in multiset(merged.servers);
    assert forall s :: s in builtIn.servers <==> s in multiset(builtIn.servers);
  }

  // ---------------------------------------------------------------- the order is determined

  /** How many servers are less than p. */
  ghost function Below(xs: seq<Server>, p: Server): (n: nat)
    ensures n <= |xs|
  {
    if xs == [] then 0 else Below(xs[..|xs| - 1], p) + if Less(xs[|xs| - 1], p) then 1 else 0
  }

  lemma {:induction false} BelowConcat(xs: seq<Server>, ys: seq<Server>, p: Server)
    ensures Below(xs + ys, p) == Below(xs, p) + Below(ys, p)
  {
    hide Less;
    if ys == [] {
      assert xs + ys == xs;
    } else {
      var n := |ys| - 1;
      assert (xs + ys)[..|xs + ys| - 1] == xs + ys[..n];
      BelowConcat(xs, ys[..n], p);
    }
  }

  lemma {:induction false} BelowCounts(xs: seq<Server>, p: Server)
    ensures (forall i :: 0 <= i < |xs| ==> Less(xs[i], p)) ==> Below(xs, p) == |xs|
    ensures (forall i :: 0 <= i < |xs| ==> !Less(xs[i], p)) ==> Below(xs, p) == 0
  {
    hide Less;
    if xs != [] {
      BelowCounts(xs[..|xs| - 1], p);
    }
  }

  lemma {:induction false} BelowPermuted(xs: seq<Server>, ys: seq<Server>, p: Server)
    requires multiset(xs) == multiset(ys)
    ensures Below(xs, p) == Below(ys, p) && |xs| == |ys|
    decreases |xs|
  {
    hide Less, Below;
    if xs == [] {
      assert |multiset(ys)| == |ys|;
    } else {
      var n := |xs| - 1;
      var last := xs[n];
      assert xs == xs[..n] + [last];
      assert last in multiset(ys);
      var j :| 0 <= j < |ys| && ys[j] == last;
      assert ys == (ys[..j] + [last]) + ys[j + 1..];
      WithoutOne(xs[..n], last, ys[..j], ys[j + 1..]);
      BelowPermuted(xs[..n], ys[..j] + ys[j + 1..], p);
      BelowConcat(xs[..n], [last], p);
      BelowConcat(ys[..j] + [last], ys[j + 1..], p);
      BelowConcat(ys[..j], [last], p);
      BelowConcat(ys[..j], ys[j + 1..], p);
    }
  }

  lemma WithoutOne(xs: seq<Server>, last: Server, ys: seq<Server>, zs: seq<Server>)
    requires multiset(xs + [last]) == multiset(ys + [last] + zs)
    ensures multiset(xs) == multiset(ys + zs)
  {
    var m := multiset{last};
    assert multiset(xs) + m == multiset(ys) + m + multiset(zs);
    forall s
      ensures multiset(xs)[s] == (multiset(ys) + multiset(zs))[s]
    {
      assert (multiset(xs) + m)[s] == multiset(xs)[s] + m[s];
    }
  }

  lemma NotLessAt(xs: seq<Server>, ys: seq<Server>, i: nat)
    requires Sorted(xs) && Sorted(ys) && multiset(xs) == multiset(ys) && i < |xs| && i < |ys|
    ensures !Less(ys[i], xs[i])
  {
    hide Less;
    var p := xs[i];
    if Less(ys[i], p) {
      forall j | 0 <= j <= i
        ensures Less(ys[j], p)
      {
        LessIsStrictOrder(ys[i], ys[j], p);
      }
      assert xs == xs[..i] + xs[i..] && ys == ys[..i + 1] + ys[i + 1..];
      BelowConcat(xs[..i], xs[i..], p);
      BelowConcat(ys[..i + 1], ys[i + 1..], p);
      LessIsStrictOrder(p, p, p);
      assert forall j :: 0 <= j < |xs[i..]| ==> !Less(xs[i..][j], p);
      BelowCounts(xs[i..], p);
      BelowCounts(ys[..i + 1], p);
      BelowPermuted(xs, ys, p);
      assert false;
    }
  }

  /** Whatever order the map is walked in and whatever sort is used, two merges of the same
      data hold the same servers, and tied servers at every position. */
  lemma MergeIsDetermined(builtIn: Servers, persisted: Servers, now: int, merged: Servers, other: Servers)
    requires Outcome(builtIn, persisted, now, merged) && Outcome(builtIn, persisted, now, other)
    ensures other == merged.(servers := other.servers)
    ensures multiset(merged.servers) == multiset(other.servers) && |merged.servers| == |other.servers|
    ensures forall i :: 0 <= i < |merged.servers| ==> Tied(merged.servers[i], other.servers[i])
  {
    hide IsMerge, Less, Sorted, Tied;
    if UsesPersisted(builtIn, persisted, now) {
      forall i | 0 <= i < |merged.servers|
        ensures Tied(merged.servers[i], other.servers[i])
      {
        LessIsStrictOrder(merged.servers[i], other.servers[i], merged.servers[i]);
      }
    } else {
      SameMerge(builtIn.servers, persisted.servers, merged.servers, other.servers);
      forall i | 0 <= i < |merged.servers|
        ensures Tied(merged.servers[i], other.servers[i])
      {
        NotLessAt(merged.servers, other.servers, i);
        NotLessAt(other.servers, merged.servers, i);
        LessIsStrictOrder(merged.servers[i], other.servers[i], merged.servers[i]);
      }
    }
  }

  lemma SameMerge(builtIn: seq<Server>, persisted: seq<Server>, merged: seq<Server>, other: seq<Server>)
    requires IsMerge(builtIn, persisted, merged) && IsMerge(builtIn, persisted, other)
    ensures multiset(merged) == multiset(other) && |merged| == |other|
  {
    hide IsKept, Added, Replaced;
    var k :| IsKept(persisted, k) && IsOverride(builtIn, k, merged);
    var l :| IsKept(persisted, l) && IsOverride(builtIn, l, other);
    KeptIsUnique(persisted, k, l);
    assert |multiset(merged)| == |merged| && |multiset(other)| == |other|;
  }
}
