/** Histories of the UDP router: what holds on every one of them, and the plain list of live
    associations the three maps stand for. */
module UdpRouterRuns {
  import opened Common
  import opened UdpRouter

  /** The router together with every association it has returned, oldest first. */
  datatype System = System(router: Router, issued: seq<Association>)

  /** UnregisterOp(k) unregisters the k-th association that was registered. */
  datatype Op = RegisterOp(control: Addr, expected: AddrPort) | UnregisterOp(k: nat) | FindOp(source: AddrPort)

  function Step(s: System, op: Op): (System, Option<Association>) {
    match op
    case RegisterOp(control, expected) =>
      var (r, a) := Register(s.router, control, expected);
      (System(r, s.issued + [a]), Some(a))
    case UnregisterOp(k) =>
      if k < |s.issued| then
        (s.(router := Unregister(s.router, s.issued[k].id, s.issued[k].control)), None)
      else
        (s, None)
    case FindOp(source) =>
      var (r, found) := Find(s.router, source);
      (s.(router := r), found)
  }

  function Run(ops: seq<Op>): System {
    if ops == [] then System(New(), []) else Step(Run(ops[..|ops| - 1]), ops[|ops| - 1]).0
  }

  // ---------------------------------------------------------------- the invariant

  ghost predicate Issued(s: System, id: Id) {
    1 <= id <= |s.issued|
  }

  /** The endpoint is one the association asked for. */
  predicate Fitting(a: Association, endpoint: AddrPort) {
    if Complete(a.expected) then endpoint == a.expected
    else endpoint.addr == a.control && Matches(a.expected, endpoint)
  }

  ghost predicate IssuesAgree(s: System) {
    s.router.next == |s.issued| + 1 && forall k :: 0 <= k < |s.issued| ==> s.issued[k].id == k + 1
  }

  /** A pending association is as it was registered, waits under its own address, and is not bound. */
  ghost predicate Waits(s: System, ip: Addr, a: Association) {
    && Issued(s, a.id) && a == s.issued[a.id - 1] && a.control == ip && !Complete(a.expected)
    && a.id !in s.router.addrPortOf
  }

  /** A queue of pending associations, oldest first. */
  ghost predicate Queue(s: System, ip: Addr, list: seq<Association>) {
    && (forall j :: 0 <= j < |list| ==> Waits(s, ip, list[j]))
    && (forall i, j :: 0 <= i < j < |list| ==> list[i].id < list[j].id)
  }

  ghost predicate PendingAgrees(s: System) {
    forall ip :: ip in s.router.pending ==> s.router.pending[ip] != [] && Queue(s, ip, s.router.pending[ip])
  }

  ghost predicate BoundAgrees(s: System) {
    forall id :: id in s.router.addrPortOf ==> Issued(s, id) && Fitting(s.issued[id - 1], s.router.addrPortOf[id])
  }

  /** Every endpoint entry agrees with the id entry. */
  ghost predicate EntriesAgree(s: System) {
    forall e :: e in s.router.byAddrPort ==>
      var a := s.router.byAddrPort[e];
      && a.id in s.router.addrPortOf && s.router.addrPortOf[a.id] == e
      && Issued(s, a.id) && a == s.issued[a.id - 1].(client := e)
  }

  ghost predicate Inv(s: System) {
    IssuesAgree(s) && PendingAgrees(s) && BoundAgrees(s) && EntriesAgree(s)
  }

  lemma {:induction false} WithoutIdQueue(s: System, ip: Addr, list: seq<Association>, id: Id)
    requires Queue(s, ip, list)
    ensures var rest := WithoutId(list, id);
      && Queue(s, ip, rest)
      && forall j :: 0 <= j < |rest| ==> rest[j] in list && rest[j].id != id
  {
    if list != [] && list[0].id != id {
      assert Queue(s, ip, list[1..]);
      WithoutIdQueue(s, ip, list[1..], id);
    }
  }

  lemma QueueKept(s: System, s': System, ip: Addr, list: seq<Association>)
    requires Queue(s, ip, list) && s.issued <= s'.issued
    requires forall j :: 0 <= j < |list| ==> list[j].id !in s'.router.addrPortOf
    ensures Queue(s', ip, list)
  {
    forall j | 0 <= j < |list|
      ensures Waits(s', ip, list[j])
    {
      assert Waits(s, ip, list[j]);
    }
  }

  lemma QueueSnoc(s: System, ip: Addr, list: seq<Association>, a: Association)
    requires Queue(s, ip, list) && Waits(s, ip, a) && forall j :: 0 <= j < |list| ==> list[j].id < a.id
    ensures Queue(s, ip, list + [a])
  {
  }

  lemma QueueDrop(s: System, ip: Addr, list: seq<Association>, i: nat)
    requires Queue(s, ip, list) && i < |list|
    ensures var rest := list[..i] + list[i + 1..];
      Queue(s, ip, rest) && forall j :: 0 <= j < |rest| ==> rest[j].id != list[i].id
  {
  }

  lemma RegisterQueues(s: System, control: Addr, expected: AddrPort)
    requires Inv(s)
    ensures PendingAgrees(Step(s, RegisterOp(control, expected)).0)
  {
    var (s', r) := Step(s, RegisterOp(control, expected));
    forall ip | ip in s'.router.pending
      ensures s'.router.pending[ip] != [] && Queue(s', ip, s'.router.pending[ip])
    {
      var list := Get(s.router.pending, ip);
      assert forall j :: 0 <= j < |list| ==> Waits(s, ip, list[j]);
      QueueKept(s, s', ip, list);
      if !Complete(expected) && ip == control {
        QueueSnoc(s', ip, list, r.value);
      }
    }
  }

  lemma RegisterInv(s: System, control: Addr, expected: AddrPort)
    requires Inv(s)
    ensures Inv(Step(s, RegisterOp(control, expected)).0)
  {
    hide Waits, Queue;
    RegisterQueues(s, control, expected);
  }

  lemma UnregisterQueues(s: System, k: nat)
    requires Inv(s) && k < |s.issued|
    ensures PendingAgrees(Step(s, UnregisterOp(k)).0)
  {
    var s' := Step(s, UnregisterOp(k)).0;
    forall ip | ip in s'.router.pending
      ensures s'.router.pending[ip] != [] && Queue(s', ip, s'.router.pending[ip])
    {
      var list := Get(s.router.pending, ip);
      WithoutIdQueue(s, ip, list, s.issued[k].id);
      assert forall j :: 0 <= j < |list| ==> Waits(s, ip, list[j]);
      QueueKept(s, s', ip, if ip == s.issued[k].control then WithoutId(list, s.issued[k].id) else list);
    }
  }

  lemma UnregisterInv(s: System, k: nat)
    requires Inv(s) && k < |s.issued|
    ensures Inv(Step(s, UnregisterOp(k)).0)
  {
    hide Waits, Queue;
    UnregisterQueues(s, k);
  }

  lemma FindQueues(s: System, source: AddrPort)
    requires Inv(s)
    ensures PendingAgrees(Step(s, FindOp(source)).0)
  {
    var s' := Step(s, FindOp(source)).0;
    var found := Get(s.router.pending, source.addr);
    var i := FirstMatch(found, source);
    if source !in s.router.byAddrPort && i < |found| {
      assert Waits(s, source.addr, found[i]);
      forall ip | ip in s'.router.pending
        ensures s'.router.pending[ip] != [] && Queue(s', ip, s'.router.pending[ip])
      {
        var list := Get(s.router.pending, ip);
        assert forall j :: 0 <= j < |list| ==> Waits(s, ip, list[j]);
        QueueDrop(s, source.addr, found, i);
        QueueKept(s, s', ip, if ip == source.addr then found[..i] + found[i + 1..] else list);
      }
    }
  }

  /** Binding an unbound association to a fitting endpoint keeps the two endpoint maps in order. */
  lemma BindMaps(s: System, s': System, a: Association, e: AddrPort)
    requires BoundAgrees(s) && EntriesAgree(s) && s'.issued == s.issued
    requires Issued(s, a.id) && a == s.issued[a.id - 1] && a.id !in s.router.addrPortOf && Fitting(a, e)
    requires s'.router.addrPortOf == s.router.addrPortOf[a.id := e]
    requires s'.router.byAddrPort == s.router.byAddrPort[e := a.(client := e)]
    ensures BoundAgrees(s') && EntriesAgree(s')
  {
  }

  lemma FindInv(s: System, source: AddrPort)
    requires Inv(s)
    ensures Inv(Step(s, FindOp(source)).0)
  {
    FindQueues(s, source);
    var list := Get(s.router.pending, source.addr);
    var i := FirstMatch(list, source);
    if source !in s.router.byAddrPort && i < |list| {
      assert Waits(s, source.addr, list[i]);
      hide Queue, Waits, BoundAgrees, EntriesAgree;
      BindMaps(s, Step(s, FindOp(source)).0, list[i], source);
    }
  }

  lemma StepInv(s: System, op: Op)
    requires Inv(s)
    ensures Inv(Step(s, op).0)
  {
    match op
    case RegisterOp(control, expected) => RegisterInv(s, control, expected);
    case UnregisterOp(k) => if k < |s.issued| { UnregisterInv(s, k); }
    case FindOp(source) => FindInv(s, source);
  }

  lemma {:induction false} RunInv(ops: seq<Op>)
    ensures Inv(Run(ops))
  {
    if ops != [] {
      RunInv(ops[..|ops| - 1]);
      StepInv(Run(ops[..|ops| - 1]), ops[|ops| - 1]);
    }
  }

  // ---------------------------------------------------------------- every history

  ghost predicate IsPending(r: Router, id: Id) {
    exists ip, j :: ip in r.pending && 0 <= j < |r.pending[ip]| && r.pending[ip][j].id == id
  }

  /** After any history at all: no association is both pending and bound; a bound one has an
      endpoint it asked for, that is the complete endpoint it declared, or else a source with the
      address of its control connection that matches what it declared; and the entry of an
      endpoint names the association bound to it. */
  lemma EveryHistory(ops: seq<Op>, id: Id)
    ensures var s := Run(ops);
      && !(IsPending(s.router, id) && id in s.router.addrPortOf)
      && (id in s.router.addrPortOf ==> Issued(s, id) && Fitting(s.issued[id - 1], s.router.addrPortOf[id]))
      && forall e :: e in s.router.byAddrPort ==>
           var a := s.router.byAddrPort[e];
           a.id in s.router.addrPortOf && s.router.addrPortOf[a.id] == e == a.client
  {
    RunInv(ops);
    var s := Run(ops);
    if IsPending(s.router, id) {
      var ip, j :| ip in s.router.pending && 0 <= j < |s.router.pending[ip]| && s.router.pending[ip][j].id == id;
      assert Waits(s, ip, s.router.pending[ip][j]);
    }
  }

  /** The association has had its one endpoint: it can only stay bound to it or be unbound. */
  ghost predicate Settled(s: System, id: Id, e: AddrPort) {
    Issued(s, id) && !IsPending(s.router, id) && (id in s.router.addrPortOf ==> s.router.addrPortOf[id] == e)
  }

  lemma {:induction false} WithoutIdMembers(list: seq<Association>, id: Id)
    ensures forall j :: 0 <= j < |WithoutId(list, id)| ==> WithoutId(list, id)[j] in list
  {
    if list != [] && list[0].id != id {
      WithoutIdMembers(list[1..], id);
    }
  }

  /** Only a registration makes an association pending. */
  lemma QueueMembers(s: System, op: Op, ip: Addr, a: Association)
    requires a in Get(Step(s, op).0.router.pending, ip)
    ensures a in Get(s.router.pending, ip) || (op.RegisterOp? && a.id == s.router.next)
  {
    if op.UnregisterOp? && op.k < |s.issued| {
      WithoutIdMembers(Get(s.router.pending, s.issued[op.k].control), s.issued[op.k].id);
    }
  }

  lemma MemberIsPending(r: Router, ip: Addr, a: Association)
    requires a in Get(r.pending, ip)
    ensures IsPending(r, a.id)
  {
    var j :| 0 <= j < |r.pending[ip]| && r.pending[ip][j] == a;
  }

  lemma NothingBecomesPending(s: System, op: Op, id: Id)
    requires IssuesAgree(s) && Issued(s, id) && IsPending(Step(s, op).0.router, id)
    ensures IsPending(s.router, id)
  {
    hide Step;
    var r := Step(s, op).0.router;
    var ip, j :| ip in r.pending && 0 <= j < |r.pending[ip]| && r.pending[ip][j].id == id;
    QueueMembers(s, op, ip, r.pending[ip][j]);
    MemberIsPending(s.router, ip, r.pending[ip][j]);
  }

  /** Only a pending or a new association gets an endpoint. */
  lemma NothingIsRebound(s: System, op: Op, id: Id)
    requires IssuesAgree(s) && Issued(s, id) && !IsPending(s.router, id)
    ensures var after := Step(s, op).0.router.addrPortOf;
      id in after ==> id in s.router.addrPortOf && after[id] == s.router.addrPortOf[id]
  {
    if op.FindOp? {
      var list := Get(s.router.pending, op.source.addr);
      var i := FirstMatch(list, op.source);
      if i < |list| {
        MemberIsPending(s.router, op.source.addr, list[i]);
      }
    }
  }

  lemma StaysSettled(s: System, op: Op, id: Id, e: AddrPort)
    requires Inv(s) && Settled(s, id, e)
    ensures Settled(Step(s, op).0, id, e)
  {
    assert s.issued <= Step(s, op).0.issued;
    hide Step, IsPending;
    NothingIsRebound(s, op, id);
    if IsPending(Step(s, op).0.router, id) {
      NothingBecomesPending(s, op, id);
    }
  }

  lemma {:induction false} SettledForEver(ops: seq<Op>, more: seq<Op>, id: Id, e: AddrPort)
    requires Settled(Run(ops), id, e)
    ensures Settled(Run(ops + more), id, e)
  {
    if more == [] {
      assert ops + more == ops;
    } else {
      var n := |more| - 1;
      SettledForEver(ops, more[..n], id, e);
      assert (ops + more)[..|ops + more| - 1] == ops + more[..n];
      RunInv(ops + more[..n]);
      StaysSettled(Run(ops + more[..n]), more[n], id, e);
    }
  }

  /** An association is bound to at most one endpoint in its life. */
  lemma BoundOnce(ops: seq<Op>, more: seq<Op>, id: Id)
    requires id in Run(ops).router.addrPortOf && id in Run(ops + more).router.addrPortOf
    ensures Run(ops).router.addrPortOf[id] == Run(ops + more).router.addrPortOf[id]
  {
    RunInv(ops);
    EveryHistory(ops, id);
    SettledForEver(ops, more, id, Run(ops).router.addrPortOf[id]);
  }

  // ---------------------------------------------------------------- the conditions written out

  /** After any history: an association that declared an address and a port is bound to these or not
      at all; any other is bound to a source with the address of its control connection, and with
      the address and the port it declared, as far as it declared them. */
  lemma BoundAsDeclared(ops: seq<Op>, id: Id)
    requires id in Run(ops).router.addrPortOf
    ensures Issued(Run(ops), id)
    ensures var a, endpoint := Run(ops).issued[id - 1], Run(ops).router.addrPortOf[id];
      if a.expected.addr != Invalid && a.expected.port != 0 then
        endpoint == a.expected
      else
        && endpoint.addr == a.control
        && (a.expected.addr == Invalid || endpoint.addr == a.expected.addr)
        && (a.expected.port == 0 || endpoint.port == a.expected.port)
  {
    EveryHistory(ops, id);
  }

  /** A packet finds no association if and only if its source is bound to none, and of those pending
      from its address each declared another address or another port. */
  lemma FindsNoneExactly(s: System, source: AddrPort)
    ensures Step(s, FindOp(source)).1.None? <==>
      && source !in s.router.byAddrPort
      && forall a :: a in Get(s.router.pending, source.addr) ==>
           || (a.expected.addr != Invalid && a.expected.addr != source.addr)
           || (a.expected.port != 0 && a.expected.port != source.port)
  {
    var list := Get(s.router.pending, source.addr);
    var i := FirstMatch(list, source);
    if i == |list| {
      forall a | a in list
        ensures (a.expected.addr != Invalid && a.expected.addr != source.addr)
             || (a.expected.port != 0 && a.expected.port != source.port)
      {
        var k :| 0 <= k < |list| && list[k] == a;
        assert !Matches(list[k].expected, source);
      }
    } else {
      assert list[i] in list && Matches(list[i].expected, source);
    }
  }

  /** What a packet finds was bound to its source, or else is the first of those pending from its
      address that declared nothing else, and is bound to the source from now on. */
  lemma FindsTheOldest(s: System, source: AddrPort)
    requires Step(s, FindOp(source)).1.Some? && source !in s.router.byAddrPort
    ensures var (s', found) := Step(s, FindOp(source));
      var list := Get(s.router.pending, source.addr);
      exists i :: 0 <= i < |list|
        && found.value == list[i].(client := source)
        && (list[i].expected.addr == Invalid || list[i].expected.addr == source.addr)
        && (list[i].expected.port == 0 || list[i].expected.port == source.port)
        && (forall k :: 0 <= k < i ==>
              || (list[k].expected.addr != Invalid && list[k].expected.addr != source.addr)
              || (list[k].expected.port != 0 && list[k].expected.port != source.port))
        && Get(s'.router.pending, source.addr) == list[..i] + list[i + 1..]
        && s'.router.byAddrPort == s.router.byAddrPort[source := found.value]
        && s'.router.addrPortOf == s.router.addrPortOf[list[i].id := source]
  {
    var list := Get(s.router.pending, source.addr);
    var i := FirstMatch(list, source);
    assert Matches(list[i].expected, source);
    forall k | 0 <= k < i
      ensures (list[k].expected.addr != Invalid && list[k].expected.addr != source.addr)
           || (list[k].expected.port != 0 && list[k].expected.port != source.port)
    {
      assert !Matches(list[k].expected, source);
    }
  }

  /** An association that declared an address and a port is bound to them from its registration on,
      until it is unregistered. */
  lemma {:induction false} BoundFromRegistration(ops: seq<Op>, control: Addr, expected: AddrPort, more: seq<Op>)
    requires expected.addr != Invalid && expected.port != 0
    requires forall op :: op in more ==> op != UnregisterOp(|Run(ops).issued|)
    ensures var id := |Run(ops).issued| + 1;
      var bound := Run(ops + [RegisterOp(control, expected)] + more).router.addrPortOf;
      id in bound && bound[id] == expected
  {
    hide Step, Inv;
    var register := RegisterOp(control, expected);
    var first := ops + [register];
    RunInv(ops);
    if more == [] {
      assert first + more == first && first[..|first| - 1] == ops;
      BoundAtOnce(Run(ops), control, expected);
    } else {
      var n := |more| - 1;
      assert forall op :: op in more[..n] ==> op in more;
      BoundFromRegistration(ops, control, expected, more[..n]);
      assert (first + more)[..|first + more| - 1] == first + more[..n];
      assert (first + more)[|first + more| - 1] == more[n] && more[n] in more;
      RunInv(first + more[..n]);
      KeepsBound(Run(first + more[..n]), more[n], |Run(ops).issued| + 1);
    }
  }

  lemma BoundAtOnce(s: System, control: Addr, expected: AddrPort)
    requires Inv(s) && expected.addr != Invalid && expected.port != 0
    ensures var bound := Step(s, RegisterOp(control, expected)).0.router.addrPortOf;
      |s.issued| + 1 in bound && bound[|s.issued| + 1] == expected
  {
  }

  lemma KeepsBound(s: System, op: Op, id: Id)
    requires Inv(s) && id in s.router.addrPortOf && op != UnregisterOp(id - 1)
    ensures var after := Step(s, op).0.router.addrPortOf;
      id in after && after[id] == s.router.addrPortOf[id]
  {
    EveryState(s, id);
    NothingIsRebound(s, op, id);
  }

  lemma EveryState(s: System, id: Id)
    requires Inv(s) && id in s.router.addrPortOf
    ensures Issued(s, id) && !IsPending(s.router, id)
  {
  }

  /** What a registration returns: the next identifier, what was declared, and as client endpoint the
      declared one if it is complete, else none. */
  lemma RegisteredAsDeclared(s: System, control: Addr, expected: AddrPort)
    ensures var a := Step(s, RegisterOp(control, expected)).1;
      && a.Some? && a.value.id == s.router.next && a.value.expected == expected && a.value.control == control
      && if expected.addr != Invalid && expected.port != 0 then a.value.client == expected
         else a.value.client.addr == Invalid && a.value.client.port == 0
  {
  }
}
