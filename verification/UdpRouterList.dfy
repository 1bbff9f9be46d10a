/** The plain list of live associations that the three maps of the UDP router stand for. */
module UdpRouterList {
  import opened Common
  import opened UdpRouter
  import opened UdpRouterRuns

  datatype Live = Live(id: Id, control: Addr, expected: AddrPort, bound: Option<AddrPort>)

  /** The live associations in the order of their registration. */
  datatype Plain = Plain(next: Id, live: seq<Live>)

  function AsAssociation(l: Live): Association {
    Association(l.id, if l.bound.Some? then l.bound.value else UNBOUND, l.expected, l.control)
  }

  function Holder(live: seq<Live>, e: AddrPort): Option<Live> {
    if live == [] then None
    else if live[0].bound == Some(e) then Some(live[0])
    else Holder(live[1..], e)
  }

  predicate Expects(l: Live, source: AddrPort) {
    l.bound.None? && l.control == source.addr && Matches(l.expected, source)
  }

  /** The position of the oldest unbound association from the address of the source that expects
      it, or the length. */
  function Oldest(live: seq<Live>, source: AddrPort): (i: nat)
    ensures i <= |live|
    ensures forall k :: 0 <= k < i ==> !Expects(live[k], source)
    ensures i < |live| ==> Expects(live[i], source)
  {
    if live == [] || Expects(live[0], source) then 0 else 1 + Oldest(live[1..], source)
  }

  function Remove(live: seq<Live>, id: Id): seq<Live> {
    if live == [] then []
    else if live[0].id == id then Remove(live[1..], id)
    else [live[0]] + Remove(live[1..], id)
  }

  /** A packet goes to the association bound to its source, else to the oldest unbound one from
      that address that expects it, which becomes bound. */
  function PlainStep(p: Plain, op: Op): (Plain, Option<Association>) {
    match op
    case RegisterOp(control, expected) =>
      var l := Live(p.next, control, expected, if Complete(expected) then Some(expected) else None);
      (Plain(p.next + 1, p.live + [l]), Some(AsAssociation(l)))
    case UnregisterOp(k) =>
      (p.(live := Remove(p.live, k + 1)), None)
    case FindOp(source) =>
      var holder := Holder(p.live, source);
      var i := Oldest(p.live, source);
      if holder.Some? then
        (p, Some(AsAssociation(holder.value)))
      else if i == |p.live| then
        (p, None)
      else
        var l := p.live[i].(bound := Some(source));
        (p.(live := p.live[i := l]), Some(AsAssociation(l)))
  }

  // ---------------------------------------------------------------- the relation

  /** The unbound associations from one address. */
  function Waiting(live: seq<Live>, ip: Addr): seq<Association> {
    if live == [] then []
    else if live[0].bound.None? && live[0].control == ip then [AsAssociation(live[0])] + Waiting(live[1..], ip)
    else Waiting(live[1..], ip)
  }

  function EndpointOf(live: seq<Live>, id: Id): Option<AddrPort> {
    if live == [] then None else if live[0].id == id then live[0].bound else EndpointOf(live[1..], id)
  }

  ghost predicate Increasing(live: seq<Live>) {
    forall i, j :: 0 <= i < j < |live| ==> live[i].id < live[j].id
  }

  ghost predicate UniqueEndpoints(live: seq<Live>) {
    forall i, j :: 0 <= i < j < |live| && live[i].bound.Some? ==> live[i].bound != live[j].bound
  }

  ghost predicate WellFormed(issued: seq<Association>, p: Plain) {
    && p.next == |issued| + 1
    && Increasing(p.live) && UniqueEndpoints(p.live)
    && forall l :: l in p.live ==> 1 <= l.id <= |issued| && issued[l.id - 1].control == l.control
  }

  ghost predicate PendingRefine(r: Router, live: seq<Live>) {
    forall ip :: Get(r.pending, ip) == Waiting(live, ip) && (ip in r.pending ==> r.pending[ip] != [])
  }

  ghost predicate EntryRefines(r: Router, live: seq<Live>, e: AddrPort) {
    if e in r.byAddrPort then Holder(live, e).Some? && r.byAddrPort[e] == AsAssociation(Holder(live, e).value)
    else Holder(live, e).None?
  }

  ghost predicate EntriesRefine(r: Router, live: seq<Live>) {
    forall e :: EntryRefines(r, live, e)
  }

  ghost predicate BoundRefine(r: Router, live: seq<Live>) {
    forall id :: EndpointOf(live, id) == if id in r.addrPortOf then Some(r.addrPortOf[id]) else None
  }

  ghost predicate Refines(s: System, p: Plain) {
    && IssuesAgree(s) && s.router.next == p.next && WellFormed(s.issued, p)
    && PendingRefine(s.router, p.live) && EntriesRefine(s.router, p.live) && BoundRefine(s.router, p.live)
  }

  /** A complete expected endpoint is only registered while no live association is bound to it. */
  ghost predicate Distinct(p: Plain, op: Op) {
    op.RegisterOp? && Complete(op.expected) ==> Holder(p.live, op.expected).None?
  }

  // ---------------------------------------------------------------- registering

  lemma {:induction false} AppendFacts(live: seq<Live>, l: Live, ip: Addr, e: AddrPort, id: Id)
    ensures Waiting(live + [l], ip) ==
      Waiting(live, ip) + if l.bound.None? && l.control == ip then [AsAssociation(l)] else []
    ensures Holder(live + [l], e) ==
      if Holder(live, e).Some? then Holder(live, e) else if l.bound == Some(e) then Some(l) else None
    ensures (forall i :: 0 <= i < |live| ==> live[i].id < l.id) ==>
      EndpointOf(live, l.id).None? && EndpointOf(live + [l], id) == if id == l.id then l.bound else EndpointOf(live, id)
  {
    if live != [] {
      assert (live + [l])[1..] == live[1..] + [l];
      AppendFacts(live[1..], l, ip, e, id);
    }
  }

  lemma {:induction false} HolderFacts(live: seq<Live>, e: AddrPort)
    ensures Holder(live, e).Some? ==> Holder(live, e).value in live && Holder(live, e).value.bound == Some(e)
    ensures Holder(live, e).None? ==> forall i :: 0 <= i < |live| ==> live[i].bound != Some(e)
  {
    if live != [] {
      HolderFacts(live[1..], e);
    }
  }

  lemma RegisterRefines(s: System, p: Plain, control: Addr, expected: AddrPort)
    requires Refines(s, p) && Distinct(p, RegisterOp(control, expected))
    ensures var (s', a) := Step(s, RegisterOp(control, expected));
      var (p', b) := PlainStep(p, RegisterOp(control, expected));
      Refines(s', p') && a == b
  {
    hide PendingRefine, EntriesRefine, BoundRefine, Distinct;
    RegisterPending(s.router, p, control, expected);
    RegisterMaps(s.router, p, control, expected);
    RegisterWellFormed(s, p, control, expected);
    hide WellFormed;
  }

  lemma RegisterWellFormed(s: System, p: Plain, control: Addr, expected: AddrPort)
    requires WellFormed(s.issued, p) && s.router.next == p.next && Distinct(p, RegisterOp(control, expected))
    ensures WellFormed(Step(s, RegisterOp(control, expected)).0.issued, PlainStep(p, RegisterOp(control, expected)).0)
  {
    HolderFacts(p.live, expected);
  }

  lemma RegisterPending(r: Router, p: Plain, control: Addr, expected: AddrPort)
    requires r.next == p.next && PendingRefine(r, p.live)
    ensures PendingRefine(Register(r, control, expected).0, PlainStep(p, RegisterOp(control, expected)).0.live)
  {
    var r' := Register(r, control, expected).0;
    var live' := PlainStep(p, RegisterOp(control, expected)).0.live;
    forall ip
      ensures Get(r'.pending, ip) == Waiting(live', ip) && (ip in r'.pending ==> r'.pending[ip] != [])
    {
      AppendFacts(p.live, live'[|p.live|], ip, expected, p.next);
    }
  }

  lemma RegisterMaps(r: Router, p: Plain, control: Addr, expected: AddrPort)
    requires r.next == p.next && (forall i :: 0 <= i < |p.live| ==> p.live[i].id < p.next)
    requires EntriesRefine(r, p.live) && BoundRefine(r, p.live) && Distinct(p, RegisterOp(control, expected))
    ensures var r' := Register(r, control, expected).0;
      var live' := PlainStep(p, RegisterOp(control, expected)).0.live;
      EntriesRefine(r', live') && BoundRefine(r', live')
  {
    var r' := Register(r, control, expected).0;
    var live' := PlainStep(p, RegisterOp(control, expected)).0.live;
    var l := live'[|p.live|];
    forall e
      ensures EntryRefines(r', live', e)
    {
      assert EntryRefines(r, p.live, e);
      AppendFacts(p.live, l, control, e, l.id);
    }
    forall id
      ensures EndpointOf(live', id) == if id in r'.addrPortOf then Some(r'.addrPortOf[id]) else None
    {
      AppendFacts(p.live, l, control, expected, id);
    }
  }

  // ---------------------------------------------------------------- unregistering

  lemma {:induction false} RemoveMembers(live: seq<Live>, id: Id)
    ensures forall l :: l in Remove(live, id) <==> l in live && l.id != id
  {
    if live != [] {
      RemoveMembers(live[1..], id);
    }
  }

  lemma {:induction false} RemoveIncreasing(live: seq<Live>, id: Id)
    requires Increasing(live)
    ensures Increasing(Remove(live, id))
  {
    if live != [] {
      RemoveIncreasing(live[1..], id);
      RemoveMembers(live[1..], id);
    }
  }

  lemma {:induction false} RemoveUnique(live: seq<Live>, id: Id)
    requires UniqueEndpoints(live)
    ensures UniqueEndpoints(Remove(live, id))
  {
    if live != [] {
      RemoveUnique(live[1..], id);
      RemoveMembers(live[1..], id);
    }
  }

  lemma {:induction false} RemoveAbsent(live: seq<Live>, id: Id)
    requires forall i :: 0 <= i < |live| ==> live[i].id != id
    ensures Remove(live, id) == live && EndpointOf(live, id).None?
  {
    if live != [] {
      RemoveAbsent(live[1..], id);
    }
  }

  lemma {:induction false} RemoveWaiting(live: seq<Live>, id: Id, ip: Addr)
    requires Increasing(live)
    ensures Waiting(Remove(live, id), ip) == WithoutId(Waiting(live, ip), id)
  {
    if live != [] {
      RemoveWaiting(live[1..], id, ip);
      if live[0].id == id {
        RemoveAbsent(live[1..], id);
        OnlyOneQueue(live[1..], id, ip);
      }
    }
  }

  /** Removing an association frees its endpoint. */
  lemma {:induction false} RemoveHolder(live: seq<Live>, id: Id, e: AddrPort)
    requires Increasing(live) && UniqueEndpoints(live)
    ensures Holder(Remove(live, id), e) == if EndpointOf(live, id) == Some(e) then None else Holder(live, e)
  {
    if live != [] {
      RemoveHolder(live[1..], id, e);
      HolderFacts(live[1..], e);
      if live[0].id == id {
        RemoveAbsent(live[1..], id);
      } else {
        EndpointMember(live[1..], id);
      }
    }
  }

  lemma {:induction false} RemoveEndpoint(live: seq<Live>, id: Id, other: Id)
    requires Increasing(live)
    ensures EndpointOf(Remove(live, id), other) == if other == id then None else EndpointOf(live, other)
  {
    if live != [] {
      RemoveEndpoint(live[1..], id, other);
      if live[0].id == id {
        RemoveAbsent(live[1..], id);
      }
    }
  }

  lemma {:induction false} EndpointMember(live: seq<Live>, id: Id)
    ensures EndpointOf(live, id).Some? ==>
      exists i :: 0 <= i < |live| && live[i].id == id && live[i].bound == EndpointOf(live, id)
  {
    if live != [] {
      EndpointMember(live[1..], id);
    }
  }

  lemma {:induction false} OnlyOneQueue(live: seq<Live>, id: Id, ip: Addr)
    requires forall l :: l in live && l.id == id ==> l.control != ip
    ensures WithoutId(Waiting(live, ip), id) == Waiting(live, ip)
  {
    if live != [] {
      OnlyOneQueue(live[1..], id, ip);
    }
  }

  lemma UnregisterPending(r: Router, live: seq<Live>, id: Id, control: Addr)
    requires Increasing(live) && PendingRefine(r, live)
    requires forall l :: l in live && l.id == id ==> l.control == control
    ensures PendingRefine(Unregister(r, id, control), Remove(live, id))
  {
    var r' := Unregister(r, id, control);
    forall ip
      ensures Get(r'.pending, ip) == Waiting(Remove(live, id), ip) && (ip in r'.pending ==> r'.pending[ip] != [])
    {
      RemoveWaiting(live, id, ip);
      if ip != control {
        OnlyOneQueue(live, id, ip);
      }
    }
  }

  lemma UnregisterMaps(r: Router, live: seq<Live>, id: Id, control: Addr)
    requires Increasing(live) && UniqueEndpoints(live)
    requires EntriesRefine(r, live) && BoundRefine(r, live)
    ensures EntriesRefine(Unregister(r, id, control), Remove(live, id))
    ensures BoundRefine(Unregister(r, id, control), Remove(live, id))
  {
    var r' := Unregister(r, id, control);
    assert EndpointOf(live, id) == if id in r.addrPortOf then Some(r.addrPortOf[id]) else None;
    forall e
      ensures EntryRefines(r', Remove(live, id), e)
    {
      assert EntryRefines(r, live, e);
      RemoveHolder(live, id, e);
    }
    forall other
      ensures EndpointOf(Remove(live, id), other) == if other in r'.addrPortOf then Some(r'.addrPortOf[other]) else None
    {
      RemoveEndpoint(live, id, other);
    }
  }

  lemma UnregisterRefines(s: System, p: Plain, k: nat)
    requires Refines(s, p)
    ensures Refines(Step(s, UnregisterOp(k)).0, PlainStep(p, UnregisterOp(k)).0)
  {
    hide PendingRefine, EntriesRefine, BoundRefine;
    if k >= |s.issued| {
      RemoveAbsent(p.live, k + 1);
      return;
    }
    RemoveIncreasing(p.live, k + 1);
    RemoveUnique(p.live, k + 1);
    RemoveMembers(p.live, k + 1);
    UnregisterPending(s.router, p.live, k + 1, s.issued[k].control);
    UnregisterMaps(s.router, p.live, k + 1, s.issued[k].control);
  }

  // ---------------------------------------------------------------- finding

  /** The queue of an address shows the same oldest match as the list. */
  lemma {:induction false} FoundInQueue(live: seq<Live>, source: AddrPort)
    ensures var w, k := Waiting(live, source.addr), Oldest(live, source);
      var i := FirstMatch(w, source);
      && (i < |w| <==> k < |live|)
      && (k < |live| ==> w[i] == AsAssociation(live[k]))
  {
    if live != [] {
      FoundInQueue(live[1..], source);
    }
  }

  lemma DropCons(a: Association, w: seq<Association>, i: nat)
    requires i < |w|
    ensures ([a] + w)[..i + 1] + ([a] + w)[i + 2..] == [a] + (w[..i] + w[i + 1..])
  {
  }

  /** Binding the oldest match takes it out of the queue. */
  lemma {:induction false} BindWaiting(live: seq<Live>, source: AddrPort)
    requires Oldest(live, source) < |live|
    ensures var w, k := Waiting(live, source.addr), Oldest(live, source);
      var i := FirstMatch(w, source);
      && i < |w|
      && Waiting(live[k := live[k].(bound := Some(source))], source.addr) == w[..i] + w[i + 1..]
  {
    FoundInQueue(live, source);
    var k := Oldest(live, source);
    var after := live[k := live[k].(bound := Some(source))];
    if k == 0 {
      assert after[1..] == live[1..];
    } else {
      assert after[1..] == live[1..][k - 1 := after[k]];
      BindWaiting(live[1..], source);
      var w := Waiting(live[1..], source.addr);
      DropCons(AsAssociation(live[0]), w, FirstMatch(w, source));
    }
  }

  lemma {:induction false} BindElsewhere(live: seq<Live>, k: nat, source: AddrPort, ip: Addr)
    requires k < |live| && live[k].control != ip
    ensures Waiting(live[k := live[k].(bound := Some(source))], ip) == Waiting(live, ip)
  {
    var after := live[k := live[k].(bound := Some(source))];
    if k == 0 {
      assert after[1..] == live[1..];
    } else {
      assert after[1..] == live[1..][k - 1 := after[k]];
      BindElsewhere(live[1..], k - 1, source, ip);
    }
  }

  lemma {:induction false} BindMapsList(live: seq<Live>, k: nat, source: AddrPort, e: AddrPort, id: Id)
    requires k < |live| && live[k].bound.None? && Holder(live, source).None? && Increasing(live)
    ensures var bound := live[k].(bound := Some(source));
      && Holder(live[k := bound], e) == (if e == source then Some(bound) else Holder(live, e))
      && EndpointOf(live[k := bound], id) == if id == bound.id then Some(source) else EndpointOf(live, id)
  {
    var bound := live[k].(bound := Some(source));
    if k == 0 {
      assert live[0 := bound][1..] == live[1..];
    } else {
      assert live[k := bound][1..] == live[1..][k - 1 := bound];
      BindMapsList(live[1..], k - 1, source, e, id);
    }
  }

  lemma BindPending(r: Router, live: seq<Live>, source: AddrPort)
    requires PendingRefine(r, live) && source !in r.byAddrPort && Oldest(live, source) < |live|
    ensures var k := Oldest(live, source);
      PendingRefine(Find(r, source).0, live[k := live[k].(bound := Some(source))])
  {
    var r' := Find(r, source).0;
    var k := Oldest(live, source);
    var after := live[k := live[k].(bound := Some(source))];
    assert Get(r.pending, source.addr) == Waiting(live, source.addr);
    FoundInQueue(live, source);
    BindWaiting(live, source);
    forall ip
      ensures Get(r'.pending, ip) == Waiting(after, ip) && (ip in r'.pending ==> r'.pending[ip] != [])
    {
      assert Get(r.pending, ip) == Waiting(live, ip);
      if ip != source.addr {
        BindElsewhere(live, k, source, ip);
      }
    }
  }

  lemma BindMapsRefine(r: Router, r': Router, live: seq<Live>, k: nat, source: AddrPort)
    requires EntriesRefine(r, live) && BoundRefine(r, live) && Increasing(live)
    requires k < |live| && live[k].bound.None? && Holder(live, source).None?
    requires r'.byAddrPort == r.byAddrPort[source := AsAssociation(live[k].(bound := Some(source)))]
    requires r'.addrPortOf == r.addrPortOf[live[k].id := source]
    ensures var after := live[k := live[k].(bound := Some(source))];
      EntriesRefine(r', after) && BoundRefine(r', after)
  {
    var after := live[k := live[k].(bound := Some(source))];
    forall e
      ensures EntryRefines(r', after, e)
    {
      assert EntryRefines(r, live, e);
      BindMapsList(live, k, source, e, live[k].id);
    }
    forall id
      ensures EndpointOf(after, id) == if id in r'.addrPortOf then Some(r'.addrPortOf[id]) else None
    {
      BindMapsList(live, k, source, source, id);
    }
  }

  lemma BindWellFormed(issued: seq<Association>, p: Plain, k: nat, source: AddrPort)
    requires WellFormed(issued, p) && k < |p.live| && Holder(p.live, source).None?
    ensures WellFormed(issued, p.(live := p.live[k := p.live[k].(bound := Some(source))]))
  {
    HolderFacts(p.live, source);
  }

  lemma FindRefines(s: System, p: Plain, source: AddrPort)
    requires Refines(s, p)
    ensures var (s', a) := Step(s, FindOp(source));
      var (p', b) := PlainStep(p, FindOp(source));
      Refines(s', p') && a == b
  {
    assert EntryRefines(s.router, p.live, source);
    assert Get(s.router.pending, source.addr) == Waiting(p.live, source.addr);
    FoundInQueue(p.live, source);
    var k := Oldest(p.live, source);
    if source !in s.router.byAddrPort && k < |p.live| {
      hide PendingRefine, EntriesRefine, BoundRefine;
      BindPending(s.router, p.live, source);
      BindMapsRefine(s.router, Find(s.router, source).0, p.live, k, source);
      BindWellFormed(s.issued, p, k, source);
      hide WellFormed;
    }
  }

  // ---------------------------------------------------------------- main results

  lemma StepRefines(s: System, p: Plain, op: Op)
    requires Refines(s, p) && Distinct(p, op)
    ensures Refines(Step(s, op).0, PlainStep(p, op).0) && Step(s, op).1 == PlainStep(p, op).1
  {
    match op
    case RegisterOp(control, expected) => RegisterRefines(s, p, control, expected);
    case UnregisterOp(k) => UnregisterRefines(s, p, k);
    case FindOp(source) => FindRefines(s, p, source);
  }

  ghost function PlainRun(ops: seq<Op>): Plain {
    if ops == [] then Plain(1, []) else PlainStep(PlainRun(ops[..|ops| - 1]), ops[|ops| - 1]).0
  }

  /** Every registration of the history is distinct. */
  ghost predicate Careful(ops: seq<Op>) {
    forall n :: 0 <= n < |ops| ==> Distinct(PlainRun(ops[..n]), ops[n])
  }

  lemma {:induction false} RunRefines(ops: seq<Op>)
    requires Careful(ops)
    ensures Refines(Run(ops), PlainRun(ops))
  {
    if ops != [] {
      var n := |ops| - 1;
      assert forall k :: 0 <= k < n ==> ops[..n][..k] == ops[..k];
      RunRefines(ops[..n]);
      StepRefines(Run(ops[..n]), PlainRun(ops[..n]), ops[n]);
    }
  }

  /** Whenever every registration is distinct, the router answers like the plain list. */
  lemma RouterIsPlainList(ops: seq<Op>, op: Op)
    requires Careful(ops) && Distinct(PlainRun(ops), op)
    ensures Step(Run(ops), op).1 == PlainStep(PlainRun(ops), op).1
  {
    RunRefines(ops);
    StepRefines(Run(ops), PlainRun(ops), op);
  }

  // ---------------------------------------------------------------- the condition is exact

  /** After a registration and the end of some association, packets from the source are routed
      as in the plain list. */
  ghost predicate RoutedAlike(s: System, p: Plain, registration: Op, k: nat, source: AddrPort) {
    var s', p' := Step(s, registration).0, PlainStep(p, registration).0;
    Step(Step(s', UnregisterOp(k)).0, FindOp(source)).1 == PlainStep(PlainStep(p', UnregisterOp(k)).0, FindOp(source)).1
  }

  lemma {:induction false} HolderEndpoint(live: seq<Live>, e: AddrPort)
    requires Increasing(live) && Holder(live, e).Some?
    ensures EndpointOf(live, Holder(live, e).value.id) == Some(e)
  {
    if live[0].bound != Some(e) {
      HolderEndpoint(live[1..], e);
      HolderFacts(live[1..], e);
    }
  }

  lemma {:induction false} RemoveAppend(live: seq<Live>, l: Live, id: Id)
    requires l.id != id
    ensures Remove(live + [l], id) == Remove(live, id) + [l]
  {
    if live != [] {
      assert (live + [l])[1..] == live[1..] + [l];
      RemoveAppend(live[1..], l, id);
    }
  }

  lemma {:induction false} WaitingMembers(live: seq<Live>, ip: Addr, a: Association)
    requires a in Waiting(live, ip)
    ensures exists l :: l in live && l.id == a.id
  {
    if live[0].bound.None? && live[0].control == ip && a == AsAssociation(live[0]) {
      assert live[0] in live;
    } else {
      WaitingMembers(live[1..], ip, a);
    }
  }

  /** When two live associations share an endpoint and the older ends, packets from there no
      longer reach the younger. */
  lemma SharedEndpointIsLost(s: System, p: Plain, control: Addr, e: AddrPort)
    requires Refines(s, p) && Complete(e) && Holder(p.live, e).Some?
    ensures var older := Holder(p.live, e).value.id;
      older >= 1 && !RoutedAlike(s, p, RegisterOp(control, e), older - 1, e)
  {
    var older := Holder(p.live, e).value;
    var younger := Live(p.next, control, e, Some(e));
    HolderFacts(p.live, e);
    HolderEndpoint(p.live, e);
    RemoveAppend(p.live, younger, older.id);
    RemoveHolder(p.live, older.id, e);
    AppendFacts(Remove(p.live, older.id), younger, control, e, older.id);
    var s'' := Step(Step(s, RegisterOp(control, e)).0, UnregisterOp(older.id - 1)).0;
    assert e !in s''.router.byAddrPort;
    var found := Find(s''.router, e).1;
    if found.Some? {
      var list := Get(s''.router.pending, e.addr);
      WithoutIdMembers(Get(s.router.pending, older.control), older.id);
      var a := list[FirstMatch(list, e)];
      assert a in Waiting(p.live, e.addr);
      WaitingMembers(p.live, e.addr, a);
    }
  }

  /** Distinctness of a registration is exactly what keeps the router faithful: it holds if and
      only if, whichever association ends next, every packet is routed as in the plain list. */
  lemma DistinctExactly(s: System, p: Plain, control: Addr, expected: AddrPort)
    requires Refines(s, p)
    ensures Distinct(p, RegisterOp(control, expected)) <==>
      forall k, source :: RoutedAlike(s, p, RegisterOp(control, expected), k, source)
  {
    var registration := RegisterOp(control, expected);
    if Distinct(p, registration) {
      forall k, source
        ensures RoutedAlike(s, p, registration, k, source)
      {
        var s', p' := Step(s, registration).0, PlainStep(p, registration).0;
        StepRefines(s, p, registration);
        StepRefines(s', p', UnregisterOp(k));
        StepRefines(Step(s', UnregisterOp(k)).0, PlainStep(p', UnregisterOp(k)).0, FindOp(source));
      }
    } else {
      HolderFacts(p.live, expected);
      SharedEndpointIsLost(s, p, control, expected);
    }
  }
}
