/** The SOCKS5 UDP router: three maps that index the live UDP associations (RFC 1928 section 7). */
module UdpRouter {
  import opened Common

  type Id = nat

  datatype Association = Association(id: Id, client: AddrPort, expected: AddrPort, control: Addr)

  const UNBOUND := AddrPort(Invalid, 0)

  predicate Complete(expected: AddrPort) {
    expected.addr != Invalid && expected.port != 0
  }

  /** matchesExpectedClientEndpoint. */
  predicate Matches(expected: AddrPort, source: AddrPort) {
    if expected.addr != Invalid && source.addr != expected.addr then false
    else if expected.port != 0 && source.port != expected.port then false
    else true
  }

  function Get<K, V>(m: map<K, seq<V>>, k: K): seq<V> {
    if k in m then m[k] else []
  }

  // ---------------------------------------------------------------- specification

  datatype Router = Router(
    next: Id,
    byAddrPort: map<AddrPort, Association>,
    pending: map<Addr, seq<Association>>,
    addrPortOf: map<Id, AddrPort>)

  function New(): Router {
    Router(1, map[], map[], map[])
  }

  function Register(r: Router, control: Addr, expected: AddrPort): (Router, Association) {
    var a := Association(r.next, UNBOUND, expected, control);
    if Complete(expected) then
      var bound := a.(client := expected);
      (r.(next := r.next + 1,
          byAddrPort := r.byAddrPort[expected := bound],
          addrPortOf := r.addrPortOf[a.id := expected]), bound)
    else
      (r.(next := r.next + 1, pending := r.pending[control := Get(r.pending, control) + [a]]), a)
  }

  function WithoutId(list: seq<Association>, id: Id): seq<Association> {
    if list == [] then []
    else if list[0].id == id then list[1..]
    else [list[0]] + WithoutId(list[1..], id)
  }

  function Store(m: map<Addr, seq<Association>>, ip: Addr, list: seq<Association>): map<Addr, seq<Association>> {
    if list == [] then m - {ip} else m[ip := list]
  }

  function Unregister(r: Router, id: Id, control: Addr): Router {
    var unbound :=
      if id in r.addrPortOf then
        r.(addrPortOf := r.addrPortOf - {id}, byAddrPort := r.byAddrPort - {r.addrPortOf[id]})
      else
        r;
    unbound.(pending := Store(r.pending, control, WithoutId(Get(r.pending, control), id)))
  }

  /** The position of the oldest association that expects the source, or the length. */
  function FirstMatch(list: seq<Association>, source: AddrPort): (i: nat)
    ensures i <= |list|
    ensures forall k :: 0 <= k < i ==> !Matches(list[k].expected, source)
    ensures i < |list| ==> Matches(list[i].expected, source)
  {
    if list == [] || Matches(list[0].expected, source) then 0 else 1 + FirstMatch(list[1..], source)
  }

  function Find(r: Router, source: AddrPort): (Router, Option<Association>) {
    if source in r.byAddrPort then
      (r, Some(r.byAddrPort[source]))
    else
      var list := Get(r.pending, source.addr);
      var i := FirstMatch(list, source);
      if i == |list| then
        (r, None)
      else
        var a := list[i].(client := source);
        (r.(pending := Store(r.pending, source.addr, list[..i] + list[i + 1..]),
            byAddrPort := r.byAddrPort[source := a],
            addrPortOf := r.addrPortOf[a.id := source]), Some(a))
  }

  // ---------------------------------------------------------------- the code

  class UdpRouter {
    var nextAssociationID: Id
    var clientAddrPortToAssociation: map<AddrPort, Association>
    var clientIPToPendingAssociations: map<Addr, seq<Association>>
    var associationIDToClientAddrPort: map<Id, AddrPort>

    ghost function View(): Router
      reads this
    {
      Router(nextAssociationID, clientAddrPortToAssociation, clientIPToPendingAssociations,
             associationIDToClientAddrPort)
    }

    constructor ()
      ensures View() == New()
    {
      nextAssociationID := 1;
      clientAddrPortToAssociation := map[];
      clientIPToPendingAssociations := map[];
      associationIDToClientAddrPort := map[];
    }

    method RegisterAssociation(controlConnAddr: Addr, expectedAddrPort: AddrPort) returns (association: Association)
      modifies this
      ensures (View(), association) == Register(old(View()), controlConnAddr, expectedAddrPort)
    {
      var associationID := nextAssociationID;
      nextAssociationID := nextAssociationID + 1;
      association := Association(associationID, UNBOUND, expectedAddrPort, controlConnAddr);
      if expectedAddrPort.addr != Invalid && expectedAddrPort.port != 0 {
        association := association.(client := expectedAddrPort);
        clientAddrPortToAssociation := clientAddrPortToAssociation[association.client := association];
        associationIDToClientAddrPort := associationIDToClientAddrPort[association.id := association.client];
        return;
      }
      var pendingAssociations := Get(clientIPToPendingAssociations, controlConnAddr);
      pendingAssociations := pendingAssociations + [association];
      clientIPToPendingAssociations := clientIPToPendingAssociations[controlConnAddr := pendingAssociations];
    }

    method UnregisterAssociation(association: Association)
      modifies this
      ensures View() == Unregister(old(View()), association.id, association.control)
    {
      if association.id in associationIDToClientAddrPort {
        var clientAddrPort := associationIDToClientAddrPort[association.id];
        associationIDToClientAddrPort := associationIDToClientAddrPort - {association.id};
        clientAddrPortToAssociation := clientAddrPortToAssociation - {clientAddrPort};
      }
      var pendingAssociations := Get(clientIPToPendingAssociations, association.control);
      var i := 0;
      while i < |pendingAssociations| && pendingAssociations[i].id != association.id
        invariant i <= |pendingAssociations|
        invariant forall k :: 0 <= k < i ==> pendingAssociations[k].id != association.id
      {
        i := i + 1;
      }
      WithoutIdAt(pendingAssociations, association.id, i);
      if i < |pendingAssociations| {
        pendingAssociations := pendingAssociations[..i] + pendingAssociations[i + 1..];
      }
      if |pendingAssociations| == 0 {
        clientIPToPendingAssociations := clientIPToPendingAssociations - {association.control};
      } else {
        clientIPToPendingAssociations := clientIPToPendingAssociations[association.control := pendingAssociations];
      }
    }

    method FindClientAssociation(sourceAddrPort: AddrPort) returns (association: Option<Association>)
      modifies this
      ensures (View(), association) == Find(old(View()), sourceAddrPort)
    {
      if sourceAddrPort in clientAddrPortToAssociation {
        return Some(clientAddrPortToAssociation[sourceAddrPort]);
      }
      var pendingAssociations := Get(clientIPToPendingAssociations, sourceAddrPort.addr);
      if |pendingAssociations| == 0 {
        return None;
      }
      var index := 0;
      while index < |pendingAssociations| && !Matches(pendingAssociations[index].expected, sourceAddrPort)
        invariant index <= |pendingAssociations|
        invariant forall k :: 0 <= k < index ==> !Matches(pendingAssociations[k].expected, sourceAddrPort)
      {
        index := index + 1;
      }
      if index == |pendingAssociations| {
        FirstMatchAt(pendingAssociations, sourceAddrPort, index);
        return None;
      }
      FirstMatchAt(pendingAssociations, sourceAddrPort, index);
      var bound := pendingAssociations[index].(client := sourceAddrPort);
      var rest := pendingAssociations[..index] + pendingAssociations[index + 1..];
      clientIPToPendingAssociations := clientIPToPendingAssociations[sourceAddrPort.addr := rest];
      if |rest| == 0 {
        clientIPToPendingAssociations := clientIPToPendingAssociations - {sourceAddrPort.addr};
        assert clientIPToPendingAssociations == old(clientIPToPendingAssociations) - {sourceAddrPort.addr};
      }
      clientAddrPortToAssociation := clientAddrPortToAssociation[sourceAddrPort := bound];
      associationIDToClientAddrPort := associationIDToClientAddrPort[bound.id := sourceAddrPort];
      return Some(bound);
    }
  }

  lemma {:induction false} WithoutIdAt(list: seq<Association>, id: Id, i: nat)
    requires i <= |list| && (forall k :: 0 <= k < i ==> list[k].id != id)
    requires i < |list| ==> list[i].id == id
    ensures WithoutId(list, id) == if i < |list| then list[..i] + list[i + 1..] else list
  {
    if i > 0 {
      WithoutIdAt(list[1..], id, i - 1);
    }
  }

  lemma FirstMatchAt(list: seq<Association>, source: AddrPort, i: nat)
    requires i <= |list| && (forall k :: 0 <= k < i ==> !Matches(list[k].expected, source))
    requires i < |list| ==> Matches(list[i].expected, source)
    ensures FirstMatch(list, source) == i
  {
  }
}
