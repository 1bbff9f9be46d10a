/** The recorded port redirections of the firewall: how one is added, found and removed. */
module Redirections {
  import opened Common
  import opened Subnets

  type Interface = string

  datatype Redirection = Redirection(interfaceName: Interface, sourcePort: uint16, destinationPort: uint16)

  // ---------------------------------------------------------------- removing

  predicate Selected(r: Redirection, intf: Interface, sourcePort: uint16) {
    r.sourcePort == sourcePort && (intf == "" || intf == r.interfaceName)
  }

  function Picked(redirections: seq<Redirection>, intf: Interface, sourcePort: uint16): seq<Redirection> {
    if redirections == [] then []
    else
      var n := |redirections| - 1;
      var before := Picked(redirections[..n], intf, sourcePort);
      if Selected(redirections[n], intf, sourcePort) then before + [redirections[n]] else before
  }

  lemma {:induction false} PickedCounts(
      redirections: seq<Redirection>, intf: Interface, sourcePort: uint16, x: Redirection)
    ensures multiset(Picked(redirections, intf, sourcePort))[x] ==
      if Selected(x, intf, sourcePort) then multiset(redirections)[x] else 0
  {
    if redirections != [] {
      var n := |redirections| - 1;
      PickedCounts(redirections[..n], intf, sourcePort, x);
      assert redirections == redirections[..n] + [redirections[n]];
    }
  }

  /** No redirection to remove lies beyond the end of the slice once those before it are gone. */
  ghost predicate Removable(redirections: seq<Redirection>, intf: Interface, sourcePort: uint16) {
    forall i :: 0 <= i < |redirections| && Selected(redirections[i], intf, sourcePort) ==>
      i + |Picked(redirections[..i], intf, sourcePort)| < |redirections|
  }

  /** The redirections without the selected ones. */
  ghost predicate RestOf(before: seq<Redirection>, intf: Interface, sourcePort: uint16, rest: seq<Redirection>) {
    forall x :: multiset(rest)[x] == if Selected(x, intf, sourcePort) then 0 else multiset(before)[x]
  }

  /** portRedirections.remove: swap and shrink inside the range loop. The loop runs over the
      original length and reads the shared backing array, and None is the panic of a write
      behind the end of the shrunk slice. */
  method RemoveRedirection(redirections: seq<Redirection>, intf: Interface, sourcePort: uint16)
    returns (rest: Option<seq<Redirection>>)
    ensures rest.Some? <==> Removable(redirections, intf, sourcePort)
    ensures rest.Some? ==> RestOf(redirections, intf, sourcePort, rest.value)
  {
    hide Half, Picked, Selected, RestOf;
    var backing, length := redirections, |redirections|;
    StartPicked(redirections, intf, sourcePort);
    for i := 0 to |redirections|
      invariant |backing| == |redirections|
      invariant Half(redirections, intf, sourcePort, i, length, backing)
      invariant forall k :: 0 <= k < i && Selected(redirections[k], intf, sourcePort) ==>
        k + |Picked(redirections[..k], intf, sourcePort)| < |redirections|
    {
      HalfFacts(redirections, intf, sourcePort, i, length, backing);
      var redirection := backing[i];
      if Selected(redirection, intf, sourcePort) {
        if i >= length {
          return None;
        }
        SwapStep(redirections, intf, sourcePort, i, length, backing);
        backing := backing[i := backing[length - 1]];
        length := length - 1;
      }
    }
    AllPicked(redirections, intf, sourcePort, length, backing);
    rest := Some(backing[..length]);
  }

  ghost predicate Makes(left: seq<Redirection>, picked: seq<Redirection>, whole: seq<Redirection>) {
    multiset(left) + multiset(picked) == multiset(whole)
  }

  /** After i turns: what is left of the slice and what has been removed make the whole. */
  ghost predicate Half(
      redirections: seq<Redirection>, intf: Interface, sourcePort: uint16,
      i: nat, length: int, backing: seq<Redirection>)
    requires i <= |redirections| == |backing|
  {
    var picked := Picked(redirections[..i], intf, sourcePort);
    && 0 <= length == |redirections| - |picked|
    && Makes(backing[..length], picked, redirections)
    && backing[i..] == redirections[i..]
  }

  lemma StartPicked(redirections: seq<Redirection>, intf: Interface, sourcePort: uint16)
    ensures Half(redirections, intf, sourcePort, 0, |redirections|, redirections)
  {
    assert redirections[..|redirections|] == redirections;
  }

  lemma PickedSnoc(redirections: seq<Redirection>, intf: Interface, sourcePort: uint16, i: nat)
    requires i < |redirections|
    ensures var picked := Picked(redirections[..i], intf, sourcePort);
      Picked(redirections[..i + 1], intf, sourcePort) ==
        if Selected(redirections[i], intf, sourcePort) then picked + [redirections[i]] else picked
  {
    assert redirections[..i + 1][..i] == redirections[..i];
  }

  lemma HalfFacts(
      redirections: seq<Redirection>, intf: Interface, sourcePort: uint16,
      i: nat, length: int, backing: seq<Redirection>)
    requires i < |redirections| == |backing| && Half(redirections, intf, sourcePort, i, length, backing)
    ensures 0 <= length == |redirections| - |Picked(redirections[..i], intf, sourcePort)|
    ensures backing[i] == redirections[i]
    ensures !Selected(backing[i], intf, sourcePort) ==> Half(redirections, intf, sourcePort, i + 1, length, backing)
  {
    hide Picked, Selected;
    PickedSnoc(redirections, intf, sourcePort, i);
    assert backing[i] == backing[i..][0] == redirections[i];
    assert backing[i + 1..] == backing[i..][1..] == redirections[i..][1..];
  }

  lemma SwapStep(
      redirections: seq<Redirection>, intf: Interface, sourcePort: uint16,
      i: nat, length: int, backing: seq<Redirection>)
    requires i < length <= |backing| == |redirections| && Half(redirections, intf, sourcePort, i, length, backing)
    requires Selected(backing[i], intf, sourcePort)
    ensures Half(redirections, intf, sourcePort, i + 1, length - 1, backing[i := backing[length - 1]])
  {
    hide Picked, Selected, OneLess, Makes, SwapOut;
    var cut := backing[..length];
    PickedSnoc(redirections, intf, sourcePort, i);
    CutAfter(backing, i, length, redirections);
    SwapRemove(cut, i);
    MoveOver(cut, SwapOut(cut, i), Picked(redirections[..i], intf, sourcePort), cut[i], redirections);
  }

  lemma CutAfter(backing: seq<Redirection>, i: nat, length: nat, whole: seq<Redirection>)
    requires i < length <= |backing| == |whole| && backing[i..] == whole[i..]
    ensures var swapped := backing[i := backing[length - 1]];
      swapped[..length - 1] == SwapOut(backing[..length], i) && swapped[i + 1..] == whole[i + 1..]
    ensures backing[..length][i] == backing[i] == whole[i] && backing[i] in backing[..length]
  {
    assert backing[i] == backing[i..][0] == whole[i];
    assert backing[i := backing[length - 1]][i + 1..] == backing[i..][1..] == whole[i..][1..];
  }

  lemma MoveOver(
      left: seq<Redirection>, left': seq<Redirection>, picked: seq<Redirection>, x: Redirection,
      whole: seq<Redirection>)
    requires x in left && OneLess(left, x, left') && Makes(left, picked, whole)
    ensures Makes(left', picked + [x], whole)
  {
    assert x in multiset(left);
    assert multiset(picked + [x]) == multiset(picked) + multiset{x};
  }

  lemma AllPicked(
      redirections: seq<Redirection>, intf: Interface, sourcePort: uint16,
      length: int, backing: seq<Redirection>)
    requires |backing| == |redirections| && Half(redirections, intf, sourcePort, |redirections|, length, backing)
    ensures 0 <= length <= |backing| && RestOf(redirections, intf, sourcePort, backing[..length])
  {
    assert redirections[..|redirections|] == redirections;
    forall x
      ensures multiset(backing[..length])[x] == if Selected(x, intf, sourcePort) then 0 else multiset(redirections)[x]
    {
      PickedCounts(redirections, intf, sourcePort, x);
    }
  }

  // ---------------------------------------------------------------- checking

  /** A redirection of the same source port, on the same interface or on all of them. */
  predicate Clashes(r: Redirection, dryRun: Redirection) {
    (r.interfaceName == "" || r.interfaceName == dryRun.interfaceName) && r.sourcePort == dryRun.sourcePort
  }

  function FirstClash(redirections: seq<Redirection>, dryRun: Redirection): (r: Option<Redirection>)
    ensures r.Some? ==> r.value in redirections && Clashes(r.value, dryRun)
    ensures r.None? ==> forall x :: x in redirections ==> !Clashes(x, dryRun)
  {
    if redirections == [] then None
    else if Clashes(redirections[0], dryRun) then Some(redirections[0])
    else FirstClash(redirections[1..], dryRun)
  }

  /** Another source port, or another interface and not all of them. */
  predicate Apart(r: Redirection, dryRun: Redirection) {
    r.sourcePort != dryRun.sourcePort || (r.interfaceName != "" && r.interfaceName != dryRun.interfaceName)
  }

  /** It is the first in the list that is not apart. */
  lemma {:induction false} FirstClashMeaning(redirections: seq<Redirection>, dryRun: Redirection)
    ensures var clash := FirstClash(redirections, dryRun);
      if clash.None? then forall k :: 0 <= k < |redirections| ==> Apart(redirections[k], dryRun)
      else
        exists i :: 0 <= i < |redirections| && redirections[i] == clash.value && !Apart(clash.value, dryRun) &&
          forall k :: 0 <= k < i ==> Apart(redirections[k], dryRun)
  {
    if redirections != [] {
      var rest := redirections[1..];
      FirstClashMeaning(rest, dryRun);
      if !Clashes(redirections[0], dryRun) && FirstClash(rest, dryRun).Some? {
        var i :| 0 <= i < |rest| && rest[i] == FirstClash(rest, dryRun).value
          && forall k :: 0 <= k < i ==> Apart(rest[k], dryRun);
        assert redirections[i + 1] == rest[i];
        assert forall k :: 1 <= k <= i ==> redirections[k] == rest[k - 1];
      } else if Clashes(redirections[0], dryRun) {
        assert redirections[0] == FirstClash(redirections, dryRun).value;
      }
    }
  }

  predicate Present(redirections: seq<Redirection>, dryRun: Redirection) {
    var clash := FirstClash(redirections, dryRun);
    clash.Some? && clash.value.destinationPort == dryRun.destinationPort
  }

  function Conflict(redirections: seq<Redirection>, dryRun: Redirection): Option<Redirection> {
    if Present(redirections, dryRun) then None else FirstClash(redirections, dryRun)
  }

  /** portRedirections.check. */
  method CheckRedirection(redirections: seq<Redirection>, dryRun: Redirection)
    returns (alreadyExists: bool, conflict: Option<Redirection>)
    ensures alreadyExists == Present(redirections, dryRun) && conflict == Conflict(redirections, dryRun)
  {
    for i := 0 to |redirections|
      invariant FirstClash(redirections, dryRun) == FirstClash(redirections[i..], dryRun)
    {
      var redirection := redirections[i];
      var interfaceMatch := redirection.interfaceName == "" || redirection.interfaceName == dryRun.interfaceName;
      var sameSource := redirection.sourcePort == dryRun.sourcePort;
      if sameSource && redirection.destinationPort == dryRun.destinationPort && interfaceMatch {
        return true, None;
      }
      if sameSource && interfaceMatch {
        return false, Some(redirection);
      }
    }
    return false, None;
  }

  // ---------------------------------------------------------------- keys

  /** There is at most one redirection for each interface, or for all, and source port. */
  ghost predicate Keyed(redirections: seq<Redirection>) {
    var m := multiset(redirections);
    && (forall x :: x in m ==> m[x] == 1)
    && (forall x, y :: x in m && y in m && SameKey(x, y) ==> x == y)
  }

  predicate SameKey(a: Redirection, b: Redirection) {
    a.interfaceName == b.interfaceName && a.sourcePort == b.sourcePort
  }

  lemma CountTwo<T>(xs: seq<T>, i: nat, j: nat)
    requires i < j < |xs| && xs[i] == xs[j]
    ensures multiset(xs)[xs[i]] >= 2
  {
    assert xs == xs[..i] + [xs[i]] + xs[i + 1..j] + [xs[j]] + xs[j + 1..];
  }

  /** With a named interface at most one redirection is selected, which is what makes the swap
      and shrink inside the range loop right. */
  lemma KeyedIsRemovable(redirections: seq<Redirection>, intf: Interface, sourcePort: uint16)
    requires Keyed(redirections) && intf != ""
    ensures Removable(redirections, intf, sourcePort)
  {
    forall i | 0 <= i < |redirections| && Selected(redirections[i], intf, sourcePort)
      ensures Picked(redirections[..i], intf, sourcePort) == []
    {
      forall j | 0 <= j < i
        ensures !Selected(redirections[..i][j], intf, sourcePort)
      {
        if Selected(redirections[j], intf, sourcePort) {
          assert redirections[i] in multiset(redirections) && redirections[j] in multiset(redirections);
          CountTwo(redirections, j, i);
          assert false;
        }
      }
      NonePicked(redirections[..i], intf, sourcePort);
    }
  }

  lemma {:induction false} NonePicked(redirections: seq<Redirection>, intf: Interface, sourcePort: uint16)
    requires forall j :: 0 <= j < |redirections| ==> !Selected(redirections[j], intf, sourcePort)
    ensures Picked(redirections, intf, sourcePort) == []
  {
    if redirections != [] {
      NonePicked(redirections[..|redirections| - 1], intf, sourcePort);
    }
  }

  lemma KeyedRest(before: seq<Redirection>, intf: Interface, sourcePort: uint16, rest: seq<Redirection>)
    requires Keyed(before) && RestOf(before, intf, sourcePort, rest)
    ensures Keyed(rest)
    ensures forall x :: x in rest <==> x in before && !Selected(x, intf, sourcePort)
  {
    forall x
      ensures x in rest <==> x in before && !Selected(x, intf, sourcePort)
    {
      assert x in rest <==> x in multiset(rest);
      assert x in before <==> x in multiset(before);
    }
  }

  lemma KeyedSnoc(rest: seq<Redirection>, x: Redirection)
    requires Keyed(rest) && forall y :: y in rest ==> !SameKey(y, x)
    ensures Keyed(rest + [x])
  {
    assert SameKey(x, x) && x !in rest;
    assert x !in multiset(rest);
    assert forall y :: y in multiset(rest) ==> y in rest;
  }

  // ---------------------------------------------------------------- asking for a redirection

  /** What the record becomes when a redirection is asked for; asking without recording is the
      removal by destination port zero. */
  ghost predicate Recorded(before: seq<Redirection>, asked: Redirection, recording: bool, after: seq<Redirection>) {
    if !recording then
      RestOf(before, asked.interfaceName, asked.sourcePort, after)
    else if Present(before, asked) then
      after == before
    else if Conflict(before, asked).Some? then
      && after != [] && after[|after| - 1] == asked
      && WithoutConflict(before, asked, after[..|after| - 1])
    else
      after == before + [asked]
  }

  ghost predicate WithoutConflict(before: seq<Redirection>, asked: Redirection, rest: seq<Redirection>) {
    var conflict := Conflict(before, asked);
    conflict.Some? && RestOf(before, conflict.value.interfaceName, conflict.value.sourcePort, rest)
  }

  /** The removal that comes with it panics. */
  ghost predicate Panics(before: seq<Redirection>, asked: Redirection, recording: bool) {
    if recording then
      var conflict := Conflict(before, asked);
      conflict.Some? && !Removable(before, conflict.value.interfaceName, conflict.value.sourcePort)
    else
      !Removable(before, asked.interfaceName, asked.sourcePort)
  }

  /** Removing x from the record takes others along. */
  ghost predicate TakesOthers(before: seq<Redirection>, x: Redirection) {
    exists y :: y in before && y != x && Selected(y, x.interfaceName, x.sourcePort)
  }

  /** The conflict leaves the record together with redirections whose rules stay. */
  ghost predicate Orphans(before: seq<Redirection>, asked: Redirection) {
    Conflict(before, asked).Some? && TakesOthers(before, Conflict(before, asked).value)
  }

  /** That is so exactly when the conflict is on all interfaces and a redirection of the same
      source port names one. */
  lemma OrphansExactly(before: seq<Redirection>, asked: Redirection)
    requires Keyed(before)
    ensures Orphans(before, asked) <==>
      && Conflict(before, asked).Some? && Conflict(before, asked).value.interfaceName == ""
      && exists y :: y in before && y.interfaceName != "" && y.sourcePort == asked.sourcePort
  {
    if Conflict(before, asked).Some? {
      var x := Conflict(before, asked).value;
      OnlyItsKey(before, x);
      assert forall y :: y in before && y.interfaceName == "" && y.sourcePort == x.sourcePort ==> y in multiset(before);
      if x.interfaceName == "" {
        forall y | y in before && y.interfaceName != "" && y.sourcePort == asked.sourcePort
          ensures y != x && Selected(y, x.interfaceName, x.sourcePort)
        {
        }
      }
    }
  }

  lemma OnlyItsKey(before: seq<Redirection>, x: Redirection)
    requires Keyed(before) && x in before
    ensures forall y :: y in before && SameKey(y, x) ==> y == x
    ensures x.interfaceName != "" ==> !TakesOthers(before, x)
  {
    assert forall y :: y in before <==> y in multiset(before);
  }

  /** The key asked for is free once the conflict is gone, or if there was none. */
  lemma KeyIsFree(before: seq<Redirection>, asked: Redirection, rest: seq<Redirection>)
    requires Keyed(before) && !Present(before, asked)
    requires if Conflict(before, asked).Some? then WithoutConflict(before, asked, rest) else rest == before
    ensures Keyed(rest) && forall y :: y in rest ==> !SameKey(y, asked)
    ensures Keyed(rest + [asked]) && Recorded(before, asked, true, rest + [asked])
    ensures Conflict(before, asked).Some? ==> rest != before && rest + [asked] != before
  {
    hide Keyed, FirstClash;
    if Conflict(before, asked).Some? {
      var x := Conflict(before, asked).value;
      KeyedRest(before, x.interfaceName, x.sourcePort, rest);
      assert x !in rest && x != asked;
    }
    KeyedSnoc(rest, asked);
  }

  /** Asking for destination port zero leaves a redirection of that interface and source port if and
      only if the firewall records it, being enabled, unless one on all interfaces stands in for it. */
  lemma ZeroRemovesExactly(
      before: seq<Redirection>, intf: Interface, sourcePort: uint16, enabled: bool, after: seq<Redirection>)
    requires Keyed(before)
    requires Recorded(before, Redirection(intf, sourcePort, 0), enabled, after)
    ensures var asked := Redirection(intf, sourcePort, 0);
      (exists y :: y in after && SameKey(y, asked))
      <==> enabled && (!Present(before, asked) || exists y :: y in before && SameKey(y, asked))
  {
    var asked := Redirection(intf, sourcePort, 0);
    if !enabled {
      KeyedRest(before, intf, sourcePort, after);
    } else if !Present(before, asked) {
      assert after[|after| - 1] == asked && SameKey(asked, asked);
    }
  }

  // ---------------------------------------------------------------- named interfaces only

  predicate Named(redirections: seq<Redirection>) {
    forall x :: x in redirections ==> x.interfaceName != ""
  }

  /** The redirections for other keys have stayed, and the one asked for is there or not. */
  ghost predicate Redirected(before: seq<Redirection>, asked: Redirection, present: bool, after: seq<Redirection>) {
    forall x :: x in after <==> (present && x == asked) || (x in before && !SameKey(x, asked))
  }

  lemma ClashHasKey(before: seq<Redirection>, asked: Redirection)
    requires Keyed(before) && Named(before) && FirstClash(before, asked).Some?
    ensures SameKey(FirstClash(before, asked).value, asked)
    ensures forall y :: y in before && SameKey(y, asked) ==> y == FirstClash(before, asked).value
  {
    OnlyItsKey(before, FirstClash(before, asked).value);
  }

  /** With named interfaces only, asking never panics and orphans nothing, and it replaces exactly
      the redirection of its interface and source port. */
  lemma NamedIsReplaced(before: seq<Redirection>, asked: Redirection, recording: bool)
    requires Keyed(before) && Named(before) && asked.interfaceName != ""
    ensures !Panics(before, asked, recording) && !Orphans(before, asked)
    ensures forall after :: Recorded(before, asked, recording, after) ==>
      Named(after) && Redirected(before, asked, recording, after)
    ensures forall rest :: WithoutConflict(before, asked, rest) ==>
      Named(rest) && Redirected(before, asked, false, rest)
  {
    hide Keyed, RestOf, Removable;
    KeyedIsRemovable(before, asked.interfaceName, asked.sourcePort);
    if FirstClash(before, asked).Some? {
      ClashHasKey(before, asked);
      OnlyItsKey(before, FirstClash(before, asked).value);
    }
    forall rest | RestOf(before, asked.interfaceName, asked.sourcePort, rest)
      ensures forall x :: x in rest <==> x in before && !Selected(x, asked.interfaceName, asked.sourcePort)
    {
      KeyedRest(before, asked.interfaceName, asked.sourcePort, rest);
    }
  }

  // ---------------------------------------------------------------- all interfaces: what goes wrong

  const ETH0 := Redirection("eth0", 80, 81)
  const EVERY := Redirection("", 80, 90)
  const OTHER := Redirection("x", 1, 2)
  const ASKED := Redirection("", 80, 100)

  /** Replacing a redirection on all interfaces panics when it is the last one and follows a named
      one of its source port: the slice has shrunk before the loop comes to it. Two requests lead
      there from nothing. */
  lemma UnnamedPanics()
    ensures Recorded([], ETH0, true, [ETH0]) && Recorded([ETH0], EVERY, true, [ETH0, EVERY])
    ensures Keyed([ETH0, EVERY]) && !Removable([ETH0, EVERY], "", 80) && Panics([ETH0, EVERY], ASKED, true)
  {
    var before := [ETH0, EVERY];
    SecondConflicts(before);
    assert before[..1] == [before[0]];
    assert Picked(before[..1], "", 80) == [before[0]];
    assert Selected(before[1], "", 80);
  }

  /** With an unrelated redirection asked for behind them nothing panics, and the redirection of
      eth0 leaves the record while its rule stays. */
  lemma UnnamedOrphans()
    ensures Recorded([ETH0, EVERY], OTHER, true, [ETH0, EVERY, OTHER])
    ensures var before := [ETH0, EVERY, OTHER];
      Keyed(before) && !Panics(before, ASKED, true) && Orphans(before, ASKED)
  {
    var before := [ETH0, EVERY, OTHER];
    hide Keyed, Removable, Picked;
    assert [ETH0, EVERY] + [OTHER] == before;
    assert FirstClash([ETH0, EVERY], OTHER).None?;
    SecondConflicts(before);
    KeyedThree(before);
    ThreeRemovable(before);
    assert before[0] in before && Selected(before[0], "", 80);
  }

  lemma SecondConflicts(before: seq<Redirection>)
    requires [ETH0, EVERY] <= before
    ensures ETH0.interfaceName != "" && Conflict(before, ASKED) == Some(EVERY)
  {
    assert |ETH0.interfaceName| == 4;
    assert before[0] == [ETH0, EVERY][0] && before[1] == [ETH0, EVERY][1];
    assert before[1..][0] == before[1];
    assert FirstClash(before, ASKED) == FirstClash(before[1..], ASKED);
    assert Clashes(before[1..][0], ASKED);
  }

  lemma KeyedThree(before: seq<Redirection>)
    requires |before| == 3
    requires !SameKey(before[0], before[1]) && !SameKey(before[0], before[2]) && !SameKey(before[1], before[2])
    ensures Keyed(before)
  {
    assert before == [before[0], before[1], before[2]];
  }

  lemma ThreeRemovable(before: seq<Redirection>)
    requires |before| == 3 && before[2].sourcePort != 80
    ensures Removable(before, "", 80)
  {
    assert Picked(before[..0], "", 80) == [];
    assert before[..1][..0] == before[..0];
  }
}
