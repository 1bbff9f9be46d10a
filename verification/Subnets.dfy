/** The difference of two lists of subnets, and the removal of one subnet by swap and shrink. */
module Subnets {
  import opened Common

  datatype Prefix = Prefix(addr: Addr, bits: nat)

  /** The elements of xs that are not in ys, in order and with repetitions. */
  function Without(xs: seq<Prefix>, ys: seq<Prefix>): seq<Prefix> {
    if xs == [] then []
    else if xs[|xs| - 1] in ys then Without(xs[..|xs| - 1], ys)
    else Without(xs[..|xs| - 1], ys) + [xs[|xs| - 1]]
  }

  lemma {:induction false} WithoutCounts(xs: seq<Prefix>, ys: seq<Prefix>, p: Prefix)
    ensures multiset(Without(xs, ys))[p] == if p in ys then 0 else multiset(xs)[p]
  {
    if xs != [] {
      var n := |xs| - 1;
      var front, last := xs[..n], xs[n];
      WithoutCounts(front, ys, p);
      assert xs == front + [last];
      assert multiset(xs)[p] == multiset(front)[p] + if p == last then 1 else 0;
    }
  }

  lemma WithoutFits(xs: seq<Prefix>, ys: seq<Prefix>)
    ensures multiset(Without(xs, ys)) <= multiset(xs)
  {
    forall p
      ensures multiset(Without(xs, ys))[p] <= multiset(xs)[p]
    {
      WithoutCounts(xs, ys, p);
    }
  }

  /** findSubnetsToAdd and findSubnetsToRemove are this one loop with the arguments exchanged. */
  method FindMissing(xs: seq<Prefix>, ys: seq<Prefix>) returns (missing: seq<Prefix>)
    ensures missing == Without(xs, ys)
  {
    missing := [];
    for n := 0 to |xs|
      invariant missing == Without(xs[..n], ys)
    {
      var found := false;
      var m := 0;
      while m < |ys|
        invariant m <= |ys| && !found && xs[n] !in ys[..m]
      {
        if ys[m] == xs[n] {
          found := true;
          break;
        }
        m := m + 1;
      }
      if !found {
        assert ys[..m] == ys;
        missing := missing + [xs[n]];
      }
      assert xs[..n + 1][..n] == xs[..n];
    }
    assert xs[..|xs|] == xs;
  }

  method FindSubnetsToChange(oldSubnets: seq<Prefix>, newSubnets: seq<Prefix>)
    returns (subnetsToAdd: seq<Prefix>, subnetsToRemove: seq<Prefix>)
    ensures subnetsToAdd == Without(newSubnets, oldSubnets)
    ensures subnetsToRemove == Without(oldSubnets, newSubnets)
  {
    subnetsToAdd := FindMissing(newSubnets, oldSubnets);
    subnetsToRemove := FindMissing(oldSubnets, newSubnets);
  }

  /** One occurrence of x, if there is any, has gone. */
  ghost predicate OneLess<T>(xs: seq<T>, x: T, rest: seq<T>) {
    multiset(rest) == multiset(xs) - multiset{x}
  }

  /** RemoveSubnetFromSubnets: one occurrence goes, the last element takes its place. */
  method RemoveSubnetFromSubnets(subnets: seq<Prefix>, subnet: Prefix) returns (rest: seq<Prefix>)
    ensures OneLess(subnets, subnet, rest)
  {
    hide OneLess;
    var length := |subnets|;
    var i := 0;
    while i < length && subnet != subnets[i]
      invariant i <= length && subnet !in subnets[..i]
    {
      i := i + 1;
    }
    if i == length {
      assert subnets[..i] == subnets;
      RemoveAbsent(subnets, subnet);
      return subnets;
    }
    SwapRemove(subnets, i);
    rest := subnets[i := subnets[length - 1]];
    rest := rest[..length - 1];
  }

  lemma RemoveAbsent<T>(xs: seq<T>, x: T)
    requires x !in xs
    ensures OneLess(xs, x, xs)
  {
  }

  /** The last element in place of the one at i. */
  function SwapOut<T>(xs: seq<T>, i: nat): seq<T>
    requires i < |xs|
  {
    xs[i := xs[|xs| - 1]][..|xs| - 1]
  }

  lemma SwapRemove<T>(xs: seq<T>, i: nat)
    requires i < |xs|
    ensures OneLess(xs, xs[i], SwapOut(xs, i))
  {
    var n := |xs| - 1;
    var rest := xs[i := xs[n]][..n];
    assert xs == xs[..n] + [xs[n]];
    if i < n {
      assert rest == xs[..i] + [xs[n]] + xs[i + 1..n];
      assert xs[..n] == xs[..i] + [xs[i]] + xs[i + 1..n];
    }
  }
}
