/** Natural numbers written most significant digit first, and powers. */
module Positional {

  ghost function Pow(b: nat, e: nat): nat {
    if e == 0 then 1 else b * Pow(b, e - 1)
  }

  ghost predicate Digits(base: nat, ds: seq<int>) {
    forall k :: 0 <= k < |ds| ==> 0 <= ds[k] < base
  }

  /** The number a digit sequence denotes. */
  ghost function Val(base: nat, ds: seq<int>): int {
    if ds == [] then 0 else Val(base, ds[..|ds| - 1]) * base + ds[|ds| - 1]
  }

  /** v followed by k zero digits: v * base^k, by repeated multiplication. */
  ghost function Scale(base: nat, v: int, k: nat): int {
    if k == 0 then v else Scale(base, v, k - 1) * base
  }

  /** The digits of n without leading zeros; zero has no digits. */
  ghost function MinDigits(base: nat, n: nat): seq<int>
    requires base >= 2
  {
    if n == 0 then [] else MinDigits(base, n / base) + [n % base]
  }

  ghost function Zeros(n: nat): (s: seq<int>)
    ensures |s| == n && forall k :: 0 <= k < n ==> s[k] == 0
  {
    seq(n, _ => 0)
  }

  /** How many zeros a sequence starts with. */
  ghost function LeadingZeros(s: seq<int>): (n: nat)
    ensures n <= |s|
    ensures forall k :: 0 <= k < n ==> s[k] == 0
    ensures n < |s| ==> s[n] != 0
  {
    if s == [] || s[0] != 0 then 0 else 1 + LeadingZeros(s[1..])
  }

  lemma {:induction false} PowPositive(b: nat, e: nat)
    requires b > 0
    ensures Pow(b, e) > 0
  {
    if e > 0 {
      PowPositive(b, e - 1);
    }
  }

  lemma {:induction false} PowAdd(b: nat, e: nat, f: nat)
    ensures Pow(b, e + f) == Pow(b, e) * Pow(b, f)
  {
    if e > 0 {
      PowAdd(b, e - 1, f);
      assert b * (Pow(b, e - 1) * Pow(b, f)) == (b * Pow(b, e - 1)) * Pow(b, f);
    }
  }

  lemma {:induction false} PowOfPow(b: nat, e: nat, f: nat)
    ensures Pow(Pow(b, e), f) == Pow(b, e * f)
  {
    if f == 0 {
      assert e * f == 0;
    } else {
      PowOfPow(b, e, f - 1);
      PowAdd(b, e, e * (f - 1));
      assert e + e * (f - 1) == e * f;
    }
  }

  lemma {:induction false} PowMonotoneBase(a: nat, b: nat, e: nat)
    requires a <= b
    ensures Pow(a, e) <= Pow(b, e)
  {
    if e > 0 {
      PowMonotoneBase(a, b, e - 1);
      Product(a, b, Pow(a, e - 1), Pow(b, e - 1));
    }
  }

  lemma Product(a: nat, b: nat, x: nat, y: nat)
    requires a <= b && x <= y
    ensures a * x <= b * y
  {
    assert a * x <= a * y;
    assert a * y <= b * y;
  }

  lemma {:induction false} PowStrictExponent(b: nat, e: nat, f: nat)
    requires b >= 2 && e < f
    ensures Pow(b, e) < Pow(b, f)
  {
    PowPositive(b, f - 1);
    if e + 1 < f {
      PowStrictExponent(b, e, f - 1);
    }
  }

  lemma {:induction false} ScaleSum(base: nat, v: int, w: int, k: nat)
    ensures Scale(base, v + w, k) == Scale(base, v, k) + Scale(base, w, k)
  {
    if k > 0 {
      ScaleSum(base, v, w, k - 1);
      Distribute(Scale(base, v, k - 1), Scale(base, w, k - 1), base);
    }
  }

  lemma Distribute(x: int, y: int, b: int)
    ensures (x + y) * b == x * b + y * b
  {
  }

  lemma {:induction false} ScaleOnce(base: nat, v: int, k: nat)
    ensures Scale(base, v * base, k) == Scale(base, v, k + 1)
  {
    if k > 0 {
      ScaleOnce(base, v, k - 1);
    }
  }

  lemma {:induction false} ScaleMonotone(base: nat, v: nat, w: nat, k: nat)
    requires v <= w
    ensures 0 <= Scale(base, v, k) <= Scale(base, w, k)
  {
    if k > 0 {
      ScaleMonotone(base, v, w, k - 1);
      Product(Scale(base, v, k - 1), Scale(base, w, k - 1), base, base);
      Product(0, Scale(base, v, k - 1), base, base);
    }
  }

  lemma {:induction false} ScaleZero(base: nat, k: nat)
    ensures Scale(base, 0, k) == 0
  {
    if k > 0 {
      ScaleZero(base, k - 1);
    }
  }

  lemma {:induction false} ScaleOne(base: nat, k: nat)
    ensures Scale(base, 1, k) == Pow(base, k)
  {
    if k > 0 {
      ScaleOne(base, k - 1);
    }
  }

  lemma PowSwap(b: nat, e: nat, f: nat)
    ensures Pow(Pow(b, e), f) == Pow(Pow(b, f), e)
  {
    hide *;
    PowOfPow(b, e, f);
    PowOfPow(b, f, e);
    assert e * f == f * e;
  }

  lemma PowGap(b: nat, q: nat, n: nat, p: nat, m: nat)
    requires b >= 2 && q * n < p * m
    ensures Pow(Pow(b, q), n) < Pow(Pow(b, p), m)
  {
    hide *;
    PowOfPow(b, q, n);
    PowOfPow(b, p, m);
    PowStrictExponent(b, q * n, p * m);
  }

  /** If a^p < b^q and n/m < p/q then a^n < b^m. */
  lemma PowCompare(a: nat, p: nat, b: nat, q: nat, n: nat, m: nat)
    requires b >= 2 && Pow(a, p) < Pow(b, q) && q * n < p * m
    ensures Pow(a, n) < Pow(b, m)
  {
    hide *;
    PowMonotoneBase(Pow(a, p), Pow(b, q), n);
    PowSwap(a, p, n);
    PowGap(b, q, n, p, m);
    PowSwap(b, p, m);
    if Pow(b, m) <= Pow(a, n) {
      PowMonotoneBase(Pow(b, m), Pow(a, n), p);
      assert false;
    }
  }

  /** Splitting a number between its high and its low digits. */
  lemma {:induction false} ValConcat(base: nat, hi: seq<int>, lo: seq<int>)
    ensures Val(base, hi + lo) == Scale(base, Val(base, hi), |lo|) + Val(base, lo)
  {
    if lo == [] {
      assert hi + lo == hi;
    } else {
      var n := |lo| - 1;
      assert (hi + lo)[..|hi + lo| - 1] == hi + lo[..n];
      ValConcat(base, hi, lo[..n]);
      Distribute(Scale(base, Val(base, hi), n), Val(base, lo[..n]), base);
    }
  }

  lemma HornerBound(v: int, p: int, b: int, d: int)
    requires 0 <= v < p && 0 <= d < b
    ensures 0 <= v * b + d < b * p
  {
    Product(v + 1, p, b, b);
    assert (v + 1) * b == v * b + b;
    Product(0, v, b, b);
  }

  lemma {:induction false} ValBound(base: nat, ds: seq<int>)
    requires Digits(base, ds)
    ensures 0 <= Val(base, ds) < Pow(base, |ds|)
  {
    if ds != [] {
      var n := |ds| - 1;
      ValBound(base, ds[..n]);
      HornerBound(Val(base, ds[..n]), Pow(base, n), base, ds[n]);
    }
  }

  lemma {:induction false} ValZeros(base: nat, s: seq<int>)
    requires forall k :: 0 <= k < |s| ==> s[k] == 0
    ensures Val(base, s) == 0
  {
    if s != [] {
      ValZeros(base, s[..|s| - 1]);
    }
  }

  /** Leading zeros do not change the number. */
  lemma ValDropZeros(base: nat, s: seq<int>, n: nat)
    requires n <= |s| && forall k :: 0 <= k < n ==> s[k] == 0
    ensures Val(base, s) == Val(base, s[n..])
  {
    assert s == s[..n] + s[n..];
    ValConcat(base, s[..n], s[n..]);
    ValZeros(base, s[..n]);
    ScaleZero(base, |s| - n);
  }

  lemma {:induction false} MinDigitsMeaning(base: nat, n: nat)
    requires base >= 2
    ensures Digits(base, MinDigits(base, n))
    ensures MinDigits(base, n) != [] ==> MinDigits(base, n)[0] != 0
    ensures Val(base, MinDigits(base, n)) == n
  {
    if n > 0 {
      var q, r := n / base, n % base;
      DivisionFacts(n, base);
      MinDigitsMeaning(base, q);
      var hi := MinDigits(base, q);
      assert (hi + [r])[..|hi|] == hi;
    }
  }

  lemma DivisionFacts(n: nat, b: nat)
    requires b > 0
    ensures n == (n / b) * b + n % b
    ensures b >= 2 && n > 0 ==> n / b < n
  {
  }

  /** The digits without leading zeros are determined by the number they denote. */
  lemma {:induction false} MinDigitsUnique(base: nat, ds: seq<int>)
    requires base >= 2 && Digits(base, ds)
    requires ds != [] ==> ds[0] != 0
    ensures Val(base, ds) >= 0 && MinDigits(base, Val(base, ds)) == ds
  {
    ValBound(base, ds);
    if ds != [] {
      var hi, d := ds[..|ds| - 1], ds[|ds| - 1];
      MinDigitsUnique(base, hi);
      QuotientRemainder(Val(base, hi), base, d);
      assert ds == hi + [d];
    }
  }

  lemma NonZeroMultiple(b: nat, m: int)
    ensures m >= 1 ==> b * m >= b
    ensures m <= -1 ==> b * m + b <= 0
  {
    if m >= 1 {
      assert b * m == b * (m - 1) + b;
    } else if m <= -1 {
      assert b * m == b * (m + 1) - b;
    }
  }

  lemma QuotientRemainder(q: nat, b: nat, r: nat)
    requires r < b
    ensures (q * b + r) / b == q && (q * b + r) % b == r
  {
    var n := q * b + r;
    var m := n / b;
    assert n == b * m + n % b;
    assert b * (m - q) == b * m - b * q;
    NonZeroMultiple(b, m - q);
  }
}
