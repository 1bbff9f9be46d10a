/** Base 58 encoding of byte strings in one buffer (draft-msporny-base58, sections 3 and 4). */
module Base58 {
  import opened Common
  import opened Positional

  type uint32 = x: int | 0 <= x < 0x1_0000_0000

  const ALPHABET := "123456789" + "ABCDEFGH" + "JKLMN" + "PQRSTUVWXYZ" + "abcdefghijk" + "mnopqrstuvwxyz"
  const RADIX: uint32 := 58

  // ---------------------------------------------------------------- specification

  /** The same number in another base, leading zeros kept one for one. */
  ghost function Convert(from: nat, to: nat, ds: seq<int>): seq<int>
    requires to >= 2 && Digits(from, ds)
  {
    ValBound(from, ds);
    Zeros(LeadingZeros(ds)) + MinDigits(to, Val(from, ds))
  }

  /** The alphabet is the digits, capitals and small letters without 0, I, O and l. */
  function Letter(d: int): byte
    requires 0 <= d < 58
  {
    if d < 9 then '1' as int + d
    else if d < 17 then 'A' as int + d - 9
    else if d < 22 then 'J' as int + d - 17
    else if d < 33 then 'P' as int + d - 22
    else if d < 44 then 'a' as int + d - 33
    else 'm' as int + d - 44
  }

  ghost function Letters(ds: seq<int>): (s: seq<byte>)
    requires Digits(58, ds)
    ensures |s| == |ds|
    ensures forall k :: 0 <= k < |s| ==> s[k] == Letter(ds[k])
  {
    seq(|ds|, k requires 0 <= k < |ds| => Letter(ds[k]))
  }

  /** Section 3: the base 58 letters of the data, one '1' per leading zero byte. */
  ghost function Encode(data: seq<byte>): seq<byte> {
    ConvertIsDigits(256, 58, data);
    Letters(Convert(256, 58, data))
  }

  ghost predicate IsLetter(c: byte) {
    exists d :: 0 <= d < 58 && Letter(d) == c
  }

  ghost function DigitOf(c: byte): (d: int)
    requires IsLetter(c)
    ensures 0 <= d < 58 && Letter(d) == c
  {
    var d :| 0 <= d < 58 && Letter(d) == c; d
  }

  ghost function DigitsOf(s: seq<byte>): (ds: seq<int>)
    requires forall k :: 0 <= k < |s| ==> IsLetter(s[k])
    ensures Digits(58, ds) && |ds| == |s|
    ensures forall k :: 0 <= k < |s| ==> Letter(ds[k]) == s[k]
  {
    seq(|s|, k requires 0 <= k < |s| => DigitOf(s[k]))
  }

  /** Section 4: the bytes of a base 58 string, or nothing when it holds a foreign letter. */
  ghost function Decode(s: seq<byte>): Option<seq<byte>> {
    if forall k :: 0 <= k < |s| ==> IsLetter(s[k]) then
      var ds := DigitsOf(s);
      ConvertIsDigits(58, 256, ds);
      Some(Bytes(Convert(58, 256, ds)))
    else
      None
  }

  ghost function Bytes(ds: seq<int>): (s: seq<byte>)
    requires Digits(256, ds)
    ensures s == ds
  {
    seq(|ds|, k requires 0 <= k < |ds| => ds[k])
  }

  // ---------------------------------------------------------------- the code

  /** Multiplies the number held in the buffer by 256 and adds a byte, rewriting digits from
      the right end down to the high-water mark and on until nothing is carried. */
  method PushByte(output: array<byte>, zcount: nat, high: int, b: byte) returns (newHigh: int)
    requires zcount - 1 <= high < output.Length
    requires Digits(58, output[..])
    requires forall k :: 0 <= k <= high ==> output[k] == 0
    requires 256 * Val(58, output[..]) + b < Pow(58, output.Length - zcount)
    modifies output
    ensures zcount - 1 <= newHigh <= high
    ensures Digits(58, output[..])
    ensures forall k :: 0 <= k <= newHigh ==> output[k] == 0
    ensures Val(58, output[..]) == 256 * old(Val(58, output[..])) + b
  {
    hide Balanced, Val, Pow;
    ghost var before := output[..];
    ghost var total := 256 * Val(58, before) + b;
    var i := output.Length - 1;
    var carry: uint32 := b;
    StartBalanced(before, b);
    while i > high || carry != 0
      invariant zcount - 1 <= i < output.Length
      invariant carry <= 255
      invariant forall k :: 0 <= k <= i ==> output[k] == before[k]
      invariant Digits(58, output[..])
      invariant Balanced(before, output[..], i, carry, total)
      decreases i
    {
      if i == zcount - 1 {
        NothingCarriedOut(before, output[..], i, carry, total);
      }
      ghost var digits: seq<int> := output[..];
      MoveCarry(before, digits, i, carry, total);
      carry := carry + 256 * (output[i] as uint32);
      output[i] := carry % RADIX;
      assert output[..] == digits[i := carry % 58];
      carry := carry / RADIX;
      i := i - 1;
    }
    newHigh := i;
    NothingLeftToMultiply(before, output[..], i, total);
  }

  /** Converts the data in a new buffer of the size the source allocates. */
  method PushData(data: seq<byte>, zcount: nat) returns (output: array<byte>)
    requires zcount <= |data| && forall k :: 0 <= k < zcount ==> data[k] == 0
    ensures fresh(output) && output.Length > zcount
    ensures Digits(58, output[..])
    ensures forall k :: 0 <= k < zcount ==> output[k] == 0
    ensures Val(58, output[..]) == Val(256, data)
  {
    var ceilLog256Div58 := (|data| - zcount) * 555 / 406 + 1;
    var size := zcount + ceilLog256Div58;
    output := new byte[size](_ => 0);
    var high := size - 1;
    ValZeros(58, output[..]);
    for n := 0 to |data|
      invariant zcount - 1 <= high < size
      invariant Digits(58, output[..])
      invariant forall k :: 0 <= k <= high ==> output[k] == 0
      invariant Val(58, output[..]) == Val(256, data[..n])
    {
      assert data[..n + 1][..n] == data[..n];
      BufferIsBigEnough(data[..n + 1], zcount, |data|);
      high := PushByte(output, zcount, high, data[n]);
    }
    assert data[..|data|] == data;
  }

  /** base58Encode: the letters overwrite the digits they are read from. */
  method Base58Encode(data: seq<byte>) returns (encoded: seq<byte>)
    ensures encoded == Encode(data)
  {
    hide Encode, Letters, Letter, Val, Convert;
    var zcount := 0;
    while zcount < |data| && data[zcount] == 0
      invariant zcount <= |data|
      invariant forall k :: 0 <= k < zcount ==> data[k] == 0
    {
      zcount := zcount + 1;
    }
    var output := PushData(data, zcount);
    var size := output.Length;
    var additionalZeroGapEnd := zcount;
    while additionalZeroGapEnd < size && output[additionalZeroGapEnd] == 0
      invariant zcount <= additionalZeroGapEnd <= size
      invariant forall k :: 0 <= k < additionalZeroGapEnd ==> output[k] == 0
    {
      additionalZeroGapEnd := additionalZeroGapEnd + 1;
    }

    ghost var digits := output[..];
    var shift := additionalZeroGapEnd - zcount;
    DigitsAreConverted(data, digits, zcount, additionalZeroGapEnd);
    EncodeIsLetters(data, digits[shift..]);
    assert output[shift..] == digits[shift..];
    TranslateDigits(output, shift);
    encoded := output[..size - shift];
  }

  /** Overwrites the start of the buffer with the letters of the digits from shift on; each
      digit is read before its cell is overwritten because the letters never run ahead. */
  method TranslateDigits(output: array<byte>, shift: nat)
    requires shift <= output.Length && Digits(58, output[..])
    modifies output
    ensures output[..output.Length - shift] == Letters(old(output[shift..]))
  {
    ghost var digits := output[..];
    for i := 0 to output.Length - shift
      invariant forall k :: 0 <= k < i ==> output[k] == Letter(digits[shift + k])
      invariant forall k :: i + shift <= k < output.Length ==> output[k] == digits[k]
    {
      var digit := output[i + shift];
      AlphabetCodes(digit);
      output[i] := ALPHABET[digit] as int;
    }
  }

  // ---------------------------------------------------------------- the buffer bound

  /** 256^n < 58^m as soon as m > n * 555 / 406, because 256^30 < 58^41. */
  lemma SizeBound(n: nat)
    ensures Pow(256, n) < Pow(58, n * 555 / 406 + 1)
  {
    Thirty();
    PowCompare(256, 30, 58, 41, n, n * 555 / 406 + 1);
  }

  lemma Thirty()
    ensures Pow(256, 30) < Pow(58, 41)
  {
    assert Pow(256, 5) == 1099511627776;
    PowAdd(256, 5, 5);
    assert Pow(256, 10) == 1208925819614629174706176;
    PowAdd(256, 10, 10);
    assert Pow(256, 20) == 1461501637330902918203684832716283019655932542976;
    PowAdd(256, 20, 10);
    assert Pow(58, 5) == 656356768;
    PowAdd(58, 5, 5);
    assert Pow(58, 10) == 430804206899405824;
    PowAdd(58, 10, 10);
    assert Pow(58, 20) == 185592264682226060569122324245118976;
    PowAdd(58, 20, 20);
    assert Pow(58, 40) == 34444488709877454747081479018851205589883534409595458615323760395288576;
    PowAdd(58, 40, 1);
    assert Pow(58, 1) == 58;
  }

  lemma {:induction false} PowMonotoneExponent(b: nat, e: nat, f: nat)
    requires b >= 2 && e <= f
    ensures Pow(b, e) <= Pow(b, f)
  {
    if e < f {
      PowStrictExponent(b, e, f);
    }
  }

  /** Whatever prefix of the data has been pushed fits to the right of the leading zeros. */
  lemma BufferIsBigEnough(prefix: seq<byte>, zcount: nat, length: nat)
    requires zcount <= length && |prefix| <= length
    requires forall k :: 0 <= k < zcount && k < |prefix| ==> prefix[k] == 0
    ensures Val(256, prefix) < Pow(58, (length - zcount) * 555 / 406 + 1)
  {
    var n := length - zcount;
    if |prefix| <= zcount {
      ValZeros(256, prefix);
      PowPositive(58, n * 555 / 406 + 1);
    } else {
      ValDropZeros(256, prefix, zcount);
      ValBound(256, prefix[zcount..]);
      PowMonotoneExponent(256, |prefix| - zcount, n);
      SizeBound(n);
    }
  }

  /** What the inner loop keeps: the carry and the digits left of i, still to be multiplied by
      256, together with the finished digits right of i, make the total. */
  ghost predicate Balanced(before: seq<int>, after: seq<int>, i: int, carry: int, total: int)
    requires -1 <= i < |before| == |after|
  {
    Scale(58, carry + 256 * Val(58, before[..i + 1]), |after| - 1 - i) + Val(58, after[i + 1..]) == total
  }

  lemma StartBalanced(before: seq<int>, b: int)
    ensures Balanced(before, before, |before| - 1, b, 256 * Val(58, before) + b)
  {
    assert before[..|before|] == before;
  }

  /** At the leading-zero count nothing can be left to carry: the number would be too big. */
  lemma NothingCarriedOut(before: seq<int>, after: seq<int>, i: int, carry: nat, total: int)
    requires -1 <= i < |before| == |after|
    requires Balanced(before, after, i, carry, total)
    requires forall k :: 0 <= k <= i ==> before[k] == 0
    requires Digits(58, after)
    requires total < Pow(58, |after| - 1 - i)
    ensures carry == 0
  {
    var n := |after| - 1 - i;
    ValZeros(58, before[..i + 1]);
    ValBound(58, after[i + 1..]);
    ScaleOne(58, n);
    if carry >= 1 {
      ScaleMonotone(58, 1, carry, n);
    }
  }

  /** One step of the inner loop keeps the balance. */
  lemma MoveCarry(before: seq<int>, after: seq<int>, i: int, carry: nat, total: int)
    requires 0 <= i < |before| == |after|
    requires after[i] == before[i] >= 0
    requires Balanced(before, after, i, carry, total)
    ensures var c := carry + 256 * after[i];
      Balanced(before, after[i := c % 58], i - 1, c / 58, total)
  {
    var c := carry + 256 * after[i];
    var low := after[i + 1..];
    assert after[i := c % 58][i..] == [c % 58] + low;
    ValConcat(58, [c % 58], low);
    assert [c % 58][..0] == [];
    assert before[..i + 1][..i] == before[..i];
    var x := c / 58 + 256 * Val(58, before[..i]);
    ScaleSum(58, x * 58, c % 58, |low|);
    ScaleOnce(58, x, |low|);
  }

  lemma NothingLeftToMultiply(before: seq<int>, after: seq<int>, i: int, total: int)
    requires -1 <= i < |before| == |after|
    requires Balanced(before, after, i, 0, total)
    requires forall k :: 0 <= k <= i ==> before[k] == after[k] == 0
    ensures Val(58, after) == total
  {
    ValZeros(58, before[..i + 1]);
    ScaleZero(58, |after| - 1 - i);
    ValDropZeros(58, after, i + 1);
  }

  // ---------------------------------------------------------------- what the digits mean

  lemma ConvertIsDigits(from: nat, to: nat, ds: seq<int>)
    requires to >= 2 && Digits(from, ds)
    ensures Digits(to, Convert(from, to, ds))
  {
    ValBound(from, ds);
    MinDigitsMeaning(to, Val(from, ds));
  }

  /** Digits with the leading zeros of the data and its value are its conversion. */
  lemma DigitsAreConverted(data: seq<byte>, digits: seq<int>, zcount: nat, gapEnd: nat)
    requires zcount <= |data| && (forall k :: 0 <= k < zcount ==> data[k] == 0)
    requires zcount < |data| ==> data[zcount] != 0
    requires zcount <= gapEnd <= |digits| && (forall k :: 0 <= k < gapEnd ==> digits[k] == 0)
    requires gapEnd < |digits| ==> digits[gapEnd] != 0
    requires Digits(58, digits) && Val(58, digits) == Val(256, data)
    ensures digits[gapEnd - zcount..] == Convert(256, 58, data)
  {
    hide Pow, Val;
    LeadingZerosUnique(data, zcount);
    ValDropZeros(58, digits, gapEnd);
    MinDigitsUnique(58, digits[gapEnd..]);
    assert digits[gapEnd - zcount..] == Zeros(zcount) + digits[gapEnd..];
  }

  lemma EncodeIsLetters(data: seq<byte>, digits: seq<int>)
    requires Digits(58, digits) && digits == Convert(256, 58, data)
    ensures Letters(digits) == Encode(data)
  {
    hide Letters, Convert, Digits;
  }

  lemma LeadingZerosUnique(s: seq<int>, n: nat)
    requires n <= |s| && (forall k :: 0 <= k < n ==> s[k] == 0)
    requires n < |s| ==> s[n] != 0
    ensures LeadingZeros(s) == n
  {
  }

  lemma ConvertFacts(a: nat, b: nat, ds: seq<int>)
    requires b >= 2 && Digits(a, ds)
    ensures Digits(b, Convert(a, b, ds))
    ensures LeadingZeros(Convert(a, b, ds)) == LeadingZeros(ds)
    ensures Val(b, Convert(a, b, ds)) == Val(a, ds)
  {
    ConvertIsDigits(a, b, ds);
    ValBound(a, ds);
    MinDigitsMeaning(b, Val(a, ds));
    var z, converted := LeadingZeros(ds), Convert(a, b, ds);
    assert converted[z..] == MinDigits(b, Val(a, ds));
    LeadingZerosUnique(converted, z);
    ValDropZeros(b, converted, z);
  }

  /** Converting there and back gives the digits back, leading zeros included. */
  lemma ConvertInverse(a: nat, b: nat, ds: seq<int>)
    requires a >= 2 && b >= 2 && Digits(a, ds)
    ensures Digits(b, Convert(a, b, ds))
    ensures Convert(b, a, Convert(a, b, ds)) == ds
  {
    hide Val, Pow, MinDigits;
    ConvertFacts(a, b, ds);
    var z := LeadingZeros(ds);
    ValDropZeros(a, ds, z);
    MinDigitsUnique(a, ds[z..]);
    assert ds == Zeros(z) + ds[z..];
  }

  predicate Consecutive(s: string, first: int, i: nat)
    decreases |s| - i
  {
    i >= |s| || (s[i] as int == first + i && Consecutive(s, first, i + 1))
  }

  lemma {:induction false} ConsecutiveAt(s: string, first: int, i: nat, k: nat)
    requires Consecutive(s, first, i) && i <= k < |s|
    ensures s[k] as int == first + k
    decreases |s| - i
  {
    if i < k {
      ConsecutiveAt(s, first, i + 1, k);
    }
  }

  /** The alphabet of the code is six runs of consecutive ASCII codes. */
  lemma AlphabetCodes(d: int)
    requires 0 <= d < 58
    ensures |ALPHABET| == 58
    ensures ALPHABET[d] as int == Letter(d)
  {
    if d < 9 {
      assert Consecutive("123456789", '1' as int, 0);
      ConsecutiveAt("123456789", '1' as int, 0, d - 0);
    } else if d < 17 {
      assert Consecutive("ABCDEFGH", 'A' as int, 0);
      ConsecutiveAt("ABCDEFGH", 'A' as int, 0, d - 9);
    } else if d < 22 {
      assert Consecutive("JKLMN", 'J' as int, 0);
      ConsecutiveAt("JKLMN", 'J' as int, 0, d - 17);
    } else if d < 33 {
      assert Consecutive("PQRSTUVWXYZ", 'P' as int, 0);
      ConsecutiveAt("PQRSTUVWXYZ", 'P' as int, 0, d - 22);
    } else if d < 44 {
      assert Consecutive("abcdefghijk", 'a' as int, 0);
      ConsecutiveAt("abcdefghijk", 'a' as int, 0, d - 33);
    } else {
      assert Consecutive("mnopqrstuvwxyz", 'm' as int, 0);
      ConsecutiveAt("mnopqrstuvwxyz", 'm' as int, 0, d - 44);
    }
  }

  lemma LetterInjective(d: int, e: int)
    requires 0 <= d < 58 && 0 <= e < 58 && Letter(d) == Letter(e)
    ensures d == e
  {
  }

  lemma DecodeLetters(ds: seq<int>)
    requires Digits(58, ds)
    ensures Digits(256, Convert(58, 256, ds))
    ensures Decode(Letters(ds)) == Some(Bytes(Convert(58, 256, ds)))
  {
    ConvertIsDigits(58, 256, ds);
    var s := Letters(ds);
    forall k | 0 <= k < |s|
      ensures IsLetter(s[k]) && DigitOf(s[k]) == ds[k]
    {
      assert IsLetter(Letter(ds[k]));
      LetterInjective(DigitOf(s[k]), ds[k]);
    }
    assert DigitsOf(s) == ds;
  }

  // ---------------------------------------------------------------- main results

  /** What base58Encode returns: one '1' per leading zero byte, then the letters of the shortest
      base 58 number equal to the data read in base 256. */
  lemma EncodeMeaning(data: seq<byte>) returns (zeros: nat, digits: seq<int>)
    ensures zeros <= |data| && (forall k :: 0 <= k < zeros ==> data[k] == 0)
    ensures zeros < |data| ==> data[zeros] != 0
    ensures Digits(58, digits) && (digits != [] ==> digits[0] != 0)
    ensures Val(58, digits) == Val(256, data)
    ensures |Encode(data)| == zeros + |digits|
    ensures forall k :: 0 <= k < zeros ==> Encode(data)[k] == '1' as int
    ensures forall k :: 0 <= k < |digits| ==> Encode(data)[zeros + k] == Letter(digits[k])
  {
    hide Encode, Letters, Letter, Val, Pow, MinDigits;
    ValBound(256, data);
    zeros := LeadingZeros(data);
    digits := MinDigits(58, Val(256, data));
    MinDigitsMeaning(58, Val(256, data));
    EncodeAt(data, Convert(256, 58, data));
    FirstLetter();
    var converted := Convert(256, 58, data);
    assert converted == Zeros(zeros) + digits;
    assert forall k :: 0 <= k < |digits| ==> converted[zeros + k] == digits[k];
  }

  lemma EncodeAt(data: seq<byte>, converted: seq<int>)
    requires converted == Convert(256, 58, data)
    ensures Digits(58, converted) && |Encode(data)| == |converted|
    ensures forall k :: 0 <= k < |converted| ==> Encode(data)[k] == Letter(converted[k])
  {
    hide Convert, Letter;
    ConvertIsDigits(256, 58, data);
  }

  lemma FirstLetter()
    ensures Letter(0) == '1' as int
  {
  }

  lemma RoundTrip(data: seq<byte>)
    ensures Decode(Encode(data)) == Some(data)
  {
    ConvertInverse(256, 58, data);
    DecodeLetters(Convert(256, 58, data));
  }

  /** Every string over the alphabet is the encoding of exactly the bytes it decodes to. */
  lemma RoundTripBack(s: seq<byte>)
    ensures Decode(s).None? <==> exists k :: 0 <= k < |s| && !IsLetter(s[k])
    ensures Decode(s).Some? ==> Encode(Decode(s).value) == s
  {
    if forall k :: 0 <= k < |s| ==> IsLetter(s[k]) {
      var ds := DigitsOf(s);
      ConvertInverse(58, 256, ds);
      assert Letters(ds) == s;
    }
  }

  lemma Injective(data: seq<byte>, other: seq<byte>)
    requires Encode(data) == Encode(other)
    ensures data == other
  {
    RoundTrip(data);
    RoundTrip(other);
  }
}
