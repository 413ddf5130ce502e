/** How many decorations `createBackgroundEffects` makes and what the text of a
    binary-rain string is (script.js). */
module Density {

  /** Smallest count of data nodes and the width, in pixels, that earns one
      more node, for a low-power and a full-capability page. */
  function NodeFloor(lowPower: bool): nat { if lowPower then 6 else 12 }
  function NodeDivisor(lowPower: bool): nat { if lowPower then 160 else 80 }

  /** The same two constants for binary-rain strings. */
  function BinaryFloor(lowPower: bool): nat { if lowPower then 4 else 8 }
  function BinaryDivisor(lowPower: bool): nat { if lowPower then 280 else 140 }

  /** Digits in one binary-rain string. */
  const DigitsPerString: nat := 12

  function Max(a: int, b: int): int { if a < b then b else a }

  /** `Math.max(floor, Math.floor(innerWidth / divisor))`: the floor, or the
      number of whole divisors in the width when that is larger. */
  function ScaledCount(floor: nat, divisor: nat, width: nat): (n: nat)
    requires divisor > 0
    ensures n >= floor
    ensures width < (n + 1) * divisor
    ensures n == floor || n * divisor <= width
  {
    Max(floor, width / divisor)
  }

  /** `nodeCount` for a viewport `width` pixels wide. */
  function NodeCount(lowPower: bool, width: nat): (n: nat)
    ensures n >= NodeFloor(lowPower)
    ensures width < (n + 1) * NodeDivisor(lowPower)
    ensures n == NodeFloor(lowPower) || n * NodeDivisor(lowPower) <= width
  {
    ScaledCount(NodeFloor(lowPower), NodeDivisor(lowPower), width)
  }

  /** `binaryCount` for a viewport `width` pixels wide. */
  function BinaryCount(lowPower: bool, width: nat): (n: nat)
    ensures n >= BinaryFloor(lowPower)
    ensures width < (n + 1) * BinaryDivisor(lowPower)
    ensures n == BinaryFloor(lowPower) || n * BinaryDivisor(lowPower) <= width
  {
    ScaledCount(BinaryFloor(lowPower), BinaryDivisor(lowPower), width)
  }

  /** A wider viewport never yields fewer decorations of either kind. */
  lemma CountsMonotone(lowPower: bool, w1: nat, w2: nat)
    requires w1 <= w2
    ensures NodeCount(lowPower, w1) <= NodeCount(lowPower, w2)
    ensures BinaryCount(lowPower, w1) <= BinaryCount(lowPower, w2)
  {
    DivMonotone(w1, w2, NodeDivisor(lowPower));
    DivMonotone(w1, w2, BinaryDivisor(lowPower));
  }

  lemma DivMonotone(a: nat, b: nat, d: nat)
    requires a <= b && d > 0
    ensures a / d <= b / d
  {
    var qa, qb := a / d, b / d;
    assert qa * d <= a;
    assert b < (qb + 1) * d;
    MulCancel(qa, qb + 1, d);
  }

  lemma MulCancel(x: int, y: int, d: nat)
    requires d > 0 && x * d < y * d
    ensures x < y
  {
    assert (y - x) * d > 0;
  }

  /** A low-power page never gets more decorations than a full one of the
      same width. */
  lemma LowPowerNeverDenser(width: nat)
    ensures NodeCount(true, width) <= NodeCount(false, width)
    ensures BinaryCount(true, width) <= BinaryCount(false, width)
  {
    assert width / 160 == (width / 80) / 2;
    assert width / 280 == (width / 140) / 2;
  }

  /** A 1600-pixel full page and an 800-pixel low-power page. */
  lemma CountExamples()
    ensures NodeCount(false, 1600) == 20 && BinaryCount(false, 1600) == 11
    ensures NodeCount(true, 800) == 6 && BinaryCount(true, 800) == 4
  {
  }

  /** `Math.round(Math.random())` as an injected bit, written as a digit. */
  function Digit(b: bool): char { if b then '1' else '0' }

  /** The loop `s += Math.round(Math.random()) + ' '` over the given bits: each
      digit followed by one space. */
  function BinaryText(bits: seq<bool>): (s: string)
    ensures |s| == 2 * |bits|
    ensures forall i :: 0 <= i < |s| ==> s[i] == (if i % 2 == 0 then Digit(bits[i / 2]) else ' ')
  {
    if |bits| == 0 then "" else [Digit(bits[0]), ' '] + BinaryText(bits[1..])
  }

  /** Reads the digits back out of a binary-rain text. */
  function ReadBits(s: string): seq<bool> {
    if |s| < 2 then [] else [s[0] == '1'] + ReadBits(s[2..])
  }

  /** The text of a binary-rain string: twelve `'0'`/`'1'` digits, each
      followed by a space. */
  predicate RainText(s: string) {
    && |s| == 2 * DigitsPerString
    && forall i :: 0 <= i < |s| ==> if i % 2 == 0 then s[i] == '0' || s[i] == '1' else s[i] == ' '
  }

  /** The digits of a binary-rain text are exactly the bits drawn for it. */
  lemma {:induction false} ReadBinaryText(bits: seq<bool>)
    ensures ReadBits(BinaryText(bits)) == bits
  {
    if |bits| > 0 {
      var s := BinaryText(bits);
      assert s[2..] == BinaryText(bits[1..]);
      ReadBinaryText(bits[1..]);
    }
  }

  /** `binaryCount` strings, the k-th built from the k-th run of twelve bits. */
  function RainTexts(bits: seq<bool>, count: nat): (texts: seq<string>)
    requires |bits| == DigitsPerString * count
    ensures |texts| == count
    ensures forall k :: 0 <= k < count ==> RainText(texts[k])
    ensures forall k :: 0 <= k < count ==>
              ReadBits(texts[k]) == bits[DigitsPerString * k .. DigitsPerString * (k + 1)]
  {
    if count == 0 then []
    else
      var first := bits[..DigitsPerString];
      ReadBinaryText(first);
      var rest := RainTexts(bits[DigitsPerString..], count - 1);
      assert forall k :: 1 <= k < count ==>
               bits[DigitsPerString..][DigitsPerString * (k - 1) .. DigitsPerString * k]
               == bits[DigitsPerString * k .. DigitsPerString * (k + 1)];
      [BinaryText(first)] + rest
  }
}
