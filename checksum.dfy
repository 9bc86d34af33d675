/** Check digit algorithm 1: the checksum symbol closing every segment. */
module Checksum {
  import opened Alphabet

  /** The accumulator after folding `acc * 19 + value(c)` over `data` from
      left to right, starting at the 1-based segment position `pos`. */
  function Accumulate(data: string, pos: nat): nat
  {
    if data == [] then pos
    else Accumulate(data[..|data| - 1], pos) * 19 + IndexOf(data[|data| - 1])
  }

  /** The check symbol of `data` in segment `pos`: the symbol whose value is
      the accumulator modulo the alphabet size. */
  function CheckDigitOf(data: string, pos: nat): (d: char)
    ensures IndexOf(d) == Accumulate(data, pos) % Size
  {
    IndexOfSymbolAt(Accumulate(data, pos) % Size);
    Characters[Accumulate(data, pos) % Size]
  }

  /** A check digit is an alphabet symbol. */
  lemma CheckDigitIsSymbol(data: string, pos: nat)
    ensures IsSymbol(CheckDigitOf(data, pos))
  {
    SymbolAt(Accumulate(data, pos) % Size);
  }

  /** `checkdigitAlgorithm1`: the accumulator is updated in a loop over the
      characters of the data. */
  method CheckDigit(segmentData: string, segmentIndex: nat) returns (d: char)
    ensures d == CheckDigitOf(segmentData, segmentIndex)
  {
    var result := segmentIndex;
    for k := 0 to |segmentData|
      invariant result == Accumulate(segmentData[..k], segmentIndex)
    {
      assert segmentData[..k + 1][..k] == segmentData[..k];
      result := result * 19 + IndexOf(segmentData[k]);
    }
    assert segmentData[..|segmentData|] == segmentData;
    d := Characters[result % |Characters|];
  }

  /** A segment passes its checksum when its last symbol is the check digit
      of the symbols before it. The empty string never passes: PHP takes
      "" as its last character, and a check digit is never empty. */
  predicate SegmentChecks(segment: string, pos: nat) {
    |segment| > 0 && segment[|segment| - 1] == CheckDigitOf(segment[..|segment| - 1], pos)
  }

  // Facts about the step `acc * 19 + k` modulo 32. 19 is odd, so it has an
  // inverse modulo 32 (19 * 27 = 513 = 16 * 32 + 1) and the step is a
  // bijection on residues.

  /** Adding multiples of 32 keeps the residue. */
  lemma ShiftResidue(q: int, x: int)
    ensures (32 * q + x) % 32 == x % 32
  {
  }

  /** Numbers with the same residue differ by a multiple of 32. */
  lemma ResidueDifference(x: int, y: int)
    requires x % 32 == y % 32
    ensures x - y == 32 * (x / 32 - y / 32)
  {
  }

  lemma StepCongruent(a: int, b: int, k: int)
    requires a % 32 == b % 32
    ensures (a * 19 + k) % 32 == (b * 19 + k) % 32
  {
    ResidueDifference(a, b);
    var m := a / 32 - b / 32;
    assert a * 19 + k == 32 * (19 * m) + (b * 19 + k);
    ShiftResidue(19 * m, b * 19 + k);
  }

  lemma StepCancels(a: int, b: int, k: int)
    requires (a * 19 + k) % 32 == (b * 19 + k) % 32
    ensures a % 32 == b % 32
  {
    ResidueDifference(a * 19 + k, b * 19 + k);
    var m := (a * 19 + k) / 32 - (b * 19 + k) / 32;
    var d := a - b;
    assert 19 * d == 32 * m;
    assert d == 32 * (27 * m - 16 * d);
    ShiftResidue(27 * m - 16 * d, b);
  }

  /** Two accumulators that start from positions with the same residue stay
      congruent, and vice versa. */
  lemma {:induction false} AccumulateResidue(data: string, p: nat, q: nat)
    ensures Accumulate(data, p) % 32 == Accumulate(data, q) % 32 <==> p % 32 == q % 32
  {
    if data != [] {
      var init, k := data[..|data| - 1], IndexOf(data[|data| - 1]);
      AccumulateResidue(init, p, q);
      if Accumulate(init, p) % 32 == Accumulate(init, q) % 32 {
        StepCongruent(Accumulate(init, p), Accumulate(init, q), k);
      } else if Accumulate(data, p) % 32 == Accumulate(data, q) % 32 {
        StepCancels(Accumulate(init, p), Accumulate(init, q), k);
      }
    }
  }

  /** The positional seed: the same data in two segments gets the same
      check digit exactly when the positions agree modulo 32. So identical
      data in any two of the first 32 segments gets different check digits. */
  lemma PositionSensitive(data: string, p: nat, q: nat)
    ensures CheckDigitOf(data, p) == CheckDigitOf(data, q) <==> p % 32 == q % 32
  {
    AccumulateResidue(data, p, q);
  }

  /** Extending two data strings by the same symbols keeps two different
      accumulator residues different. */
  lemma {:induction false} SameSuffixKeepsApart(x: string, y: string, n: nat, p: nat)
    requires |x| == |y| && n <= |x|
    requires forall k :: n <= k < |x| ==> x[k] == y[k]
    requires Accumulate(x[..n], p) % 32 != Accumulate(y[..n], p) % 32
    ensures Accumulate(x, p) % 32 != Accumulate(y, p) % 32
  {
    if n < |x| {
      var m := |x| - 1;
      var x', y' := x[..m], y[..m];
      assert x'[..n] == x[..n] && y'[..n] == y[..n];
      assert forall k :: n <= k < |x'| ==> x'[k] == y'[k];
      SameSuffixKeepsApart(x', y', n, p);
      assert Accumulate(x, p) == Accumulate(x', p) * 19 + IndexOf(x[m]);
      assert Accumulate(y, p) == Accumulate(y', p) * 19 + IndexOf(x[m]);
      if Accumulate(x, p) % 32 == Accumulate(y, p) % 32 {
        StepCancels(Accumulate(x', p), Accumulate(y', p), IndexOf(x[m]));
      }
    } else {
      assert x[..n] == x && y[..n] == y;
    }
  }

  lemma DifferentValuesApart(base: int, u: nat, v: nat)
    requires u < 32 && v < 32 && u != v
    ensures (base + u) % 32 != (base + v) % 32
  {
  }

  /** Two strings that differ only in a last symbol of different value
      have accumulators in different residues. */
  lemma LastStepApart(x: string, y: string, pos: nat)
    requires |x| == |y| > 0 && x[..|x| - 1] == y[..|y| - 1]
    requires IndexOf(x[|x| - 1]) != IndexOf(y[|y| - 1])
    ensures Accumulate(x, pos) % 32 != Accumulate(y, pos) % 32
  {
    var a := Accumulate(x[..|x| - 1], pos);
    assert Accumulate(x, pos) == a * 19 + IndexOf(x[|x| - 1]);
    assert Accumulate(y, pos) == a * 19 + IndexOf(y[|y| - 1]);
    DifferentValuesApart(a * 19, IndexOf(x[|x| - 1]), IndexOf(y[|y| - 1]));
  }

  /** Check digits follow the accumulator residue. */
  lemma CheckDigitsApart(x: string, y: string, pos: nat)
    requires Accumulate(x, pos) % 32 != Accumulate(y, pos) % 32
    ensures CheckDigitOf(x, pos) != CheckDigitOf(y, pos)
  {
  }

  /** Single-substitution detection: replacing one data symbol by a
      different symbol always changes the check digit. */
  lemma SubstitutionChangesCheckDigit(data: string, i: nat, c: char, pos: nat)
    requires i < |data| && IsSymbol(data[i]) && IsSymbol(c) && c != data[i]
    ensures CheckDigitOf(data[i := c], pos) != CheckDigitOf(data, pos)
  {
    var other := data[i := c];
    var x, y := data[..i + 1], other[..i + 1];
    assert x[..i] == y[..i];
    assert x[i] == data[i] && y[i] == c;
    if IndexOf(c) == IndexOf(data[i]) {
      IndexOfInjective(c, data[i]);
    }
    LastStepApart(x, y, pos);
    SameSuffixKeepsApart(data, other, i + 1, pos);
    CheckDigitsApart(data, other, pos);
  }

  /** Consequently a segment that passes its checksum fails it after any
      one of its symbols is replaced by a different symbol. */
  lemma SubstitutionDetected(segment: string, i: nat, c: char, pos: nat)
    requires SegmentChecks(segment, pos) && i < |segment|
    requires IsSymbol(segment[i]) && IsSymbol(c) && c != segment[i]
    ensures !SegmentChecks(segment[i := c], pos)
  {
    var n := |segment| - 1;
    if i < n {
      assert segment[i := c][..n] == segment[..n][i := c];
      SubstitutionChangesCheckDigit(segment[..n], i, c, pos);
    } else {
      assert segment[i := c][..n] == segment[..n];
    }
  }
}
