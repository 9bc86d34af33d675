/** The transposition checker: a segment is ambiguous when exchanging two
    neighbouring characters yields another segment that passes the checksum,
    because that typing mistake would go unnoticed. */
module Transposition {
  import opened Checksum

  /** `swapChars(&$str, $i, $j)`: the string with positions i and j exchanged.
      PHP changes the caller's string variable; here the new string is the
      result. */
  function SwapChars(str: string, i: nat, j: nat): (r: string)
    requires i < |str| && j < |str|
    ensures |r| == |str| && r[i] == str[j] && r[j] == str[i]
    ensures forall k :: 0 <= k < |str| && k != i && k != j ==> r[k] == str[k]
  {
    str[i := str[j]][j := str[i]]
  }

  /** Swapping the same two positions again gives the original back. */
  lemma SwapCharsInvolutive(str: string, i: nat, j: nat)
    requires i < |str| && j < |str|
    ensures SwapChars(SwapChars(str, i, j), i, j) == str
  {
  }

  /** A swap rearranges the string: same characters, same counts. */
  lemma SwapCharsPermutes(str: string, i: nat, j: nat)
    requires i < |str| && j < |str|
    ensures multiset(SwapChars(str, i, j)) == multiset(str)
  {
    if i != j {
      var t := str[i := str[j]];
      assert multiset(t) == multiset(str) - multiset{str[i]} + multiset{str[j]};
      assert multiset(t[j := str[i]]) == multiset(t) - multiset{t[j]} + multiset{str[i]};
    }
  }

  /** Number of neighbouring pairs: the loop `$i < strlen($string) - 1`
      runs no times for the empty string. */
  function PairCount(s: string): nat {
    if |s| == 0 then 0 else |s| - 1
  }

  /** `swappableVariations`: one variant per neighbouring pair, built by
      swapping a copy of the string. */
  method SwappableVariations(str: string) returns (swappable: seq<string>)
    ensures |swappable| == PairCount(str)
    ensures forall i :: 0 <= i < |swappable| ==> swappable[i] == SwapChars(str, i, i + 1)
  {
    swappable := [];
    var i := 0;
    while i < |str| - 1
      invariant 0 <= i <= PairCount(str)
      invariant |swappable| == i
      invariant forall k :: 0 <= k < i ==> swappable[k] == SwapChars(str, k, k + 1)
    {
      var temp := str;
      temp := SwapChars(temp, i, i + 1);
      swappable := swappable + [temp];
      i := i + 1;
    }
  }

  /** Some neighbouring swap of `segment` gives a different string that
      passes the checksum for position `pos`. */
  predicate ValidWhenSwapped(segment: string, pos: nat) {
    exists i :: 0 <= i < |segment| - 1 && AmbiguousAt(segment, i, pos)
  }

  /** The swap at i, i + 1 changes the segment and passes the checksum. */
  predicate AmbiguousAt(segment: string, i: nat, pos: nat)
    requires i + 1 < |segment|
  {
    var v := SwapChars(segment, i, i + 1);
    v != segment && SegmentChecks(v, pos)
  }

  /** `isSegmentValidWhenSwapped`: try each variant, skip one equal to the
      segment, and answer true at the first whose last character is the
      check digit of the rest. */
  method IsSegmentValidWhenSwapped(segment: string, segmentIndex: nat) returns (valid: bool)
    ensures valid <==> ValidWhenSwapped(segment, segmentIndex)
  {
    var strings := SwappableVariations(segment);
    for n := 0 to |strings|
      invariant forall i :: 0 <= i < n ==> !AmbiguousAt(segment, i, segmentIndex)
    {
      var str := strings[n];
      if str == segment {
        continue;
      }
      var expectedCheckdigit := str[|str| - 1];
      var segmentData := str[..|str| - 1];
      var checkdigit := CheckDigit(segmentData, segmentIndex);
      if expectedCheckdigit == checkdigit {
        assert AmbiguousAt(segment, n, segmentIndex);
        return true;
      }
    }
    return false;
  }

  /** Swapping two equal neighbours changes nothing, so such a pair never
      makes a segment ambiguous. */
  lemma EqualNeighboursHarmless(segment: string, i: nat, pos: nat)
    requires i + 1 < |segment| && segment[i] == segment[i + 1]
    ensures !AmbiguousAt(segment, i, pos)
  {
    assert SwapChars(segment, i, i + 1) == segment;
  }

  /** The guarantee the generator relies on: when a checksum-valid segment
      is not ValidWhenSwapped, every neighbouring transposition that alters
      it fails the checksum, so the typing mistake is caught. */
  lemma TranspositionDetected(segment: string, i: nat, pos: nat)
    requires SegmentChecks(segment, pos) && !ValidWhenSwapped(segment, pos)
    requires i + 1 < |segment| && segment[i] != segment[i + 1]
    ensures !SegmentChecks(SwapChars(segment, i, i + 1), pos)
  {
    var v := SwapChars(segment, i, i + 1);
    assert v[i] != segment[i];
    assert !AmbiguousAt(segment, i, pos);
  }
}
