/** The PHP string functions the generator relies on, for non-negative
    arguments: `substr`, `implode`, `explode`, `str_split` (PHP 8.2 and
    later, where splitting the empty string gives no chunks). */
module Text {

  /** `substr($s, $offset, $length)`: an offset past the end gives "", a
      length past the end stops at the end. */
  function Substr(s: string, offset: nat, length: nat): (r: string)
    ensures |r| <= length
    ensures offset + length <= |s| ==> r == s[offset..offset + length]
    ensures length > 0 ==> (|r| == length <==> offset + length <= |s|)
  {
    if offset >= |s| then ""
    else s[offset..if offset + length <= |s| then offset + length else |s|]
  }

  /** `implode('-', $parts)`, with the separator as a parameter. */
  function Join(parts: seq<string>, sep: char): string
    decreases |parts|
  {
    if |parts| == 0 then ""
    else if |parts| == 1 then parts[0]
    else parts[0] + [sep] + Join(parts[1..], sep)
  }

  /** `explode($sep, $s)`: the pieces between separators; never empty. */
  function Explode(s: string, sep: char): (parts: seq<string>)
    ensures |parts| >= 1
  {
    if s == [] then [""]
    else
      var rest := Explode(s[1..], sep);
      if s[0] == sep then [""] + rest
      else [[s[0]] + rest[0]] + rest[1..]
  }

  /** The concatenation of all parts, `implode('', $parts)`. */
  function Concat(parts: seq<string>): string
  {
    if |parts| == 0 then "" else parts[0] + Concat(parts[1..])
  }

  /** `str_split($s, $length)` for a positive length: chunks of `length`
      characters, the last one possibly shorter. */
  function StrSplit(s: string, length: nat): (chunks: seq<string>)
    requires length >= 1
    ensures forall k :: 0 <= k < |chunks| ==> 0 < |chunks[k]| <= length
    decreases |s|
  {
    if s == [] then []
    else if |s| <= length then [s]
    else [s[..length]] + StrSplit(s[length..], length)
  }

  /** The chunks put together give the string back. */
  lemma {:induction false} ConcatStrSplit(s: string, length: nat)
    requires length >= 1
    ensures Concat(StrSplit(s, length)) == s
    decreases |s|
  {
    if s != [] && |s| <= length {
      assert Concat([s]) == s + Concat([]);
    } else if |s| > length {
      var rest := StrSplit(s[length..], length);
      ConcatStrSplit(s[length..], length);
      assert Concat([s[..length]] + rest) == s[..length] + Concat(rest);
      assert s == s[..length] + s[length..];
    }
  }

  lemma {:induction false} ExplodeWithout(s: string, sep: char)
    requires sep !in s
    ensures Explode(s, sep) == [s]
  {
    if s != [] {
      ExplodeWithout(s[1..], sep);
      assert [s[0]] + s[1..] == s;
    }
  }

  /** A separator between two strings separates their pieces. */
  lemma {:induction false} ExplodeAround(a: string, b: string, sep: char)
    ensures Explode(a + [sep] + b, sep) == Explode(a, sep) + Explode(b, sep)
  {
    if a == [] {
      assert a + [sep] + b == [sep] + b;
      assert ([sep] + b)[1..] == b;
    } else {
      assert (a + [sep] + b)[1..] == a[1..] + [sep] + b;
      ExplodeAround(a[1..], b, sep);
    }
  }

  /** Exploding what was imploded gives back the parts, when there is at
      least one part and no part holds the separator. */
  lemma {:induction false} ExplodeJoin(parts: seq<string>, sep: char)
    requires |parts| >= 1
    requires forall k :: 0 <= k < |parts| ==> sep !in parts[k]
    ensures Explode(Join(parts, sep), sep) == parts
  {
    if |parts| == 1 {
      ExplodeWithout(parts[0], sep);
    } else {
      ExplodeJoin(parts[1..], sep);
      ExplodeWithout(parts[0], sep);
      ExplodeAround(parts[0], Join(parts[1..], sep), sep);
      assert [parts[0]] + parts[1..] == parts;
    }
  }

  lemma AtLeastOnce(count: nat, length: nat)
    requires count >= 1
    ensures count * length >= length
  {
  }

  lemma OneMore(count: nat, length: nat)
    requires count >= 1
    ensures count * length == length + (count - 1) * length
  {
  }

  /** A full first chunk splits off the front. */
  lemma StrSplitFront(head: string, rest: string, length: nat)
    requires length >= 1 && |head| == length
    ensures StrSplit(head + rest, length) == if rest == [] then [head] else [head] + StrSplit(rest, length)
  {
    var whole := head + rest;
    assert whole[..length] == head && whole[length..] == rest;
    if rest == [] {
      assert whole == head;
    }
  }

  /** Splitting the concatenation of full-length chunks gives the chunks. */
  lemma {:induction false} StrSplitConcat(parts: seq<string>, length: nat)
    requires length >= 1
    requires forall k :: 0 <= k < |parts| ==> |parts[k]| == length
    ensures StrSplit(Concat(parts), length) == parts
    ensures |Concat(parts)| == |parts| * length
  {
    if |parts| > 0 {
      var rest := Concat(parts[1..]);
      StrSplitConcat(parts[1..], length);
      assert Concat(parts) == parts[0] + rest;
      StrSplitFront(parts[0], rest, length);
      OneMore(|parts|, length);
      if |parts| > 1 {
        AtLeastOnce(|parts| - 1, length);
      }
      assert [parts[0]] + parts[1..] == parts;
    }
  }

  /** Changing one character of a string changes one character of one of
      its chunks, at chunk k and offset j, and no other chunk. */
  lemma {:induction false} StrSplitUpdate(s: string, length: nat, i: nat, c: char) returns (k: nat, j: nat)
    requires length >= 1 && i < |s|
    ensures var before, after := StrSplit(s, length), StrSplit(s[i := c], length);
      |after| == |before| && k < |before| && j < |before[k]| && before[k][j] == s[i]
      && after[k] == before[k][j := c]
      && forall m :: 0 <= m < |before| && m != k ==> after[m] == before[m]
    decreases |s|
  {
    if |s| <= length {
      k, j := 0, i;
    } else if i < length {
      StrSplitUpdateHead(s, length, i, c);
      k, j := 0, i;
    } else {
      var k', j' := StrSplitUpdate(s[length..], length, i - length, c);
      StrSplitUpdateTail(s, length, i, c, k', j');
      k, j := k' + 1, j';
    }
  }

  /** A change in the first chunk stays in the first chunk. */
  lemma StrSplitUpdateHead(s: string, length: nat, i: nat, c: char)
    requires length >= 1 && i < length < |s|
    ensures var before, after := StrSplit(s, length), StrSplit(s[i := c], length);
      |after| == |before| && after[0] == before[0][i := c] && before[0][i] == s[i]
      && forall m :: 0 < m < |before| ==> after[m] == before[m]
  {
    var t := s[i := c];
    assert t[length..] == s[length..];
    assert t[..length] == s[..length][i := c];
  }

  /** A change past the first chunk is a change in the split of the rest. */
  lemma StrSplitUpdateTail(s: string, length: nat, i: nat, c: char, k: nat, j: nat)
    requires length >= 1 && length <= i < |s|
    requires var before, after := StrSplit(s[length..], length), StrSplit(s[length..][i - length := c], length);
      |after| == |before| && k < |before| && j < |before[k]| && before[k][j] == s[length..][i - length]
      && after[k] == before[k][j := c]
      && forall m :: 0 <= m < |before| && m != k ==> after[m] == before[m]
    ensures var before, after := StrSplit(s, length), StrSplit(s[i := c], length);
      |after| == |before| && k + 1 < |before| && j < |before[k + 1]| && before[k + 1][j] == s[i]
      && after[k + 1] == before[k + 1][j := c]
      && forall m :: 0 <= m < |before| && m != k + 1 ==> after[m] == before[m]
  {
    var t := s[i := c];
    assert t[length..] == s[length..][i - length := c];
    assert t[..length] == s[..length];
    var before, after := StrSplit(s, length), StrSplit(t, length);
    var restBefore, restAfter := StrSplit(s[length..], length), StrSplit(t[length..], length);
    assert before == [s[..length]] + restBefore;
    assert after == [t[..length]] + restAfter;
    forall m | 0 <= m < |before| && m != k + 1 ensures after[m] == before[m] {
      if m > 0 {
        assert after[m] == restAfter[m - 1] && before[m] == restBefore[m - 1];
      }
    }
  }
}
