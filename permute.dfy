/** `permute`: every rearrangement of a string, each listed once. The
    generator does not use it; it is the full-permutation check that the
    transposition checker replaced. */
module Permutations {
  import opened Transposition

  predicate NoDuplicates(xs: seq<string>) {
    forall a, b :: 0 <= a < b < |xs| ==> xs[a] != xs[b]
  }

  /** `t` keeps the first `i` characters of `str` and rearranges the rest. */
  predicate Arrangement(t: string, str: string, i: nat)
    requires i <= |str|
  {
    |t| == |str| && t[..i] == str[..i] && multiset(t[i..]) == multiset(str[i..])
  }

  /** A swap at i and j >= i leaves the part before i alone and acts on the
      part from i as a swap at 0 and j - i. */
  lemma SwapSplits(str: string, i: nat, j: nat)
    requires i <= j < |str|
    ensures SwapChars(str, i, j)[..i] == str[..i]
    ensures multiset(SwapChars(str, i, j)[i..]) == multiset(str[i..])
  {
    var s := SwapChars(str, i, j);
    assert s[i..] == SwapChars(str[i..], 0, j - i);
    SwapCharsPermutes(str[i..], 0, j - i);
  }

  lemma MultisetFrom(t: string, i: nat)
    requires i < |t|
    ensures multiset(t[i..]) == multiset{t[i]} + multiset(t[i + 1..])
  {
    assert t[i..] == [t[i]] + t[i + 1..];
  }

  /** An arrangement of `str` past i that starts, at i, with the character
      str[j] is an arrangement past i + 1 of `str` with i and j swapped. */
  lemma ArrangementAfterSwap(t: string, str: string, i: nat, j: nat)
    requires i <= j < |str| && Arrangement(t, str, i) && t[i] == str[j]
    ensures Arrangement(t, SwapChars(str, i, j), i + 1)
  {
    var s := SwapChars(str, i, j);
    SwapSplits(str, i, j);
    assert t[..i + 1] == t[..i] + [t[i]];
    assert s[..i + 1] == s[..i] + [s[i]];
    MultisetFrom(t, i);
    MultisetFrom(s, i);
    MultisetCancel(t[i], multiset(t[i + 1..]), multiset(s[i + 1..]));
  }

  lemma MultisetCancel(x: char, a: multiset<char>, b: multiset<char>)
    requires multiset{x} + a == multiset{x} + b
    ensures a == b
  {
    assert a == (multiset{x} + a) - multiset{x};
    assert b == (multiset{x} + b) - multiset{x};
  }

  /** Conversely an arrangement past i + 1 of the swapped string is an
      arrangement past i of `str`. */
  lemma ArrangementBeforeSwap(t: string, str: string, i: nat, j: nat)
    requires i <= j < |str| && Arrangement(t, SwapChars(str, i, j), i + 1)
    ensures Arrangement(t, str, i)
  {
    var s := SwapChars(str, i, j);
    SwapSplits(str, i, j);
    assert t[..i] == t[..i + 1][..i];
    assert s[..i] == s[..i + 1][..i];
    assert t[i] == t[..i + 1][i];
    assert s[i] == s[..i + 1][i];
    MultisetFrom(t, i);
    MultisetFrom(s, i);
  }

  /** Past the last position an arrangement is the string itself. */
  lemma ArrangementAtEnd(t: string, str: string)
    requires Arrangement(t, str, |str|)
    ensures t == str
  {
    assert t == t[..|str|] && str == str[..|str|];
  }

  /** The character at i of an arrangement past i is one of str[i..]. */
  lemma ArrangementLead(t: string, str: string, i: nat)
    requires i < |str| && Arrangement(t, str, i)
    ensures t[i] in str[i..]
  {
    assert t[i] in multiset(t[i..]);
  }

  /** What the recursive call for j adds are arrangements of `str` past i. */
  lemma CallAddsArrangements(before: seq<string>, acc: seq<string>, str: string, i: nat, j: nat)
    requires i <= j < |str|
    requires forall k :: |before| <= k < |acc| ==> Arrangement(acc[k], SwapChars(str, i, j), i + 1)
    ensures forall k :: |before| <= k < |acc| ==> Arrangement(acc[k], str, i)
  {
    forall k | |before| <= k < |acc| ensures Arrangement(acc[k], str, i) {
      ArrangementBeforeSwap(acc[k], str, i, j);
    }
  }

  /** After the call for j, every arrangement past i that starts with one of
      str[i..j + 1] is listed. */
  lemma CallCovers(before: seq<string>, acc: seq<string>, str: string, i: nat, j: nat)
    requires i <= j < |str| && |before| <= |acc| && acc[..|before|] == before
    requires forall t :: Arrangement(t, str, i) && t[i] in str[i..j] ==> t in before
    requires forall t :: Arrangement(t, SwapChars(str, i, j), i + 1) ==> t in acc
    ensures forall t :: Arrangement(t, str, i) && t[i] in str[i..j + 1] ==> t in acc
  {
    forall t | Arrangement(t, str, i) && t[i] in str[i..j + 1] ensures t in acc {
      if t[i] == str[j] {
        ArrangementAfterSwap(t, str, i, j);
      } else {
        assert str[i..j + 1] == str[i..j] + [str[j]];
        assert t in before;
      }
    }
  }

  /** The accumulator only grows at its end. */
  lemma ExtendsTransitive(a: seq<string>, b: seq<string>, c: seq<string>)
    requires |a| <= |b| && b[..|a|] == a && |b| <= |c| && c[..|b|] == b
    ensures c[..|a|] == a
  {
    assert c[..|a|] == c[..|b|][..|a|];
  }

  /** Keeping an earlier property of the old entries when the list grows. */
  lemma OldEntriesKept(accumulator: seq<string>, before: seq<string>, acc: seq<string>, str: string, i: nat)
    requires i <= |str| && |before| <= |acc| && acc[..|before|] == before
    requires forall k :: |accumulator| <= k < |before| ==> Arrangement(before[k], str, i)
    requires forall k :: |before| <= k < |acc| ==> Arrangement(acc[k], str, i)
    ensures forall k :: |accumulator| <= k < |acc| ==> Arrangement(acc[k], str, i)
  {
    forall k | |accumulator| <= k < |acc| ensures Arrangement(acc[k], str, i) {
      if k < |before| {
        assert acc[k] == acc[..|before|][k];
      }
    }
  }

  /** The loop invariants of PermuteString carry over the call for j. */
  lemma CallKeeps(accumulator: seq<string>, before: seq<string>, acc: seq<string>, str: string, i: nat, j: nat)
    requires i <= j < |str|
    requires |accumulator| <= |before| && before[..|accumulator|] == accumulator
    requires forall k :: |accumulator| <= k < |before| ==> Arrangement(before[k], str, i)
    requires forall t :: Arrangement(t, str, i) && t[i] in str[i..j] ==> t in before
    requires |before| <= |acc| && acc[..|before|] == before
    requires forall k :: |before| <= k < |acc| ==> Arrangement(acc[k], SwapChars(str, i, j), i + 1)
    requires forall t :: Arrangement(t, SwapChars(str, i, j), i + 1) ==> t in acc
    ensures |accumulator| <= |acc| && acc[..|accumulator|] == accumulator
    ensures forall k :: |accumulator| <= k < |acc| ==> Arrangement(acc[k], str, i)
    ensures forall t :: Arrangement(t, str, i) && t[i] in str[i..j + 1] ==> t in acc
  {
    CallAddsArrangements(before, acc, str, i, j);
    OldEntriesKept(accumulator, before, acc, str, i);
    CallCovers(before, acc, str, i, j);
    ExtendsTransitive(accumulator, before, acc);
  }

  /** `permuteString($str, $i, $n, $accumulator)`: fix positions before i;
      for each j from i, swap i with j, recurse on i + 1, and swap back.
      At i == n the string is added to the accumulator unless already there.
      The result extends the accumulator, adds only arrangements of `str`
      past i, keeps it free of duplicates, and contains every such
      arrangement. */
  method PermuteString(str: string, i: nat, n: nat, accumulator: seq<string>) returns (acc: seq<string>)
    requires i <= n && n == |str|
    ensures |accumulator| <= |acc| && acc[..|accumulator|] == accumulator
    ensures NoDuplicates(accumulator) ==> NoDuplicates(acc)
    ensures forall k :: |accumulator| <= k < |acc| ==> Arrangement(acc[k], str, i)
    ensures forall t :: Arrangement(t, str, i) ==> t in acc
    decreases n - i
  {
    acc := accumulator;
    if i == n {
      if str !in acc {
        acc := acc + [str];
      }
      forall t | Arrangement(t, str, i) ensures t in acc {
        ArrangementAtEnd(t, str);
      }
    } else {
      var s := str;
      for j := i to n
        invariant s == str
        invariant |accumulator| <= |acc| && acc[..|accumulator|] == accumulator
        invariant NoDuplicates(accumulator) ==> NoDuplicates(acc)
        invariant forall k :: |accumulator| <= k < |acc| ==> Arrangement(acc[k], str, i)
        invariant forall t :: Arrangement(t, str, i) && t[i] in str[i..j] ==> t in acc
      {
        ghost var before := acc;
        s := SwapChars(s, i, j);
        acc := PermuteString(s, i + 1, n, acc);
        CallKeeps(accumulator, before, acc, str, i, j);
        SwapCharsInvolutive(str, i, j);
        s := SwapChars(s, i, j);
      }
      forall t | Arrangement(t, str, i) ensures t in acc {
        ArrangementLead(t, str, i);
      }
    }
  }

  /** `permute($string)`: each arrangement of the string exactly once. */
  method Permute(str: string) returns (strings: seq<string>)
    ensures NoDuplicates(strings)
    ensures forall t :: t in strings <==> |t| == |str| && multiset(t) == multiset(str)
  {
    strings := PermuteString(str, 0, |str|, []);
    forall t ensures t in strings <==> |t| == |str| && multiset(t) == multiset(str) {
      assert t[0..] == t && str[0..] == str;
      if t in strings {
        var k :| 0 <= k < |strings| && strings[k] == t;
        assert Arrangement(strings[k], str, 0);
      }
    }
  }
}
