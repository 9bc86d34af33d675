/** The 32-symbol alphabet of coupon codes and its reverse index.
    Digits 0-9 and the capital letters without I, O, S and Z, which readers
    confuse with 1, 0, 5 and 2. A symbol's position is its numeric value. */
module Alphabet {

  /** The symbols, in the order that gives each its value. */
  const Characters: string := "0123456789ABCDEFGHJKLMNPQRTUVWXY"

  /** Number of symbols; `count($this->characters)` in the generator. */
  const Size: nat := 32

  /** `array_flip`: each element of `s` becomes a key whose value is its
      position; a later occurrence overwrites an earlier one. */
  function Flip(s: string): (m: map<char, nat>)
    ensures m.Keys == set c | c in s
    ensures forall c :: c in m ==> m[c] < |s| && s[m[c]] == c
  {
    if s == [] then map[] else Flip(s[..|s| - 1])[s[|s| - 1] := |s| - 1]
  }

  /** The reverse index built once by the constructor. */
  const IndexedChars: map<char, nat> := Flip(Characters)

  /** The symbols are exactly the digits and the capital letters other than
      I, O, S and Z (SymbolRange). */
  predicate IsSymbol(c: char) {
    ('0' <= c <= '9') || ('A' <= c <= 'Z' && c != 'I' && c != 'O' && c != 'S' && c != 'Z')
  }

  /** Every character of `s` is an alphabet symbol. */
  predicate AllSymbols(s: string) {
    forall k :: 0 <= k < |s| ==> IsSymbol(s[k])
  }

  lemma SymbolRange(c: char)
    ensures IsSymbol(c) <==> c in Characters
  {
    assert forall k :: 0 <= k < |Characters| ==> IsSymbol(Characters[k]);
  }

  /** Every entry of the alphabet is a symbol. */
  lemma SymbolAt(i: nat)
    requires i < Size
    ensures IsSymbol(Characters[i])
  {
  }

  /** `$this->indexedChars[$c]`, the value of a character: its position in
      the alphabet, counted across the gaps at I, O and S; 0 for a
      character outside the alphabet, whose missing entry PHP reads as
      null. IndexOfIsLookup shows this is the lookup in IndexedChars. */
  function IndexOf(c: char): (k: nat)
    ensures k < Size
  {
    if '0' <= c <= '9' then c as int - '0' as int
    else if 'A' <= c <= 'H' then c as int - 'A' as int + 10
    else if 'J' <= c <= 'N' then c as int - 'J' as int + 18
    else if 'P' <= c <= 'R' then c as int - 'P' as int + 23
    else if 'T' <= c <= 'Y' then c as int - 'T' as int + 26
    else 0
  }

  /** The value of the symbol at position i is i. */
  lemma IndexOfSymbolAt(i: nat)
    requires i < Size
    ensures IndexOf(Characters[i]) == i
  {
  }

  lemma IndexOfAll()
    ensures forall i :: 0 <= i < Size ==> IndexOf(Characters[i]) == i
  {
    forall i | 0 <= i < Size ensures IndexOf(Characters[i]) == i {
      IndexOfSymbolAt(i);
    }
  }

  /** The value of a symbol is its position in the alphabet. */
  lemma IndexOfSymbol(c: char)
    requires IsSymbol(c)
    ensures Characters[IndexOf(c)] == c
  {
  }

  /** Two symbols with the same value are the same symbol. */
  lemma IndexOfInjective(c: char, d: char)
    requires IsSymbol(c) && IsSymbol(d) && IndexOf(c) == IndexOf(d)
    ensures c == d
  {
    IndexOfSymbol(c);
    IndexOfSymbol(d);
  }

  /** The alphabet is in strictly increasing character order, hence it has
      no repeated symbol. */
  lemma CharactersIncreasing(i: nat, j: nat)
    requires i < j < Size
    ensures Characters[i] < Characters[j]
  {
  }

  predicate Distinct(s: string) {
    forall i, j :: 0 <= i < j < |s| ==> s[i] != s[j]
  }

  lemma CharactersDistinct()
    ensures |Characters| == Size && Distinct(Characters)
  {
    forall i, j | 0 <= i < j < |Characters| ensures Characters[i] != Characters[j] {
      CharactersIncreasing(i, j);
    }
  }

  /** Over a sequence without repetitions `Flip` inverts indexing. */
  lemma {:induction false} FlipInverts(s: string, i: nat)
    requires Distinct(s) && i < |s|
    ensures s[i] in Flip(s) && Flip(s)[s[i]] == i
  {
    if i < |s| - 1 {
      var p := s[..|s| - 1];
      assert p[i] == s[i];
      FlipInverts(p, i);
    }
  }

  /** IndexOf is the lookup in the flipped alphabet: a symbol's entry is
      its position, and every other character has no entry. */
  lemma IndexOfIsLookup(c: char)
    ensures c in IndexedChars <==> IsSymbol(c)
    ensures IndexOf(c) == if c in IndexedChars then IndexedChars[c] else 0
  {
    SymbolRange(c);
    if IsSymbol(c) {
      var i :| 0 <= i < |Characters| && Characters[i] == c;
      CharactersDistinct();
      FlipInverts(Characters, i);
      IndexOfSymbolAt(i);
    }
  }
}
