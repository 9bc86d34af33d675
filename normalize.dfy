/** `normalizeCode`: the clean-up applied to user-entered codes before they
    are checked. Case mapping is ASCII only, as `strtoupper` and
    `strtolower` are since PHP 8.2. */
module Normalization {
  import opened Alphabet

  function UpperChar(c: char): char {
    if 'a' <= c <= 'z' then (c as int - 32) as char else c
  }

  function LowerChar(c: char): char {
    if 'A' <= c <= 'Z' then (c as int + 32) as char else c
  }

  /** `strtoupper` */
  function ToUpper(s: string): string {
    seq(|s|, k requires 0 <= k < |s| => UpperChar(s[k]))
  }

  /** `strtolower` */
  function ToLower(s: string): string {
    seq(|s|, k requires 0 <= k < |s| => LowerChar(s[k]))
  }

  /** No character of `s` is a lower-case ASCII letter. */
  predicate NoLowerCase(s: string) {
    forall k :: 0 <= k < |s| ==> !('a' <= s[k] <= 'z')
  }

  /** Without lower-case letters upper-casing changes nothing, and it
      undoes lower-casing. */
  lemma CaseRoundTrip(s: string)
    requires NoLowerCase(s)
    ensures ToUpper(s) == s && ToUpper(ToLower(s)) == s
  {
  }

  /** The confusable-character table I to 1, O to 0, S to 5, Z to 2. */
  function Unconfuse(c: char): char {
    match c
    case 'I' => '1'
    case 'O' => '0'
    case 'S' => '5'
    case 'Z' => '2'
    case _ => c
  }

  /** `str_replace(['I', 'O', 'S', 'Z'], ['1', '0', '5', '2'], s)`. The four
      replacements run one after another over the whole string, but each
      writes a digit that no later one looks for, so together they act
      character by character. */
  function ReplaceConfusables(s: string): string {
    seq(|s|, k requires 0 <= k < |s| => Unconfuse(s[k]))
  }

  /** The class `[0-9A-Z]` of the clean-up regular expression. */
  predicate IsCodeChar(c: char) {
    ('0' <= c <= '9') || ('A' <= c <= 'Z')
  }

  /** `preg_replace('/[^0-9A-Z]+/', '', s)`: removing every run of other
      characters is removing every other character. */
  function Clean(s: string): (r: string)
    ensures |r| <= |s|
    ensures forall k :: 0 <= k < |r| ==> IsCodeChar(r[k]) && r[k] in s
  {
    if s == [] then []
    else if IsCodeChar(s[0]) then [s[0]] + Clean(s[1..])
    else Clean(s[1..])
  }

  /** `normalizeCode($codeString, ['clean' => clean, 'case' => caseFold])`:
      upper-case when asked, always replace the confusable letters, then
      strip non-code characters when asked. */
  function NormalizeCode(codeString: string, clean: bool, caseFold: bool): string {
    var upper := if caseFold then ToUpper(codeString) else codeString;
    var replaced := ReplaceConfusables(upper);
    if clean then Clean(replaced) else replaced
  }

  /** What the normalizer makes of one character before cleaning. */
  function NormChar(c: char): char {
    Unconfuse(UpperChar(c))
  }

  /** The form every validation uses: cleaned and case-folded. */
  function Canonical(s: string): string {
    NormalizeCode(s, true, true)
  }

  lemma {:induction false} CleanAppend(a: string, b: string)
    ensures Clean(a + b) == Clean(a) + Clean(b)
  {
    if a != [] {
      assert (a + b)[1..] == a[1..] + b;
      CleanAppend(a[1..], b);
    } else {
      assert a + b == b;
    }
  }

  /** Canonical form is computed character by character. */
  lemma CanonicalAppend(a: string, b: string)
    ensures Canonical(a + b) == Canonical(a) + Canonical(b)
  {
    assert ReplaceConfusables(ToUpper(a + b)) == ReplaceConfusables(ToUpper(a)) + ReplaceConfusables(ToUpper(b));
    CleanAppend(ReplaceConfusables(ToUpper(a)), ReplaceConfusables(ToUpper(b)));
  }

  lemma CanonicalSingle(c: char)
    ensures Canonical([c]) == if IsCodeChar(NormChar(c)) then [NormChar(c)] else []
  {
    assert ReplaceConfusables(ToUpper([c])) == [NormChar(c)];
    assert [NormChar(c)][1..] == [];
  }

  /** With both options set the output holds alphabet symbols only: no
      I, O, S or Z, no lower-case letter, no dash. */
  lemma CanonicalIsSymbols(s: string)
    ensures AllSymbols(Canonical(s))
  {
    var replaced := ReplaceConfusables(ToUpper(s));
    var r := Clean(replaced);
    forall k | 0 <= k < |r| ensures IsSymbol(r[k]) {
      assert r[k] in replaced;
      SymbolRange(r[k]);
    }
  }

  /** Normalizing never makes a string longer, whatever the options. */
  lemma NormalizeNotLonger(s: string, clean: bool, caseFold: bool)
    ensures |NormalizeCode(s, clean, caseFold)| <= |s|
  {
  }

  lemma {:induction false} CleanKeepsCodeChars(s: string)
    requires forall k :: 0 <= k < |s| ==> IsCodeChar(s[k])
    ensures Clean(s) == s
  {
    if s != [] {
      CleanKeepsCodeChars(s[1..]);
    }
  }

  /** The strings canonical form leaves alone are exactly the strings of
      alphabet symbols. */
  lemma CanonicalFixesSymbols(s: string)
    ensures Canonical(s) == s <==> AllSymbols(s)
  {
    if AllSymbols(s) {
      forall k | 0 <= k < |s| ensures NormChar(s[k]) == s[k] && IsCodeChar(s[k]) {
        SymbolRange(s[k]);
      }
      assert ReplaceConfusables(ToUpper(s)) == s;
      CleanKeepsCodeChars(s);
    } else {
      CanonicalIsSymbols(s);
    }
  }

  /** Normalizing twice gives what normalizing once gives. */
  lemma CanonicalIdempotent(s: string)
    ensures Canonical(Canonical(s)) == Canonical(s)
  {
    CanonicalIsSymbols(s);
    CanonicalFixesSymbols(Canonical(s));
  }

  /** Canonical form depends on each character only through NormChar: any
      character may be replaced by one the normalizer treats alike. */
  lemma CanonicalReplace(s: string, i: nat, c: char)
    requires i < |s| && NormChar(c) == NormChar(s[i])
    ensures Canonical(s[i := c]) == Canonical(s)
  {
    var t := s[i := c];
    assert s == s[..i] + [s[i]] + s[i + 1..];
    assert t == s[..i] + [c] + s[i + 1..];
    CanonicalAppend(s[..i] + [s[i]], s[i + 1..]);
    CanonicalAppend(s[..i], [s[i]]);
    CanonicalAppend(s[..i] + [c], s[i + 1..]);
    CanonicalAppend(s[..i], [c]);
    CanonicalSingle(s[i]);
    CanonicalSingle(c);
  }

  /** Letter case does not matter: each letter may be written in either case. */
  lemma CanonicalIgnoresCase(s: string, i: nat)
    requires i < |s|
    ensures Canonical(s[i := LowerChar(s[i])]) == Canonical(s)
    ensures Canonical(s[i := UpperChar(s[i])]) == Canonical(s)
  {
    CanonicalReplace(s, i, LowerChar(s[i]));
    CanonicalReplace(s, i, UpperChar(s[i]));
  }

  /** Lower-casing or upper-casing a whole string leaves its canonical form. */
  lemma CanonicalOfLower(s: string)
    ensures Canonical(ToLower(s)) == Canonical(s)
    ensures Canonical(ToUpper(s)) == Canonical(s)
  {
    assert ReplaceConfusables(ToUpper(ToLower(s))) == ReplaceConfusables(ToUpper(s));
    assert ReplaceConfusables(ToUpper(ToUpper(s))) == ReplaceConfusables(ToUpper(s));
  }

  /** The confusable letters, in either case, stand for their digits. */
  lemma CanonicalConfusable(s: string, i: nat)
    requires i < |s| && s[i] in "IOSZiosz"
    ensures Canonical(s[i := Unconfuse(UpperChar(s[i]))]) == Canonical(s)
  {
    CanonicalReplace(s, i, Unconfuse(UpperChar(s[i])));
  }

  /** A dash, a space or any other character outside `[0-9A-Za-z]` may be
      inserted anywhere without changing the canonical form. */
  lemma CanonicalIgnoresSeparator(a: string, b: string, c: char)
    requires !IsCodeChar(NormChar(c))
    ensures Canonical(a + [c] + b) == Canonical(a + b)
  {
    CanonicalSingle(c);
    CanonicalAppend(a, [c]);
    CanonicalAppend(a + [c], b);
    CanonicalAppend(a, b);
    calc {
      Canonical(a + [c] + b);
      Canonical(a + [c]) + Canonical(b);
      Canonical(a) + [] + Canonical(b);
      { assert Canonical(a) + [] == Canonical(a); }
      Canonical(a + b);
    }
  }
}
