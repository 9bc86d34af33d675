/** The bad-word filter: segments that spell an offensive word are skipped.
    The denylist is stored ROT13-encoded and compared in that space. */
module BadWords {

  /** `str_rot13` on one character: Latin letters turn 13 places within
      their case, everything else stays. */
  function Rot13Char(c: char): char {
    if 'A' <= c <= 'Z' then ((c as int - 'A' as int + 13) % 26 + 'A' as int) as char
    else if 'a' <= c <= 'z' then ((c as int - 'a' as int + 13) % 26 + 'a' as int) as char
    else c
  }

  /** `str_rot13` */
  function Rot13(s: string): string {
    seq(|s|, k requires 0 <= k < |s| => Rot13Char(s[k]))
  }

  /** The 28 ROT13-encoded entries of `$badWordList`. */
  function BadWordList(): seq<string> {
    [
      "SHPX", "PHAG", "JNAX", "JNAT", "CVFF", "PBPX", "FUVG", "GJNG", "GVGF", "SNEG", "URYY", "ZHSS", "QVPX", "XABO",
      "NEFR", "FUNT", "GBFF", "FYHG", "GHEQ", "FYNT", "PENC", "CBBC", "OHGG", "SRPX", "OBBO", "WVFZ", "WVMM", "CUNG"
    ]
  }

  /** `isBadWord`: the word, ROT13-encoded, is on the generator's list
      `badWordList`, which the constructor sets to BadWordList(). */
  predicate IsBadWord(word: string, badWordList: seq<string>) {
    Rot13(word) in badWordList
  }

  /** ROT13 undoes itself. */
  lemma Rot13Involutive(s: string)
    ensures Rot13(Rot13(s)) == s
  {
    forall k | 0 <= k < |s| ensures Rot13Char(Rot13Char(s[k])) == s[k] {
      Rot13CharInvolutive(s[k]);
    }
  }

  lemma Rot13CharInvolutive(c: char)
    ensures Rot13Char(Rot13Char(c)) == c
  {
    if 'A' <= c <= 'Z' {
      TurnTwice(c as int - 'A' as int);
    } else if 'a' <= c <= 'z' {
      TurnTwice(c as int - 'a' as int);
    }
  }

  /** Two turns by 13 among 26 letters come back to the start. */
  lemma TurnTwice(x: int)
    requires 0 <= x < 26
    ensures ((x + 13) % 26 + 13) % 26 == x
  {
  }

  /** The denylist in plain text; it exists only in the proof. */
  ghost function PlainWords(): set<string> {
    set b | b in BadWordList() :: Rot13(b)
  }

  /** Comparing encoded candidates with the encoded list is comparing plain
      candidates with the plain list. */
  lemma IsBadWordIffPlain(word: string)
    ensures IsBadWord(word, BadWordList()) <==> word in PlainWords()
  {
    Rot13Involutive(word);
    if word in PlainWords() {
      var b :| b in BadWordList() && word == Rot13(b);
      Rot13Involutive(b);
    }
  }

  /** Every entry has four characters, so only a four-character word can be
      bad: with any other segment length the filter never matches. */
  lemma BadWordHasFourChars(word: string)
    requires IsBadWord(word, BadWordList())
    ensures |word| == 4
  {
    assert forall b :: b in BadWordList() ==> |b| == 4;
  }
}
