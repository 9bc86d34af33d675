/** The coupon-code generator: configuration, generation from a hash
    digest, validation and the dash-separated normal form. */
module CouponCode {
  import opened Alphabet
  import opened Checksum
  import opened Normalization
  import opened BadWords
  import opened Transposition
  import opened Text

  datatype Option<T> = None | Some(value: T)

  /** `throw new \Exception('Ran out of plaintext.')`, and the ValueError
      PHP 8 raises when `str_split` is asked for chunks shorter than 1. */
  datatype Error = RanOutOfPlaintext | SplitLengthTooSmall

  datatype Result<T> = Success(value: T) | Failure(error: Error)

  /** The configuration array; None stands for a key that is not there. */
  datatype Config = Config(numberOfSegments: Option<int>, segmentLength: Option<int>)

  const DefaultNumberOfSegments: int := 3
  const DefaultSegmentLength: int := 4

  /** PHP `empty()` on an integer entry: absent, or zero. */
  predicate IsEmpty(v: Option<int>) {
    v.None? || v.value == 0
  }

  // ---------------------------------------------------------------------
  // From digest to symbol stream

  /** `compileBytesToCodeString` after hashing: each byte `b` of the digest
      becomes `characters[ord(b) & (count - 1)]`. The digest is the string
      `hash('sha512', $bytes)` returns, taken as a parameter. */
  function CompileBytesToCodeString(digest: seq<bv8>): (plaintext: string)
    ensures |plaintext| == |digest|
    ensures forall k :: 0 <= k < |digest| ==>
      IsSymbol(plaintext[k]) && IndexOf(plaintext[k]) == digest[k] as int % Size
  {
    var plaintext := seq(|digest|, k requires 0 <= k < |digest| => Characters[digest[k] as int % Size]);
    assert forall k :: 0 <= k < |digest| ==> IndexOf(plaintext[k]) == digest[k] as int % Size by {
      IndexOfAll();
    }
    plaintext
  }

  /** The mask `& (count - 1)` keeps the low five bits, the value mod 32. */
  lemma LowBits(b: bv8)
    ensures (b & 31) as int == b as int % Size
  {
  }

  /** `hash('sha512', ...)` returns 128 lowercase hexadecimal digits. */
  predicate IsHexDigest(digest: seq<bv8>) {
    forall k :: 0 <= k < |digest| ==> 0x30 <= digest[k] <= 0x39 || 0x61 <= digest[k] <= 0x66
  }

  /** The digits '0' to '9' have values 16 to 25 and 'a' to 'f' have 1 to
      6 after the mask. */
  lemma HexByteValue(b: bv8)
    requires 0x30 <= b <= 0x39 || 0x61 <= b <= 0x66
    ensures 1 <= b as int % Size <= 6 || 16 <= b as int % Size <= 25
  {
  }

  lemma HexValueSymbol(v: int)
    requires 1 <= v <= 6 || 16 <= v <= 25
    ensures Characters[v] in "123456GHJKLMNPQR"
  {
  }

  /** A hex digest draws on 16 of the 32 symbols only, and never on '0'. */
  lemma HexDigestStream(digest: seq<bv8>)
    requires IsHexDigest(digest)
    ensures forall k :: 0 <= k < |digest| ==> CompileBytesToCodeString(digest)[k] in "123456GHJKLMNPQR"
  {
    var p := CompileBytesToCodeString(digest);
    forall k | 0 <= k < |digest| ensures p[k] in "123456GHJKLMNPQR" {
      HexByteValue(digest[k]);
      HexValueSymbol(digest[k] as int % Size);
    }
  }

  // ---------------------------------------------------------------------
  // Generation

  /** The candidate whose data start at `offset` has all its data
      characters in the stream. */
  predicate Fits(plaintext: string, offset: nat, segmentLength: int) {
    segmentLength >= 2 && offset + (segmentLength - 1) <= |plaintext|
  }

  /** The data characters of the candidate at `offset`: the
      `segmentLength - 1` symbols from there. */
  function DataAt(plaintext: string, offset: nat, segmentLength: int): (data: string)
    requires Fits(plaintext, offset, segmentLength)
    ensures |data| == segmentLength - 1
  {
    plaintext[offset .. offset + segmentLength - 1]
  }

  /** The `substr` the loop takes at `offset` fails its test exactly when
      the slot does not hold a full data slice or holds "0", and otherwise
      it is the data of the slot. */
  lemma SliceIsData(plaintext: string, offset: nat, segmentLength: int)
    ensures var slice := if segmentLength >= 2 then Substr(plaintext, offset, segmentLength - 1) else "";
      ((slice == "" || slice == "0" || |slice| != segmentLength - 1)
       <==> (!Fits(plaintext, offset, segmentLength) || DataAt(plaintext, offset, segmentLength) == "0"))
      && (Fits(plaintext, offset, segmentLength) ==> slice == DataAt(plaintext, offset, segmentLength))
  {
  }

  /** The loop drops a candidate that is a bad word or is ambiguous under
      a neighbouring swap at its position. */
  predicate Rejected(candidate: string, pos: nat, badWordList: seq<string>) {
    IsBadWord(candidate, badWordList) || ValidWhenSwapped(candidate, pos)
  }

  /** The offset of the next attempt is one slot further on. */
  lemma NextOffset(attempt: nat, segmentLength: int)
    ensures (attempt + 1) * segmentLength == attempt * segmentLength + segmentLength
  {
  }

  /** The generation loop as a function of its state: the offset of the
      current attempt, `attempt * segmentLength`, and the accepted
      `results`, whose count is the segment index. A candidate is the data
      at the offset with its check digit for position `|results| + 1`;
      data that PHP reads as false, the string "0", stop generation like
      data that run past the end.
      Every candidate uses up an attempt; a bad word or an ambiguous one is
      dropped without advancing the segment index. When the data no
      longer fit in the stream, generation fails. */
  function Scan(plaintext: string, numberOfSegments: int, segmentLength: int, badWordList: seq<string>,
                offset: nat, results: seq<string>): Result<seq<string>>
    decreases |plaintext| + 1 - offset
  {
    if |results| >= numberOfSegments then Success(results)
    else if !Fits(plaintext, offset, segmentLength) then Failure(RanOutOfPlaintext)
    else if DataAt(plaintext, offset, segmentLength) == "0" then Failure(RanOutOfPlaintext)
    else
      var data := DataAt(plaintext, offset, segmentLength);
      var candidate := data + [CheckDigitOf(data, |results| + 1)];
      if Rejected(candidate, |results| + 1, badWordList) then
        Scan(plaintext, numberOfSegments, segmentLength, badWordList, offset + segmentLength, results)
      else
        Scan(plaintext, numberOfSegments, segmentLength, badWordList, offset + segmentLength, results + [candidate])
  }

  /** The loop ends with the results once there are enough of them, and
      fails when there is no slot left or its data read as false. */
  lemma ScanEnds(plaintext: string, numberOfSegments: int, segmentLength: int, badWordList: seq<string>,
                 offset: nat, results: seq<string>)
    ensures |results| >= numberOfSegments ==>
      Scan(plaintext, numberOfSegments, segmentLength, badWordList, offset, results) == Success(results)
    ensures (|results| < numberOfSegments
             && (!Fits(plaintext, offset, segmentLength) || DataAt(plaintext, offset, segmentLength) == "0")) ==>
      Scan(plaintext, numberOfSegments, segmentLength, badWordList, offset, results) == Failure(RanOutOfPlaintext)
  {
  }

  /** One step of the loop: the candidate of attempt `attempt` is dropped
      or kept, and the scan goes on one slot further. */
  lemma ScanStep(plaintext: string, numberOfSegments: int, segmentLength: int, badWordList: seq<string>,
                 attempt: nat, results: seq<string>, candidate: string, reject: bool, outcome: Result<seq<string>>)
    requires attempt * segmentLength >= 0
    requires |results| < numberOfSegments && Fits(plaintext, attempt * segmentLength, segmentLength)
    requires DataAt(plaintext, attempt * segmentLength, segmentLength) != "0"
    requires candidate == DataAt(plaintext, attempt * segmentLength, segmentLength)
      + [CheckDigitOf(DataAt(plaintext, attempt * segmentLength, segmentLength), |results| + 1)]
    requires reject == Rejected(candidate, |results| + 1, badWordList)
    requires Scan(plaintext, numberOfSegments, segmentLength, badWordList, attempt * segmentLength, results) == outcome
    ensures 0 <= (attempt + 1) * segmentLength <= |plaintext| + 1
    ensures (attempt + 1) * segmentLength == attempt * segmentLength + segmentLength
    ensures Scan(plaintext, numberOfSegments, segmentLength, badWordList, (attempt + 1) * segmentLength,
                 if reject then results else results + [candidate]) == outcome
  {
    NextOffset(attempt, segmentLength);
    ScanAdvance(plaintext, numberOfSegments, segmentLength, badWordList, attempt * segmentLength, results, candidate, reject, outcome);
  }

  /** One step of the loop for the slot at `offset`: a rejected candidate
      is dropped, any other is appended, and the scan goes on one slot
      further. */
  lemma ScanAdvance(plaintext: string, numberOfSegments: int, segmentLength: int, badWordList: seq<string>,
                    offset: nat, results: seq<string>, candidate: string, reject: bool, outcome: Result<seq<string>>)
    requires |results| < numberOfSegments && Fits(plaintext, offset, segmentLength)
    requires DataAt(plaintext, offset, segmentLength) != "0"
    requires candidate == DataAt(plaintext, offset, segmentLength)
      + [CheckDigitOf(DataAt(plaintext, offset, segmentLength), |results| + 1)]
    requires reject == Rejected(candidate, |results| + 1, badWordList)
    requires Scan(plaintext, numberOfSegments, segmentLength, badWordList, offset, results) == outcome
    ensures offset + segmentLength <= |plaintext| + 1
    ensures reject ==> Scan(plaintext, numberOfSegments, segmentLength, badWordList, offset + segmentLength, results) == outcome
    ensures !reject ==> Scan(plaintext, numberOfSegments, segmentLength, badWordList, offset + segmentLength, results + [candidate]) == outcome
  {
  }

  /** The segments joined by dashes, lower-cased when asked. */
  function Render(segments: seq<string>, toLowerCase: bool): string {
    var result := Join(segments, '-');
    if toLowerCase then ToLower(result) else result
  }

  /** What `generateCode` returns for a digest and a configuration. */
  function GeneratedCode(digest: seq<bv8>, numberOfSegments: int, segmentLength: int, badWordList: seq<string>,
                         toLowerCase: bool): Result<string>
  {
    match Scan(CompileBytesToCodeString(digest), numberOfSegments, segmentLength, badWordList, 0, [])
    case Success(segments) => Success(Render(segments, toLowerCase))
    case Failure(e) => Failure(e)
  }

  /** A segment the generator may issue at position `pos`: full length,
      checksum-valid, not a bad word, not ambiguous under a neighbouring
      swap, and with its data taken from one slot `m` of the stream. */
  ghost predicate Accepted(segment: string, pos: nat, segmentLength: int, badWordList: seq<string>, plaintext: string) {
    segmentLength >= 2 && |segment| == segmentLength && SegmentChecks(segment, pos)
    && !IsBadWord(segment, badWordList) && !ValidWhenSwapped(segment, pos)
    && exists m: nat :: Fits(plaintext, m * segmentLength, segmentLength)
         && segment[..segmentLength - 1] == DataAt(plaintext, m * segmentLength, segmentLength)
  }

  /** What the loop accepts. The results so far are kept in order, it
      stops with exactly `numberOfSegments` segments, and every segment it
      adds is accepted at its own position. */
  lemma {:induction false} ScanSound(plaintext: string, numberOfSegments: int, segmentLength: int, badWordList: seq<string>,
                                     attempt: nat, results: seq<string>, segments: seq<string>)
    requires attempt * segmentLength >= 0
    requires Scan(plaintext, numberOfSegments, segmentLength, badWordList, attempt * segmentLength, results) == Success(segments)
    ensures |results| <= |segments| && segments[..|results|] == results
    ensures |segments| == if |results| >= numberOfSegments then |results| else numberOfSegments
    ensures forall k :: |results| <= k < |segments| ==> Accepted(segments[k], k + 1, segmentLength, badWordList, plaintext)
    decreases |plaintext| + 1 - attempt * segmentLength
  {
    if |results| < numberOfSegments {
      var offset := attempt * segmentLength;
      var data := DataAt(plaintext, offset, segmentLength);
      var candidate := data + [CheckDigitOf(data, |results| + 1)];
      var reject := Rejected(candidate, |results| + 1, badWordList);
      ScanStep(plaintext, numberOfSegments, segmentLength, badWordList, attempt, results, candidate, reject, Success(segments));
      if reject {
        ScanSound(plaintext, numberOfSegments, segmentLength, badWordList, attempt + 1, results, segments);
      } else {
        var more := results + [candidate];
        ScanSound(plaintext, numberOfSegments, segmentLength, badWordList, attempt + 1, more, segments);
        assert segments[..|results|] == segments[..|more|][..|results|];
        assert segments[|results|] == segments[..|more|][|results|];
        assert candidate[..segmentLength - 1] == data;
        assert Accepted(candidate, |results| + 1, segmentLength, badWordList, plaintext);
      }
    }
  }

  /** Accepting the remaining segments needs a stream long enough for all of
      them, one slot of `segmentLength` each. */
  lemma {:induction false} ScanNeedsStream(plaintext: string, numberOfSegments: int, segmentLength: int, badWordList: seq<string>,
                                           attempt: nat, results: seq<string>)
    requires attempt * segmentLength >= 0
    requires Scan(plaintext, numberOfSegments, segmentLength, badWordList, attempt * segmentLength, results).Success?
    requires |results| < numberOfSegments
    ensures attempt * segmentLength + (numberOfSegments - |results|) * segmentLength <= |plaintext| + 1
    decreases |plaintext| + 1 - attempt * segmentLength
  {
    var outcome := Scan(plaintext, numberOfSegments, segmentLength, badWordList, attempt * segmentLength, results);
    var data := DataAt(plaintext, attempt * segmentLength, segmentLength);
    var candidate := data + [CheckDigitOf(data, |results| + 1)];
    var reject := Rejected(candidate, |results| + 1, badWordList);
    ScanStep(plaintext, numberOfSegments, segmentLength, badWordList, attempt, results, candidate, reject, outcome);
    var left := numberOfSegments - |results|;
    Slots(attempt, left, segmentLength);
    if reject {
      ScanNeedsStream(plaintext, numberOfSegments, segmentLength, badWordList, attempt + 1, results);
    } else if left > 1 {
      ScanNeedsStream(plaintext, numberOfSegments, segmentLength, badWordList, attempt + 1, results + [candidate]);
    }
  }

  /** The slots of the next attempt and the remaining segments add up as
      those of this attempt do. */
  lemma Slots(attempt: nat, left: int, segmentLength: int)
    ensures (attempt + 1) * segmentLength + (left - 1) * segmentLength == attempt * segmentLength + left * segmentLength
  {
  }

  /** A successful generation needs `numberOfSegments * segmentLength - 1`
      stream symbols at least. */
  lemma GeneratedNeedsStream(digest: seq<bv8>, numberOfSegments: int, segmentLength: int, badWordList: seq<string>, toLowerCase: bool)
    requires GeneratedCode(digest, numberOfSegments, segmentLength, badWordList, toLowerCase).Success?
    requires numberOfSegments >= 1
    ensures numberOfSegments * segmentLength <= |digest| + 1
  {
    ScanNeedsStream(CompileBytesToCodeString(digest), numberOfSegments, segmentLength, badWordList, 0, []);
  }

  /** The only way generation fails is by running out of stream. */
  lemma {:induction false} ScanFailsOnlyForStream(plaintext: string, numberOfSegments: int, segmentLength: int, badWordList: seq<string>,
                                                  offset: nat, results: seq<string>)
    ensures Scan(plaintext, numberOfSegments, segmentLength, badWordList, offset, results).Failure? ==>
      Scan(plaintext, numberOfSegments, segmentLength, badWordList, offset, results).error == RanOutOfPlaintext
    decreases |plaintext| + 1 - offset
  {
    if |results| < numberOfSegments && Fits(plaintext, offset, segmentLength) {
      var data := DataAt(plaintext, offset, segmentLength);
      var candidate := data + [CheckDigitOf(data, |results| + 1)];
      ScanFailsOnlyForStream(plaintext, numberOfSegments, segmentLength, badWordList, offset + segmentLength, results);
      ScanFailsOnlyForStream(plaintext, numberOfSegments, segmentLength, badWordList, offset + segmentLength, results + [candidate]);
    }
  }

  /** The exhaustion boundary: asking for 1000 segments of 4 from the 128
      symbols of a SHA-512 digest always fails, rather than looping or
      returning a short code. */
  lemma ExhaustionBoundary(digest: seq<bv8>, badWordList: seq<string>, toLowerCase: bool)
    requires |digest| == 128
    ensures GeneratedCode(digest, 1000, 4, badWordList, toLowerCase) == Failure(RanOutOfPlaintext)
  {
    if GeneratedCode(digest, 1000, 4, badWordList, toLowerCase).Success? {
      GeneratedNeedsStream(digest, 1000, 4, badWordList, toLowerCase);
    }
    ScanFailsOnlyForStream(CompileBytesToCodeString(digest), 1000, 4, badWordList, 0, []);
  }

  /** With a segment length below 2 there is no data to slice, and any
      request for at least one segment fails at once. */
  lemma ShortSegmentsFail(digest: seq<bv8>, numberOfSegments: int, segmentLength: int, badWordList: seq<string>, toLowerCase: bool)
    requires numberOfSegments >= 1 && segmentLength < 2
    ensures GeneratedCode(digest, numberOfSegments, segmentLength, badWordList, toLowerCase) == Failure(RanOutOfPlaintext)
  {
  }

  /** Joining strings without lower-case letters by a dash gives a string
      without lower-case letters. */
  lemma {:induction false} JoinNoLowerCase(parts: seq<string>)
    requires forall k :: 0 <= k < |parts| ==> NoLowerCase(parts[k])
    ensures NoLowerCase(Join(parts, '-'))
  {
    if |parts| > 1 {
      JoinNoLowerCase(parts[1..]);
      var rest := Join(parts[1..], '-');
      assert Join(parts, '-') == parts[0] + ['-'] + rest;
      forall i | 0 <= i < |Join(parts, '-')| ensures !('a' <= Join(parts, '-')[i] <= 'z') {
        if i > |parts[0]| {
          assert Join(parts, '-')[i] == rest[i - |parts[0]| - 1];
        }
      }
    }
  }

  /** Symbols have no lower-case letter, so upper-casing undoes the
      optional lower-casing of a rendered code. */
  lemma RenderUpper(segments: seq<string>, toLowerCase: bool)
    requires forall k :: 0 <= k < |segments| ==> AllSymbols(segments[k])
    ensures ToUpper(Render(segments, toLowerCase)) == Join(segments, '-')
  {
    forall k | 0 <= k < |segments| ensures NoLowerCase(segments[k]) {
      assert forall i :: 0 <= i < |segments[k]| ==> IsSymbol(segments[k][i]);
    }
    JoinNoLowerCase(segments);
    CaseRoundTrip(Join(segments, '-'));
  }

  lemma DashIsNotSymbol(s: string)
    requires AllSymbols(s)
    ensures '-' !in s
  {
  }

  /** A slice of a string of symbols is a string of symbols. */
  lemma SliceSymbols(p: string, lo: nat, hi: nat)
    requires AllSymbols(p) && lo <= hi <= |p|
    ensures AllSymbols(p[lo..hi])
  {
    assert forall i :: 0 <= i < hi - lo ==> p[lo..hi][i] == p[lo + i];
  }

  /** An accepted segment is made of symbols: its data come from the symbol
      stream and its last character is a check digit. */
  lemma AcceptedSymbols(segment: string, pos: nat, segmentLength: int, badWordList: seq<string>, plaintext: string)
    requires Accepted(segment, pos, segmentLength, badWordList, plaintext) && AllSymbols(plaintext)
    ensures AllSymbols(segment)
  {
    var m: nat :| Fits(plaintext, m * segmentLength, segmentLength)
      && segment[..segmentLength - 1] == DataAt(plaintext, m * segmentLength, segmentLength);
    var lo := m * segmentLength;
    SliceSymbols(plaintext, lo, lo + segmentLength - 1);
    var data := segment[..segmentLength - 1];
    assert AllSymbols(data);
    CheckDigitIsSymbol(data, pos);
    assert segment == data + [segment[segmentLength - 1]];
  }

  /** The shape of a generated code: upper-cased and split at the dashes it
      is exactly `numberOfSegments` segments, each accepted at its own
      1-based position and made of alphabet symbols; the code is those
      segments joined by dashes, lower-cased exactly when asked. */
  lemma GeneratedCodeShape(digest: seq<bv8>, numberOfSegments: int, segmentLength: int, badWordList: seq<string>,
                           toLowerCase: bool, code: string)
    requires GeneratedCode(digest, numberOfSegments, segmentLength, badWordList, toLowerCase) == Success(code)
    requires numberOfSegments >= 1
    ensures var segments := Explode(ToUpper(code), '-');
      |segments| == numberOfSegments && code == Render(segments, toLowerCase)
      && forall k :: 0 <= k < numberOfSegments ==>
        AllSymbols(segments[k]) && Accepted(segments[k], k + 1, segmentLength, badWordList, CompileBytesToCodeString(digest))
  {
    var segments := GeneratedSegments(digest, numberOfSegments, segmentLength, badWordList, toLowerCase);
    RenderUpper(segments, toLowerCase);
    forall k | 0 <= k < |segments| ensures '-' !in segments[k] {
      DashIsNotSymbol(segments[k]);
    }
    ExplodeJoin(segments, '-');
  }

  /** The segments behind a successful generation, with what ScanSound
      says of them and the fact that they are made of symbols. */
  lemma GeneratedSegments(digest: seq<bv8>, numberOfSegments: int, segmentLength: int, badWordList: seq<string>, toLowerCase: bool)
    returns (segments: seq<string>)
    requires GeneratedCode(digest, numberOfSegments, segmentLength, badWordList, toLowerCase).Success?
    ensures numberOfSegments >= 0 ==> |segments| == numberOfSegments
    ensures Scan(CompileBytesToCodeString(digest), numberOfSegments, segmentLength, badWordList, 0, []) == Success(segments)
    ensures GeneratedCode(digest, numberOfSegments, segmentLength, badWordList, toLowerCase) == Success(Render(segments, toLowerCase))
    ensures forall k :: 0 <= k < |segments| ==>
      AllSymbols(segments[k]) && Accepted(segments[k], k + 1, segmentLength, badWordList, CompileBytesToCodeString(digest))
  {
    var p := CompileBytesToCodeString(digest);
    segments := Scan(p, numberOfSegments, segmentLength, badWordList, 0, []).value;
    ScanSound(p, numberOfSegments, segmentLength, badWordList, 0, [], segments);
    assert AllSymbols(p);
    AllAcceptedSymbols(segments, segmentLength, badWordList, p);
  }

  lemma AllAcceptedSymbols(segments: seq<string>, segmentLength: int, badWordList: seq<string>, plaintext: string)
    requires AllSymbols(plaintext)
    requires forall k :: 0 <= k < |segments| ==> Accepted(segments[k], k + 1, segmentLength, badWordList, plaintext)
    ensures forall k :: 0 <= k < |segments| ==> AllSymbols(segments[k])
  {
    forall k | 0 <= k < |segments| ensures AllSymbols(segments[k]) {
      AcceptedSymbols(segments[k], k + 1, segmentLength, badWordList, plaintext);
    }
  }

  /** Transposition avoidance: in every segment of a generated code, read
      in upper case as validation reads it, exchanging two different
      neighbouring characters makes the checksum fail. An upper-case code
      is its own upper-case reading. */
  lemma GeneratedResistsTransposition(digest: seq<bv8>, numberOfSegments: int, segmentLength: int, badWordList: seq<string>,
                                      toLowerCase: bool, code: string, k: nat, i: nat)
    requires GeneratedCode(digest, numberOfSegments, segmentLength, badWordList, toLowerCase) == Success(code)
    requires k < numberOfSegments
    ensures !toLowerCase ==> ToUpper(code) == code
    ensures k < |Explode(ToUpper(code), '-')|
    ensures var s := Explode(ToUpper(code), '-')[k];
      i + 1 < |s| && s[i] != s[i + 1] ==> !SegmentChecks(SwapChars(s, i, i + 1), k + 1)
  {
    var segments := Explode(ToUpper(code), '-');
    GeneratedCodeShape(digest, numberOfSegments, segmentLength, badWordList, toLowerCase, code);
    if !toLowerCase {
      RenderUpper(segments, false);
    }
    AcceptedResists(segments[k], k + 1, segmentLength, badWordList, CompileBytesToCodeString(digest), i);
  }

  /** An accepted segment fails its checksum after any swap of two
      different neighbours. */
  lemma AcceptedResists(s: string, pos: nat, segmentLength: int, badWordList: seq<string>, plaintext: string, i: nat)
    requires Accepted(s, pos, segmentLength, badWordList, plaintext)
    ensures i + 1 < |s| && s[i] != s[i + 1] ==> !SegmentChecks(SwapChars(s, i, i + 1), pos)
  {
    if i + 1 < |s| && s[i] != s[i + 1] {
      TranspositionDetected(s, i, pos);
    }
  }

  // ---------------------------------------------------------------------
  // Validation

  /** Every chunk passes the checksum for its 1-based position. */
  predicate AllChunksCheck(chunks: seq<string>) {
    forall k :: 0 <= k < |chunks| ==> SegmentChecks(chunks[k], k + 1)
  }

  /** What `validateCode` returns: false when the cleaned, upper-cased code
      does not have `numberOfSegments * segmentLength` characters;
      otherwise whether every `segmentLength`-wide chunk ends with the check
      digit of the rest of it. Chunks shorter than 1 make `str_split` throw. */
  function CodeValidity(code: string, numberOfSegments: int, segmentLength: int): Result<bool> {
    var c := Canonical(code);
    if |c| != numberOfSegments * segmentLength then Success(false)
    else if segmentLength < 1 then Failure(SplitLengthTooSmall)
    else Success(AllChunksCheck(StrSplit(c, segmentLength)))
  }

  /** The loop of `validateCode` over the chunks: the first chunk whose
      last character is not the check digit of the rest, counting positions
      from 1, makes the answer false. */
  method CheckSegments(segments: seq<string>) returns (valid: bool)
    requires forall k :: 0 <= k < |segments| ==> |segments[k]| > 0
    ensures valid == AllChunksCheck(segments)
  {
    for index := 0 to |segments|
      invariant forall k :: 0 <= k < index ==> SegmentChecks(segments[k], k + 1)
    {
      var segment := segments[index];
      var expectedCheckdigit := segment[|segment| - 1];
      var segmentData := segment[..|segment| - 1];
      var calculatedCheckdigit := CheckDigit(segmentData, index + 1);
      if calculatedCheckdigit != expectedCheckdigit {
        assert !SegmentChecks(segments[index], index + 1);
        return false;
      }
    }
    return true;
  }

  lemma {:induction false} CanonicalJoin(parts: seq<string>)
    ensures Canonical(Join(parts, '-')) == Canonical(Concat(parts))
  {
    if |parts| == 1 {
      assert parts[1..] == [];
      assert Concat(parts) == parts[0] + "" == parts[0];
    } else if |parts| > 1 {
      CanonicalJoin(parts[1..]);
      CanonicalIgnoresSeparator(parts[0], Join(parts[1..], '-'), '-');
      CanonicalAppend(parts[0], Join(parts[1..], '-'));
      CanonicalAppend(parts[0], Concat(parts[1..]));
    }
  }

  lemma {:induction false} CanonicalConcatSymbols(parts: seq<string>)
    requires forall k :: 0 <= k < |parts| ==> AllSymbols(parts[k])
    ensures Canonical(Concat(parts)) == Concat(parts)
  {
    if |parts| > 0 {
      CanonicalConcatSymbols(parts[1..]);
      CanonicalAppend(parts[0], Concat(parts[1..]));
      CanonicalFixesSymbols(parts[0]);
    } else {
      CanonicalFixesSymbols("");
    }
  }

  /** The round trip: every code the generator returns validates under the
      same configuration, lower-cased or not. A negative segment count, or
      no segments with a length below 1, breaks it (see RoundTripNeedsCount). */
  lemma GeneratedCodeValidates(digest: seq<bv8>, numberOfSegments: int, segmentLength: int, badWordList: seq<string>,
                               toLowerCase: bool, code: string)
    requires GeneratedCode(digest, numberOfSegments, segmentLength, badWordList, toLowerCase) == Success(code)
    requires numberOfSegments >= 0 && segmentLength >= 1
    ensures CodeValidity(code, numberOfSegments, segmentLength) == Success(true)
  {
    var segments := GeneratedSegments(digest, numberOfSegments, segmentLength, badWordList, toLowerCase);
    assert code == Render(segments, toLowerCase);
    RenderedValidates(segments, segmentLength, toLowerCase);
  }

  /** Checksum-valid symbol segments of one length, dash-joined and
      possibly lower-cased, validate with their own count and length. */
  lemma RenderedValidates(segments: seq<string>, segmentLength: int, toLowerCase: bool)
    requires segmentLength >= 1
    requires forall k :: 0 <= k < |segments| ==>
      |segments[k]| == segmentLength && AllSymbols(segments[k]) && SegmentChecks(segments[k], k + 1)
    ensures CodeValidity(Render(segments, toLowerCase), |segments|, segmentLength) == Success(true)
  {
    CanonicalOfLower(Join(segments, '-'));
    CanonicalJoin(segments);
    CanonicalConcatSymbols(segments);
    assert Canonical(Render(segments, toLowerCase)) == Concat(segments);
    StrSplitConcat(segments, segmentLength);
  }

  /** With a negative segment count the loop never runs and returns "",
      which then fails the length check unless the segment length is 0. */
  lemma RoundTripNeedsCount(digest: seq<bv8>, numberOfSegments: int, segmentLength: int, badWordList: seq<string>,
                            toLowerCase: bool)
    requires numberOfSegments < 0 && segmentLength != 0
    ensures GeneratedCode(digest, numberOfSegments, segmentLength, badWordList, toLowerCase) == Success("")
    ensures CodeValidity("", numberOfSegments, segmentLength) == Success(false)
  {
    CanonicalFixesSymbols("");
    assert ToLower("") == "";
    NonzeroProduct(numberOfSegments, segmentLength);
  }

  lemma NonzeroProduct(a: int, b: int)
    requires a != 0 && b != 0
    ensures a * b != 0
  {
  }

  /** Validation does not care about letter case. */
  lemma ValidityIgnoresCase(code: string, numberOfSegments: int, segmentLength: int)
    ensures CodeValidity(ToLower(code), numberOfSegments, segmentLength) == CodeValidity(code, numberOfSegments, segmentLength)
    ensures CodeValidity(ToUpper(code), numberOfSegments, segmentLength) == CodeValidity(code, numberOfSegments, segmentLength)
  {
    CanonicalOfLower(code);
  }

  /** Validation reads I, O, S and Z (in either case) as 1, 0, 5 and 2. */
  lemma ValidityIgnoresConfusables(code: string, i: nat, numberOfSegments: int, segmentLength: int)
    requires i < |code| && code[i] in "IOSZiosz"
    ensures CodeValidity(code[i := Unconfuse(UpperChar(code[i]))], numberOfSegments, segmentLength)
         == CodeValidity(code, numberOfSegments, segmentLength)
  {
    CanonicalConfusable(code, i);
  }

  /** Validation does not care where dashes are, or whether there are any. */
  lemma ValidityIgnoresDashes(a: string, b: string, numberOfSegments: int, segmentLength: int)
    ensures CodeValidity(a + "-" + b, numberOfSegments, segmentLength) == CodeValidity(a + b, numberOfSegments, segmentLength)
  {
    CanonicalIgnoresSeparator(a, b, '-');
  }



  /** Single-substitution detection over a whole code: once the code is
      valid, replacing any one character of its canonical form by a
      different symbol makes it invalid. */
  lemma ValiditySubstitution(code: string, numberOfSegments: int, segmentLength: int, i: nat, c: char)
    requires CodeValidity(code, numberOfSegments, segmentLength) == Success(true)
    requires i < |Canonical(code)| && IsSymbol(c) && c != Canonical(code)[i]
    ensures CodeValidity(Canonical(code)[i := c], numberOfSegments, segmentLength) == Success(false)
  {
    var s := Canonical(code);
    var t := s[i := c];
    CanonicalIsSymbols(code);
    assert AllSymbols(t);
    CanonicalFixesSymbols(t);
    var k, j := StrSplitUpdate(s, segmentLength, i, c);
    var before := StrSplit(s, segmentLength);
    SubstitutionDetected(before[k], j, c, k + 1);
  }

  // ---------------------------------------------------------------------
  // The dash-separated normal form

  /** What `normalize` means to return: the canonical form cut into chunks
      of `segmentLength`, joined by dashes. */
  function NormalizeChunked(s: string, segmentLength: int): Result<string> {
    if segmentLength < 1 then Failure(SplitLengthTooSmall)
    else Success(Join(StrSplit(Canonical(s), segmentLength), '-'))
  }

  /** The normal form changes nothing that validation sees, and normalizing
      it again gives it back. */
  lemma NormalizeChunkedKeepsCode(s: string, numberOfSegments: int, segmentLength: int)
    requires segmentLength >= 1
    ensures Canonical(NormalizeChunked(s, segmentLength).value) == Canonical(s)
    ensures CodeValidity(NormalizeChunked(s, segmentLength).value, numberOfSegments, segmentLength)
         == CodeValidity(s, numberOfSegments, segmentLength)
    ensures NormalizeChunked(NormalizeChunked(s, segmentLength).value, segmentLength) == NormalizeChunked(s, segmentLength)
  {
    var chunks := StrSplit(Canonical(s), segmentLength);
    ConcatStrSplit(Canonical(s), segmentLength);
    CanonicalJoin(chunks);
    CanonicalIdempotent(s);
  }

  // As written, `validateCode` (Generator.php:182) and `normalize`
  // (Generator.php:346) call `$this->normalize(...)`, the public
  // one-argument method, which calls itself again before doing anything
  // else. The members below model that call chain with a bound on its depth;
  // the rest of the model uses `normalizeCode($s, clean, case)`, the
  // evident intent.

  /** `normalize` as written, unfolded at most `depth` times: None when the
      unfolding runs out before any call returns. */
  function NormalizeAsWritten(s: string, segmentLength: int, depth: nat): Option<string> {
    if depth == 0 then None
    else
      match NormalizeAsWritten(s, segmentLength, depth - 1)
      case None => None
      case Some(t) => if segmentLength < 1 then None else Some(Join(StrSplit(t, segmentLength), '-'))
  }

  /** As written, no call of `normalize` ever returns, however deep the
      stack: every call ends in PHP's fatal error for unbounded recursion. */
  lemma {:induction false} NormalizeAsWrittenNeverReturns(s: string, segmentLength: int, depth: nat)
    ensures NormalizeAsWritten(s, segmentLength, depth) == None
  {
    if depth > 0 {
      NormalizeAsWrittenNeverReturns(s, segmentLength, depth - 1);
    }
  }

  /** The `while` loop of `generateCode` over the stream `plaintext`. Each
      iteration uses up one attempt, so the attempt offset stays within
      the stream and there are at most
      `(|plaintext| + 1) / segmentLength + 1` iterations. */
  method CollectSegments(plaintext: string, numberOfSegments: int, segmentLength: int, badWordList: seq<string>)
    returns (r: Result<seq<string>>)
    ensures r == Scan(plaintext, numberOfSegments, segmentLength, badWordList, 0, [])
  {
    var results: seq<string> := [];
    var segmentIndex := 0;
    var attempt: nat := 0;
    ghost var outcome := Scan(plaintext, numberOfSegments, segmentLength, badWordList, 0, []);
    while |results| < numberOfSegments
      invariant segmentIndex == |results|
      invariant 0 <= attempt * segmentLength <= |plaintext| + 1
      invariant Scan(plaintext, numberOfSegments, segmentLength, badWordList, attempt * segmentLength, results) == outcome
      decreases |plaintext| + 1 - attempt * segmentLength
    {
      var segmentCandidate, exhausted := SliceCandidate(plaintext, attempt * segmentLength, segmentLength);
      if exhausted {
        ScanEnds(plaintext, numberOfSegments, segmentLength, badWordList, attempt * segmentLength, results);
        return Failure(RanOutOfPlaintext);
      }
      var reject;
      segmentCandidate, reject := CompleteCandidate(segmentCandidate, segmentIndex + 1, badWordList);
      ScanStep(plaintext, numberOfSegments, segmentLength, badWordList, attempt, results, segmentCandidate, reject, outcome);
      attempt := attempt + 1;
      if reject {
        continue;
      }
      segmentIndex := segmentIndex + 1;
      results := results + [segmentCandidate];
    }
    ScanEnds(plaintext, numberOfSegments, segmentLength, badWordList, attempt * segmentLength, results);
    return Success(results);
  }

  /** The start of one attempt of `generateCode`: the `substr` at `offset`
      and the test after it. `exhausted` is set exactly when PHP throws
      "Ran out of plaintext."; otherwise the slice is the data of the slot. */
  method SliceCandidate(plaintext: string, offset: nat, segmentLength: int) returns (data: string, exhausted: bool)
    ensures exhausted <==> (!Fits(plaintext, offset, segmentLength) || DataAt(plaintext, offset, segmentLength) == "0")
    ensures !exhausted ==> data == DataAt(plaintext, offset, segmentLength)
  {
    // For a length below 2 the slice is empty or can never have the
    // negative length asked for: PHP throws either way.
    data := if segmentLength >= 2 then Substr(plaintext, offset, segmentLength - 1) else "";
    SliceIsData(plaintext, offset, segmentLength);
    // `! $segmentCandidate` also holds for the string "0".
    exhausted := data == "" || data == "0" || |data| != segmentLength - 1;
  }

  /** The middle of one attempt of `generateCode`: the candidate data get
      their check digit, and the candidate is rejected when it is a bad
      word or, failing that, ambiguous under a neighbouring swap. */
  method CompleteCandidate(data: string, segmentIndex: nat, badWordList: seq<string>) returns (candidate: string, reject: bool)
    ensures candidate == data + [CheckDigitOf(data, segmentIndex)]
    ensures reject == Rejected(candidate, segmentIndex, badWordList)
  {
    var checkdigit := CheckDigit(data, segmentIndex);
    candidate := data + [checkdigit];
    if IsBadWord(candidate, badWordList) {
      return candidate, true;
    }
    reject := IsSegmentValidWhenSwapped(candidate, segmentIndex);
  }

  /** `validateCode` as written starts with that call, so it never returns
      either, while the intended CodeValidity always gives an answer for a
      segment length of at least 1. */
  function ValidateAsWritten(code: string, numberOfSegments: int, segmentLength: int, depth: nat): Option<bool> {
    match NormalizeAsWritten(code, segmentLength, depth)
    case None => None
    case Some(c) =>
      if |c| != numberOfSegments * segmentLength then Some(false)
      else if segmentLength < 1 then None
      else Some(AllChunksCheck(StrSplit(c, segmentLength)))
  }

  lemma ValidateAsWrittenNeverReturns(code: string, numberOfSegments: int, segmentLength: int, depth: nat)
    ensures ValidateAsWritten(code, numberOfSegments, segmentLength, depth) == None
    ensures segmentLength >= 1 ==> CodeValidity(code, numberOfSegments, segmentLength).Success?
  {
    NormalizeAsWrittenNeverReturns(code, segmentLength, depth);
  }

  // ---------------------------------------------------------------------
  // The generator object

  class Generator {
    var numberOfSegments: int
    var segmentLength: int
    /** The ROT13-encoded denylist. */
    var badWordList: seq<string>

    /** `__construct($config)`: the defaults, overridden by every key the
        configuration has (even a zero one). The alphabet's reverse index
        is the constant IndexedChars. */
    constructor (config: Config)
      ensures numberOfSegments == if config.numberOfSegments.Some? then config.numberOfSegments.value else DefaultNumberOfSegments
      ensures segmentLength == if config.segmentLength.Some? then config.segmentLength.value else DefaultSegmentLength
      ensures badWordList == BadWordList()
    {
      numberOfSegments := if config.numberOfSegments.Some? then config.numberOfSegments.value else DefaultNumberOfSegments;
      segmentLength := if config.segmentLength.Some? then config.segmentLength.value else DefaultSegmentLength;
      badWordList := BadWordList();
    }

    /** `init($config)` on an existing instance: only the non-empty entries
        overwrite their fields. */
    method Init(config: Config)
      modifies this
      ensures numberOfSegments == if IsEmpty(config.numberOfSegments) then old(numberOfSegments) else config.numberOfSegments.value
      ensures segmentLength == if IsEmpty(config.segmentLength) then old(segmentLength) else config.segmentLength.value
      ensures badWordList == old(badWordList)
    {
      if !IsEmpty(config.numberOfSegments) {
        numberOfSegments := config.numberOfSegments.value;
      }
      if !IsEmpty(config.segmentLength) {
        segmentLength := config.segmentLength.value;
      }
    }

    /** `generateCode($toLowerCase, $random)`, with the digest of the random
        bytes as the parameter: the segments the loop collects, joined by
        dashes and lower-cased when asked. */
    method GenerateCode(toLowerCase: bool, digest: seq<bv8>) returns (r: Result<string>)
      ensures r == GeneratedCode(digest, numberOfSegments, segmentLength, badWordList, toLowerCase)
    {
      var plaintext := CompileBytesToCodeString(digest);
      var collected := CollectSegments(plaintext, numberOfSegments, segmentLength, badWordList);
      if collected.Failure? {
        return Failure(collected.error);
      }
      var result := Join(collected.value, '-');
      if toLowerCase {
        return Success(ToLower(result));
      }
      return Success(result);
    }

    /** `validateCode($code)`, normalizing with `normalizeCode` as intended. */
    method ValidateCode(code: string) returns (r: Result<bool>)
      ensures r == CodeValidity(code, numberOfSegments, segmentLength)
    {
      var c := NormalizeCode(code, true, true);
      if |c| != numberOfSegments * segmentLength {
        return Success(false);
      }
      if segmentLength < 1 {
        return Failure(SplitLengthTooSmall);
      }
      var segments := StrSplit(c, segmentLength);
      var valid := CheckSegments(segments);
      return Success(valid);
    }

    /** `normalize($string)`, normalizing with `normalizeCode` as intended.
        It fails only for a segment length below 1; otherwise the result
        reads the same to validation as the input, and is its own normal
        form. */
    function Normalize(s: string): (r: Result<string>)
      reads this
      ensures r == NormalizeChunked(s, segmentLength)
      ensures r.Success? <==> segmentLength >= 1
      ensures r.Success? ==> Canonical(r.value) == Canonical(s)
      ensures r.Success? ==> CodeValidity(r.value, numberOfSegments, segmentLength) == CodeValidity(s, numberOfSegments, segmentLength)
      ensures r.Success? ==> NormalizeChunked(r.value, segmentLength) == r
    {
      if segmentLength < 1 then Failure(SplitLengthTooSmall)
      else
        NormalizeChunkedKeepsCode(s, numberOfSegments, segmentLength);
        Success(Join(StrSplit(NormalizeCode(s, true, true), segmentLength), '-'))
    }
  }
}
