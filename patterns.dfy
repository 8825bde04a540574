/** The two regular-expression searches of the pipeline, hand-coded: every
    pattern involved matches a fixed number of characters, one character
    class per position, so a pattern is a sequence of classes and
    `re.search` is the leftmost position where each class accepts its
    character. */
module Patterns {
  import opened Wrappers
  import opened Errors
  import opened Decimal
  import opened Text

  /** One position of a fixed-length pattern. */
  datatype CharClass =
    | Literal(c: char)            // a plain character
    | AnyDigit                    // \d
    | DigitOr(others: string)     // [XY\d]
    | AnyButNewline               // .

  predicate Accepts(k: CharClass, c: char) {
    match k
    case Literal(x) => c == x
    case AnyDigit => IsDigit(c)
    case DigitOr(others) => IsDigit(c) || c in others
    case AnyButNewline => c != '\n'
  }

  type Pattern = seq<CharClass>

  /** The pattern matches the characters of `s` starting at `i`. */
  predicate MatchAt(p: Pattern, s: string, i: nat) {
    i + |p| <= |s| && forall j :: 0 <= j < |p| ==> Accepts(p[j], s[i + j])
  }

  /** The leftmost match position at or after `i`. */
  function SearchFrom(p: Pattern, s: string, i: nat): (r: Option<nat>)
    ensures r.Some? ==> i <= r.value && MatchAt(p, s, r.value)
    ensures r.Some? ==> forall j :: i <= j < r.value ==> !MatchAt(p, s, j)
    ensures r.None? ==> forall j :: i <= j ==> !MatchAt(p, s, j)
    decreases |s| - i
  {
    if |s| < i + |p| then None
    else if MatchAt(p, s, i) then Some(i)
    else SearchFrom(p, s, i + 1)
  }

  /** `re.search(p, s)`, giving the matched text `group(0)`. */
  function Search(p: Pattern, s: string): Option<string> {
    match SearchFrom(p, s, 0)
    case None => None
    case Some(i) => Some(s[i..i + |p|])
  }

  /** `re.search` finds something iff the pattern matches somewhere, and then
      it gives the text of the leftmost match. */
  lemma {:induction false} SearchSpec(p: Pattern, s: string)
    ensures Search(p, s).Some? <==> exists i: nat :: MatchAt(p, s, i)
    ensures Search(p, s).Some? ==>
      exists i: nat :: MatchAt(p, s, i) && Search(p, s).value == s[i..i + |p|]
                       && forall j :: 0 <= j < i ==> !MatchAt(p, s, j)
  {
    var r := SearchFrom(p, s, 0);
    if r.Some? {
      assert MatchAt(p, s, r.value);
    }
  }

  /** A match stays a match when text is appended, so a search that finds
      something in `s` finds something in `s + t`. */
  lemma {:induction false} SearchExtends(p: Pattern, s: string, t: string)
    requires Search(p, s).Some?
    ensures Search(p, s + t).Some?
  {
    var i := SearchFrom(p, s, 0).value;
    assert MatchAt(p, s, i);
    forall j | 0 <= j < |p| ensures Accepts(p[j], (s + t)[i + j]) {
      assert (s + t)[i + j] == s[i + j];
    }
    assert MatchAt(p, s + t, i);
  }

  // ----- Recording id: get_basename -----

  /** `G[HXOP\d][AP\d][AR\d]\d{4}`. */
  const RecordingIdPattern: Pattern :=
    [Literal('G'), DigitOr("HXOP"), DigitOr("AP"), DigitOr("AR"), AnyDigit, AnyDigit, AnyDigit, AnyDigit]

  /** The camera-assigned recording id such as "GH010042". */
  predicate IsRecordingId(b: string) {
    && |b| == 8
    && b[0] == 'G'
    && (IsDigit(b[1]) || b[1] in "HXOP")
    && (IsDigit(b[2]) || b[2] in "AP")
    && (IsDigit(b[3]) || b[3] in "AR")
    && AllDigits(b[4..])
  }

  lemma {:induction false} RecordingIdMatch(s: string, i: nat)
    requires i + 8 <= |s|
    ensures MatchAt(RecordingIdPattern, s, i) <==> IsRecordingId(s[i..i + 8])
  {
    var b := s[i..i + 8];
    if IsRecordingId(b) {
      forall j | 0 <= j < 8 ensures Accepts(RecordingIdPattern[j], s[i + j]) {
        assert s[i + j] == b[j];
        if j >= 4 {
          assert b[4..][j - 4] == b[j];
        }
      }
    }
    if MatchAt(RecordingIdPattern, s, i) {
      forall j | 0 <= j < 4 ensures IsDigit(b[4..][j]) {
        assert Accepts(RecordingIdPattern[j + 4], s[i + j + 4]);
      }
      assert Accepts(RecordingIdPattern[0], s[i]);
      assert Accepts(RecordingIdPattern[1], s[i + 1]);
      assert Accepts(RecordingIdPattern[2], s[i + 2]);
      assert Accepts(RecordingIdPattern[3], s[i + 3]);
    }
  }

  /** A recording id stands in `s` at position `i`. */
  predicate RecordingIdAt(s: string, i: nat) {
    i + 8 <= |s| && IsRecordingId(s[i..i + 8])
  }

  /** `get_basename`: the leftmost recording id in the filename, or the
      "Unknown filename format" error naming the video path. */
  function GetBasename(filename: string, videoPath: string): (r: Result<string, Error>)
    ensures r.Err? <==> forall i: nat :: !RecordingIdAt(filename, i)
    ensures r.Err? ==> r.error == UnknownFilenameFormat(videoPath)
    ensures r.Ok? ==> exists i: nat :: RecordingIdAt(filename, i) && r.value == filename[i..i + 8]
                                       && forall j: nat :: j < i ==> !RecordingIdAt(filename, j)
  {
    var m := SearchFrom(RecordingIdPattern, filename, 0);
    if m.None? then
      assert forall i: nat :: !RecordingIdAt(filename, i) by {
        forall i: nat ensures !RecordingIdAt(filename, i) {
          if i + 8 <= |filename| {
            RecordingIdMatch(filename, i);
          }
        }
      }
      Err(UnknownFilenameFormat(videoPath))
    else
      var i := m.value;
      assert RecordingIdAt(filename, i) && forall j: nat :: j < i ==> !RecordingIdAt(filename, j) by {
        RecordingIdMatch(filename, i);
        forall j: nat | j < i ensures !RecordingIdAt(filename, j) {
          RecordingIdMatch(filename, j);
        }
      }
      Ok(filename[i..i + 8])
  }

  // ----- Camera serial: filename_contains_serial -----

  /** One serial format: a fixed prefix followed by `wildcards` characters
      other than a newline (the regular expression `prefix.{wildcards}`). */
  datatype SerialFormat = SerialFormat(prefix: string, wildcards: nat)

  function SerialLength(f: SerialFormat): nat {
    |f.prefix| + f.wildcards
  }

  /** The nine formats in the order they are tried: more specific prefixes
      before the shorter prefixes they extend. */
  const SerialTable: seq<SerialFormat> := [
    SerialFormat("C33", 11),   // GoPro HERO (2018)
    SerialFormat("C322", 10),  // HERO6 Black
    SerialFormat("C32", 11),   // HERO5 Session
    SerialFormat("C31", 11),   // HERO5 Black, HERO4, HERO Session and others
    SerialFormat("H3", 13),    // HERO3+
    SerialFormat("HD3", 12),   // HERO3
    SerialFormat("H2", 12),    // HD HERO2
    SerialFormat("HD2", 11),   // HD HERO 960
    SerialFormat("HD1", 10)    // HD HERO (original)
  ]

  function SerialPattern(f: SerialFormat): (p: Pattern)
    ensures |p| == SerialLength(f)
  {
    seq(|f.prefix|, k requires 0 <= k < |f.prefix| => Literal(f.prefix[k]))
      + seq(f.wildcards, _ => AnyButNewline)
  }

  /** A serial pattern matches at `i` iff the prefix stands there and the
      rest of its fixed length holds no newline. */
  lemma {:induction false} SerialPatternMatch(f: SerialFormat, s: string, i: nat)
    ensures MatchAt(SerialPattern(f), s, i) <==>
      && i + SerialLength(f) <= |s|
      && s[i..i + |f.prefix|] == f.prefix
      && forall j :: i + |f.prefix| <= j < i + SerialLength(f) ==> s[j] != '\n'
  {
    var p := SerialPattern(f);
    var n := |f.prefix|;
    if MatchAt(p, s, i) {
      forall k | 0 <= k < n ensures s[i..i + n][k] == f.prefix[k] {
        assert Accepts(p[k], s[i + k]);
      }
      forall j | i + n <= j < i + SerialLength(f) ensures s[j] != '\n' {
        assert Accepts(p[j - i], s[i + (j - i)]);
      }
    }
    if && i + SerialLength(f) <= |s| && s[i..i + n] == f.prefix
       && forall j :: i + n <= j < i + SerialLength(f) ==> s[j] != '\n'
    {
      forall k | 0 <= k < |p| ensures Accepts(p[k], s[i + k]) {
        if k < n {
          assert s[i..i + n][k] == s[i + k];
        }
      }
    }
  }

  /** The search of `filename_contains_serial`, from table entry `k` on: the
      leftmost match of the first format that matches anywhere. */
  function SerialSearchFrom(filename: string, k: nat): (r: Option<string>)
    ensures r.None? <==> forall j :: k <= j < |SerialTable| ==> Search(SerialPattern(SerialTable[j]), filename).None?
    ensures r.Some? ==> exists j :: k <= j < |SerialTable|
                                    && (forall l :: k <= l < j ==> Search(SerialPattern(SerialTable[l]), filename).None?)
                                    && Search(SerialPattern(SerialTable[j]), filename) == r
    decreases |SerialTable| - k
  {
    if k >= |SerialTable| then None
    else
      var m := Search(SerialPattern(SerialTable[k]), filename);
      if m.Some? then m else SerialSearchFrom(filename, k + 1)
  }

  function SerialSearch(filename: string): Option<string> {
    SerialSearchFrom(filename, 0)
  }

  /** Every serial has at least 13 characters, so a shorter filename holds
      none. */
  lemma {:induction false} ShortNameHasNoSerial(filename: string)
    requires |filename| < 13
    ensures SerialSearch(filename).None?
  {
    forall j | 0 <= j < |SerialTable| ensures Search(SerialPattern(SerialTable[j]), filename).None? {
      SerialLengthAtLeast13(j);
      assert SearchFrom(SerialPattern(SerialTable[j]), filename, 0).None?;
    }
  }

  lemma {:induction false} SerialLengthAtLeast13(j: nat)
    requires j < |SerialTable|
    ensures SerialLength(SerialTable[j]) >= 13
  {
  }

  /** A filename as the camera writes it holds no serial, so prefixing asks
      the device-info stream for one. */
  lemma {:induction false} SerialSearchExample()
    ensures SerialSearch("GH010042.MP4").None?
  {
    ShortNameHasNoSerial("GH010042.MP4");
  }

  /** What a serial pattern finds starts with the format's prefix and has
      the format's length. */
  lemma {:induction false} SerialMatchShape(f: SerialFormat, s: string)
    requires Search(SerialPattern(f), s).Some?
    ensures |Search(SerialPattern(f), s).value| == SerialLength(f)
    ensures HasPrefix(Search(SerialPattern(f), s).value, f.prefix)
  {
    var i := SearchFrom(SerialPattern(f), s, 0).value;
    SerialPatternMatch(f, s, i);
    var v := Search(SerialPattern(f), s).value;
    assert v == s[i..i + SerialLength(f)];
    assert v[..|f.prefix|] == s[i..i + |f.prefix|];
  }

  /** The table entry `k` decides the serial search of `filename`: no earlier
      format matches anywhere and format `k` does. */
  predicate DecidedBy(filename: string, k: nat) {
    && k < |SerialTable|
    && (forall l :: 0 <= l < k ==> Search(SerialPattern(SerialTable[l]), filename).None?)
    && Search(SerialPattern(SerialTable[k]), filename).Some?
  }

  /** A serial found in a filename comes from the first format that matches:
      it starts with that format's prefix and has exactly its length. */
  lemma {:induction false} SerialSearchShape(filename: string)
    requires SerialSearch(filename).Some?
    ensures exists k: nat :: (DecidedBy(filename, k)
      && SerialSearch(filename) == Search(SerialPattern(SerialTable[k]), filename)
      && |SerialSearch(filename).value| == SerialLength(SerialTable[k])
      && HasPrefix(SerialSearch(filename).value, SerialTable[k].prefix))
  {
    var k: nat :| k < |SerialTable|
      && (forall l :: 0 <= l < k ==> Search(SerialPattern(SerialTable[l]), filename).None?)
      && Search(SerialPattern(SerialTable[k]), filename) == SerialSearch(filename);
    SerialMatchShape(SerialTable[k], filename);
    assert DecidedBy(filename, k);
  }

  /** A filename that begins with a recognisable serial always contains one:
      whatever follows the serial, some format still matches. */
  lemma {:induction false} SerialSearchExtends(serial: string, rest: string)
    requires SerialSearch(serial).Some?
    ensures SerialSearch(serial + rest).Some?
  {
    var k :| 0 <= k < |SerialTable| && Search(SerialPattern(SerialTable[k]), serial).Some?;
    SearchExtends(SerialPattern(SerialTable[k]), serial, rest);
  }

  /** `filename_contains_serial`: tries the formats in table order and
      returns the first match. */
  method FilenameContainsSerial(filename: string) returns (serial: Option<string>)
    ensures serial == SerialSearch(filename)
  {
    var k := 0;
    while k < |SerialTable|
      invariant k <= |SerialTable|
      invariant SerialSearchFrom(filename, k) == SerialSearch(filename)
    {
      var check := Search(SerialPattern(SerialTable[k]), filename);
      if check.Some? {
        return check;
      }
      k := k + 1;
    }
    return None;
  }
}
