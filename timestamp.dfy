/** The creation timestamp as the pipeline writes it into filenames:
    `strftime("%Y-%m-%dT%H%M%S")` of an already parsed date-time. */
module Timestamp {
  import opened Decimal

  /** The fields of a parsed `datetime`; the time zone plays no part in the
      format. */
  datatype DateTime = DateTime(year: int, month: int, day: int, hour: int, minute: int, second: int)

  /** The ranges a `datetime` guarantees for its fields. */
  predicate ValidDateTime(t: DateTime) {
    && 1 <= t.year <= 9999
    && 1 <= t.month <= 12
    && 1 <= t.day <= 31
    && 0 <= t.hour <= 23
    && 0 <= t.minute <= 59
    && 0 <= t.second <= 59
  }

  /** The fields laid out as `%Y-%m-%dT%H%M%S` lays them out. */
  function Layout(y: string, mo: string, d: string, h: string, mi: string, se: string): string {
    y + "-" + mo + "-" + d + "T" + h + mi + se
  }

  /** `%Y-%m-%dT%H%M%S`: four-digit year, then two-digit fields, with the
      separators '-', '-' and 'T' and nothing between hour, minute and second. */
  function FormatTimestamp(t: DateTime): (s: string)
    requires ValidDateTime(t)
    ensures |s| == 17
    ensures s[4] == '-' && s[7] == '-' && s[10] == 'T'
    ensures forall i :: 0 <= i < 17 && i != 4 && i != 7 && i != 10 ==> IsDigit(s[i])
  {
    ZeroPadRoundTrip(t.year, 4);
    ZeroPadRoundTrip(t.month, 2);
    ZeroPadRoundTrip(t.day, 2);
    ZeroPadRoundTrip(t.hour, 2);
    ZeroPadRoundTrip(t.minute, 2);
    ZeroPadRoundTrip(t.second, 2);
    LayoutShape(ZeroPad(t.year, 4), ZeroPad(t.month, 2), ZeroPad(t.day, 2),
                ZeroPad(t.hour, 2), ZeroPad(t.minute, 2), ZeroPad(t.second, 2));
    Layout(ZeroPad(t.year, 4), ZeroPad(t.month, 2), ZeroPad(t.day, 2),
           ZeroPad(t.hour, 2), ZeroPad(t.minute, 2), ZeroPad(t.second, 2))
  }

  /** Reads the fields back from their fixed positions: the reference
      inverse of the format. */
  function ParseTimestamp(s: string): DateTime
    requires |s| == 17 && AllDigits(s[..4]) && AllDigits(s[5..7]) && AllDigits(s[8..10])
    requires AllDigits(s[11..13]) && AllDigits(s[13..15]) && AllDigits(s[15..17])
  {
    DateTime(ParseDigits(s[..4]), ParseDigits(s[5..7]), ParseDigits(s[8..10]),
             ParseDigits(s[11..13]), ParseDigits(s[13..15]), ParseDigits(s[15..17]))
  }

  lemma {:induction false} SplitAt(a: string, b: string)
    ensures (a + b)[..|a|] == a && (a + b)[|a|..] == b
  {
  }

  /** Where each field sits in a string laid out as `%Y-%m-%dT%H%M%S`. */
  lemma {:induction false} FieldPositions(y: string, mo: string, d: string, h: string, mi: string, se: string)
    requires |y| == 4 && |mo| == 2 && |d| == 2 && |h| == 2 && |mi| == 2 && |se| == 2
    ensures var s := Layout(y, mo, d, h, mi, se);
      && |s| == 17 && s[4] == '-' && s[7] == '-' && s[10] == 'T'
      && s[..4] == y && s[5..7] == mo && s[8..10] == d
      && s[11..13] == h && s[13..15] == mi && s[15..17] == se
  {
    var p1 := y + "-" + mo;
    var p2 := p1 + "-" + d;
    var p3 := p2 + "T" + h;
    var p4 := p3 + mi;
    var s := p4 + se;
    SplitAt(p4, se);
    SplitAt(p3, mi);
    SplitAt(p2 + "T", h);
    SplitAt(p1 + "-", d);
    SplitAt(y + "-", mo);
    assert s[..13] == p4[..13] == p3;
    assert s[..10] == p3[..10] == p2;
    assert s[..7] == p2[..7] == p1;
    assert s[..4] == p1[..4] == y;
    assert s[13..15] == p4[13..15] == mi;
    assert s[11..13] == p3[11..13] == h;
    assert s[8..10] == p2[8..10] == d;
    assert s[5..7] == p1[5..7] == mo;
    assert s[4] == s[..7][4] == p1[4] == '-';
    assert s[7] == s[..10][7] == p2[7] == '-';
    assert s[10] == s[..13][10] == p3[10] == 'T';
    assert s == Layout(y, mo, d, h, mi, se);
  }

  /** Digit fields give digits everywhere but at the three separators. */
  lemma {:induction false} LayoutShape(y: string, mo: string, d: string, h: string, mi: string, se: string)
    requires |y| == 4 && |mo| == 2 && |d| == 2 && |h| == 2 && |mi| == 2 && |se| == 2
    requires AllDigits(y) && AllDigits(mo) && AllDigits(d) && AllDigits(h) && AllDigits(mi) && AllDigits(se)
    ensures var s := Layout(y, mo, d, h, mi, se);
      && |s| == 17 && s[4] == '-' && s[7] == '-' && s[10] == 'T'
      && forall i :: 0 <= i < 17 && i != 4 && i != 7 && i != 10 ==> IsDigit(s[i])
  {
    var s := Layout(y, mo, d, h, mi, se);
    FieldPositions(y, mo, d, h, mi, se);
    forall i | 0 <= i < 17 && i != 4 && i != 7 && i != 10
      ensures IsDigit(s[i])
    {
      if i < 4 {
        assert s[i] == s[..4][i];
      } else if i < 7 {
        assert s[i] == s[5..7][i - 5];
      } else if i < 10 {
        assert s[i] == s[8..10][i - 8];
      } else if i < 13 {
        assert s[i] == s[11..13][i - 11];
      } else if i < 15 {
        assert s[i] == s[13..15][i - 13];
      } else {
        assert s[i] == s[15..17][i - 15];
      }
    }
  }

  /** The format loses nothing: every field is recovered, so two different
      date-times never give the same timestamp. */
  lemma {:induction false} FormatRoundTrip(t: DateTime)
    requires ValidDateTime(t)
    ensures var s := FormatTimestamp(t);
      && AllDigits(s[..4]) && AllDigits(s[5..7]) && AllDigits(s[8..10])
      && AllDigits(s[11..13]) && AllDigits(s[13..15]) && AllDigits(s[15..17])
      && ParseTimestamp(s) == t
  {
    ZeroPadRoundTrip(t.year, 4);
    ZeroPadRoundTrip(t.month, 2);
    ZeroPadRoundTrip(t.day, 2);
    ZeroPadRoundTrip(t.hour, 2);
    ZeroPadRoundTrip(t.minute, 2);
    ZeroPadRoundTrip(t.second, 2);
    FieldPositions(ZeroPad(t.year, 4), ZeroPad(t.month, 2), ZeroPad(t.day, 2),
                   ZeroPad(t.hour, 2), ZeroPad(t.minute, 2), ZeroPad(t.second, 2));
  }

  /** The worked example: 2021-06-01 14:05:30 is written "2021-06-01T140530". */
  lemma {:induction false} FormatExample()
    ensures FormatTimestamp(DateTime(2021, 6, 1, 14, 5, 30)) == "2021-06-01T140530"
  {
  }
}
