/** The SubRip time-range line: timestamps `HH:MM:SS,mmm`, their value in
    milliseconds, and the unanchored pattern
    `(\d{2}:\d{2}:\d{2},\d{3})\s*-->\s*(\d{2}:\d{2}:\d{2},\d{3})`. */
module SrtTime {
  import opened Wrappers
  import opened Text
  import opened Search

  /** One past the largest time a canonical timestamp (minutes and seconds
      below 60) can spell. */
  const HourLimitMs: nat := 100 * 3600000

  /** The largest value any timestamp can spell: `99:99:99,999`. */
  const MaxTimestampMs: nat := 99 * 3600000 + 99 * 60000 + 99 * 1000 + 999

  /** Twelve characters `dd:dd:dd,ddd`. */
  predicate IsTimestamp(ts: string) {
    && |ts| == 12
    && IsDigit(ts[0]) && IsDigit(ts[1]) && ts[2] == ':'
    && IsDigit(ts[3]) && IsDigit(ts[4]) && ts[5] == ':'
    && IsDigit(ts[6]) && IsDigit(ts[7]) && ts[8] == ','
    && IsDigit(ts[9]) && IsDigit(ts[10]) && IsDigit(ts[11])
  }

  /** The time a timestamp spells, in milliseconds: each field read as a
      decimal number and weighed by its position, whatever its digits say,
      so `00:99:00,000` is 99 minutes. */
  function TimestampMs(ts: string): (ms: nat)
    requires IsTimestamp(ts)
    ensures ms <= MaxTimestampMs
  {
    TimestampBounds(ts);
    3600000 * DigitsValue(ts[0..2]) + 60000 * DigitsValue(ts[3..5])
      + 1000 * DigitsValue(ts[6..8]) + DigitsValue(ts[9..12])
  }

  /** `parseTimeToSeconds`, in milliseconds: split at the comma, split the
      clock part at the colons, and read each field as a decimal number. */
  function ParseTimeToMs(ts: string): nat
    requires IsTimestamp(ts)
  {
    var parts := Split(ts, ',');
    assert parts == [ts[..8], ts[9..12]] by { TimestampFields(ts); }
    var timeParts := Split(parts[0], ':');
    assert timeParts == [ts[0..2], ts[3..5], ts[6..8]] by { TimestampFields(ts); }
    TimestampBounds(ts);
    3600000 * DigitsValue(timeParts[0]) + 60000 * DigitsValue(timeParts[1])
      + 1000 * DigitsValue(timeParts[2]) + DigitsValue(parts[1])
  }

  /** Splitting a well-formed timestamp at its separators finds the fields
      at their fixed positions. */
  lemma ParseTimeToMsPositional(ts: string)
    requires IsTimestamp(ts)
    ensures ParseTimeToMs(ts) == TimestampMs(ts)
    ensures ParseTimeToMs(ts) == 3600000 * DigitsValue(ts[0..2]) + 60000 * DigitsValue(ts[3..5])
                                 + 1000 * DigitsValue(ts[6..8]) + DigitsValue(ts[9..12])
  {
    TimestampFields(ts);
  }

  lemma TimestampFields(ts: string)
    requires IsTimestamp(ts)
    ensures Split(ts, ',') == [ts[..8], ts[9..12]]
    ensures Split(ts[..8], ':') == [ts[0..2], ts[3..5], ts[6..8]]
  {
    var c, ms := ts[..8], ts[9..12];
    assert Split(ts, ',') == [c, ms] by {
      assert ts == c + [','] + ms;
      assert ',' !in c by { assert forall i :: 0 <= i < 8 ==> c[i] == ts[i]; }
      assert ',' !in ms by { assert forall i :: 0 <= i < 3 ==> ms[i] == ts[9 + i]; }
      SplitPieces(c, ms, ',');
    }
    assert Split(c, ':') == [ts[0..2], ts[3..5], ts[6..8]] by {
      ClockFields(c);
      assert ts[0..2] == c[0..2] && ts[3..5] == c[3..5] && ts[6..8] == c[6..8];
    }
  }

  lemma TimestampBounds(ts: string)
    requires IsTimestamp(ts)
    ensures AllDigits(ts[0..2]) && AllDigits(ts[3..5]) && AllDigits(ts[6..8]) && AllDigits(ts[9..12])
    ensures DigitsValue(ts[0..2]) < 100 && DigitsValue(ts[3..5]) < 100
    ensures DigitsValue(ts[6..8]) < 100 && DigitsValue(ts[9..12]) < 1000
  {
    DigitsBound(ts[0..2]);
    DigitsBound(ts[3..5]);
    DigitsBound(ts[6..8]);
    DigitsBound(ts[9..12]);
  }

  lemma ClockFields(c: string)
    requires |c| == 8 && c[2] == ':' && c[5] == ':'
    requires forall i :: 0 <= i < 8 && i != 2 && i != 5 ==> IsDigit(c[i])
    ensures Split(c, ':') == [c[0..2], c[3..5], c[6..8]]
  {
    var h, m, sec := c[0..2], c[3..5], c[6..8];
    assert c == h + [':'] + (m + [':'] + sec);
    assert ':' !in h && ':' !in m && ':' !in sec by {
      assert forall i :: 0 <= i < 2 ==> h[i] == c[i] && m[i] == c[3 + i] && sec[i] == c[6 + i];
    }
    SplitPieces(m, sec, ':');
    SplitConcat(h, m + [':'] + sec, ':');
    assert Split(h, ':') == [h];
  }

  /** Splitting `a sep b` where neither side holds the separator. */
  lemma SplitPieces(a: string, b: string, sep: char)
    requires sep !in a && sep !in b
    ensures Split(a + [sep] + b, sep) == [a, b]
  {
    SplitConcat(a, b, sep);
    assert Split(a, sep) == [a] && Split(b, sep) == [b];
  }

  lemma DigitsBound(s: string)
    requires AllDigits(s)
    ensures |s| == 2 ==> DigitsValue(s) < 100
    ensures |s| == 3 ==> DigitsValue(s) < 1000
  {
    if |s| == 3 {
      DigitsBound(s[..2]);
    } else if |s| == 2 {
      assert DigitsValue(s[..1]) < 10 by { assert s[..1][..0] == []; }
    }
  }

  function Pad2(n: nat): (s: string)
    requires n < 100
    ensures |s| == 2 && AllDigits(s) && DigitsValue(s) == n
  {
    var s := [DigitChar(n / 10), DigitChar(n % 10)];
    assert s[..1] == [DigitChar(n / 10)];
    assert DigitsValue(s[..1]) == n / 10 by { assert s[..1][..0] == []; }
    s
  }

  function Pad3(n: nat): (s: string)
    requires n < 1000
    ensures |s| == 3 && AllDigits(s) && DigitsValue(s) == n
  {
    var s := [DigitChar(n / 100), DigitChar(n / 10 % 10), DigitChar(n % 10)];
    assert s[..2] == [DigitChar(n / 100), DigitChar(n / 10 % 10)];
    assert s[..2][..1] == [DigitChar(n / 100)];
    assert DigitsValue(s[..2][..1]) == n / 100 by { assert s[..2][..1][..0] == []; }
    assert DigitsValue(s[..2]) == n / 10 by { assert s[..2][1] == DigitChar(n / 10 % 10); }
    s
  }

  /** The canonical SubRip spelling of a time below 100 hours; reading it
      back gives the same number of milliseconds. */
  function FormatTimestamp(ms: nat): (ts: string)
    requires ms < HourLimitMs
    ensures IsTimestamp(ts) && TimestampMs(ts) == ms
  {
    var ts := Pad2(ms / 3600000) + ":" + Pad2(ms / 60000 % 60) + ":"
              + Pad2(ms / 1000 % 60) + "," + Pad3(ms % 1000);
    assert ts[0..2] == Pad2(ms / 3600000);
    assert ts[3..5] == Pad2(ms / 60000 % 60);
    assert ts[6..8] == Pad2(ms / 1000 % 60);
    assert ts[9..12] == Pad3(ms % 1000);
    MixedRadix(ms);
    ts
  }

  /** `parseTimeToSeconds` reads a printed timestamp back exactly. */
  lemma ParseFormattedTimestamp(ms: nat)
    requires ms < HourLimitMs
    ensures ParseTimeToMs(FormatTimestamp(ms)) == ms
  {
    ParseTimeToMsPositional(FormatTimestamp(ms));
  }

  lemma MixedRadix(ms: nat)
    ensures 3600000 * (ms / 3600000) + 60000 * (ms / 60000 % 60)
            + 1000 * (ms / 1000 % 60) + ms % 1000 == ms
  {
    var q := ms / 1000;
    assert q / 60 == ms / 60000;
    assert q / 60 / 60 == ms / 3600000;
  }

  predicate IsTimestampAt(line: string, i: nat) {
    i + 12 <= |line| && IsTimestamp(line[i..i + 12])
  }

  predicate IsArrowAt(line: string, i: nat) {
    i + 3 <= |line| && line[i] == '-' && line[i + 1] == '-' && line[i + 2] == '>'
  }

  /** First position at or after `i` that does not hold white space. */
  function SkipWhitespace(line: string, i: nat): (j: nat)
    requires i <= |line|
    ensures i <= j <= |line|
    ensures j < |line| ==> !IsWhitespace(line[j])
    decreases |line| - i
  {
    if i < |line| && IsWhitespace(line[i]) then SkipWhitespace(line, i + 1) else i
  }

  /** `\s*` is greedy: everything skipped is white space. */
  lemma {:induction false} SkipWhitespaceSpan(line: string, i: nat)
    requires i <= |line|
    ensures forall k :: i <= k < SkipWhitespace(line, i) ==> IsWhitespace(line[k])
    decreases |line| - i
  {
    if i < |line| && IsWhitespace(line[i]) {
      SkipWhitespaceSpan(line, i + 1);
    }
  }

  /** Where the two captured timestamps start. */
  datatype Captures = Captures(first: nat, second: nat)

  /** The pattern tried at start position `i`. Each `\s*` is followed by
      something that is not white space (`-` or a digit), so taking all of
      the white space is the only way it can succeed and no backtracking
      is needed. */
  function MatchAt(line: string, i: nat): (m: Option<Captures>)
    requires i <= |line|
    ensures m.Some? ==> m.value.first == i
                        && IsTimestampAt(line, m.value.first) && IsTimestampAt(line, m.value.second)
                        && i + 12 < m.value.second
  {
    if !IsTimestampAt(line, i) then None
    else
      var a := SkipWhitespace(line, i + 12);
      if !IsArrowAt(line, a) then None
      else
        var b := SkipWhitespace(line, a + 3);
        if IsTimestampAt(line, b) then Some(Captures(i, b)) else None
  }

  /** Positions `from` up to `to` hold nothing but white space: one way
      for `\s*` to match there. */
  predicate IsWhitespaceRun(line: string, from: nat, to: nat) {
    from <= to <= |line| && forall k :: from <= k < to ==> IsWhitespace(line[k])
  }

  /** The regular expression read literally: a timestamp at `i`, some run
      of white space up to an arrow at `a`, another run up to a timestamp
      at `b`. */
  predicate RegexAt(line: string, i: nat, a: nat, b: nat) {
    && IsTimestampAt(line, i)
    && IsWhitespaceRun(line, i + 12, a)
    && IsArrowAt(line, a)
    && IsWhitespaceRun(line, a + 3, b)
    && IsTimestampAt(line, b)
  }

  /** The scanner finds a match at `i` with its second capture at `b`
      exactly when the regular expression can match that way, so it
      misses no match of the pattern. */
  lemma MatchAtIsPattern(line: string, i: nat, b: nat)
    requires i <= |line|
    ensures MatchAt(line, i) == Some(Captures(i, b)) <==> exists a :: RegexAt(line, i, a, b)
  {
    if MatchAt(line, i) == Some(Captures(i, b)) {
      MatchGivesPattern(line, i, b);
    }
    if exists a: nat :: RegexAt(line, i, a, b) {
      var a: nat :| RegexAt(line, i, a, b);
      PatternGivesMatch(line, i, a, b);
    }
  }

  /** A match of the scanner is a match of the regular expression, the
      arrow sitting where the first white-space run ends. */
  lemma MatchGivesPattern(line: string, i: nat, b: nat)
    requires i <= |line| && MatchAt(line, i) == Some(Captures(i, b))
    ensures RegexAt(line, i, SkipWhitespace(line, i + 12), b)
  {
    var a := SkipWhitespace(line, i + 12);
    SkipWhitespaceSpan(line, i + 12);
    SkipWhitespaceSpan(line, a + 3);
  }

  /** Any way the regular expression matches at `i` is found by the
      scanner. */
  lemma PatternGivesMatch(line: string, i: nat, a: nat, b: nat)
    requires i <= |line| && RegexAt(line, i, a, b)
    ensures MatchAt(line, i) == Some(Captures(i, b))
  {
    SkipWhitespaceStops(line, i + 12, a);
    TimestampStartsWithDigit(line, b);
    SkipWhitespaceStops(line, a + 3, b);
  }

  /** Skipping white space over a run that ends before a character that
      is not white space stops exactly there. */
  lemma {:induction false} SkipWhitespaceStops(line: string, from: nat, to: nat)
    requires from <= to < |line|
    requires IsWhitespaceRun(line, from, to) && !IsWhitespace(line[to])
    ensures SkipWhitespace(line, from) == to
    decreases |line| - from
  {
    if from < to {
      SkipWhitespaceStops(line, from + 1, to);
    }
  }

  lemma TimestampStartsWithDigit(line: string, b: nat)
    requires IsTimestampAt(line, b)
    ensures b < |line| && !IsWhitespace(line[b])
  {
    assert line[b..b + 12][0] == line[b];
  }

  predicate MatchesAt(line: string, i: nat) {
    i <= |line| && MatchAt(line, i).Some?
  }

  /** The pattern tried at every start position of the line from `from`
      on, the end of the line included. */
  function MatchTable(line: string, from: nat): (ms: seq<Option<Captures>>)
    requires from <= |line| + 1
    ensures |ms| == |line| + 1 - from
    decreases |line| + 1 - from
  {
    if from == |line| + 1 then [] else [MatchAt(line, from)] + MatchTable(line, from + 1)
  }

  lemma {:induction false} MatchTableAt(line: string, from: nat, i: nat)
    requires from <= i <= |line|
    ensures MatchTable(line, from)[i - from] == MatchAt(line, i)
    decreases i - from
  {
    var ms := MatchTable(line, from);
    assert ms == [MatchAt(line, from)] + MatchTable(line, from + 1);
    if from < i {
      MatchTableAt(line, from + 1, i);
      assert ms[i - from] == MatchTable(line, from + 1)[i - from - 1];
    }
  }

  predicate Found(m: Option<Captures>) {
    m.Some?
  }

  /** `line.match(TIME_PATTERN)`: the leftmost match, found by trying the
      start positions in order. */
  function FindMatch(line: string): (r: Option<Captures>)
    ensures r.Some? ==> r.value.first <= |line| && MatchAt(line, r.value.first) == r
  {
    var ms := MatchTable(line, 0);
    match FindIndex(ms, Found)
    case None => None
    case Some(i) => MatchTableAt(line, 0, i); ms[i]
  }

  /** The search finds nothing exactly when the pattern matches nowhere,
      and no match starts before the one it finds. */
  lemma FindMatchLeftmost(line: string)
    ensures FindMatch(line).None? <==> forall i :: 0 <= i <= |line| ==> !MatchesAt(line, i)
    ensures FindMatch(line).Some? ==>
              forall i :: 0 <= i < FindMatch(line).value.first ==> !MatchesAt(line, i)
  {
    var ms := MatchTable(line, 0);
    var k := FindIndex(ms, Found);
    if k.None? {
      forall i | 0 <= i <= |line| ensures !MatchesAt(line, i) {
        MatchTableAt(line, 0, i);
        assert !Found(ms[i]);
      }
    } else {
      MatchTableAt(line, 0, k.value);
      assert FindMatch(line).value.first == k.value;
      forall i | 0 <= i < k.value ensures !MatchesAt(line, i) {
        MatchTableAt(line, 0, i);
        assert !Found(ms[i]);
      }
      assert MatchesAt(line, k.value);
    }
  }

  datatype TimeRange = TimeRange(startMs: nat, endMs: nat)

  /** `parseTimeLine`: the two captured timestamps of the leftmost match
      of the time pattern anywhere in the line, or `None` (`null`) when
      the pattern occurs nowhere. */
  function ParseTimeLine(line: string): Option<TimeRange> {
    match FindMatch(line)
    case None => None
    case Some(c) =>
      Some(TimeRange(TimestampMs(line[c.first..c.first + 12]),
                     TimestampMs(line[c.second..c.second + 12])))
  }

  /** A time-range line is recognised exactly when the pattern occurs
      somewhere in it. */
  lemma ParseTimeLineFound(line: string)
    ensures ParseTimeLine(line).Some? <==> exists i :: 0 <= i <= |line| && MatchesAt(line, i)
  {
    FindMatchLeftmost(line);
  }

  /** The times read are those of the leftmost occurrence of the pattern. */
  lemma ParseTimeLineLeftmost(line: string, i: nat)
    requires i <= |line| && MatchesAt(line, i)
    requires forall k :: 0 <= k < i ==> !MatchesAt(line, k)
    ensures ParseTimeLine(line)
            == Some(TimeRange(TimestampMs(line[i..i + 12]),
                              TimestampMs(line[MatchAt(line, i).value.second..MatchAt(line, i).value.second + 12])))
  {
    var c := MatchAt(line, i).value;
    assert c.first == i;
    assert FindMatch(line) == Some(c) by {
      FindMatchAt(line, i);
    }
    ParseTimeLineOf(line, c);
  }

  /** What `parseTimeLine` reports once the search has found a match. */
  lemma ParseTimeLineOf(line: string, c: Captures)
    requires FindMatch(line) == Some(c)
    ensures IsTimestampAt(line, c.first) && IsTimestampAt(line, c.second)
    ensures ParseTimeLine(line)
            == Some(TimeRange(TimestampMs(line[c.first..c.first + 12]),
                              TimestampMs(line[c.second..c.second + 12])))
  {
  }

  /** The search stops at the first position where the pattern matches. */
  lemma FindMatchAt(line: string, i: nat)
    requires i <= |line| && MatchesAt(line, i)
    requires forall k :: 0 <= k < i ==> !MatchesAt(line, k)
    ensures FindMatch(line) == MatchAt(line, i)
  {
    FindMatchLeftmost(line);
    var r := FindMatch(line);
    assert r.Some?;
    var j := r.value.first;
    assert MatchesAt(line, j);
    assert i <= j && j <= i;
  }

  /** A time-range line as a SubRip writer prints it. */
  function FormatTimeLine(startMs: nat, endMs: nat): string
    requires startMs < HourLimitMs && endMs < HourLimitMs
  {
    FormatTimestamp(startMs) + " --> " + FormatTimestamp(endMs)
  }

  /** Reading a printed time-range line gives back both times. */
  lemma {:induction false} ParseFormattedTimeLine(startMs: nat, endMs: nat)
    requires startMs < HourLimitMs && endMs < HourLimitMs
    ensures ParseTimeLine(FormatTimeLine(startMs, endMs)) == Some(TimeRange(startMs, endMs))
  {
    var a, b := FormatTimestamp(startMs), FormatTimestamp(endMs);
    PrintedRangeMatches(a, b);
    var line := a + " --> " + b;
    assert FindMatch(line) == Some(Captures(0, 17)) by {
      FindMatchAt(line, 0);
    }
    assert ParseTimeLine(line) == Some(TimeRange(TimestampMs(a), TimestampMs(b)));
  }

  lemma PrintedRangeMatches(a: string, b: string)
    requires IsTimestamp(a) && IsTimestamp(b)
    ensures MatchAt(a + " --> " + b, 0) == Some(Captures(0, 17))
    ensures (a + " --> " + b)[0..12] == a && (a + " --> " + b)[17..29] == b
  {
    var line := a + " --> " + b;
    assert line[0..12] == a;
    assert line[17..29] == b;
    assert line[12] == ' ' && line[13] == '-';
    assert SkipWhitespace(line, 12) == 13;
    assert line[13..16] == "-->";
    assert line[16] == ' ' && IsDigit(line[17]);
    assert SkipWhitespace(line, 16) == 17;
  }

  /** A printed time-range line has no white space at either end and no
      line break inside. */
  lemma FormattedTimeLineShape(startMs: nat, endMs: nat)
    requires startMs < HourLimitMs && endMs < HourLimitMs
    ensures IsTrimmed(FormatTimeLine(startMs, endMs))
    ensures |FormatTimeLine(startMs, endMs)| > 0
    ensures '\n' !in FormatTimeLine(startMs, endMs)
  {
    PrintedRangeShape(FormatTimestamp(startMs), FormatTimestamp(endMs));
  }

  lemma PrintedRangeShape(a: string, b: string)
    requires IsTimestamp(a) && IsTimestamp(b)
    ensures IsTrimmed(a + " --> " + b) && |a + " --> " + b| > 0
    ensures '\n' !in a + " --> " + b
  {
    var line := a + " --> " + b;
    assert line[0] == a[0] && line[28] == b[11];
    assert forall i :: 0 <= i < |line| ==> line[i] != '\n' by {
      assert forall i :: 0 <= i < 12 ==> line[i] == a[i];
      assert forall i :: 17 <= i < 29 ==> line[i] == b[i - 17];
    }
  }
}
