/** The pieces of the JavaScript string library the caption parser leans on:
    white space as `String.prototype.trim` and the regular-expression class
    `\s` understand it, `trim`, `split` on a single character, and
    `Number.parseInt` in base 10. */
module Text {
  import opened Wrappers

  /** ECMAScript WhiteSpace and LineTerminator code points. */
  predicate IsWhitespace(c: char) {
    || c == '\t' || c == '\n' || c == '\U{000B}' || c == '\U{000C}' || c == '\r'
    || c == ' ' || c == '\U{00A0}' || c == '\U{1680}'
    || ('\U{2000}' <= c <= '\U{200A}')
    || c == '\U{2028}' || c == '\U{2029}' || c == '\U{202F}' || c == '\U{205F}'
    || c == '\U{3000}' || c == '\U{FEFF}'
  }

  predicate AllWhitespace(s: string) {
    forall i :: 0 <= i < |s| ==> IsWhitespace(s[i])
  }

  /** Neither end of `s` is white space: what `trim` leaves behind. */
  predicate IsTrimmed(s: string) {
    |s| == 0 || (!IsWhitespace(s[0]) && !IsWhitespace(s[|s| - 1]))
  }

  /** Drops the leading white space: the result is a suffix of `s` that
      does not start with white space. */
  function TrimStart(s: string): (r: string)
    ensures |r| <= |s| && r == s[|s| - |r|..]
    ensures |r| == 0 || !IsWhitespace(r[0])
  {
    if |s| > 0 && IsWhitespace(s[0]) then TrimStart(s[1..]) else s
  }

  /** Drops the trailing white space: the result is a prefix of `s` that
      does not end with white space. */
  function TrimEnd(s: string): (r: string)
    ensures |r| <= |s| && r == s[..|r|]
    ensures |r| == 0 || !IsWhitespace(r[|r| - 1])
  {
    if |s| > 0 && IsWhitespace(s[|s| - 1]) then TrimEnd(s[..|s| - 1]) else s
  }

  /** Only white space is dropped from the front. */
  lemma {:induction false} TrimStartDropsWhitespace(s: string)
    ensures AllWhitespace(s[..|s| - |TrimStart(s)|])
  {
    if |s| > 0 && IsWhitespace(s[0]) {
      var r := TrimStart(s[1..]);
      TrimStartDropsWhitespace(s[1..]);
      var k := |s| - |r|;
      forall j | 0 <= j < k ensures IsWhitespace(s[..k][j]) {
        if j > 0 {
          assert s[..k][j] == s[1..][..k - 1][j - 1];
        }
      }
    }
  }

  /** Only white space is dropped from the back. */
  lemma {:induction false} TrimEndDropsWhitespace(s: string)
    ensures AllWhitespace(s[|TrimEnd(s)|..])
  {
    if |s| > 0 && IsWhitespace(s[|s| - 1]) {
      var r := TrimEnd(s[..|s| - 1]);
      TrimEndDropsWhitespace(s[..|s| - 1]);
      forall j | 0 <= j < |s| - |r| ensures IsWhitespace(s[|r|..][j]) {
        if j < |s| - 1 - |r| {
          assert s[|r|..][j] == s[..|s| - 1][|r|..][j];
        }
      }
    }
  }

  /** `String.prototype.trim`. */
  function Trim(s: string): (r: string)
    ensures IsTrimmed(r)
    ensures |r| <= |s|
    ensures IsTrimmed(s) ==> r == s
  {
    var t := TrimStart(s);
    var r := TrimEnd(t);
    assert |r| > 0 ==> r[0] == t[0];
    r
  }

  /** `trim` leaves nothing exactly when the string is all white space. */
  lemma TrimEmpty(s: string)
    ensures |Trim(s)| == 0 <==> AllWhitespace(s)
  {
    var t := TrimStart(s);
    var r := TrimEnd(t);
    TrimStartDropsWhitespace(s);
    TrimEndDropsWhitespace(t);
    if |r| == 0 {
      assert t[|r|..] == t;
      assert |t| == 0;
      assert s[..|s| - |t|] == s;
    }
    if |t| > 0 {
      assert t[0] == s[|s| - |t|];
    }
  }

  /** `trim` removes exactly the white space at both ends: the result is
      the slice of `s` left once a white-space prefix and a white-space
      suffix are cut away. */
  lemma TrimIsInnerSlice(s: string)
    ensures exists a, b :: 0 <= a <= b <= |s| && Trim(s) == s[a..b]
                           && AllWhitespace(s[..a]) && AllWhitespace(s[b..])
  {
    var t := TrimStart(s);
    var r := TrimEnd(t);
    TrimStartDropsWhitespace(s);
    TrimEndDropsWhitespace(t);
    var a := |s| - |t|;
    var b := a + |r|;
    assert r == s[a..b] by {
      assert t == s[a..];
      assert r == t[..|r|];
    }
    assert s[b..] == t[|r|..];
  }

  /** Position of the first `c` in `s`. */
  function IndexOf(s: string, c: char): (i: nat)
    requires c in s
    ensures i < |s| && s[i] == c && c !in s[..i]
  {
    if s[0] == c then 0 else
      var i := IndexOf(s[1..], c);
      assert s[..i + 1] == [s[0]] + s[1..][..i];
      1 + i
  }

  /** `s.split(sep)` for a one-character separator: at least one piece. */
  function Split(s: string, sep: char): (parts: seq<string>)
    ensures |parts| >= 1
    decreases |s|
  {
    if sep in s then
      var i := IndexOf(s, sep);
      [s[..i]] + Split(s[i + 1..], sep)
    else
      [s]
  }

  /** No piece of a split holds the separator. */
  lemma {:induction false} SplitLacksSeparator(s: string, sep: char)
    ensures forall i :: 0 <= i < |Split(s, sep)| ==> sep !in Split(s, sep)[i]
    decreases |s|
  {
    if sep in s {
      var i := IndexOf(s, sep);
      var rest := Split(s[i + 1..], sep);
      SplitLacksSeparator(s[i + 1..], sep);
      var parts := Split(s, sep);
      assert parts == [s[..i]] + rest;
      forall j | 0 <= j < |parts| ensures sep !in parts[j] {
        if j == 0 {
          assert parts[0] == s[..i];
        } else {
          assert parts[j] == rest[j - 1];
        }
      }
    }
  }

  /** `parts.join(sep)`; the text accumulated line by line from the end. */
  function Join(parts: seq<string>, sep: char): string
    requires |parts| >= 1
  {
    if |parts| == 1 then parts[0]
    else Join(parts[..|parts| - 1], sep) + [sep] + parts[|parts| - 1]
  }

  /** Joining one more piece appends the separator and the piece. */
  lemma JoinSnoc(parts: seq<string>, x: string, sep: char)
    requires |parts| >= 1
    ensures Join(parts + [x], sep) == Join(parts, sep) + [sep] + x
  {
    assert (parts + [x])[..|parts|] == parts;
  }

  /** Splitting at a separator splits the two sides independently. */
  lemma {:induction false} SplitConcat(a: string, b: string, sep: char)
    ensures Split(a + [sep] + b, sep) == Split(a, sep) + Split(b, sep)
    decreases |a|
  {
    var s := a + [sep] + b;
    assert sep in s by { assert s[|a|] == sep; }
    if sep in a {
      var i := IndexOf(a, sep);
      var tail := a[i + 1..];
      assert Split(s, sep) == [a[..i]] + Split(tail + [sep] + b, sep) by {
        assert s[..i] == a[..i];
        IndexOfFirst(s, sep, i);
        assert s[i + 1..] == tail + [sep] + b;
      }
      SplitConcat(tail, b, sep);
      ConcatAssoc([a[..i]], Split(tail, sep), Split(b, sep));
    } else {
      assert s[..|a|] == a;
      IndexOfFirst(s, sep, |a|);
      assert s[|a| + 1..] == b;
    }
  }

  lemma ConcatAssoc<T>(x: seq<T>, y: seq<T>, z: seq<T>)
    ensures x + (y + z) == (x + y) + z
  {
  }

  lemma IndexOfFirst(s: string, c: char, i: nat)
    requires i < |s| && s[i] == c && c !in s[..i]
    ensures IndexOf(s, c) == i
  {
    var j := IndexOf(s, c);
  }

  lemma {:induction false} JoinCons(x: string, rest: seq<string>, sep: char)
    requires |rest| >= 1
    ensures Join([x] + rest, sep) == x + [sep] + Join(rest, sep)
    decreases |rest|
  {
    var n := |rest|;
    if n > 1 {
      var init := rest[..n - 1];
      JoinCons(x, init, sep);
      JoinConsStep(x, rest, sep);
    } else {
      assert ([x] + rest)[..1] == [x];
    }
  }

  lemma JoinConsStep(x: string, rest: seq<string>, sep: char)
    requires |rest| > 1
    requires Join([x] + rest[..|rest| - 1], sep) == x + [sep] + Join(rest[..|rest| - 1], sep)
    ensures Join([x] + rest, sep) == x + [sep] + Join(rest, sep)
  {
    var n := |rest|;
    var parts := [x] + rest;
    var init := rest[..n - 1];
    var last := rest[n - 1];
    var j := Join(init, sep);
    assert Join(parts, sep) == Join([x] + init, sep) + [sep] + last by {
      assert parts[..n] == [x] + init;
      assert parts[n] == last;
    }
    assert Join(rest, sep) == j + [sep] + last;
    Regroup(x, j, last, sep);
  }

  lemma Regroup(x: string, j: string, last: string, sep: char)
    ensures x + [sep] + j + [sep] + last == x + [sep] + (j + [sep] + last)
  {
  }

  /** `split` undoes `join` when no piece holds the separator. */
  lemma {:induction false} SplitJoin(parts: seq<string>, sep: char)
    requires |parts| >= 1
    requires forall i :: 0 <= i < |parts| ==> sep !in parts[i]
    ensures Split(Join(parts, sep), sep) == parts
    decreases |parts|
  {
    if |parts| > 1 {
      var init := parts[..|parts| - 1];
      SplitJoin(init, sep);
      SplitConcat(Join(init, sep), parts[|parts| - 1], sep);
      LastSplit(parts);
    }
  }

  /** A non-empty sequence is its front followed by its last element. */
  lemma LastSplit<T>(s: seq<T>)
    requires |s| > 0
    ensures s == s[..|s| - 1] + [s[|s| - 1]]
  {
  }

  /** `join` undoes `split`. */
  lemma {:induction false} JoinSplit(s: string, sep: char)
    ensures Join(Split(s, sep), sep) == s
    decreases |s|
  {
    if sep in s {
      var i := IndexOf(s, sep);
      var rest := Split(s[i + 1..], sep);
      JoinSplit(s[i + 1..], sep);
      JoinCons(s[..i], rest, sep);
      assert s == s[..i] + [sep] + s[i + 1..];
    }
  }

  predicate IsDigit(c: char) {
    '0' <= c <= '9'
  }

  predicate AllDigits(s: string) {
    forall i :: 0 <= i < |s| ==> IsDigit(s[i])
  }

  function DigitValue(c: char): nat
    requires IsDigit(c)
  {
    c as int - '0' as int
  }

  function DigitChar(d: nat): (c: char)
    requires d < 10
    ensures IsDigit(c) && DigitValue(c) == d
  {
    ('0' as int + d) as char
  }

  /** The value of a string of decimal digits, as `Number` reads it. */
  function DigitsValue(s: string): nat
    requires AllDigits(s)
  {
    if |s| == 0 then 0 else 10 * DigitsValue(s[..|s| - 1]) + DigitValue(s[|s| - 1])
  }

  /** Length of the run of decimal digits that starts `s`. */
  function LeadingDigits(s: string): (n: nat)
    ensures n <= |s| && AllDigits(s[..n])
    ensures n < |s| ==> !IsDigit(s[n])
  {
    if |s| > 0 && IsDigit(s[0]) then
      var n := LeadingDigits(s[1..]);
      assert s[..n + 1] == [s[0]] + s[1..][..n];
      1 + n
    else
      0
  }

  /** `Number.parseInt(s, 10)`: leading white space and an optional sign,
      then the longest run of decimal digits; `None` stands for `NaN`. */
  function ParseInt(s: string): (r: Option<int>)
    ensures r.None? <==> LeadingDigits(Unsigned(TrimStart(s))) == 0
  {
    var t := TrimStart(s);
    var u := Unsigned(t);
    var n := LeadingDigits(u);
    if n == 0 then None
    else
      var v: int := DigitsValue(u[..n]);
      if |t| > 0 && t[0] == '-' then Some(-v) else Some(v)
  }

  /** What is left once an optional leading sign is dropped. */
  function Unsigned(t: string): string {
    if |t| > 0 && (t[0] == '-' || t[0] == '+') then t[1..] else t
  }

  /** The canonical decimal spelling of `n`: digits only, no leading zero,
      and reading it back gives `n`. */
  function NatToString(n: nat): (s: string)
    ensures |s| >= 1 && AllDigits(s) && DigitsValue(s) == n
    ensures |s| > 1 ==> s[0] != '0'
  {
    if n < 10 then [DigitChar(n)]
    else
      var p := NatToString(n / 10);
      var s := p + [DigitChar(n % 10)];
      assert s[..|s| - 1] == p;
      s
  }

  lemma LeadingDigitsConcat(x: string, rest: string)
    requires AllDigits(x)
    requires |rest| == 0 || !IsDigit(rest[0])
    ensures LeadingDigits(x + rest) == |x|
  {
    var y := x + rest;
    assert y[..|x|] == x;
    assert |x| < |y| ==> y[|x|] == rest[0];
    LeadingDigitsUnique(y, |x|);
  }

  /** The run of leading digits is the only prefix made of digits that is
      not followed by one. */
  lemma LeadingDigitsUnique(s: string, n: nat)
    requires n <= |s| && AllDigits(s[..n])
    requires n < |s| ==> !IsDigit(s[n])
    ensures LeadingDigits(s) == n
  {
    var m := LeadingDigits(s);
    forall i | 0 <= i < n ensures IsDigit(s[i]) {
      assert s[..n][i] == s[i];
    }
    forall i | 0 <= i < m ensures IsDigit(s[i]) {
      assert s[..m][i] == s[i];
    }
  }

  /** `parseInt` reads back the digits it is given, and stops at the first
      character that is not a digit. */
  lemma ParseIntPrefix(n: nat, rest: string)
    requires |rest| == 0 || !IsDigit(rest[0])
    ensures ParseInt(NatToString(n) + rest) == Some(n)
  {
    var d := NatToString(n);
    var s := d + rest;
    assert TrimStart(s) == s by { assert !IsWhitespace(s[0]); }
    assert Unsigned(s) == s;
    LeadingDigitsConcat(d, rest);
    assert s[..|d|] == d;
  }

  lemma ParseIntNatToString(n: nat)
    ensures ParseInt(NatToString(n)) == Some(n)
  {
    ParseIntPrefix(n, "");
    assert NatToString(n) + "" == NatToString(n);
  }

  /** A leading minus sign negates the digits that follow it. */
  lemma ParseIntNegative(n: nat, rest: string)
    requires |rest| == 0 || !IsDigit(rest[0])
    ensures ParseInt(['-'] + (NatToString(n) + rest)) == Some(-(n as int))
  {
    var d := NatToString(n);
    var u := d + rest;
    MinusSign(u);
    assert LeadingDigits(u) == |d| && u[..|d|] == d by { LeadingDigitsConcat(d, rest); }
  }

  lemma MinusSign(u: string)
    ensures TrimStart(['-'] + u) == ['-'] + u
    ensures Unsigned(['-'] + u) == u
  {
    var s := ['-'] + u;
    assert !IsWhitespace(s[0]);
    assert s[1..] == u;
  }
}
