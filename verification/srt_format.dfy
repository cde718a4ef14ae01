/** A SubRip writer for captions, and the round trip it completes: the
    parser reads every printed document back exactly, one caption per
    block. */
module SrtFormat {
  import opened Wrappers
  import opened Text
  import opened SrtTime
  import opened SrtParser

  /** Text lines as a block may carry them: none blank, none with white
      space at either end. */
  predicate TextLinesOk(ts: seq<string>) {
    forall i :: 0 <= i < |ts| ==> ts[i] != "" && IsTrimmed(ts[i])
  }

  /** A caption the writer can print: a non-negative index, both times
      below 100 hours, and a text of one or more such lines. */
  predicate Printable(l: LyricLine) {
    && l.index.Some? && l.index.value >= 0
    && l.startMs < HourLimitMs && l.endMs < HourLimitMs
    && TextLinesOk(Split(l.text, '\n'))
  }

  predicate AllPrintable(ls: seq<LyricLine>) {
    forall i :: 0 <= i < |ls| ==> Printable(ls[i])
  }

  /** Index line, time-range line, then the text lines. */
  function BlockLines(l: LyricLine): seq<string>
    requires Printable(l)
  {
    [NatToString(l.index.value), FormatTimeLine(l.startMs, l.endMs)] + Split(l.text, '\n')
  }

  function FormatBlock(l: LyricLine): string
    requires Printable(l)
  {
    Join(BlockLines(l), '\n')
  }

  /** Blocks separated by one blank line. */
  function FormatSrt(ls: seq<LyricLine>): string
    requires AllPrintable(ls)
    decreases |ls|
  {
    if |ls| == 0 then ""
    else if |ls| == 1 then FormatBlock(ls[0])
    else FormatBlock(ls[0]) + "\n\n" + FormatSrt(ls[1..])
  }

  function DocumentLines(ls: seq<LyricLine>): seq<string>
    requires |ls| >= 1 && AllPrintable(ls)
    decreases |ls|
  {
    if |ls| == 1 then BlockLines(ls[0])
    else BlockLines(ls[0]) + [""] + DocumentLines(ls[1..])
  }

  lemma DigitsTrimmed(s: string)
    requires AllDigits(s) && |s| >= 1
    ensures IsTrimmed(s) && '\n' !in s
  {
    assert IsDigit(s[0]) && IsDigit(s[|s| - 1]);
    assert forall i :: 0 <= i < |s| ==> IsDigit(s[i]);
  }

  /** No line of a block holds a line feed; its first and last lines are
      non-blank and trimmed. */
  lemma BlockLinesShape(l: LyricLine)
    requires Printable(l)
    ensures forall i :: 0 <= i < |BlockLines(l)| ==> '\n' !in BlockLines(l)[i]
    ensures BlockLines(l)[0] != "" && IsTrimmed(BlockLines(l)[0])
    ensures BlockLines(l)[|BlockLines(l)| - 1] != ""
    ensures IsTrimmed(BlockLines(l)[|BlockLines(l)| - 1])
  {
    var a := NatToString(l.index.value);
    var b := FormatTimeLine(l.startMs, l.endMs);
    DigitsTrimmed(a);
    FormattedTimeLineShape(l.startMs, l.endMs);
    SplitLacksSeparator(l.text, '\n');
    LinesShape(a, b, Split(l.text, '\n'));
  }

  lemma LinesShape(a: string, b: string, ts: seq<string>)
    requires a != "" && IsTrimmed(a) && '\n' !in a && '\n' !in b
    requires |ts| >= 1 && TextLinesOk(ts)
    requires forall i :: 0 <= i < |ts| ==> '\n' !in ts[i]
    ensures forall i :: 0 <= i < |[a, b] + ts| ==> '\n' !in ([a, b] + ts)[i]
    ensures ([a, b] + ts)[0] != "" && IsTrimmed(([a, b] + ts)[0])
    ensures ([a, b] + ts)[|[a, b] + ts| - 1] != ""
    ensures IsTrimmed(([a, b] + ts)[|[a, b] + ts| - 1])
  {
    var lines := [a, b] + ts;
    assert lines[|lines| - 1] == ts[|ts| - 1];
    forall i | 0 <= i < |lines| ensures '\n' !in lines[i] {
      if i >= 2 {
        assert lines[i] == ts[i - 2];
      }
    }
  }

  /** The first and last characters of a join are those of the first and
      last pieces. */
  lemma {:induction false} JoinEnds(parts: seq<string>, sep: char)
    requires |parts| >= 1 && parts[0] != "" && parts[|parts| - 1] != ""
    ensures |Join(parts, sep)| > 0
    ensures Join(parts, sep)[0] == parts[0][0]
    ensures Join(parts, sep)[|Join(parts, sep)| - 1] == parts[|parts| - 1][|parts[|parts| - 1]| - 1]
    decreases |parts|
  {
    if |parts| > 1 {
      var init := parts[..|parts| - 1];
      if |init| > 1 && init[|init| - 1] == "" {
        JoinFirst(init, sep);
      } else {
        JoinEnds(init, sep);
      }
    }
  }

  lemma {:induction false} JoinFirst(parts: seq<string>, sep: char)
    requires |parts| >= 1 && parts[0] != ""
    ensures |Join(parts, sep)| > 0 && Join(parts, sep)[0] == parts[0][0]
    decreases |parts|
  {
    if |parts| > 1 {
      JoinFirst(parts[..|parts| - 1], sep);
    }
  }

  lemma TextTrimmed(l: LyricLine)
    requires Printable(l)
    ensures l.text != "" && IsTrimmed(l.text)
  {
    var ts := Split(l.text, '\n');
    JoinSplit(l.text, '\n');
    JoinEnds(ts, '\n');
  }

  /** The lines of a printed document are the blocks' lines with a blank
      line between blocks. */
  lemma {:induction false} FormatLines(ls: seq<LyricLine>)
    requires |ls| >= 1 && AllPrintable(ls)
    ensures Split(FormatSrt(ls), '\n') == DocumentLines(ls)
    decreases |ls|
  {
    BlockLinesShape(ls[0]);
    SplitJoin(BlockLines(ls[0]), '\n');
    if |ls| > 1 {
      SplitSeparated(FormatBlock(ls[0]), FormatSrt(ls[1..]));
      FormatLines(ls[1..]);
    }
  }

  /** A blank line between two texts shows up as one empty line. */
  lemma SplitSeparated(x: string, y: string)
    ensures Split(x + "\n\n" + y, '\n') == Split(x, '\n') + [""] + Split(y, '\n')
  {
    assert x + "\n\n" + y == x + ['\n'] + ("" + ['\n'] + y);
    SplitConcat(x, "" + ['\n'] + y, '\n');
    SplitConcat("", y, '\n');
  }

  /** A printed document has no white space at either end, so the parser's
      initial `trim` leaves it alone. */
  lemma {:induction false} FormatTrimmed(ls: seq<LyricLine>)
    requires |ls| >= 1 && AllPrintable(ls)
    ensures |FormatSrt(ls)| > 0
    ensures !IsWhitespace(FormatSrt(ls)[0])
    ensures !IsWhitespace(FormatSrt(ls)[|FormatSrt(ls)| - 1])
    decreases |ls|
  {
    var block := BlockLines(ls[0]);
    BlockLinesShape(ls[0]);
    JoinEnds(block, '\n');
    if |ls| > 1 {
      FormatTrimmed(ls[1..]);
      var f := FormatSrt(ls);
      assert f[0] == FormatBlock(ls[0])[0];
      assert f[|f| - 1] == FormatSrt(ls[1..])[|FormatSrt(ls[1..])| - 1];
    }
  }

  /** Reading one printed block from the index phase with nothing gathered
      yields exactly that caption's fields, still in the text phase. */
  lemma ParseBlock(p: Progress, l: LyricLine)
    requires Printable(l)
    requires p.state.text == "" && p.state.phase == ExpectIndex
    ensures Run(p, BlockLines(l))
            == Progress(ParserState(l.index, l.startMs, l.endMs, l.text, ExpectText), p.lyrics)
  {
    var a := NatToString(l.index.value);
    var b := FormatTimeLine(l.startMs, l.endMs);
    var ts := Split(l.text, '\n');
    var p2 := Progress(p.state.(index := l.index, startMs := l.startMs, endMs := l.endMs,
                                phase := ExpectText), p.lyrics);
    ParseHeader(p, l);
    RunAppend(p, [a, b], ts);
    ParseTextLines(p2, l.text);
  }

  /** The index line and the time-range line of a printed block. */
  lemma ParseHeader(p: Progress, l: LyricLine)
    requires Printable(l)
    requires p.state.phase == ExpectIndex
    ensures Run(p, [NatToString(l.index.value), FormatTimeLine(l.startMs, l.endMs)])
            == Progress(p.state.(index := l.index, startMs := l.startMs, endMs := l.endMs,
                                 phase := ExpectText), p.lyrics)
  {
    var a := NatToString(l.index.value);
    var b := FormatTimeLine(l.startMs, l.endMs);
    DigitsTrimmed(a);
    ParseIntNatToString(l.index.value);
    var p1 := Step(p, a);
    assert p1 == Progress(p.state.(index := l.index, phase := ExpectTime), p.lyrics);
    FormattedTimeLineShape(l.startMs, l.endMs);
    ParseFormattedTimeLine(l.startMs, l.endMs);
    RunSingle(p1, b);
    assert [a, b][1..] == [b];
  }

  /** The text lines of a printed block gather back into its text. */
  lemma ParseTextLines(p: Progress, text: string)
    requires p.state.phase == ExpectText && p.state.text == ""
    requires TextLinesOk(Split(text, '\n'))
    ensures Run(p, Split(text, '\n')) == Progress(p.state.(text := text), p.lyrics)
  {
    var ts := Split(text, '\n');
    TextLinesAccumulate(p, ts);
    TrimAllTrimmed(ts);
    JoinSplit(text, '\n');
  }

  /** Reading a printed document and closing its last block appends its
      captions, in order, to what was emitted before. */
  lemma {:induction false} ParseDocument(p: Progress, ls: seq<LyricLine>)
    requires |ls| >= 1 && AllPrintable(ls)
    requires p.state.text == "" && p.state.phase == ExpectIndex
    ensures Finish(Run(p, DocumentLines(ls))) == p.lyrics + ls
    decreases |ls|
  {
    if |ls| == 1 {
      SingleDocument(p, ls);
    } else {
      var q1 := DocumentHead(p, ls);
      TailPrintable(ls);
      ParseDocument(q1, ls[1..]);
      ConsAssoc(p.lyrics, ls);
    }
  }

  lemma TailPrintable(ls: seq<LyricLine>)
    requires |ls| >= 1 && AllPrintable(ls)
    ensures AllPrintable(ls[1..])
  {
    forall i | 0 <= i < |ls| - 1 ensures Printable(ls[1..][i]) {
      assert ls[1..][i] == ls[i + 1];
    }
  }

  lemma ConsAssoc(a: seq<LyricLine>, ls: seq<LyricLine>)
    requires |ls| >= 1
    ensures a + ls == (a + [ls[0]]) + ls[1..]
  {
    assert ls == [ls[0]] + ls[1..];
  }

  lemma SingleDocument(p: Progress, ls: seq<LyricLine>)
    requires |ls| == 1 && AllPrintable(ls)
    requires p.state.text == "" && p.state.phase == ExpectIndex
    ensures Finish(Run(p, DocumentLines(ls))) == p.lyrics + ls
  {
    var l := ls[0];
    assert Run(p, DocumentLines(ls)) == Run(p, BlockLines(l)) by {
      assert DocumentLines(ls) == BlockLines(l);
    }
    LastBlock(p, l);
    assert ls == [l];
  }

  lemma DocumentHead(p: Progress, ls: seq<LyricLine>) returns (q1: Progress)
    requires |ls| > 1 && AllPrintable(ls)
    requires p.state.text == "" && p.state.phase == ExpectIndex
    ensures q1.state.text == "" && q1.state.phase == ExpectIndex && q1.lyrics == p.lyrics + [ls[0]]
    ensures Run(p, DocumentLines(ls)) == Run(q1, DocumentLines(ls[1..]))
  {
    var rest := DocumentLines(ls[1..]);
    assert DocumentLines(ls) == BlockLines(ls[0]) + [""] + rest;
    q1 := InnerBlock(p, ls[0], rest);
  }

  /** The last block is closed by the end of the input. */
  lemma LastBlock(p: Progress, l: LyricLine)
    requires Printable(l)
    requires p.state.text == "" && p.state.phase == ExpectIndex
    ensures Finish(Run(p, BlockLines(l))) == p.lyrics + [l]
  {
    ParseBlock(p, l);
    TextTrimmed(l);
    FinishBlock(Run(p, BlockLines(l)), l);
  }

  /** A block followed by a blank line emits its caption and leaves the
      parser ready for the next block. */
  lemma InnerBlock(p: Progress, l: LyricLine, rest: seq<string>) returns (q1: Progress)
    requires Printable(l)
    requires p.state.text == "" && p.state.phase == ExpectIndex
    ensures q1.state.text == "" && q1.state.phase == ExpectIndex && q1.lyrics == p.lyrics + [l]
    ensures Run(p, BlockLines(l) + [""] + rest) == Run(q1, rest)
  {
    ParseBlock(p, l);
    TextTrimmed(l);
    var q := Run(p, BlockLines(l));
    q1 := Progress(q.state.(text := "", phase := ExpectIndex), p.lyrics + [l]);
    CloseBlock(q, l);
    RunAppend(p, BlockLines(l), [""]);
    RunAppend(p, BlockLines(l) + [""], rest);
  }

  lemma FinishBlock(q: Progress, l: LyricLine)
    requires q.state == ParserState(l.index, l.startMs, l.endMs, l.text, ExpectText)
    requires l.text != "" && IsTrimmed(l.text)
    ensures SaveLyricBlock(q.state, q.lyrics) == q.lyrics + [l]
  {
    SaveCoherent(q.state, q.lyrics);
  }

  lemma CloseBlock(q: Progress, l: LyricLine)
    requires q.state == ParserState(l.index, l.startMs, l.endMs, l.text, ExpectText)
    requires l.text != "" && IsTrimmed(l.text)
    ensures Run(q, [""]) == Progress(q.state.(text := "", phase := ExpectIndex), q.lyrics + [l])
  {
    RunSingle(q, "");
    BlankLineCloses(q, "");
  }

  /** The round trip: the parser reads back every printable caption list
      from its printed document, so `n` blocks give exactly `n` captions
      with their index, times and text. */
  lemma {:induction false} ParseFormatRoundTrip(ls: seq<LyricLine>)
    requires AllPrintable(ls)
    ensures ParseSrt(FormatSrt(ls)) == ls
  {
    if |ls| == 0 {
      BlankDocument(FormatSrt(ls));
    } else {
      var doc := FormatSrt(ls);
      assert Lines(doc) == DocumentLines(ls) by {
        FormatTrimmed(ls);
        assert IsTrimmed(doc);
        FormatLines(ls);
      }
      ParseDocument(Progress(InitialState, []), ls);
    }
  }

  /** A document of white space alone, the empty one included, holds no
      caption. */
  lemma BlankDocument(content: string)
    requires AllWhitespace(content)
    ensures ParseSrt(content) == []
  {
    var start := Progress(InitialState, []);
    var t := Trim(content);
    assert Lines(content) == [t] && IsBlank(t) by {
      TrimEmpty(content);
      assert t == "";
    }
    var p := Step(start, t);
    assert Run(start, Lines(content)) == p by { RunSingle(start, t); }
    assert p.state.text == "" && p.lyrics == [] by { BlankLineCloses(start, t); }
    assert Finish(p) == [];
  }

}
