/** `parseSRT`: a three-phase line machine folded over the trimmed lines
    of a SubRip document. A blank line, or the end of the input, closes the
    current block, which becomes a caption only if it gathered some text. */
module SrtParser {
  import opened Wrappers
  import opened Text
  import opened SrtTime

  /** `LyricLine`. Times are milliseconds; `index` is `None` where
      `parseInt` produced `NaN`. */
  datatype LyricLine = LyricLine(index: Option<int>, startMs: nat, endMs: nat, text: string)

  datatype Phase = ExpectIndex | ExpectTime | ExpectText

  /** `ParserState`: the fields of the block being read, kept from block to
      block until a new index or time line replaces them. */
  datatype ParserState = ParserState(index: Option<int>, startMs: nat, endMs: nat,
                                     text: string, phase: Phase)

  /** The parser state together with the captions emitted so far. */
  datatype Progress = Progress(state: ParserState, lyrics: seq<LyricLine>)

  const InitialState: ParserState := ParserState(Some(0), 0, 0, "", ExpectIndex)

  /** `createLyricLine`: no caption for an empty text; otherwise the
      caption carries the text trimmed. */
  function CreateLyricLine(index: Option<int>, startMs: nat, endMs: nat, text: string)
    : (r: Option<LyricLine>)
    ensures r.None? <==> text == ""
    ensures r.Some? ==> r.value.index == index && r.value.startMs == startMs
                        && r.value.endMs == endMs && IsTrimmed(r.value.text)
    ensures r.Some? && IsTrimmed(text) ==> r.value.text == text
    ensures r.Some? ==> exists a, b :: 0 <= a <= b <= |text| && r.value.text == text[a..b]
                                       && AllWhitespace(text[..a]) && AllWhitespace(text[b..])
  {
    if text == "" then None
    else
      TrimIsInnerSlice(text);
      Some(LyricLine(index, startMs, endMs, Trim(text)))
  }

  /** `saveLyricBlock`. */
  function SaveLyricBlock(st: ParserState, lyrics: seq<LyricLine>): seq<LyricLine> {
    match CreateLyricLine(st.index, st.startMs, st.endMs, st.text)
    case None => lyrics
    case Some(l) => lyrics + [l]
  }

  /** `handleEmptyLine`: close the block, then forget its text and expect an
      index; index and times stay as they were. */
  function HandleEmptyLine(p: Progress): Progress {
    Progress(p.state.(text := "", phase := ExpectIndex), SaveLyricBlock(p.state, p.lyrics))
  }

  /** `handleIndexLine`. */
  function HandleIndexLine(line: string, st: ParserState): ParserState {
    st.(index := ParseInt(line), phase := ExpectTime)
  }

  /** `handleTimeLine`: a line without a time range changes nothing. */
  function HandleTimeLine(line: string, st: ParserState): ParserState {
    match ParseTimeLine(line)
    case None => st
    case Some(range) => st.(startMs := range.startMs, endMs := range.endMs, phase := ExpectText)
  }

  /** `handleTextLine`. */
  function HandleTextLine(line: string, st: ParserState): ParserState {
    st.(text := st.text + (if st.text != "" then "\n" else "") + line)
  }

  /** One iteration of the loop in `parseSRT`. */
  function Step(p: Progress, line: string): Progress {
    var t := Trim(line);
    if t == "" then HandleEmptyLine(p)
    else
      match p.state.phase
      case ExpectIndex => Progress(HandleIndexLine(t, p.state), p.lyrics)
      case ExpectTime => Progress(HandleTimeLine(t, p.state), p.lyrics)
      case ExpectText => Progress(HandleTextLine(t, p.state), p.lyrics)
  }

  function Run(p: Progress, lines: seq<string>): Progress
    decreases |lines|
  {
    if |lines| == 0 then p else Run(Step(p, lines[0]), lines[1..])
  }

  /** The lines `parseSRT` walks: the whole input trimmed, then split at
      line feeds. */
  function Lines(content: string): seq<string> {
    Split(Trim(content), '\n')
  }

  predicate IsBlank(line: string) {
    Trim(line) == ""
  }

  function BlankCount(lines: seq<string>): nat {
    if |lines| == 0 then 0
    else (if IsBlank(lines[0]) then 1 else 0) + BlankCount(lines[1..])
  }

  /** `parseSRT`. Every caption has text, with no white space at either
      end, and there is at most one caption per blank line plus the one
      closed by the end of the input. */
  function ParseSrt(content: string): (lyrics: seq<LyricLine>)
    ensures Captioned(lyrics)
    ensures |lyrics| <= BlankCount(Lines(content)) + 1
  {
    ParseLines(Lines(content))
  }

  /** The loop of `parseSRT` and the final save, over given lines. */
  function ParseLines(lines: seq<string>): (lyrics: seq<LyricLine>)
    ensures Captioned(lyrics)
    ensures |lyrics| <= BlankCount(lines) + 1
  {
    var start := Progress(InitialState, []);
    var p := Run(start, lines);
    RunCoherent(start, lines);
    RunCount(start, lines);
    SaveCaptioned(p.state, p.lyrics);
    Finish(p)
  }

  /** The save after the loop: the block still open at the end of the
      input is closed too. */
  function Finish(p: Progress): seq<LyricLine> {
    SaveLyricBlock(p.state, p.lyrics)
  }

  /** What holds of the parser state between lines: the text gathered so
      far has no white space at either end, and only the text phase holds
      any. */
  predicate Coherent(st: ParserState) {
    IsTrimmed(st.text) && (st.text != "" ==> st.phase == ExpectText)
  }

  predicate Captioned(lyrics: seq<LyricLine>) {
    forall i :: 0 <= i < |lyrics| ==> lyrics[i].text != "" && IsTrimmed(lyrics[i].text)
  }

  /** Closing a coherent block emits its text exactly as gathered. */
  lemma SaveCoherent(st: ParserState, lyrics: seq<LyricLine>)
    requires Coherent(st)
    ensures st.text == "" ==> SaveLyricBlock(st, lyrics) == lyrics
    ensures st.text != "" ==> SaveLyricBlock(st, lyrics)
                              == lyrics + [LyricLine(st.index, st.startMs, st.endMs, st.text)]
  {
  }

  lemma SaveCaptioned(st: ParserState, lyrics: seq<LyricLine>)
    requires Coherent(st) && Captioned(lyrics)
    ensures Captioned(SaveLyricBlock(st, lyrics))
    ensures |SaveLyricBlock(st, lyrics)| <= |lyrics| + 1
  {
    SaveCoherent(st, lyrics);
    var r := SaveLyricBlock(st, lyrics);
    if st.text != "" {
      assert forall i :: 0 <= i < |lyrics| ==> r[i] == lyrics[i];
      assert r[|lyrics|].text == st.text;
    }
  }

  /** Appending a trimmed, non-blank line keeps the text trimmed. */
  lemma AppendTrimmed(acc: string, t: string)
    requires IsTrimmed(acc) && IsTrimmed(t) && t != ""
    ensures IsTrimmed(acc + (if acc != "" then "\n" else "") + t)
    ensures acc + (if acc != "" then "\n" else "") + t != ""
  {
    var s := acc + (if acc != "" then "\n" else "") + t;
    assert s[|s| - 1] == t[|t| - 1];
    assert s[0] == (if acc != "" then acc[0] else t[0]);
  }

  lemma {:induction false} StepCoherent(p: Progress, line: string)
    requires Coherent(p.state) && Captioned(p.lyrics)
    ensures Coherent(Step(p, line).state) && Captioned(Step(p, line).lyrics)
  {
    var t := Trim(line);
    var q := Step(p, line);
    if t == "" {
      assert q == HandleEmptyLine(p);
      SaveCaptioned(p.state, p.lyrics);
    } else {
      assert q.lyrics == p.lyrics;
      match p.state.phase
      case ExpectIndex =>
        assert q.state == HandleIndexLine(t, p.state);
      case ExpectTime =>
        assert q.state == HandleTimeLine(t, p.state);
        assert q.state.text == "";
      case ExpectText =>
        assert q.state == HandleTextLine(t, p.state);
        AppendTrimmed(p.state.text, t);
    }
  }

  lemma {:induction false} RunCoherent(p: Progress, lines: seq<string>)
    requires Coherent(p.state) && Captioned(p.lyrics)
    ensures Coherent(Run(p, lines).state) && Captioned(Run(p, lines).lyrics)
    decreases |lines|
  {
    if |lines| > 0 {
      StepCoherent(p, lines[0]);
      RunCoherent(Step(p, lines[0]), lines[1..]);
    }
  }

  /** Captions are only ever appended, and only at blank lines. */
  lemma {:induction false} RunCount(p: Progress, lines: seq<string>)
    ensures p.lyrics <= Run(p, lines).lyrics
    ensures |Run(p, lines).lyrics| <= |p.lyrics| + BlankCount(lines)
    decreases |lines|
  {
    if |lines| > 0 {
      StepCount(p, lines[0]);
      RunCount(Step(p, lines[0]), lines[1..]);
    }
  }

  lemma StepCount(p: Progress, line: string)
    ensures p.lyrics <= Step(p, line).lyrics
    ensures |Step(p, line).lyrics| <= |p.lyrics| + (if IsBlank(line) then 1 else 0)
  {
    var q := Step(p, line);
    if IsBlank(line) {
      assert q.lyrics == SaveLyricBlock(p.state, p.lyrics);
    } else {
      var t := Trim(line);
      match p.state.phase
      case ExpectIndex =>
        assert q == Progress(HandleIndexLine(t, p.state), p.lyrics);
      case ExpectTime =>
        assert q == Progress(HandleTimeLine(t, p.state), p.lyrics);
      case ExpectText =>
        assert q == Progress(HandleTextLine(t, p.state), p.lyrics);
    }
  }

  /** Reading `a` then `b` is reading `a` and carrying on with `b`. */
  lemma {:induction false} RunAppend(p: Progress, a: seq<string>, b: seq<string>)
    ensures Run(p, a + b) == Run(Run(p, a), b)
    decreases |a|
  {
    if |a| > 0 {
      assert (a + b)[0] == a[0];
      assert (a + b)[1..] == a[1..] + b;
      RunAppend(Step(p, a[0]), a[1..], b);
    } else {
      assert a + b == b;
    }
  }

  /** Output order follows input order: what was emitted while reading the
      first part of the lines heads what is emitted after reading all of
      them. */
  lemma {:induction false} RunInOrder(p: Progress, a: seq<string>, b: seq<string>)
    ensures Run(p, a).lyrics <= Run(p, a + b).lyrics
  {
    RunAppend(p, a, b);
    RunCount(Run(p, a), b);
  }

  /** A blank line closes the block: the gathered text becomes a caption
      unless it is empty, the text is forgotten and an index is expected,
      while index and times are kept for the next block. */
  lemma BlankLineCloses(p: Progress, line: string)
    requires Coherent(p.state)
    requires IsBlank(line)
    ensures Step(p, line).state.index == p.state.index
    ensures Step(p, line).state.startMs == p.state.startMs
    ensures Step(p, line).state.endMs == p.state.endMs
    ensures Step(p, line).state.text == "" && Step(p, line).state.phase == ExpectIndex
    ensures p.state.text == "" ==> Step(p, line).lyrics == p.lyrics
    ensures p.state.text != "" ==>
              Step(p, line).lyrics
              == p.lyrics + [LyricLine(p.state.index, p.state.startMs, p.state.endMs, p.state.text)]
  {
    SaveCoherent(p.state, p.lyrics);
  }

  /** A second blank line in a row emits nothing more and changes nothing. */
  lemma BlankLinesInARow(p: Progress, first: string, second: string)
    requires IsBlank(first) && IsBlank(second)
    ensures Run(p, [first, second]) == Step(p, first)
  {
    assert [first, second][1..] == [second];
    assert [second][1..] == [];
    var q := Step(p, first);
    assert q.state.text == "";
    assert Step(q, second) == q;
    assert Run(p, [first, second]) == Run(q, [second]);
    assert Run(q, [second]) == Run(q, []);
  }

  /** In the time phase a line holding no time range is skipped without
      leaving the phase; one that holds a range sets both times and moves
      on to the text. */
  lemma TimeLineStep(p: Progress, line: string)
    requires p.state.phase == ExpectTime && !IsBlank(line)
    ensures ParseTimeLine(Trim(line)).None? ==> Step(p, line) == p
    ensures ParseTimeLine(Trim(line)).Some? ==>
      var range := ParseTimeLine(Trim(line)).value;
      Step(p, line) == Progress(p.state.(startMs := range.startMs, endMs := range.endMs,
                                         phase := ExpectText), p.lyrics)
  {
  }

  /** The stall: in the time phase, any run of non-blank lines none of
      which holds a time range leaves the parser exactly where it was. */
  lemma {:induction false} TimePhaseStalls(p: Progress, lines: seq<string>)
    requires p.state.phase == ExpectTime
    requires forall i :: 0 <= i < |lines| ==> !IsBlank(lines[i]) && ParseTimeLine(Trim(lines[i])).None?
    ensures Run(p, lines) == p
    decreases |lines|
  {
    if |lines| > 0 {
      TimeLineStep(p, lines[0]);
      TimePhaseStalls(p, lines[1..]);
    }
  }

  /** In the index phase any non-blank line is read as the index. */
  lemma IndexLineStep(p: Progress, line: string)
    requires p.state.phase == ExpectIndex && !IsBlank(line)
    ensures Step(p, line) == Progress(p.state.(index := ParseInt(Trim(line)), phase := ExpectTime),
                                      p.lyrics)
  {
  }

  /** Every line trimmed. */
  function TrimAll(lines: seq<string>): (r: seq<string>)
    ensures |r| == |lines|
  {
    if |lines| == 0 then [] else TrimAll(lines[..|lines| - 1]) + [Trim(lines[|lines| - 1])]
  }

  lemma {:induction false} TrimAllTrimmed(lines: seq<string>)
    requires forall i :: 0 <= i < |lines| ==> IsTrimmed(lines[i])
    ensures TrimAll(lines) == lines
  {
    if |lines| > 0 {
      var init := lines[..|lines| - 1];
      TrimAllTrimmed(init);
      assert lines == init + [lines[|lines| - 1]];
    }
  }

  /** `more` added after the text gathered so far, a line feed between
      them unless nothing was gathered yet. */
  function Extend(acc: string, more: string): string {
    if acc == "" then more else acc + "\n" + more
  }

  /** In the text phase every non-blank line, whatever it looks like (an
      index, a time range), is appended in order, one line feed between
      lines, and nothing is emitted. */
  lemma {:induction false} TextLinesAccumulate(p: Progress, lines: seq<string>)
    requires p.state.phase == ExpectText
    requires |lines| >= 1
    requires forall i :: 0 <= i < |lines| ==> !IsBlank(lines[i])
    ensures Run(p, lines)
            == Progress(p.state.(text := Extend(p.state.text, Join(TrimAll(lines), '\n'))), p.lyrics)
    ensures Join(TrimAll(lines), '\n') != ""
    decreases |lines|
  {
    if |lines| == 1 {
      TextLineFirst(p, lines);
    } else {
      var init := lines[..|lines| - 1];
      assert forall i :: 0 <= i < |init| ==> init[i] == lines[i];
      TextLinesAccumulate(p, init);
      LastSplit(lines);
      TextLineAppended(p, init, lines[|lines| - 1]);
    }
  }

  lemma TextLineFirst(p: Progress, lines: seq<string>)
    requires p.state.phase == ExpectText
    requires |lines| == 1 && !IsBlank(lines[0])
    ensures Run(p, lines)
            == Progress(p.state.(text := Extend(p.state.text, Join(TrimAll(lines), '\n'))), p.lyrics)
    ensures Join(TrimAll(lines), '\n') != ""
  {
    var line := lines[0];
    assert lines == [line];
    RunSingle(p, line);
    TextLineStep(p, line);
  }

  /** One more text line extends the accumulated text by that line. */
  lemma TextLineAppended(p: Progress, init: seq<string>, last: string)
    requires p.state.phase == ExpectText && |init| >= 1 && !IsBlank(last)
    requires Run(p, init)
             == Progress(p.state.(text := Extend(p.state.text, Join(TrimAll(init), '\n'))), p.lyrics)
    requires Join(TrimAll(init), '\n') != ""
    ensures Run(p, init + [last])
            == Progress(p.state.(text := Extend(p.state.text, Join(TrimAll(init + [last]), '\n'))), p.lyrics)
    ensures Join(TrimAll(init + [last]), '\n') != ""
  {
    var q := Run(p, init);
    var lines := init + [last];
    assert Run(p, lines) == Step(q, last) by {
      RunAppend(p, init, [last]);
      RunSingle(q, last);
    }
    var joined := Join(TrimAll(init), '\n');
    assert Step(q, last) == Progress(q.state.(text := Extend(q.state.text, Trim(last))), q.lyrics) by {
      TextLineStep(q, last);
    }
    assert Join(TrimAll(lines), '\n') == joined + "\n" + Trim(last) by {
      TrimAllLast(lines);
      assert lines[..|lines| - 1] == init;
      JoinSnoc(TrimAll(init), Trim(last), '\n');
    }
    ExtendTwice(p.state.text, joined, Trim(last));
  }

  lemma TrimAllLast(lines: seq<string>)
    requires |lines| > 0
    ensures TrimAll(lines) == TrimAll(lines[..|lines| - 1]) + [Trim(lines[|lines| - 1])]
    ensures TrimAll(lines)[|lines| - 1] == Trim(lines[|lines| - 1])
  {
  }

  lemma RunSingle(p: Progress, line: string)
    ensures Run(p, [line]) == Step(p, line)
  {
    assert [line][1..] == [];
  }

  lemma TextLineStep(p: Progress, line: string)
    requires p.state.phase == ExpectText && !IsBlank(line)
    ensures Step(p, line) == Progress(p.state.(text := Extend(p.state.text, Trim(line))), p.lyrics)
  {
  }

  lemma ExtendTwice(acc: string, a: string, b: string)
    requires a != ""
    ensures Extend(Extend(acc, a), b) == Extend(acc, a + "\n" + b)
  {
    if acc != "" {
      assert acc + "\n" + a + "\n" + b == acc + "\n" + (a + "\n" + b);
    }
  }
}
