/** The engineering console's line editor: bytes in, executed lines out. */
module Console {
  import opened Words

  const CAPACITY := 64
  const CR: byte := 13
  const LF: byte := 10
  const BACKSPACE: byte := 8
  const DELETE: byte := 0x7f

  predicate IsPrintable(b: byte) {
    0x20 <= b <= 0x7e
  }

  predicate IsErase(b: byte) {
    b == BACKSPACE || b == DELETE
  }

  // ---------------------------------------------------------------------
  // What typing one raw line means
  // ---------------------------------------------------------------------

  /** The text typed so far, and whether the line has become too long. */
  datatype Edit = Edit(text: string, overflow: bool)

  const EMPTY := Edit([], false)

  function Typed(e: Edit, b: byte): Edit {
    if IsErase(b) then
      if e.overflow || e.text == [] then e else e.(text := e.text[..|e.text| - 1])
    else if !IsPrintable(b) || e.overflow then e
    else if |e.text| == CAPACITY - 1 then e.(overflow := true)
    else e.(text := e.text + [b as char])
  }

  function Edited(e: Edit, raw: seq<byte>): Edit
    decreases |raw|
  {
    if raw == [] then e else Edited(Typed(e, raw[0]), raw[1..])
  }

  datatype Execution = TooLong | Line(text: string)

  function ExecutionOf(e: Edit): Execution {
    if e.overflow then TooLong else Line(e.text)
  }

  function LineOf(raw: seq<byte>): Execution {
    ExecutionOf(Edited(EMPTY, raw))
  }

  lemma {:induction false} EditedConcat(e: Edit, a: seq<byte>, b: seq<byte>)
    ensures Edited(e, a + b) == Edited(Edited(e, a), b)
    decreases |a|
  {
    if a == [] {
      assert a + b == b;
    } else {
      assert (a + b)[1..] == a[1..] + b;
      EditedConcat(Typed(e, a[0]), a[1..], b);
    }
  }

  /** The text never outgrows the buffer. */
  lemma {:induction false} TextFits(e: Edit, raw: seq<byte>)
    requires |e.text| < CAPACITY
    ensures |Edited(e, raw).text| < CAPACITY
    decreases |raw|
  {
    if raw != [] {
      TextFits(Typed(e, raw[0]), raw[1..]);
    }
  }

  lemma {:induction false} OverflowStays(e: Edit, raw: seq<byte>)
    requires e.overflow
    ensures Edited(e, raw) == e
    decreases |raw|
  {
    if raw != [] {
      OverflowStays(e, raw[1..]);
    }
  }

  /** A line is too long exactly when a printable byte arrives while 63 characters are held; erasing is no help then. */
  lemma {:induction false} TooLongIff(raw: seq<byte>)
    ensures LineOf(raw).TooLong? <==>
            exists i :: 0 <= i < |raw| && IsPrintable(raw[i]) && |Edited(EMPTY, raw[..i]).text| == CAPACITY - 1
                        && !Edited(EMPTY, raw[..i]).overflow
  {
    if raw != [] {
      var front, last := raw[..|raw| - 1], raw[|raw| - 1];
      TooLongIff(front);
      assert raw == front + [last];
      EditedConcat(EMPTY, front, [last]);
      assert Edited(EMPTY, raw) == Typed(Edited(EMPTY, front), last);
      TextFits(EMPTY, front);
      forall i | 0 <= i < |front| ensures front[..i] == raw[..i] && front[i] == raw[i] {
      }
      if !Edited(EMPTY, front).overflow && Edited(EMPTY, raw).overflow {
        assert raw[..|front|] == front;
      }
      if exists i :: 0 <= i < |raw| && IsPrintable(raw[i]) && |Edited(EMPTY, raw[..i]).text| == CAPACITY - 1
                     && !Edited(EMPTY, raw[..i]).overflow {
        var i :| 0 <= i < |raw| && IsPrintable(raw[i]) && |Edited(EMPTY, raw[..i]).text| == CAPACITY - 1
                 && !Edited(EMPTY, raw[..i]).overflow;
        if i < |front| {
          assert front[..i] == raw[..i] && IsPrintable(front[i]);
        } else {
          assert raw[..i] == front;
        }
      }
    }
  }

  // ---------------------------------------------------------------------
  // Splitting a stream into raw lines
  // ---------------------------------------------------------------------

  /** The completed raw lines of a stream, `open` having been typed before it; CR LF is one terminator. */
  function RawLines(open: seq<byte>, stream: seq<byte>): seq<seq<byte>>
    decreases |stream|
  {
    if stream == [] then []
    else if stream[0] == CR then
      [open] + RawLines([], if |stream| > 1 && stream[1] == LF then stream[2..] else stream[1..])
    else if stream[0] == LF then [open] + RawLines([], stream[1..])
    else RawLines(open + [stream[0]], stream[1..])
  }

  function Executions(lines: seq<seq<byte>>): seq<Execution> {
    if lines == [] then [] else [LineOf(lines[0])] + Executions(lines[1..])
  }

  // ---------------------------------------------------------------------
  // The machine fed byte by byte
  // ---------------------------------------------------------------------

  datatype State = State(edit: Edit, ignoreNextLf: bool)

  const START := State(EMPTY, false)

  function Next(s: State, b: byte): State {
    if b == CR then State(EMPTY, true)
    else if b == LF then (if s.ignoreNextLf then s.(ignoreNextLf := false) else START)
    else State(Typed(s.edit, b), false)
  }

  function Ran(s: State, b: byte): seq<Execution> {
    if b == CR || (b == LF && !s.ignoreNextLf) then [ExecutionOf(s.edit)] else []
  }

  function RunAll(s: State, stream: seq<byte>): seq<Execution>
    decreases |stream|
  {
    if stream == [] then [] else Ran(s, stream[0]) + RunAll(Next(s, stream[0]), stream[1..])
  }

  lemma {:induction false} RunIsFold(open: seq<byte>, stream: seq<byte>)
    ensures RunAll(State(Edited(EMPTY, open), false), stream) == Executions(RawLines(open, stream))
    decreases |stream|, 0
  {
    if stream != [] {
      var b, rest := stream[0], stream[1..];
      if b == CR {
        RunAfterCr(rest);
        var lines := RawLines([], if |stream| > 1 && stream[1] == LF then stream[2..] else rest);
        assert ([open] + lines)[1..] == lines;
        assert |stream| > 1 ==> rest[1..] == stream[2..];
      } else if b == LF {
        RunIsFold([], rest);
        assert ([open] + RawLines([], rest))[1..] == RawLines([], rest);
      } else {
        EditedConcat(EMPTY, open, [b]);
        assert Edited(EMPTY, open + [b]) == Typed(Edited(EMPTY, open), b);
        RunIsFold(open + [b], rest);
      }
    }
  }

  lemma {:induction false} RunAfterCr(stream: seq<byte>)
    ensures RunAll(State(EMPTY, true), stream)
         == Executions(RawLines([], if stream != [] && stream[0] == LF then stream[1..] else stream))
    decreases |stream|, 1
  {
    if stream != [] && stream[0] == LF {
      RunIsFold([], stream[1..]);
    } else {
      RunIsFold([], stream);
      if stream != [] {
        assert Next(State(EMPTY, true), stream[0]) == Next(START, stream[0]);
      }
    }
  }

  /** For every byte stream the executed lines are the edited raw lines, in order. */
  lemma ConsoleRefinesFold(stream: seq<byte>)
    ensures RunAll(START, stream) == Executions(RawLines([], stream))
  {
    RunIsFold([], stream);
  }

  // ---------------------------------------------------------------------
  // Terminator style
  // ---------------------------------------------------------------------

  datatype Style = Cr | Lf | CrLf

  function Terminator(style: Style): seq<byte> {
    match style
    case Cr => [CR]
    case Lf => [LF]
    case CrLf => [CR, LF]
  }

  /** A raw line as sent, with the terminator it is sent with. */
  datatype Sent = Sent(raw: seq<byte>, style: Style)

  predicate IsOneLine(raw: seq<byte>) {
    CR !in raw && LF !in raw
  }

  predicate AllOneLine(sent: seq<Sent>) {
    forall i :: 0 <= i < |sent| ==> IsOneLine(sent[i].raw)
  }

  function Wire(sent: seq<Sent>): seq<byte> {
    if sent == [] then [] else sent[0].raw + Terminator(sent[0].style) + Wire(sent[1..])
  }

  /** An empty line ended by a bare LF right after a bare CR: on the wire it is the second half of that CR LF. */
  predicate Swallowed(sent: seq<Sent>, i: nat) {
    1 <= i < |sent| && sent[i - 1].style == Cr && sent[i] == Sent([], Lf)
  }

  /** The lines that reach the editor. */
  function Arriving(sent: seq<Sent>): seq<seq<byte>>
    decreases |sent|
  {
    if sent == [] then []
    else [sent[0].raw] + Arriving(if Swallowed(sent, 1) then sent[2..] else sent[1..])
  }

  lemma {:induction false} RawLinesPassText(open: seq<byte>, text: seq<byte>, rest: seq<byte>)
    requires IsOneLine(text)
    ensures RawLines(open, text + rest) == RawLines(open + text, rest)
    decreases |text|
  {
    if text == [] {
      assert text + rest == rest && open + text == open;
    } else {
      assert (text + rest)[1..] == text[1..] + rest;
      RawLinesPassText(open + [text[0]], text[1..], rest);
      assert open + [text[0]] + text[1..] == open + text;
    }
  }

  lemma WireStartsWithLf(sent: seq<Sent>)
    requires AllOneLine(sent)
    ensures Wire(sent) != [] && Wire(sent)[0] == LF <==> sent != [] && sent[0] == Sent([], Lf)
    ensures sent != [] && sent[0] == Sent([], Lf) ==> Wire(sent)[1..] == Wire(sent[1..])
  {
    if sent != [] {
      var raw, end, rest := sent[0].raw, Terminator(sent[0].style), Wire(sent[1..]);
      assert Wire(sent)[0] == (raw + end)[0];
      if raw == [] {
        assert raw + end == end;
        if end == [LF] {
          assert (end + rest)[1..] == rest;
        }
      } else {
        assert (raw + end)[0] == raw[0] != LF;
      }
    }
  }

  function WithoutLeadingLf(stream: seq<byte>): seq<byte> {
    if stream != [] && stream[0] == LF then stream[1..] else stream
  }

  lemma OneLineSplits(raw: seq<byte>, style: Style, rest: seq<byte>)
    requires IsOneLine(raw)
    ensures RawLines([], raw + Terminator(style) + rest)
         == [raw] + RawLines([], if style == Cr then WithoutLeadingLf(rest) else rest)
  {
    var tail := Terminator(style) + rest;
    assert raw + Terminator(style) + rest == raw + tail;
    RawLinesPassText([], raw, tail);
    assert [] + raw == raw;
    if style == CrLf {
      assert tail[1] == LF && tail[2..] == rest;
    } else {
      assert tail[1..] == rest;
      if rest != [] {
        assert tail[1] == rest[0] && tail[2..] == rest[1..];
      }
    }
  }

  /** What a stream of terminated lines splits into. */
  lemma {:induction false} WireSplits(sent: seq<Sent>)
    requires AllOneLine(sent)
    ensures RawLines([], Wire(sent)) == Arriving(sent)
    decreases |sent|
  {
    if sent != [] {
      var rest := sent[1..];
      OneLineSplits(sent[0].raw, sent[0].style, Wire(rest));
      WireStartsWithLf(rest);
      if Swallowed(sent, 1) {
        assert rest[1..] == sent[2..];
        WireSplits(sent[2..]);
      } else {
        WireSplits(rest);
      }
    }
  }

  /** The lines that do something: everything but a bare redraw of the prompt. */
  function Commands(runs: seq<Execution>): seq<Execution> {
    if runs == [] then []
    else (if runs[0] == Line([]) then [] else [runs[0]]) + Commands(runs[1..])
  }

  function RawOf(sent: seq<Sent>): seq<seq<byte>> {
    if sent == [] then [] else [sent[0].raw] + RawOf(sent[1..])
  }

  lemma {:induction false} ArrivingCommands(sent: seq<Sent>)
    ensures Commands(Executions(Arriving(sent))) == Commands(Executions(RawOf(sent)))
    decreases |sent|
  {
    if sent != [] {
      var rest := if Swallowed(sent, 1) then sent[2..] else sent[1..];
      ArrivingCommands(rest);
      CommandsStep(sent[0].raw, Arriving(rest));
      CommandsStep(sent[0].raw, RawOf(sent[1..]));
      if Swallowed(sent, 1) {
        assert RawOf(sent[1..]) == [sent[1].raw] + RawOf(sent[1..][1..]) && sent[1..][1..] == sent[2..];
        CommandsStep(sent[1].raw, RawOf(sent[2..]));
        assert LineOf([]) == Line([]);
      }
    }
  }

  lemma CommandsStep(raw: seq<byte>, rest: seq<seq<byte>>)
    ensures Commands(Executions([raw] + rest))
         == (if LineOf(raw) == Line([]) then [] else [LineOf(raw)]) + Commands(Executions(rest))
  {
    assert ([raw] + rest)[1..] == rest;
    assert ([LineOf(raw)] + Executions(rest))[1..] == Executions(rest);
  }

  /** Whatever terminators the lines are sent with, the commands that run are those of the lines. */
  lemma TerminatorStyleDoesNotMatter(sent: seq<Sent>)
    requires AllOneLine(sent)
    ensures Commands(RunAll(START, Wire(sent))) == Commands(Executions(RawOf(sent)))
  {
    ConsoleRefinesFold(Wire(sent));
    WireSplits(sent);
    ArrivingCommands(sent);
  }

  lemma {:induction false} ArrivingCount(sent: seq<Sent>)
    ensures |Arriving(sent)| <= |sent|
    ensures |Arriving(sent)| == |sent| <==> forall i: nat :: !Swallowed(sent, i)
    decreases |sent|
  {
    if sent != [] {
      var rest := if Swallowed(sent, 1) then sent[2..] else sent[1..];
      ArrivingCount(rest);
      if !Swallowed(sent, 1) {
        forall i: nat ensures Swallowed(sent, i) <==> i >= 1 && Swallowed(rest, i - 1) {
          if 2 <= i < |sent| {
            assert rest[i - 1] == sent[i] && rest[i - 2] == sent[i - 1];
          }
        }
        assert (exists i: nat :: Swallowed(sent, i)) <==> (exists i: nat :: Swallowed(rest, i)) by {
          if exists i: nat :: Swallowed(rest, i) {
            var i: nat :| Swallowed(rest, i);
            assert Swallowed(sent, i + 1);
          }
        }
      }
    }
  }

  lemma {:induction false} ExecutionCount(lines: seq<seq<byte>>)
    ensures |Executions(lines)| == |lines|
  {
    if lines != [] {
      ExecutionCount(lines[1..]);
    }
  }

  /** When nothing is swallowed, what arrives is what was sent. */
  lemma {:induction false} ArrivingIsRaw(sent: seq<Sent>)
    requires |Arriving(sent)| == |sent|
    ensures Arriving(sent) == RawOf(sent)
    decreases |sent|
  {
    if sent != [] {
      ArrivingCount(sent[1..]);
      if Swallowed(sent, 1) {
        ArrivingCount(sent[2..]);
      } else {
        ArrivingIsRaw(sent[1..]);
      }
    }
  }

  lemma {:induction false} RawCount(sent: seq<Sent>)
    ensures |RawOf(sent)| == |sent|
  {
    if sent != [] {
      RawCount(sent[1..]);
    }
  }

  /**
   * The lines sent are executed one by one, prompts included, exactly when none is swallowed by the CR before it;
   * otherwise some execution is missing.
   */
  lemma EveryLineRunsIff(sent: seq<Sent>)
    requires AllOneLine(sent)
    ensures RunAll(START, Wire(sent)) == Executions(RawOf(sent)) <==> forall i: nat :: !Swallowed(sent, i)
    ensures |RunAll(START, Wire(sent))| == |sent| <==> forall i: nat :: !Swallowed(sent, i)
  {
    ConsoleRefinesFold(Wire(sent));
    WireSplits(sent);
    ArrivingCount(sent);
    ExecutionCount(Arriving(sent));
    ExecutionCount(RawOf(sent));
    RawCount(sent);
    if |Arriving(sent)| == |sent| {
      ArrivingIsRaw(sent);
    }
  }

  /** "a" sent with CR and then an empty line sent with LF: two lines are sent, one is executed. */
  lemma EmptyLineIsSwallowed()
    ensures var sent := [Sent([0x61], Cr), Sent([], Lf)]; |RunAll(START, Wire(sent))| == 1 < |sent|
  {
    var sent := [Sent([0x61], Cr), Sent([], Lf)];
    assert Swallowed(sent, 1);
    ConsoleRefinesFold(Wire(sent));
    WireSplits(sent);
    assert sent[2..] == [];
    ExecutionCount(Arriving(sent));
  }

  // ---------------------------------------------------------------------
  // Which command a line is
  // ---------------------------------------------------------------------

  datatype Action = ErrorTooLong | Redraw | Help | Status | Version | Vin | Dtc | Stats | Last | Reset | Unknown

  predicate IsBlank(c: char) {
    c == ' ' || c == 9 as char
  }

  function Lower(c: char): char {
    if 'A' <= c <= 'Z' then (c as int + 32) as char else c
  }

  function LowerAll(s: string): (l: string)
    ensures |l| == |s| && forall i :: 0 <= i < |s| ==> l[i] == Lower(s[i])
  {
    seq(|s|, i requires 0 <= i < |s| => Lower(s[i]))
  }

  function TrimLeft(s: string): string {
    if s != [] && IsBlank(s[0]) then TrimLeft(s[1..]) else s
  }

  function TrimRight(s: string): string {
    if s != [] && IsBlank(s[|s| - 1]) then TrimRight(s[..|s| - 1]) else s
  }

  function Word(text: string): string {
    LowerAll(TrimRight(TrimLeft(text)))
  }

  function ActionOf(e: Execution): Action {
    match e
    case TooLong => ErrorTooLong
    case Line(text) =>
      if text == [] then Redraw
      else
        var word := Word(text);
        if word == "help" then Help
        else if word == "status" then Status
        else if word == "version" then Version
        else if word == "vin" then Vin
        else if word == "dtc" then Dtc
        else if word == "stats" then Stats
        else if word == "last" then Last
        else if word == "reset" then Reset
        else Unknown
  }

  predicate AllBlank(s: string) {
    forall i :: 0 <= i < |s| ==> IsBlank(s[i])
  }

  lemma {:induction false} TrimLeftPad(pad: string, s: string)
    requires AllBlank(pad)
    ensures TrimLeft(pad + s) == TrimLeft(s)
  {
    if pad == [] {
      assert pad + s == s;
    } else {
      assert (pad + s)[1..] == pad[1..] + s;
      TrimLeftPad(pad[1..], s);
    }
  }

  lemma {:induction false} TrimRightPad(s: string, pad: string)
    requires AllBlank(pad)
    ensures TrimRight(s + pad) == TrimRight(s)
  {
    if pad == [] {
      assert s + pad == s;
    } else {
      assert (s + pad)[..|s + pad| - 1] == s + pad[..|pad| - 1];
      TrimRightPad(s, pad[..|pad| - 1]);
    }
  }

  lemma {:induction false} TrimLeftKeepsEnd(s: string, pad: string)
    requires AllBlank(pad)
    ensures TrimRight(TrimLeft(s + pad)) == TrimRight(TrimLeft(s))
  {
    if s == [] {
      assert s + pad == pad && pad + [] == pad && [] + pad == pad;
      TrimLeftPad(pad, []);
    } else if IsBlank(s[0]) {
      assert (s + pad)[1..] == s[1..] + pad;
      TrimLeftKeepsEnd(s[1..], pad);
    } else {
      TrimRightPad(s, pad);
    }
  }

  lemma SameWordSameAction(a: string, b: string)
    requires a != [] && b != [] && Word(a) == Word(b)
    ensures ActionOf(Line(a)) == ActionOf(Line(b))
  {
  }

  lemma WordIgnoresPadding(before: string, text: string, after: string)
    requires AllBlank(before) && AllBlank(after)
    ensures Word(before + text + after) == Word(text)
  {
    assert before + text + after == before + (text + after);
    TrimLeftPad(before, text + after);
    TrimLeftKeepsEnd(text, after);
  }

  /** A line of blanks only is no command, although the empty line is one: it redraws the prompt. */
  lemma BlankLineIsUnknown(blanks: string)
    requires AllBlank(blanks) && blanks != []
    ensures ActionOf(Line(blanks)) == Unknown && ActionOf(Line([])) == Redraw
  {
    assert blanks + [] + [] == blanks;
    WordIgnoresPadding(blanks, [], []);
  }

  /** Blanks around a line leave its action alone exactly when they are not put around the empty line. */
  lemma PaddingDoesNotMatterIff(before: string, text: string, after: string)
    requires AllBlank(before) && AllBlank(after)
    ensures ActionOf(Line(before + text + after)) == ActionOf(Line(text)) <==> text != [] || before + after == []
  {
    if text != [] {
      WordIgnoresPadding(before, text, after);
      SameWordSameAction(before + text + after, text);
    } else {
      assert before + text + after == before + after;
      if before + after != [] {
        BlankLineIsUnknown(before + after);
      }
    }
  }

  /** The case of a line's letters never changes its action. */
  lemma CaseDoesNotMatter(text: string)
    ensures ActionOf(Line(LowerAll(text))) == ActionOf(Line(text))
  {
    if text != [] {
      LowerTrim(text);
      SameWordSameAction(text, LowerAll(text));
    }
  }

  lemma {:induction false} LowerTrimRight(s: string)
    ensures TrimRight(LowerAll(s)) == LowerAll(TrimRight(s))
  {
    if s != [] && IsBlank(s[|s| - 1]) {
      LowerTrimRight(s[..|s| - 1]);
      assert LowerAll(s)[..|s| - 1] == LowerAll(s[..|s| - 1]);
    }
  }

  lemma {:induction false} LowerTrimLeft(s: string)
    ensures TrimLeft(LowerAll(s)) == LowerAll(TrimLeft(s))
  {
    if s != [] && IsBlank(s[0]) {
      LowerTrimLeft(s[1..]);
      assert LowerAll(s)[1..] == LowerAll(s[1..]);
    }
  }

  lemma LowerTrim(text: string)
    ensures Word(LowerAll(text)) == Word(text)
  {
    LowerTrimLeft(text);
    LowerTrimRight(TrimLeft(text));
    var core := TrimRight(TrimLeft(text));
    assert LowerAll(LowerAll(core)) == LowerAll(core);
  }

  /** The two cursors of the comparison, moved past the blanks at either end. */
  method TrimBounds(line: string) returns (start: nat, end: nat)
    ensures start <= end <= |line| && line[start..end] == TrimRight(TrimLeft(line))
  {
    start := 0;
    end := |line|;
    while start < end && IsBlank(line[start])
      invariant start <= end == |line|
      invariant TrimLeft(line) == TrimLeft(line[start..])
    {
      assert line[start..][1..] == line[start + 1..];
      start := start + 1;
    }
    assert TrimLeft(line) == line[start..end];
    while end > start && IsBlank(line[end - 1])
      invariant start <= end <= |line|
      invariant TrimRight(TrimLeft(line)) == TrimRight(line[start..end])
    {
      assert line[start..end][..end - start - 1] == line[start..end - 1];
      end := end - 1;
    }
  }

  method CommandEquals(line: string, command: string) returns (equal: bool)
    ensures equal <==> Word(line) == LowerAll(command)
  {
    var start, end := TrimBounds(line);
    if end - start != |command| {
      return false;
    }
    for index := 0 to |command|
      invariant forall i :: 0 <= i < index ==> Lower(line[start + i]) == Lower(command[i])
    {
      if Lower(line[start + index]) != Lower(command[index]) {
        assert Word(line)[index] != LowerAll(command)[index];
        return false;
      }
    }
    return true;
  }

  // ---------------------------------------------------------------------
  // The console object
  // ---------------------------------------------------------------------

  class LineEditor {
    const line: array<char>
    var lineLength: nat
    var lineOverflow: bool
    var ignoreNextLf: bool

    /** At most 63 characters are held, and the buffer is always terminated. */
    ghost predicate Valid()
      reads this, line
    {
      line.Length == CAPACITY && lineLength < CAPACITY && line[lineLength] == NUL
    }

    ghost function Current(): State
      reads this, line
      requires Valid()
    {
      State(Edit(line[..lineLength], lineOverflow), ignoreNextLf)
    }

    constructor ()
      ensures Valid() && fresh(line) && Current() == START
    {
      line := new char[CAPACITY](_ => NUL);
      lineLength, lineOverflow, ignoreNextLf := 0, false, false;
      new;
      assert line[..0] == [];
    }

    /** Decide what the finished line does and start an empty one. */
    method ExecuteLine() returns (action: Action, run: Execution)
      requires Valid()
      modifies `lineLength, `lineOverflow, line
      ensures Valid()
      ensures run == ExecutionOf(old(Current()).edit) && action == ActionOf(run)
      ensures Current() == old(Current()).(edit := EMPTY)
    {
      var text := line[..lineLength];
      run := if lineOverflow then TooLong else Line(text);
      if lineOverflow {
        action := ErrorTooLong;
      } else if lineLength == 0 {
        action := Redraw;
      } else {
        action := Dispatch(text);
      }
      lineLength := 0;
      lineOverflow := false;
      line[0] := NUL;
      assert line[..0] == [];
    }

    method Dispatch(text: string) returns (action: Action)
      requires text != []
      ensures action == ActionOf(Line(text))
    {
      LowerNames();
      var same := CommandEquals(text, "help");
      if same {
        return Help;
      }
      same := CommandEquals(text, "status");
      if same {
        return Status;
      }
      same := CommandEquals(text, "version");
      if same {
        return Version;
      }
      same := CommandEquals(text, "vin");
      if same {
        return Vin;
      }
      same := CommandEquals(text, "dtc");
      if same {
        return Dtc;
      }
      same := CommandEquals(text, "stats");
      if same {
        return Stats;
      }
      same := CommandEquals(text, "last");
      if same {
        return Last;
      }
      same := CommandEquals(text, "reset");
      if same {
        return Reset;
      }
      return Unknown;
    }

    /** Take one byte from the serial line. */
    method Feed(b: byte) returns (ran: seq<Execution>, actions: seq<Action>)
      requires Valid()
      modifies this, line
      ensures Valid()
      ensures Current() == Next(old(Current()), b) && ran == Ran(old(Current()), b)
      ensures |actions| == |ran| && forall i :: 0 <= i < |ran| ==> actions[i] == ActionOf(ran[i])
    {
      ran, actions := [], [];
      if b == CR {
        var action, run := ExecuteLine();
        ran, actions := [run], [action];
        ignoreNextLf := true;
        return;
      }
      if b == LF {
        if ignoreNextLf {
          ignoreNextLf := false;
          return;
        }
        var action, run := ExecuteLine();
        ran, actions := [run], [action];
        return;
      }
      ignoreNextLf := false;
      TypeByte(b);
    }

    /** Edit the line with a byte that is no terminator. */
    method TypeByte(b: byte)
      requires Valid()
      modifies `lineLength, `lineOverflow, line
      ensures Valid()
      ensures Current() == old(Current()).(edit := Typed(old(Current()).edit, b))
    {
      if b == BACKSPACE || b == DELETE {
        if lineLength != 0 && !lineOverflow {
          lineLength := lineLength - 1;
          line[lineLength] := NUL;
          assert line[..lineLength] == old(line[..lineLength])[..lineLength];
        }
        return;
      }
      if b < 0x20 || b > 0x7e {
        return;
      }
      if lineOverflow {
        return;
      }
      if lineLength + 1 >= line.Length {
        lineOverflow := true;
        return;
      }
      line[lineLength] := b as char;
      lineLength := lineLength + 1;
      line[lineLength] := NUL;
      assert line[..lineLength] == old(line[..lineLength]) + [b as char];
    }
  }

  lemma LowerNames()
    ensures LowerAll("help") == "help" && LowerAll("status") == "status" && LowerAll("version") == "version"
    ensures LowerAll("vin") == "vin" && LowerAll("dtc") == "dtc" && LowerAll("stats") == "stats"
    ensures LowerAll("last") == "last" && LowerAll("reset") == "reset"
  {
  }
}
