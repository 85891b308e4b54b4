/**
 * Which line runs which console command, in terms of the characters typed: the names of the commands, blanks around
 * them, letters in either case. Nothing here refers to the trimming and the comparisons of the console.
 */
module ConsoleCommands {
  import opened Words
  import opened Console

  // ---------------------------------------------------------------------
  // Lines and commands
  // ---------------------------------------------------------------------

  predicate IsCommand(a: Action) {
    a != ErrorTooLong && a != Redraw && a != Unknown
  }

  function NameOf(a: Action): string
    requires IsCommand(a)
  {
    match a
    case Help => "help"
    case Status => "status"
    case Version => "version"
    case Vin => "vin"
    case Dtc => "dtc"
    case Stats => "stats"
    case Last => "last"
    case Reset => "reset"
  }

  /** Spaces and tabs. */
  predicate IsPadding(s: string) {
    forall i :: 0 <= i < |s| ==> s[i] == ' ' || s[i] == 9 as char
  }

  /** The same letters, each in either case. */
  predicate SameLetters(word: string, name: string) {
    |word| == |name| && forall i :: 0 <= i < |name| ==> word[i] == name[i] || word[i] as int + 32 == name[i] as int
  }

  /** The line is this command's name, padded. */
  predicate IsCall(text: string, before: string, word: string, after: string, a: Action)
    requires IsCommand(a)
  {
    text == before + word + after && IsPadding(before) && IsPadding(after) && SameLetters(word, NameOf(a))
  }

  ghost predicate Calls(text: string, a: Action)
    requires IsCommand(a)
  {
    exists before, word, after :: IsCall(text, before, word, after, a)
  }

  lemma SameLettersIff(word: string, name: string)
    requires forall i :: 0 <= i < |name| ==> 'a' <= name[i] <= 'z'
    ensures SameLetters(word, name) <==> LowerAll(word) == name
  {
    if |word| == |name| {
      forall i | 0 <= i < |name|
        ensures Lower(word[i]) == name[i] <==> word[i] == name[i] || word[i] as int + 32 == name[i] as int
      {
      }
      assert LowerAll(word) == name <==> forall i :: 0 <= i < |name| ==> Lower(word[i]) == name[i];
    }
  }

  lemma NamesAreLetters(a: Action)
    requires IsCommand(a)
    ensures NameOf(a) != [] && forall i :: 0 <= i < |NameOf(a)| ==> 'a' <= NameOf(a)[i] <= 'z'
  {
  }

  lemma NamesAreDistinct(a: Action, b: Action)
    requires IsCommand(a) && IsCommand(b) && NameOf(a) == NameOf(b)
    ensures a == b
  {
    assert |NameOf(a)| == |NameOf(b)| && NameOf(a)[0] == NameOf(b)[0] && NameOf(a)[2] == NameOf(b)[2];
    assert NameOf(a)[|NameOf(a)| - 1] == NameOf(b)[|NameOf(b)| - 1];
  }

  /** A line is its padding around the word that the console compares. */
  lemma {:induction false} TrimLeftSplits(s: string) returns (before: string)
    ensures s == before + TrimLeft(s) && AllBlank(before)
  {
    before := [];
    if s != [] && IsBlank(s[0]) {
      var rest := TrimLeftSplits(s[1..]);
      before := [s[0]] + rest;
    }
  }

  lemma {:induction false} TrimRightSplits(s: string) returns (after: string)
    ensures s == TrimRight(s) + after && AllBlank(after)
  {
    after := [];
    if s != [] && IsBlank(s[|s| - 1]) {
      var rest := TrimRightSplits(s[..|s| - 1]);
      after := rest + [s[|s| - 1]];
    }
  }

  lemma WordOfCall(text: string, before: string, word: string, after: string, a: Action)
    requires IsCommand(a) && IsCall(text, before, word, after, a)
    ensures Word(text) == NameOf(a) && text != []
  {
    NamesAreLetters(a);
    SameLettersIff(word, NameOf(a));
    WordIgnoresPadding(before, word, after);
    assert !IsBlank(word[0]) && !IsBlank(word[|word| - 1]);
  }

  lemma WordIsCalled(text: string, a: Action)
    requires IsCommand(a) && Word(text) == NameOf(a)
    ensures Calls(text, a)
  {
    var before := TrimLeftSplits(text);
    var after := TrimRightSplits(TrimLeft(text));
    var word := TrimRight(TrimLeft(text));
    NamesAreLetters(a);
    SameLettersIff(word, NameOf(a));
    assert text == before + word + after;
    assert IsCall(text, before, word, after, a);
  }

  /** A line runs a command exactly when it is that command's name, in letters of either case, perhaps padded. */
  lemma CommandIff(text: string, a: Action)
    requires IsCommand(a)
    ensures ActionOf(Line(text)) == a <==> Calls(text, a)
  {
    if ActionOf(Line(text)) == a {
      WordIsCalled(text, a);
    }
    if before, word, after :| IsCall(text, before, word, after, a) {
      WordOfCall(text, before, word, after, a);
    }
  }

  /** A line is unknown exactly when it is not empty and no command's name; the empty line and only that one redraws. */
  lemma UnknownIff(text: string)
    ensures ActionOf(Line(text)) == Unknown <==> text != [] && forall a :: IsCommand(a) ==> !Calls(text, a)
    ensures ActionOf(Line(text)) == Redraw <==> text == []
    ensures ActionOf(TooLong) == ErrorTooLong
  {
    forall a | IsCommand(a)
      ensures ActionOf(Line(text)) == a <==> Calls(text, a)
    {
      CommandIff(text, a);
    }
    var a := ActionOf(Line(text));
    if text != [] && a != Unknown {
      assert IsCommand(a);
    }
  }

  // ---------------------------------------------------------------------
  // Typing
  // ---------------------------------------------------------------------

  /** What one byte other than CR and LF does to the line. */
  lemma TypedByte(e: Edit, b: byte)
    ensures Typed(e, b) ==
            if e.overflow then e
            else if b == 0x08 || b == 0x7f then e.(text := e.text[..if e.text == [] then 0 else |e.text| - 1])
            else if b < 0x20 || 0x7e < b then e
            else if |e.text| == 63 then e.(overflow := true)
            else e.(text := e.text + [b as char])
  {
  }

  function BytesOf(text: string): (raw: seq<byte>)
    requires forall i :: 0 <= i < |text| ==> 0x20 <= text[i] as int <= 0x7e
    ensures |raw| == |text| && forall i :: 0 <= i < |raw| ==> raw[i] == text[i] as int
  {
    seq(|text|, i requires 0 <= i < |text| => text[i] as int)
  }

  lemma {:induction false} TypedText(text: string)
    requires |text| <= 63 && forall i :: 0 <= i < |text| ==> 0x20 <= text[i] as int <= 0x7e
    ensures Edited(EMPTY, BytesOf(text)) == Edit(text, false)
  {
    if text != [] {
      var front, last := text[..|text| - 1], text[|text| - 1];
      TypedText(front);
      assert BytesOf(text) == BytesOf(front) + [last as int];
      EditedConcat(EMPTY, BytesOf(front), [last as int]);
      assert text == front + [last];
    }
  }

  /** A line of at most 63 printable characters, ended by CR or by LF, is executed as it was typed. */
  lemma TypedLineRuns(text: string, end: byte)
    requires |text| <= 63 && forall i :: 0 <= i < |text| ==> 0x20 <= text[i] as int <= 0x7e
    requires end == 13 || end == 10
    ensures RunAll(START, BytesOf(text) + [end]) == [Line(text)]
  {
    var raw := BytesOf(text);
    ConsoleRefinesFold(raw + [end]);
    RawLinesPassText([], raw, [end]);
    assert [] + raw == raw;
    assert RawLines(raw, [end]) == [raw];
    TypedText(text);
    assert Executions([raw]) == [LineOf(raw)];
  }

  /** CR and LF together end one line; LF and CR end two. */
  lemma TwoByteEnds(text: string)
    requires |text| <= 63 && forall i :: 0 <= i < |text| ==> 0x20 <= text[i] as int <= 0x7e
    ensures RunAll(START, BytesOf(text) + [13, 10]) == [Line(text)]
    ensures RunAll(START, BytesOf(text) + [10, 13]) == [Line(text), Line([])]
  {
    var raw := BytesOf(text);
    ConsoleRefinesFold(raw + [13, 10]);
    ConsoleRefinesFold(raw + [10, 13]);
    RawLinesPassText([], raw, [13, 10]);
    RawLinesPassText([], raw, [10, 13]);
    assert [] + raw == raw;
    assert RawLines(raw, [13, 10]) == [raw];
    assert RawLines([], [13]) == [[]] && [10, 13][1..] == [13];
    assert RawLines(raw, [10, 13]) == [raw, []];
    TypedText(text);
    assert Executions([raw]) == [LineOf(raw)];
    assert Executions([[]]) == [LineOf([])] && [raw, []][1..] == [[]];
  }

  /** A command's name, typed and ended, runs that command and nothing else. */
  lemma NameRuns(a: Action, end: byte)
    requires IsCommand(a) && (end == 13 || end == 10)
    ensures var ran := RunAll(START, BytesOf(NameOf(a)) + [end]);
            |ran| == 1 && ActionOf(ran[0]) == a
  {
    NamesAreLetters(a);
    TypedLineRuns(NameOf(a), end);
    assert NameOf(a) == [] + NameOf(a) + [];
    assert IsCall(NameOf(a), [], NameOf(a), [], a);
    CommandIff(NameOf(a), a);
  }
}
