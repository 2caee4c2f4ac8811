/** Tolerance for Python 3.12 type-parameter syntax: the tokens are blanked in place so that every
    line and column of the rest stays where it was. */
module Pep695 {
  import opened Options

  datatype TokenKind = NameToken | NewlineToken | IndentToken | DedentToken | OtherToken

  /** A place as `tokenize` gives it: rows count from 1, columns from 0. */
  datatype Position = Position(row: int, col: nat)

  datatype Token = Token(kind: TokenKind, text: string, start: Position, end: Position)

  /** Replace a span by a text, padded with blanks. */
  datatype Edit = Edit(start: nat, end: nat, text: string)

  predicate IsNewline(c: char) {
    c == '\n' || c == '\r'
  }

  predicate NewlineFree(s: string) {
    forall i | 0 <= i < |s| :: !IsNewline(s[i])
  }

  ghost predicate EditFits(length: nat, e: Edit) {
    e.end <= length && NewlineFree(e.text)
  }

  ghost predicate AllFit(length: nat, edits: seq<Edit>) {
    forall i | 0 <= i < |edits| :: EditFits(length, edits[i])
  }

  // ---------------------------------------------------------------- one edit

  /** Writes `text`, then blanks, over the positions of the span that hold no newline. */
  function Fill(chars: string, position: nat, end: nat, text: string): (r: string)
    requires end <= |chars|
    ensures |r| == |chars|
    decreases end - position
  {
    if position >= end then chars
    else if IsNewline(chars[position]) then Fill(chars, position + 1, end, text)
    else if text == "" then Fill(chars[position := ' '], position + 1, end, text)
    else Fill(chars[position := text[0]], position + 1, end, text[1..])
  }

  function NonNewlines(s: string): string {
    if s == "" then ""
    else (if IsNewline(s[0]) then "" else [s[0]]) + NonNewlines(s[1..])
  }

  function Blanks(n: nat): (s: string)
    ensures |s| == n && forall i | 0 <= i < n :: s[i] == ' '
  {
    seq(n, _ => ' ')
  }

  /** The text, cut or padded to a width. */
  function Padded(text: string, width: nat): (s: string)
    ensures |s| == width
  {
    if |text| >= width then text[..width] else text + Blanks(width - |text|)
  }

  /** One edit keeps every newline where it is, introduces none, and touches nothing outside its
      span. */
  lemma {:induction false} FillKeepsLines(chars: string, position: nat, end: nat, text: string)
    requires end <= |chars| && NewlineFree(text)
    ensures var r := Fill(chars, position, end, text);
      && (forall i | 0 <= i < |chars| :: IsNewline(chars[i]) || IsNewline(r[i]) ==> r[i] == chars[i])
      && (forall i | 0 <= i < |chars| && !(position <= i < end) :: r[i] == chars[i])
    decreases end - position
  {
    if position < end {
      if IsNewline(chars[position]) {
        FillKeepsLines(chars, position + 1, end, text);
      } else if text == "" {
        FillKeepsLines(chars[position := ' '], position + 1, end, text);
      } else {
        FillKeepsLines(chars[position := text[0]], position + 1, end, text[1..]);
      }
    }
  }

  /** One position of the span: what is written there, and what is left to write. */
  lemma FillStep(chars: string, position: nat, end: nat, text: string) returns (next: string, rest: string)
    requires position < end <= |chars|
    ensures |next| == |chars| && Fill(chars, position, end, text) == Fill(next, position + 1, end, rest)
    ensures forall i | 0 <= i < |chars| && i != position :: next[i] == chars[i]
    ensures if IsNewline(chars[position]) then next == chars && rest == text
            else if text == "" then next[position] == ' ' && rest == ""
            else next[position] == text[0] && rest == text[1..]
  {
    if IsNewline(chars[position]) {
      next, rest := chars, text;
    } else if text == "" {
      next, rest := chars[position := ' '], text;
    } else {
      next, rest := chars[position := text[0]], text[1..];
    }
  }

  lemma PaddedStep(text: string, width: nat)
    ensures Padded(text, width + 1)
            == if text == "" then [' '] + Padded("", width) else [text[0]] + Padded(text[1..], width)
  {
    if text == "" {
      assert Blanks(width + 1) == [' '] + Blanks(width);
      assert "" + Blanks(width + 1) == Blanks(width + 1) && "" + Blanks(width) == Blanks(width);
    }
  }

  /** Read without its newlines, the span holds exactly the padded text. */
  lemma {:induction false} FillWritesText(chars: string, position: nat, end: nat, text: string)
    requires position <= end <= |chars| && NewlineFree(text)
    ensures NonNewlines(Fill(chars, position, end, text)[position..end])
         == Padded(text, |NonNewlines(chars[position..end])|)
    decreases end - position
  {
    hide Fill, Padded, NonNewlines;
    if position < end {
      var next, rest := FillStep(chars, position, end, text);
      FillWritesText(next, position + 1, end, rest);
      FillKeepsLines(next, position + 1, end, rest);
      var r := Fill(next, position + 1, end, rest);
      assert next[position + 1..end] == chars[position + 1..end];
      assert r[position..end] == [r[position]] + r[position + 1..end];
      assert chars[position..end] == [chars[position]] + chars[position + 1..end];
      NonNewlinesCons(r[position], r[position + 1..end]);
      NonNewlinesCons(chars[position], chars[position + 1..end]);
      PaddedStep(text, |NonNewlines(chars[position + 1..end])|);
    } else {
      NothingPadded(text);
      assert Fill(chars, position, end, text)[position..end] == "" && chars[position..end] == "";
    }
  }

  lemma NothingPadded(text: string)
    ensures NonNewlines("") == "" && Padded(text, 0) == ""
  {
  }

  lemma NonNewlinesCons(c: char, s: string)
    ensures NonNewlines([c] + s) == (if IsNewline(c) then "" else [c]) + NonNewlines(s)
  {
    assert ([c] + s)[1..] == s;
  }

  // ---------------------------------------------------------------- the edit loop

  function FillAll(chars: string, edits: seq<Edit>): (r: string)
    requires AllFit(|chars|, edits)
    ensures |r| == |chars|
  {
    if edits == [] then chars
    else
      var before := FillAll(chars, edits[..|edits| - 1]);
      var last := edits[|edits| - 1];
      Fill(before, last.start, last.end, last.text)
  }

  lemma {:induction false} FillAllKeepsLines(chars: string, edits: seq<Edit>)
    requires AllFit(|chars|, edits)
    ensures var r := FillAll(chars, edits);
      && |r| == |chars|
      && (forall i | 0 <= i < |chars| :: IsNewline(chars[i]) || IsNewline(r[i]) ==> r[i] == chars[i])
      && (forall i | 0 <= i < |chars| && (forall e | e in edits :: !(e.start <= i < e.end)) :: r[i] == chars[i])
    decreases |edits|
  {
    if edits != [] {
      var front, last := edits[..|edits| - 1], edits[|edits| - 1];
      FillAllKeepsLines(chars, front);
      FillKeepsLines(FillAll(chars, front), last.start, last.end, last.text);
    }
  }

  /** The inner loops of the edit loop, on the array of characters. */
  method ApplyEdit(characters: array<char>, e: Edit)
    requires e.end <= characters.Length
    modifies characters
    ensures characters[..] == Fill(old(characters[..]), e.start, e.end, e.text)
  {
    var position: nat := e.start;
    ghost var want := Fill(characters[..], e.start, e.end, e.text);
    var k := 0;
    assert e.text[0..] == e.text;
    while k < |e.text|
      invariant k <= |e.text| && e.start <= position
      invariant want == Fill(characters[..], position, e.end, e.text[k..])
    {
      while position < e.end && IsNewline(characters[position])
        invariant e.start <= position
        invariant want == Fill(characters[..], position, e.end, e.text[k..])
        decreases e.end - position
      {
        position := position + 1;
      }
      if position >= e.end {
        break;
      }
      assert e.text[k..][1..] == e.text[k + 1..];
      ghost var before := characters[..];
      characters[position] := e.text[k];
      assert characters[..] == before[position := e.text[k]];
      position := position + 1;
      k := k + 1;
    }
    while position < e.end
      invariant position < e.end ==> k == |e.text|
      invariant want == Fill(characters[..], position, e.end, e.text[k..])
      decreases e.end - position
    {
      ghost var before := characters[..];
      if !IsNewline(characters[position]) {
        characters[position] := ' ';
        assert characters[..] == before[position := ' '];
      }
      position := position + 1;
    }
  }

  method ApplyEdits(source: string, edits: seq<Edit>) returns (rewritten: string)
    requires AllFit(|source|, edits)
    ensures rewritten == FillAll(source, edits)
  {
    var characters := new char[|source|](i requires 0 <= i < |source| => source[i]);
    assert characters[..] == source;
    for i := 0 to |edits|
      invariant characters.Length == |source|
      invariant characters[..] == FillAll(source, edits[..i])
    {
      assert edits[..i + 1][..i] == edits[..i];
      ApplyEdit(characters, edits[i]);
    }
    assert edits[..|edits|] == edits;
    rewritten := characters[..];
  }

  // ---------------------------------------------------------------- offsets

  /** Where `splitlines` ends a line, beside a carriage return: vertical tab, form feed, the file, group and
      record separators, next line, line and paragraph separators. */
  predicate EndsLine(c: char) {
    c as int in {0x0A, 0x0B, 0x0C, 0x1C, 0x1D, 0x1E, 0x85, 0x2028, 0x2029}
  }

  predicate IsBoundary(s: string, i: nat)
    requires i < |s|
  {
    EndsLine(s[i]) || (s[i] == '\r' && !(i + 1 < |s| && s[i + 1] == '\n'))
  }

  /** The ends of the lines of `splitlines` among the first `to` characters. */
  function LineEnds(s: string, to: nat): (ends: seq<nat>)
    requires to <= |s|
    ensures forall k | 0 <= k < |ends| :: ends[k] <= to
  {
    if to == 0 then [] else LineEnds(s, to - 1) + if IsBoundary(s, to - 1) then [to] else []
  }

  /** The ends of the rows of `tokenize`, which only a newline ends. */
  function RowEnds(s: string, to: nat): (ends: seq<nat>)
    requires to <= |s|
    ensures forall k | 0 <= k < |ends| :: ends[k] <= to
  {
    if to == 0 then [] else RowEnds(s, to - 1) + if s[to - 1] == '\n' then [to] else []
  }

  /** `starts`: 0, and the running length of the lines; a last line without an end counts too. */
  function Starts(s: string): (starts: seq<nat>)
    ensures |starts| > 0
  {
    var ends := LineEnds(s, |s|);
    [0] + ends + if |s| > 0 && !IsBoundary(s, |s| - 1) then [|s|] else []
  }

  /** Where row `k` really starts, rows counted from 0. */
  function RowStart(s: string, k: nat): (at: nat)
    requires k <= |RowEnds(s, |s|)|
    ensures at <= |s|
  {
    if k == 0 then 0 else RowEnds(s, |s|)[k - 1]
  }

  lemma {:induction false} RowsAreLines(s: string, to: nat)
    requires to <= |s|
    ensures |RowEnds(s, to)| <= |LineEnds(s, to)|
    ensures |RowEnds(s, to)| == |LineEnds(s, to)| <==> forall i | 0 <= i < to :: IsBoundary(s, i) ==> s[i] == '\n'
  {
    if to > 0 { RowsAreLines(s, to - 1); }
  }

  lemma {:induction false} EndsAscend(s: string, to: nat, upTo: nat)
    requires to <= upTo <= |s|
    ensures LineEnds(s, to) <= LineEnds(s, upTo) && RowEnds(s, to) <= RowEnds(s, upTo)
    ensures forall k | |LineEnds(s, to)| <= k < |LineEnds(s, upTo)| :: LineEnds(s, upTo)[k] > to
    ensures forall k | |RowEnds(s, to)| <= k < |RowEnds(s, upTo)| :: RowEnds(s, upTo)[k] > to
  {
    if to < upTo { EndsAscend(s, to, upTo - 1); }
  }

  /** Row `k` ends the `k`-th time a newline is met. */
  lemma {:induction false} RowStartIsRowEnd(s: string, to: nat, k: nat)
    requires to <= |s| && 0 < k <= |RowEnds(s, to)|
    ensures var at := RowEnds(s, to)[k - 1]; 0 < at <= to && s[at - 1] == '\n' && |RowEnds(s, at)| == k
  {
    if k <= |RowEnds(s, to - 1)| {
      RowStartIsRowEnd(s, to - 1, k);
    }
  }

  /** No line end of `splitlines` but a newline stands here; a carriage return stands before a newline. */
  predicate IsCleanAt(s: string, i: nat)
    requires i < |s|
  {
    && s[i] as int !in {0x0B, 0x0C, 0x1C, 0x1D, 0x1E, 0x85, 0x2028, 0x2029}
    && (s[i] == '\r' ==> i + 1 < |s| && s[i + 1] == '\n')
  }

  /** Up to here only newlines end a line. */
  ghost predicate OnlyNewlines(s: string, at: nat)
    requires at <= |s|
  {
    forall i | 0 <= i < at :: IsCleanAt(s, i)
  }

  lemma OnlyNewlinesIff(s: string, at: nat)
    requires at <= |s|
    ensures OnlyNewlines(s, at) <==> forall i | 0 <= i < at :: IsBoundary(s, i) ==> s[i] == '\n'
  {
    hide IsBoundary, IsCleanAt;
    forall i | 0 <= i < at {
      CleanAtIff(s, i);
    }
    if forall i | 0 <= i < at :: IsBoundary(s, i) ==> s[i] == '\n' {
      forall i | 0 <= i < at
        ensures IsCleanAt(s, i)
      {
        CleanAtIff(s, i);
      }
    }
  }

  lemma CleanAtIff(s: string, i: nat)
    requires i < |s|
    ensures IsCleanAt(s, i) <==> (IsBoundary(s, i) ==> s[i] == '\n')
  {
  }

  /** Exactly when the table gives the start of a row: the text before the row has no line boundary but
      newlines. */
  lemma StartIsRightIff(s: string, k: nat)
    requires k <= |RowEnds(s, |s|)|
    ensures k < |Starts(s)| && Starts(s)[k] <= RowStart(s, k)
    ensures Starts(s)[k] == RowStart(s, k) <==> OnlyNewlines(s, RowStart(s, k))
  {
    hide IsBoundary, RowEnds, LineEnds, OnlyNewlines;
    OnlyNewlinesIff(s, RowStart(s, k));
    RowsAreLines(s, |s|);
    if k > 0 {
      var at := RowStart(s, k);
      RowStartIsRowEnd(s, |s|, k);
      RowsAreLines(s, at);
      EndsAscend(s, at, |s|);
      NewlineIsBoundary(s, at - 1);
      EndsAscend(s, at - 1, |s|);
      LastEnd(s, at);
      EndsAscend(s, at - 1, at);
    }
  }

  lemma NewlineIsBoundary(s: string, i: nat)
    requires i < |s| && s[i] == '\n'
    ensures IsBoundary(s, i)
  {
  }

  lemma LastEnd(s: string, at: nat)
    requires 0 < at <= |s| && IsBoundary(s, at - 1)
    ensures LineEnds(s, at) == LineEnds(s, at - 1) + [at]
  {
  }

  /** A form feed before the newline: row 1 starts at 2, and the table says 1. */
  lemma FormFeedMisplacesRows(rest: string)
    ensures var s := "\U{000C}\n" + rest; |RowEnds(s, |s|)| >= 1 && RowStart(s, 1) == 2 && Starts(s)[1] == 1
  {
    var s := "\U{000C}\n" + rest;
    assert IsBoundary(s, 0) && s[0] != '\n' && s[1] == '\n';
    FirstRowIsSecondLine(s);
  }

  lemma FirstRowIsSecondLine(s: string)
    requires |s| >= 2 && IsBoundary(s, 0) && s[0] != '\n' && s[1] == '\n'
    ensures |RowEnds(s, |s|)| >= 1 && RowStart(s, 1) == 2 && Starts(s)[1] == 1
  {
    hide IsBoundary, RowEnds, LineEnds;
    FirstEnds(s);
    EndsAscend(s, 2, |s|);
    EndsAscend(s, 1, |s|);
  }

  lemma FirstEnds(s: string)
    requires |s| >= 2 && IsBoundary(s, 0) && s[0] != '\n' && s[1] == '\n'
    ensures RowEnds(s, 2) == [2] && LineEnds(s, 1) == [1]
  {
    hide IsBoundary;
    assert RowEnds(s, 0) == [] && LineEnds(s, 0) == [];
    assert RowEnds(s, 1) == [];
  }

  // ---------------------------------------------------------------- finding the edits

  /** `offset` */
  function Offset(starts: seq<nat>, at: Position): nat
    requires 1 <= at.row <= |starts|
  {
    starts[at.row - 1] + at.col
  }

  /** The first bracket, from position `j` on, that brings the depth to zero. */
  function MatchFrom(tokens: seq<Token>, j: nat, depth: int): (close: Option<nat>)
    ensures close.Some? ==> j <= close.value < |tokens| && tokens[close.value].text == "]"
    decreases |tokens| - j
  {
    if j >= |tokens| then None
    else if tokens[j].text == "[" then MatchFrom(tokens, j + 1, depth + 1)
    else if tokens[j].text == "]" then (if depth == 1 then Some(j) else MatchFrom(tokens, j + 1, depth - 1))
    else MatchFrom(tokens, j + 1, depth)
  }

  /** Open brackets minus closed ones from `open` up to, not including, `to`. */
  function Depth(tokens: seq<Token>, open: nat, to: nat): int
    requires open <= to <= |tokens|
  {
    if to == open then 0
    else Depth(tokens, open, to - 1)
         + if tokens[to - 1].text == "[" then 1 else if tokens[to - 1].text == "]" then -1 else 0
  }

  /** `_matching_bracket`: the first bracket that closes everything opened since `open`. */
  method MatchingBracket(tokens: seq<Token>, open: nat) returns (close: Option<nat>)
    requires open < |tokens| && tokens[open].text == "["
    ensures close == MatchFrom(tokens, open, 0)
    ensures close.Some? ==> open < close.value < |tokens| && Depth(tokens, open, close.value + 1) == 0
    ensures forall j | open < j <= (if close.Some? then close.value else |tokens|) :: Depth(tokens, open, j) > 0
  {
    var depth := 0;
    for index := open to |tokens|
      invariant depth == Depth(tokens, open, index)
      invariant forall j | open < j <= index :: Depth(tokens, open, j) > 0
      invariant MatchFrom(tokens, index, depth) == MatchFrom(tokens, open, 0)
    {
      if tokens[index].text == "[" {
        depth := depth + 1;
      } else if tokens[index].text == "]" {
        depth := depth - 1;
        if depth == 0 {
          return Some(index);
        }
      }
    }
    close := None;
  }

  predicate EndsStatement(token: Token) {
    token.kind == NewlineToken || token.kind == IndentToken || token.kind == DedentToken || token.text == ";"
  }

  /** A `def`, `class` or `type` that opens a statement; `async` may precede `def`. */
  predicate AtStatementStart(tokens: seq<Token>, index: nat)
    requires index < |tokens|
  {
    if tokens[index].text == "def" && index > 0 && tokens[index - 1].text == "async"
    then index < 2 || EndsStatement(tokens[index - 2])
    else index == 0 || EndsStatement(tokens[index - 1])
  }

  /** The tokens whose place is ever looked up. */
  predicate IsPlaced(token: Token) {
    token.kind == NameToken || token.text == "[" || token.text == "]"
  }

  /** The place is one of the source, in rows as `tokenize` counts them. */
  ghost predicate InSource(source: string, at: Position) {
    && 1 <= at.row <= |RowEnds(source, |source|)| + 1
    && RowStart(source, at.row - 1) + at.col <= |source|
  }

  /** Names and brackets lie in the source, and names hold no newline.  Nothing is asked of other tokens: the
      newline token of a source without a final newline ends behind it. */
  ghost predicate TokensFit(source: string, tokens: seq<Token>) {
    forall t | t in tokens && IsPlaced(t) :: InSource(source, t.start) && InSource(source, t.end) && NewlineFree(t.text)
  }

  /** Looked up in the table, a place of the source stays in the source: it can only come out too early. */
  lemma OffsetStays(source: string, at: Position)
    requires InSource(source, at)
    ensures at.row <= |Starts(source)| && Offset(Starts(source), at) <= |source|
  {
    hide RowEnds, Starts;
    StartIsRightIff(source, at.row - 1);
  }

  /** Nothing of a statement stands before this token. */
  ghost predicate IsFirst(tokens: seq<Token>, index: nat)
    requires index < |tokens|
  {
    index == 0 || tokens[index - 1].kind in {NewlineToken, IndentToken, DedentToken} || tokens[index - 1].text == ";"
  }

  /** A keyword that opens a statement, perhaps behind `async`, followed by a name and one more token. */
  ghost predicate IsHeader(tokens: seq<Token>, index: nat) {
    && index + 2 < |tokens| && tokens[index].kind == NameToken && tokens[index].text in {"def", "class", "type"}
    && IsFirst(tokens, if tokens[index].text == "def" && index > 0 && tokens[index - 1].text == "async" then index - 1
                       else index)
    && tokens[index + 1].kind == NameToken
  }

  predicate HeadsStatement(tokens: seq<Token>, index: nat) {
    && index + 2 < |tokens| && tokens[index].kind == NameToken && tokens[index].text in {"def", "class", "type"}
    && AtStatementStart(tokens, index) && tokens[index + 1].kind == NameToken
  }

  lemma HeadsStatementIff(tokens: seq<Token>, index: nat)
    ensures HeadsStatement(tokens, index) <==> IsHeader(tokens, index)
  {
  }

  /** `type NAME` of an alias, with or without parameters. */
  ghost predicate IsAlias(tokens: seq<Token>, index: nat) {
    && IsHeader(tokens, index) && tokens[index].text == "type"
    && (|| tokens[index + 2].text == "="
        || (tokens[index + 2].text == "[" && exists close: nat :: IsParameters(tokens, index, close)))
  }

  /** `[...]` behind the name of a function, class or alias: from the bracket to its match, and then what must
      follow. */
  ghost predicate IsParameters(tokens: seq<Token>, index: nat, close: nat) {
    && IsHeader(tokens, index) && tokens[index + 2].text == "[" && close + 1 < |tokens|
    && MatchFrom(tokens, index + 2, 0) == Some(close)
    && (var after := tokens[close + 1].text;
        if tokens[index].text == "type" then after == "="
        else after == "(" || (tokens[index].text == "class" && after == ":"))
  }

  /** The edit blanks the parameter list that the keyword at `index` heads and the bracket at `close` ends. */
  ghost predicate BlanksParameters(starts: seq<nat>, tokens: seq<Token>, e: Edit, index: nat, close: nat) {
    IsParameters(tokens, index, close) && Spans(starts, e, tokens[index + 2], tokens[close], "")
  }

  /** The edit moves the name of an alias to the front of its `type NAME`. */
  ghost predicate MovesName(starts: seq<nat>, tokens: seq<Token>, e: Edit, index: nat) {
    IsAlias(tokens, index) && Spans(starts, e, tokens[index], tokens[index + 1], tokens[index + 1].text)
  }

  ghost predicate IsPepEdit(starts: seq<nat>, tokens: seq<Token>, e: Edit) {
    || (exists index: nat, close: nat :: BlanksParameters(starts, tokens, e, index, close))
    || (exists index: nat :: MovesName(starts, tokens, e, index))
  }

  ghost predicate Spans(starts: seq<nat>, e: Edit, first: Token, last: Token, text: string) {
    && 1 <= first.start.row <= |starts| && 1 <= last.end.row <= |starts|
    && e == Edit(Offset(starts, first.start), Offset(starts, last.end), text)
  }

  ghost predicate AllPepEdits(starts: seq<nat>, tokens: seq<Token>, edits: seq<Edit>) {
    forall e | e in edits :: IsPepEdit(starts, tokens, e)
  }

  /** The edits hold one for every parameter list and every alias that a keyword at `index` heads. */
  ghost predicate CoversHeader(starts: seq<nat>, tokens: seq<Token>, index: nat, edits: seq<Edit>) {
    && (forall close: nat | IsParameters(tokens, index, close) ::
          exists e | e in edits :: BlanksParameters(starts, tokens, e, index, close))
    && (IsAlias(tokens, index) ==> exists e | e in edits :: MovesName(starts, tokens, e, index))
  }

  lemma TokenStays(source: string, tokens: seq<Token>, t: Token)
    requires TokensFit(source, tokens) && t in tokens && IsPlaced(t)
    ensures 1 <= t.start.row <= |Starts(source)| && 1 <= t.end.row <= |Starts(source)|
    ensures Offset(Starts(source), t.start) <= |source| && Offset(Starts(source), t.end) <= |source|
        && NewlineFree(t.text)
  {
    hide Starts;
    OffsetStays(source, t.start);
    OffsetStays(source, t.end);
  }

  /** Where the keyword at `index` heads a parameter list, and where that ends. */
  method ParametersAt(tokens: seq<Token>, index: nat) returns (close: Option<nat>)
    ensures close.Some? ==> IsParameters(tokens, index, close.value)
    ensures close == None ==> forall c: nat :: !IsParameters(tokens, index, c)
  {
    hide AtStatementStart, IsFirst, MatchFrom;
    close := None;
    HeadsStatementIff(tokens, index);
    if HeadsStatement(tokens, index) && tokens[index + 2].text == "[" {
      var found := MatchingBracket(tokens, index + 2);
      if found.Some? && found.value + 1 < |tokens| {
        var after := tokens[found.value + 1].text;
        if if tokens[index].text == "type" then after == "="
           else after == "(" || (tokens[index].text == "class" && after == ":") {
          close := found;
        }
      }
    }
  }

  lemma ParametersEndOnce(tokens: seq<Token>, index: nat, close: nat, other: nat)
    requires IsParameters(tokens, index, close) && IsParameters(tokens, index, other)
    ensures close == other
  {
    hide IsHeader, MatchFrom;
  }

  method Blanking(source: string, starts: seq<nat>, tokens: seq<Token>, index: nat, close: nat) returns (e: Edit)
    requires TokensFit(source, tokens) && starts == Starts(source) && IsParameters(tokens, index, close)
    ensures EditFits(|source|, e) && BlanksParameters(starts, tokens, e, index, close)
  {
    hide TokensFit, Starts, IsFirst, Offset;
    TokenStays(source, tokens, tokens[index + 2]);
    TokenStays(source, tokens, tokens[close]);
    e := Edit(Offset(starts, tokens[index + 2].start), Offset(starts, tokens[close].end), "");
  }

  method Moving(source: string, starts: seq<nat>, tokens: seq<Token>, index: nat) returns (e: Edit)
    requires TokensFit(source, tokens) && starts == Starts(source) && IsAlias(tokens, index)
    ensures EditFits(|source|, e) && MovesName(starts, tokens, e, index)
  {
    hide TokensFit, Starts, IsFirst, IsParameters, Offset, NewlineFree;
    TokenStays(source, tokens, tokens[index]);
    TokenStays(source, tokens, tokens[index + 1]);
    e := Edit(Offset(starts, tokens[index].start), Offset(starts, tokens[index + 1].end), tokens[index + 1].text);
  }

  /** The edits that a keyword at `index` asks for. */
  method EditsAt(source: string, starts: seq<nat>, tokens: seq<Token>, index: nat) returns (edits: seq<Edit>)
    requires TokensFit(source, tokens) && starts == Starts(source) && index < |tokens|
    ensures AllFit(|source|, edits) && AllPepEdits(starts, tokens, edits) && CoversHeader(starts, tokens, index, edits)
  {
    hide TokensFit, Starts, IsHeader, HeadsStatement, IsParameters, IsAlias, BlanksParameters, MovesName, EditFits;
    edits := [];
    var close := ParametersAt(tokens, index);
    AliasIff(tokens, index, close);
    HeadsStatementIff(tokens, index);
    if HeadsStatement(tokens, index) && tokens[index].text == "type" && (tokens[index + 2].text == "=" || close.Some?) {
      var move := Moving(source, starts, tokens, index);
      edits := [move];
    }
    if close.Some? {
      var blank := Blanking(source, starts, tokens, index, close.value);
      edits := edits + [blank];
      forall c: nat | IsParameters(tokens, index, c)
        ensures c == close.value
      {
        ParametersEndOnce(tokens, index, c, close.value);
      }
    }
  }

  lemma AliasIff(tokens: seq<Token>, index: nat, close: Option<nat>)
    requires close.Some? ==> IsParameters(tokens, index, close.value)
    requires close == None ==> forall c: nat :: !IsParameters(tokens, index, c)
    ensures IsHeader(tokens, index) ==> index + 2 < |tokens|
    ensures IsAlias(tokens, index) <==>
      IsHeader(tokens, index) && tokens[index].text == "type" && (tokens[index + 2].text == "=" || close.Some?)
  {
    hide IsFirst, MatchFrom;
  }

  /** The edits are exactly those for the parameter lists and aliases of the headers, in the places the table
      gives. */
  ghost predicate AreHeaderEdits(source: string, tokens: seq<Token>, edits: seq<Edit>) {
    && AllFit(|source|, edits) && AllPepEdits(Starts(source), tokens, edits)
    && forall index | 0 <= index < |tokens| :: CoversHeader(Starts(source), tokens, index, edits)
  }

  /** None when there is nothing to edit, otherwise the source with the edits applied. */
  ghost predicate IsRewrite(source: string, tokens: seq<Token>, edits: seq<Edit>, rewritten: Option<string>) {
    AreHeaderEdits(source, tokens, edits) && rewritten == if edits == [] then None else Some(FillAll(source, edits))
  }

  /** `_rewrite_pep695` on a tokenised source */
  method RewritePep695(source: string, tokens: seq<Token>) returns (rewritten: Option<string>)
    requires TokensFit(source, tokens)
    ensures exists edits :: IsRewrite(source, tokens, edits, rewritten)
  {
    hide TokensFit, Starts, IsPepEdit, CoversHeader;
    var starts := Starts(source);
    var edits: seq<Edit> := [];
    for index := 0 to |tokens|
      invariant AllFit(|source|, edits) && AllPepEdits(starts, tokens, edits)
      invariant forall i | 0 <= i < index :: CoversHeader(starts, tokens, i, edits)
    {
      var more := EditsAt(source, starts, tokens, index);
      forall i | 0 <= i <= index
        ensures CoversHeader(starts, tokens, i, edits + more)
      {
        MoreEditsCover(starts, tokens, i, if i < index then edits else more, edits + more);
      }
      edits := edits + more;
    }
    if edits == [] {
      rewritten := None;
    } else {
      var text := ApplyEdits(source, edits);
      rewritten := Some(text);
    }
    assert IsRewrite(source, tokens, edits, rewritten);
  }

  lemma MoreEditsCover(starts: seq<nat>, tokens: seq<Token>, index: nat, edits: seq<Edit>, more: seq<Edit>)
    requires CoversHeader(starts, tokens, index, edits) && forall e | e in edits :: e in more
    ensures CoversHeader(starts, tokens, index, more)
  {
    hide IsParameters, IsAlias, BlanksParameters, MovesName;
  }

  /** So a rewritten text has the length and the newlines of the source, wherever its edits are. */
  lemma RewriteKeepsLines(source: string, tokens: seq<Token>, edits: seq<Edit>, rewritten: string, i: nat)
    requires IsRewrite(source, tokens, edits, Some(rewritten)) && i < |source|
    ensures |rewritten| == |source|
    ensures source[i] in "\n\r" || rewritten[i] in "\n\r" ==> rewritten[i] == source[i]
  {
    hide IsPepEdit, Starts, CoversHeader;
    FillAllKeepsLines(source, edits);
  }

  // ---------------------------------------------------------------- the true places

  /** Where a place of the source really is. */
  function TruePlace(source: string, at: Position): nat
    requires 1 <= at.row <= |RowEnds(source, |source|)| + 1
  {
    RowStart(source, at.row - 1) + at.col
  }

  /** Before the row of this place the only line boundaries are newlines. */
  ghost predicate CleanBefore(source: string, at: Position) {
    && 1 <= at.row <= |RowEnds(source, |source|)| + 1
    && OnlyNewlines(source, RowStart(source, at.row - 1))
  }

  /** The edit spans the source from the true start of one token to the true end of another. */
  ghost predicate SpansTruly(source: string, e: Edit, first: Token, last: Token, text: string) {
    && InSource(source, first.start) && InSource(source, last.end)
    && e == Edit(TruePlace(source, first.start), TruePlace(source, last.end), text)
  }

  /** An edit taken from the table is in its true place exactly if the rows it starts and ends in are clean. */
  lemma SpanIsTrueIff(source: string, e: Edit, first: Token, last: Token, text: string)
    requires InSource(source, first.start) && InSource(source, last.end) && Spans(Starts(source), e, first, last, text)
    ensures SpansTruly(source, e, first, last, text)
       <==> CleanBefore(source, first.start) && CleanBefore(source, last.end)
  {
    hide Starts, RowEnds, RowStart, IsBoundary;
    StartIsRightIff(source, first.start.row - 1);
    StartIsRightIff(source, last.end.row - 1);
  }

  ghost predicate BlanksTruly(source: string, tokens: seq<Token>, e: Edit, index: nat, close: nat) {
    IsParameters(tokens, index, close) && SpansTruly(source, e, tokens[index + 2], tokens[close], "")
  }

  ghost predicate MovesTruly(source: string, tokens: seq<Token>, e: Edit, index: nat) {
    IsAlias(tokens, index) && SpansTruly(source, e, tokens[index], tokens[index + 1], tokens[index + 1].text)
  }

  ghost predicate AllTrue(source: string, tokens: seq<Token>) {
    && (forall e, index: nat, close: nat | BlanksParameters(Starts(source), tokens, e, index, close) ::
          BlanksTruly(source, tokens, e, index, close))
    && (forall e, index: nat | MovesName(Starts(source), tokens, e, index) :: MovesTruly(source, tokens, e, index))
  }

  ghost predicate CleanParameters(source: string, tokens: seq<Token>, index: nat, close: nat) {
    IsParameters(tokens, index, close) ==>
      CleanBefore(source, tokens[index + 2].start) && CleanBefore(source, tokens[close].end)
  }

  ghost predicate CleanAlias(source: string, tokens: seq<Token>, index: nat) {
    IsAlias(tokens, index) ==> CleanBefore(source, tokens[index].start) && CleanBefore(source, tokens[index + 1].end)
  }

  /** No line boundary but newlines comes before the rows of any parameter list or alias. */
  ghost predicate CleanHeaders(source: string, tokens: seq<Token>) {
    && (forall index: nat, close: nat :: CleanParameters(source, tokens, index, close))
    && (forall index: nat :: CleanAlias(source, tokens, index))
  }

  lemma ParametersAreTrueIff(source: string, tokens: seq<Token>, index: nat, close: nat)
    requires TokensFit(source, tokens)
    ensures CleanParameters(source, tokens, index, close) <==>
            forall e | BlanksParameters(Starts(source), tokens, e, index, close) ::
                BlanksTruly(source, tokens, e, index, close)
  {
    hide TokensFit, InSource, Starts, IsFirst, Offset, CleanBefore, SpansTruly, MatchFrom;
    if IsParameters(tokens, index, close) {
      var first, last := tokens[index + 2], tokens[close];
      PlacedIsInSource(source, tokens, first);
      PlacedIsInSource(source, tokens, last);
      TokenStays(source, tokens, first);
      TokenStays(source, tokens, last);
      var own := Edit(Offset(Starts(source), first.start), Offset(Starts(source), last.end), "");
      assert BlanksParameters(Starts(source), tokens, own, index, close);
      SpanIsTrueIff(source, own, first, last, "");
    }
  }

  lemma AliasIsTrueIff(source: string, tokens: seq<Token>, index: nat)
    requires TokensFit(source, tokens)
    ensures CleanAlias(source, tokens, index) <==>
            forall e | MovesName(Starts(source), tokens, e, index) :: MovesTruly(source, tokens, e, index)
  {
    hide TokensFit, InSource, Starts, IsFirst, IsParameters, Offset, CleanBefore, SpansTruly;
    if IsAlias(tokens, index) {
      var first, last := tokens[index], tokens[index + 1];
      PlacedIsInSource(source, tokens, first);
      PlacedIsInSource(source, tokens, last);
      TokenStays(source, tokens, first);
      TokenStays(source, tokens, last);
      var own := Edit(Offset(Starts(source), first.start), Offset(Starts(source), last.end), last.text);
      assert MovesName(Starts(source), tokens, own, index);
      SpanIsTrueIff(source, own, first, last, last.text);
    }
  }

  lemma PlacedIsInSource(source: string, tokens: seq<Token>, t: Token)
    requires TokensFit(source, tokens) && t in tokens && IsPlaced(t)
    ensures InSource(source, t.start) && InSource(source, t.end)
  {
  }

  /** Exactly when the edits are where the tokens are: no line boundary but newlines comes before the rows of any
      parameter list or alias. */
  lemma EditsAreTrueIff(source: string, tokens: seq<Token>)
    requires TokensFit(source, tokens)
    ensures AllTrue(source, tokens) <==> CleanHeaders(source, tokens)
  {
    hide TokensFit, Starts, CleanParameters, CleanAlias, BlanksParameters, BlanksTruly, MovesName, MovesTruly;
    if AllTrue(source, tokens) {
      forall index: nat, close: nat
        ensures CleanParameters(source, tokens, index, close)
      {
        ParametersAreTrueIff(source, tokens, index, close);
      }
      forall index: nat
        ensures CleanAlias(source, tokens, index)
      {
        AliasIsTrueIff(source, tokens, index);
      }
    }
    if CleanHeaders(source, tokens) {
      forall e, index: nat, close: nat | BlanksParameters(Starts(source), tokens, e, index, close)
        ensures BlanksTruly(source, tokens, e, index, close)
      {
        ParametersAreTrueIff(source, tokens, index, close);
        assert CleanParameters(source, tokens, index, close);
      }
      forall e, index: nat | MovesName(Starts(source), tokens, e, index)
        ensures MovesTruly(source, tokens, e, index)
      {
        AliasIsTrueIff(source, tokens, index);
        assert CleanAlias(source, tokens, index);
      }
    }
  }

  /** The position lies in a parameter list or in the `type NAME` of an alias, by the true places of its tokens. */
  ghost predicate InHeader(source: string, tokens: seq<Token>, i: nat) {
    exists e, index: nat, close: nat ::
      (BlanksTruly(source, tokens, e, index, close) || MovesTruly(source, tokens, e, index)) && e.start <= i < e.end
  }

  /** Under that condition the rewritten text differs from the source only inside its parameter lists and the
      `type NAME` of its aliases. */
  lemma RewriteTouchesOnlyHeaders(source: string, tokens: seq<Token>, edits: seq<Edit>, rewritten: string, i: nat)
    requires TokensFit(source, tokens) && CleanHeaders(source, tokens)
    requires IsRewrite(source, tokens, edits, Some(rewritten)) && i < |source|
    ensures |rewritten| == |source| && (rewritten[i] != source[i] ==> InHeader(source, tokens, i))
  {
    hide TokensFit, CleanHeaders, Starts, CoversHeader, BlanksParameters, BlanksTruly, MovesName, MovesTruly;
    FillAllKeepsLines(source, edits);
    EditsAreTrueIff(source, tokens);
    if rewritten[i] != source[i] {
      var e :| e in edits && e.start <= i < e.end;
      assert IsPepEdit(Starts(source), tokens, e);
      if index: nat, close: nat :| BlanksParameters(Starts(source), tokens, e, index, close) {
        assert BlanksTruly(source, tokens, e, index, close);
      } else {
        var index: nat :| MovesName(Starts(source), tokens, e, index);
        assert MovesTruly(source, tokens, e, index);
        assert BlanksTruly(source, tokens, e, index, 0) || MovesTruly(source, tokens, e, index);
      }
    }
  }

  // ---------------------------------------------------------------- a rewrite in the wrong place

  const FEED: string := "\U{000C}\ndef f[T]():0"

  function On2(kind: TokenKind, text: string, col: nat): Token {
    Token(kind, text, Position(2, col), Position(2, col + |text|))
  }

  const FEED_TOKENS: seq<Token> := [
    On2(NameToken, "def", 0), On2(NameToken, "f", 4), On2(OtherToken, "[", 5), On2(NameToken, "T", 6),
    On2(OtherToken, "]", 7), On2(OtherToken, "(", 8), On2(OtherToken, ")", 9), On2(OtherToken, ":", 10),
    On2(OtherToken, "0", 11), On2(NewlineToken, "", 12)]

  lemma FeedRows()
    ensures |RowEnds(FEED, |FEED|)| >= 1 && RowStart(FEED, 1) == 2 && |Starts(FEED)| >= 2 && Starts(FEED)[1] == 1
  {
    assert FEED == "\U{000C}\n" + "def f[T]():0";
    FormFeedMisplacesRows("def f[T]():0");
  }

  lemma PlacedInFeed(t: Token)
    requires t.start.row == t.end.row == 2 && t.start.col <= 12 && t.end.col <= 12
    ensures InSource(FEED, t.start) && InSource(FEED, t.end)
  {
    hide RowEnds, RowStart;
    FeedRows();
  }

  lemma FeedToken(n: nat)
    requires n < |FEED_TOKENS|
    ensures var t := FEED_TOKENS[n];
      t.start.row == t.end.row == 2 && t.start.col <= 12 && t.end.col <= 12 && NewlineFree(t.text)
  {
  }

  lemma FeedFits()
    ensures TokensFit(FEED, FEED_TOKENS)
  {
    hide RowEnds, RowStart, InSource, FEED_TOKENS, NewlineFree, IsPlaced;
    forall t | t in FEED_TOKENS && IsPlaced(t)
      ensures InSource(FEED, t.start) && InSource(FEED, t.end) && NewlineFree(t.text)
    {
      var n: nat :| n < |FEED_TOKENS| && FEED_TOKENS[n] == t;
      FeedToken(n);
      PlacedInFeed(t);
    }
  }

  lemma FeedHeader(index: nat)
    ensures IsHeader(FEED_TOKENS, index) ==> index == 0
    ensures !IsAlias(FEED_TOKENS, index)
    ensures IsParameters(FEED_TOKENS, 0, 4)
  {
    assert MatchFrom(FEED_TOKENS, 4, 1) == Some(4);
    assert MatchFrom(FEED_TOKENS, 3, 1) == Some(4);
    assert MatchFrom(FEED_TOKENS, 2, 0) == Some(4);
  }

  lemma FeedEdit(e: Edit)
    ensures IsPepEdit(Starts(FEED), FEED_TOKENS, e) ==> e == Edit(6, 9, "")
  {
    hide Starts, IsHeader, MatchFrom;
    FeedRows();
    if index: nat, close: nat :| BlanksParameters(Starts(FEED), FEED_TOKENS, e, index, close) {
      FeedHeader(index);
      ParametersEndOnce(FEED_TOKENS, 0, close, 4);
    }
    if index: nat :| MovesName(Starts(FEED), FEED_TOKENS, e, index) {
      FeedHeader(index);
    }
  }

  const FED: string := "\U{000C}\ndef    ]():0"

  lemma FillFed(s: string)
    requires s == FEED || s == FED
    ensures Fill(s, 6, 9, "") == FED
  {
    var one := s[6 := ' '];
    var two := one[7 := ' '];
    assert Fill(s, 6, 9, "") == Fill(one, 7, 9, "") == Fill(two, 8, 9, "") == Fill(two[8 := ' '], 9, 9, "");
    assert two[8 := ' '] == FED;
  }

  lemma FeedIsWide(edits: seq<Edit>)
    requires forall e | e in edits :: e == Edit(6, 9, "")
    ensures AllFit(|FEED|, edits) && |FED| == |FEED|
  {
    assert forall i | 0 <= i < |edits| :: edits[i] in edits;
  }

  lemma {:induction false} FillAllFed(edits: seq<Edit>)
    requires edits != [] && forall e | e in edits :: e == Edit(6, 9, "")
    ensures AllFit(|FEED|, edits) && FillAll(FEED, edits) == FED
    decreases |edits|
  {
    hide Fill;
    var front, last := edits[..|edits| - 1], edits[|edits| - 1];
    assert last in edits && forall e | e in front :: e in edits;
    FeedIsWide(edits);
    if front != [] { FillAllFed(front); }
    FillFed(if front == [] then FEED else FED);
  }

  /** Whatever the rewriter makes of this source, it blanks the name of the function and leaves the closing
      bracket. */
  lemma FormFeedMovesTheEdit(edits: seq<Edit>, rewritten: Option<string>)
    requires IsRewrite(FEED, FEED_TOKENS, edits, rewritten)
    ensures rewritten == Some(FED)
    ensures TokensFit(FEED, FEED_TOKENS) && FEED[6] == 'f' && FED[6] == ' ' && FEED[9] == FED[9] == ']'
  {
    hide Starts, IsPepEdit, BlanksParameters, IsParameters, FillAll, TokensFit;
    FeedFits();
    FeedHeader(0);
    assert CoversHeader(Starts(FEED), FEED_TOKENS, 0, edits);
    assert edits != [];
    forall e | e in edits
      ensures e == Edit(6, 9, "")
    {
      FeedEdit(e);
    }
    FillAllFed(edits);
  }
}
