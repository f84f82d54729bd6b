/**
 What the calls of the GraphQL scanner do to its cursor, its line index and its stack of saved
 cursors, as functions of them, and what every run of calls keeps: the specification the
 scanner's methods are proved against.
 */
module ScannerRules {
  import opened SourceText
  import opened GraphQlTokens
  import opened GraphQlLexer
  import opened LineIndex

  datatype SavedTextCursor = SavedTextCursor(
    position: nat, line: nat, column: nat, startPosition: nat, startLine: nat, startColumn: nat)

  datatype ScannerState = ScannerState(cursor: SavedTextCursor, index: seq<PositionToLine>, saved: seq<SavedTextCursor>)

  // The saved cursors are positions the scanner can be at.
  ghost predicate SavedInside(saved: seq<SavedTextCursor>, limit: nat) {
    forall k | 0 <= k < |saved| :: saved[k].startPosition <= saved[k].position <= limit
  }

  // String scanning may step one place past the end of the text, never further.
  ghost predicate Inside(s: string, st: ScannerState) {
    st.cursor.startPosition <= st.cursor.position <= |s| + 1 && SavedInside(st.saved, |s| + 1)
  }

  // A saved cursor the scanner can go back to from offset `p`.
  ghost predicate SavedSound(s: string, index: seq<PositionToLine>, cursor: SavedTextCursor, p: nat)
    requires |index| > 0
  {
    cursor.position <= p && cursor.line == TrueLine(s, cursor.position) && Covers(s, index, cursor.position)
  }

  // What a revert relies on: the index is sound and every saved cursor is one to go back to,
  // none of them past the one above it.
  ghost predicate HistoryRight(s: string, index: seq<PositionToLine>, saved: seq<SavedTextCursor>, p: nat) {
    && LoneCarriageReturns(s)
    && IndexSound(s, index)
    && (forall k | 0 <= k < |saved| :: SavedSound(s, index, saved[k], p))
    && (forall j, k | 0 <= j < k < |saved| :: saved[j].position <= saved[k].position)
  }

  /** The line bookkeeping is right at offset `p`: `line` counts the lines before it, the index
      is sound and reaches it, and the same will hold after any number of reverts. */
  ghost predicate LinesRight(s: string, index: seq<PositionToLine>, saved: seq<SavedTextCursor>, line: nat, p: nat) {
    HistoryRight(s, index, saved, p) && Covers(s, index, p) && line == TrueLine(s, p)
  }

  ghost predicate HistoryIn(s: string, st: ScannerState) {
    HistoryRight(s, st.index, st.saved, st.cursor.position)
  }

  ghost predicate LinesIn(s: string, st: ScannerState) {
    LinesRight(s, st.index, st.saved, st.cursor.line, st.cursor.position)
  }

  // The running column is the true one.
  ghost predicate ColumnsIn(s: string, st: ScannerState) {
    st.cursor.column == TrueColumn(s, st.cursor.position)
  }

  // So are the saved ones.
  ghost predicate SavedColumnsIn(s: string, st: ScannerState) {
    forall k | 0 <= k < |st.saved| :: st.saved[k].column == TrueColumn(s, st.saved[k].position)
  }

  /** Lines and columns are right, and will be after any number of reverts. */
  ghost predicate PlacesIn(s: string, st: ScannerState) {
    LinesIn(s, st) && ColumnsIn(s, st) && SavedColumnsIn(s, st)
  }

  // Recording the end of a line keeps the bookkeeping right.
  lemma Recorded(s: string, index: seq<PositionToLine>, saved: seq<SavedTextCursor>, line: nat, p: nat)
    requires LinesRight(s, index, saved, line, p) && p < |s| && EndsLine(s, p)
    ensures LinesRight(s, index + [PositionToLine(p + 1, line + 1)], saved, line + 1, p + 1)
    ensures LineStart(s, p + 1) == p + 1
  {
    RecordLine(s, index, p, line);
    forall k | 0 <= k < |saved|
      ensures SavedSound(s, index + [PositionToLine(p + 1, line + 1)], saved[k], p + 1)
    {
      assert SavedSound(s, index, saved[k], p);
    }
  }

  // Moving over text in which no line ends keeps the line bookkeeping right; moving over
  // any other text breaks it.
  lemma Moved(s: string, index: seq<PositionToLine>, saved: seq<SavedTextCursor>, line: nat, p: nat, q: nat)
    requires LinesRight(s, index, saved, line, p) && p <= q
    ensures HistoryRight(s, index, saved, q)
    ensures LinesRight(s, index, saved, line, q) <==> NoBreak(s, p, q)
    ensures LineStart(s, p) == LineStart(s, q) <==> NoBreak(s, p, q)
  {
    SameLine(s, p, q);
    forall k | 0 <= k < |saved| ensures SavedSound(s, index, saved[k], q) {
      assert SavedSound(s, index, saved[k], p);
    }
  }

  // The token starts where the cursor is.
  function Started(st: ScannerState): ScannerState {
    st.(cursor := st.cursor.(startPosition := st.cursor.position, startColumn := st.cursor.column))
  }

  function MovedTo(c: SavedTextCursor, p: nat): SavedTextCursor
    requires c.position <= p
  {
    c.(position := p, column := c.column + (p - c.position))
  }

  // The start moves along with the cursor.
  function CarriedTo(c: SavedTextCursor, p: nat): SavedTextCursor
    requires c.position <= p
  {
    MovedTo(c, p).(startPosition := c.startPosition + (p - c.position), startColumn := c.startColumn + (p - c.position))
  }

  function NewLine(c: SavedTextCursor): SavedTextCursor {
    c.(column := 1, startColumn := 1, startLine := c.startLine + 1, startPosition := c.startPosition + 1)
  }

  // A line break is recorded; white space that is a token leaves column and start alone.
  function BreakTaken(s: string, st: ScannerState, skip: bool): ScannerState
    requires st.cursor.position < |s| && IsLineBreakChar(s[st.cursor.position])
  {
    var end := TriviaEnd(s, st.cursor.position);
    var c := MovedTo(st.cursor, end).(line := st.cursor.line + 1);
    st.(cursor := if skip then NewLine(c) else c, index := st.index + [PositionToLine(end, c.line)])
  }

  // One trivia character, or one whole comment.
  function TriviaTaken(s: string, st: ScannerState, skip: bool): (r: ScannerState)
    requires st.cursor.startPosition <= st.cursor.position < |s| && IsTrivia(s[st.cursor.position])
    ensures r.saved == st.saved && st.index <= r.index && r.cursor.position == TriviaEnd(s, st.cursor.position)
    ensures var lag := st.cursor.position - st.cursor.startPosition;
            if skip || s[st.cursor.position] == '#' then
              r.cursor.position - r.cursor.startPosition == lag + TriviaLag(s, st.cursor.position)
            else r.cursor.startPosition == st.cursor.startPosition
  {
    var p := st.cursor.position;
    if IsLineBreakChar(s[p]) then BreakTaken(s, st, skip)
    else if skip || s[p] == '#' then st.(cursor := CarriedTo(st.cursor, TriviaEnd(s, p)))
    else st.(cursor := MovedTo(st.cursor, TriviaEnd(s, p)))
  }

  // A character that starts a token, and the rest of that token.
  function TokenTaken(s: string, st: ScannerState): (r: ScannerState)
    requires st.cursor.startPosition <= st.cursor.position < |s| && !IsTrivia(s[st.cursor.position])
    ensures r.saved == st.saved && r.index == st.index && r.cursor.startPosition == st.cursor.startPosition
    ensures st.cursor.position < r.cursor.position <= |s| + 1
  {
    st.(cursor := MovedTo(st.cursor, TokenFrom(s, st.cursor.startPosition, st.cursor.position).1))
  }

  function Scanned(s: string, st: ScannerState, skip: bool): (r: ScannerState)
    requires st.cursor.startPosition <= st.cursor.position <= |s| + 1
    ensures r.cursor.startPosition <= r.cursor.position <= |s| + 1 && st.cursor.position <= r.cursor.position
    ensures r.saved == st.saved && st.index <= r.index
    decreases |s| + 1 - st.cursor.position
  {
    var p := st.cursor.position;
    if p >= |s| then st
    else if IsTrivia(s[p]) then
      var after := TriviaTaken(s, st, skip);
      if skip || s[p] == '#' then Scanned(s, after, skip) else after
    else TokenTaken(s, st)
  }

  lemma ScannedPiece(s: string, st: ScannerState, skip: bool)
    requires st.cursor.startPosition <= st.cursor.position <= |s| + 1
    ensures var p := st.cursor.position;
            Scanned(s, st, skip) ==
              if p >= |s| then st
              else if !IsTrivia(s[p]) then TokenTaken(s, st)
              else if skip || s[p] == '#' then Scanned(s, TriviaTaken(s, st, skip), skip)
              else TriviaTaken(s, st, skip)
  {
  }

  // The cursor ends where the token ends, and the start is the token's.
  lemma {:induction false} ScannedIsNext(s: string, st: ScannerState, skip: bool)
    requires st.cursor.startPosition <= st.cursor.position <= |s| + 1
    ensures var next := Next(s, st.cursor.position, st.cursor.position - st.cursor.startPosition, skip);
            var r := Scanned(s, st, skip);
            r.cursor.startPosition == next.start && r.cursor.position == next.end
    decreases |s| + 1 - st.cursor.position
  {
    hide TokenFrom, TriviaTaken, TriviaEnd, TriviaLag, IsTrivia;
    var p := st.cursor.position;
    if p < |s| && IsTrivia(s[p]) && (skip || s[p] == '#') {
      ScannedIsNext(s, TriviaTaken(s, st, skip), skip);
    }
  }

  // One call of the scanner.
  function Taken(s: string, st: ScannerState, skip: bool): (r: ScannerState)
    requires st.cursor.position <= |s| + 1
    ensures var next := Next(s, st.cursor.position, 0, skip);
            r.cursor.startPosition == next.start && r.cursor.position == next.end
    ensures r.saved == st.saved && st.index <= r.index
  {
    ScannedIsNext(s, Started(st), skip);
    Scanned(s, Started(st), skip)
  }

  function Saved(st: ScannerState): ScannerState {
    st.(saved := st.saved + [st.cursor])
  }

  function Reverted(st: ScannerState): ScannerState
    requires st.saved != []
  {
    st.(cursor := st.saved[|st.saved| - 1], saved := st.saved[..|st.saved| - 1])
  }

  function Peeked(s: string, st: ScannerState): ScannerState
    requires st.cursor.position <= |s| + 1
  {
    Reverted(Taken(s, Saved(st), true))
  }

  function Tried(s: string, st: ScannerState, expected: Token, keywordAsName: bool, skip: bool): ScannerState
    requires st.cursor.position <= |s| + 1
  {
    var after := Taken(s, Saved(st), skip);
    if Next(s, st.cursor.position, 0, skip).token.InMode(keywordAsName) == expected then after else Reverted(after)
  }

  function SkippedTo(s: string, st: ScannerState, tokens: set<Token>): (r: ScannerState)
    requires st.cursor.position <= |s| + 1
    ensures st.cursor.position <= r.cursor.position <= |s| + 1
    ensures st.saved <= r.saved && st.index <= r.index
    decreases |s| + 1 - st.cursor.position
  {
    var token, after := Next(s, st.cursor.position, 0, true).token, Taken(s, Saved(st), true);
    if token == EndOfDocument then after
    else if token in tokens then Reverted(after)
    else SkippedTo(s, after, tokens)
  }

  lemma SkipStep(s: string, st: ScannerState, tokens: set<Token>)
    requires st.cursor.position <= |s| + 1
    ensures var token, after := Next(s, st.cursor.position, 0, true).token, Taken(s, Saved(st), true);
            SkippedTo(s, st, tokens) ==
              if token == EndOfDocument then after
              else if token in tokens then Reverted(after)
              else SkippedTo(s, after, tokens)
  {
    hide Taken, Next;
  }

  // What is left from the first of the given tokens on.
  predicate StopsAtFirst(all: seq<Lexeme>, rest: seq<Lexeme>, tokens: set<Token>) {
    exists n: nat | n <= |all| ::
      && rest == all[n..]
      && (forall k | 0 <= k < n :: all[k].token !in tokens)
      && (rest == [] || rest[0].token in tokens)
  }

  lemma {:induction false} SkipStops(s: string, st: ScannerState, tokens: set<Token>)
    requires st.cursor.position <= |s| + 1
    ensures StopsAtFirst(Lexemes(s, st.cursor.position), Lexemes(s, SkippedTo(s, st, tokens).cursor.position), tokens)
    decreases |s| + 1 - st.cursor.position
  {
    hide Taken, Next, StopsAtFirst;
    var all, next := Lexemes(s, st.cursor.position), Next(s, st.cursor.position, 0, true);
    if next.token == EndOfDocument {
      NothingLeft(s, next.end);
      StopsHere(all, tokens);
    } else if next.token in tokens {
      StopsHere(all, tokens);
    } else {
      SkipStops(s, Taken(s, Saved(st), true), tokens);
      StopsLater(LexemeOf(s, next), Lexemes(s, next.end), Lexemes(s, SkippedTo(s, st, tokens).cursor.position), tokens);
    }
  }

  lemma StopsHere(all: seq<Lexeme>, tokens: set<Token>)
    requires all == [] || all[0].token in tokens
    ensures StopsAtFirst(all, all, tokens)
  {
    assert all[0..] == all;
  }

  lemma StopsLater(first: Lexeme, tail: seq<Lexeme>, rest: seq<Lexeme>, tokens: set<Token>)
    requires first.token !in tokens && StopsAtFirst(tail, rest, tokens)
    ensures StopsAtFirst([first] + tail, rest, tokens)
  {
    var n: nat :| n <= |tail| && rest == tail[n..] && (forall k | 0 <= k < n :: tail[k].token !in tokens) &&
      (rest == [] || rest[0].token in tokens);
    var all := [first] + tail;
    assert all[n + 1..] == tail[n..];
    assert forall k | 0 < k < n + 1 :: all[k] == tail[k - 1];
  }

  function DepthAfter(token: Token, depth: int): int {
    if token == OpenBrace then depth + 1 else if token == CloseBrace then depth - 1 else depth
  }

  // `depth` braces are open, and one has been `seen` or not.
  function BlockSkipped(s: string, st: ScannerState, depth: int, seen: bool): (r: ScannerState)
    requires st.cursor.position <= |s| + 1
    ensures st.cursor.position <= r.cursor.position <= |s| + 1
    ensures r.saved == st.saved && st.index <= r.index
    decreases |s| + 1 - st.cursor.position
  {
    var token, after := Next(s, st.cursor.position, 0, true).token, Taken(s, st, true);
    var brace := seen || token in {OpenBrace, CloseBrace};
    if token == EndOfDocument || (brace && DepthAfter(token, depth) <= 0) then after
    else BlockSkipped(s, after, DepthAfter(token, depth), brace)
  }

  lemma BlockStep(s: string, st: ScannerState, depth: int, seen: bool)
    requires st.cursor.position <= |s| + 1
    ensures var token, after := Next(s, st.cursor.position, 0, true).token, Taken(s, st, true);
            var brace := seen || token in {OpenBrace, CloseBrace};
            BlockSkipped(s, st, depth, seen) ==
              if token == EndOfDocument || (brace && DepthAfter(token, depth) <= 0) then after
              else BlockSkipped(s, after, DepthAfter(token, depth), brace)
  {
    hide Taken, Next;
  }

  // Opening minus closing braces.
  function Depth(lexemes: seq<Lexeme>): int {
    if lexemes == [] then 0 else DepthAfter(lexemes[0].token, 0) + Depth(lexemes[1..])
  }

  predicate SawBrace(lexemes: seq<Lexeme>) {
    lexemes != [] && (lexemes[0].token in {OpenBrace, CloseBrace} || SawBrace(lexemes[1..]))
  }

  predicate BlockClosed(lexemes: seq<Lexeme>) {
    SawBrace(lexemes) && Depth(lexemes) <= 0
  }

  // The tokens close a block of which some have been taken.
  predicate Closes(lexemes: seq<Lexeme>, depth: int, seen: bool) {
    (seen || SawBrace(lexemes)) && depth + Depth(lexemes) <= 0
  }

  lemma NothingLeft(s: string, p: nat)
    requires |s| <= p <= |s| + 1
    ensures Lexemes(s, p) == []
  {
  }

  // Skipping a block takes the shortest run of tokens that closes it, or all of them.
  lemma {:induction false} ShortestClose(s: string, st: ScannerState, depth: int, seen: bool) returns (n: nat)
    requires st.cursor.position <= |s| + 1 && !(seen && depth <= 0)
    ensures var all := Lexemes(s, st.cursor.position);
            var rest := Lexemes(s, BlockSkipped(s, st, depth, seen).cursor.position);
            && n <= |all| && rest == all[n..]
            && (forall k | 0 <= k < n :: !Closes(all[..k], depth, seen))
            && (Closes(all[..n], depth, seen) || rest == [])
    decreases |s| + 1 - st.cursor.position
  {
    hide Taken, Next, Closes;
    var all, next, after := Lexemes(s, st.cursor.position), Next(s, st.cursor.position, 0, true), Taken(s, st, true);
    if next.token == EndOfDocument {
      NothingLeft(s, next.end);
      assert all[0..] == all;
      return 0;
    }
    var brace := seen || next.token in {OpenBrace, CloseBrace};
    var deeper := DepthAfter(next.token, depth);
    var tail := Lexemes(s, next.end);
    assert all[1..] == tail;
    if brace && deeper <= 0 {
      ClosesOn(all, 1, depth, seen);
      NoneCloses(deeper, brace);
      NoneCloses(depth, seen);
      assert all[1..][..0] == [] && all[..0] == [];
      return 1;
    }
    var m := ShortestClose(s, after, deeper, brace);
    n := m + 1;
    forall k | 0 <= k < n ensures !Closes(all[..k], depth, seen) {
      if k == 0 {
        NoneCloses(depth, seen);
        assert all[..k] == [];
      } else {
        ClosesOn(all, k, depth, seen);
        assert !Closes(tail[..k - 1], deeper, brace);
      }
    }
    ClosesOn(all, n, depth, seen);
    assert all[n..] == tail[m..];
  }

  lemma NoneCloses(depth: int, seen: bool)
    ensures Closes([], depth, seen) <==> seen && depth <= 0
  {
  }

  // After one more token.
  lemma ClosesOn(all: seq<Lexeme>, k: nat, depth: int, seen: bool)
    requires 0 < k <= |all|
    ensures Closes(all[..k], depth, seen) <==>
            Closes(all[1..][..k - 1], DepthAfter(all[0].token, depth), seen || all[0].token in {OpenBrace, CloseBrace})
  {
    assert all[..k][1..] == all[1..][..k - 1];
  }

  // What is left after the shortest run of tokens that has seen a brace and closed every one it opened.
  predicate TakesShortestBlock(all: seq<Lexeme>, rest: seq<Lexeme>) {
    exists n: nat | n <= |all| ::
      && rest == all[n..]
      && (forall k | 0 <= k < n :: !BlockClosed(all[..k]))
      && (BlockClosed(all[..n]) || rest == [])
  }

  lemma BlockSkipsShortest(s: string, st: ScannerState)
    requires st.cursor.position <= |s| + 1
    ensures TakesShortestBlock(Lexemes(s, st.cursor.position),
                               Lexemes(s, BlockSkipped(s, st, 0, false).cursor.position))
  {
    hide Lexemes;
    var n := ShortestClose(s, st, 0, false);
    var all := Lexemes(s, st.cursor.position);
    forall k | 0 <= k < n ensures !BlockClosed(all[..k]) {
      assert !Closes(all[..k], 0, false);
    }
  }

  // A name, or a character that cannot start one.
  function DirectiveCharacterTaken(s: string, c: SavedTextCursor): SavedTextCursor
    requires c.position < |s|
  {
    var ch := s[c.position];
    if IsNameStart(ch) then MovedTo(c, NameEnd(s, c.position + 1))
    else if IsBlank(ch) then CarriedTo(c, c.position + 1)
    else MovedTo(c, c.position + 1)
  }

  function DirectiveScanned(s: string, st: ScannerState): (r: ScannerState)
    ensures r.saved == st.saved && st.index <= r.index
    decreases |s| - st.cursor.position
  {
    var p := st.cursor.position;
    if p >= |s| then st
    else if IsLineBreakChar(s[p]) then DirectiveScanned(s, BreakTaken(s, st, true))
    else
      var after := st.(cursor := DirectiveCharacterTaken(s, st.cursor));
      if IsNameStart(s[p]) then after else DirectiveScanned(s, after)
  }

  /** The calls that a parser makes of the scanner. */
  datatype Call =
    | Take(skip: bool)
    | Save
    | Revert
    | Peek
    | Try(expected: Token, keywordAsName: bool, skip: bool)
    | SkipTo(tokens: set<Token>)
    | SkipBlock
    | ScanDirectiveLocation

  /** A call, unless there is nothing to revert to. */
  function Step(s: string, st: ScannerState, call: Call): Option<ScannerState>
    requires st.cursor.position <= |s| + 1
  {
    match call
    case Take(skip) => Some(Taken(s, st, skip))
    case Save => Some(Saved(st))
    case Revert => if st.saved == [] then None else Some(Reverted(st))
    case Peek => Some(Peeked(s, st))
    case Try(expected, keywordAsName, skip) => Some(Tried(s, st, expected, keywordAsName, skip))
    case SkipTo(tokens) => Some(SkippedTo(s, st, tokens))
    case SkipBlock => Some(BlockSkipped(s, st, 0, false))
    case ScanDirectiveLocation => Some(DirectiveScanned(s, Started(st)))
  }

  const Initial := ScannerState(SavedTextCursor(0, 1, 1, 0, 1, 1), [PositionToLine(0, 1)], [])

  function Run(s: string, st: ScannerState, calls: seq<Call>): Option<ScannerState>
    decreases |calls|
  {
    if st.cursor.position > |s| + 1 then None
    else if calls == [] then Some(st)
    else
      var after := Step(s, st, calls[0]);
      if after.None? then None else Run(s, after.value, calls[1..])
  }

  // The location the line index gives for an offset.
  function Locate(s: string, st: ScannerState, q: nat): SearchResult {
    if st.index == [] then OutOfRange else SearchForLine(st.index, |s|, 0, |st.index| - 1, q)
  }

  // No line ends inside the token at `p`.
  predicate OneSpan(s: string, p: nat, skip: bool)
    requires p <= |s| + 1
  {
    var next := Next(s, p, 0, skip);
    forall q | next.start <= q < next.end :: !EndsLine(s, q)
  }

  // No line ends inside the token at `p`, unless it is white space, whose line end is recorded.
  predicate OneLine(s: string, p: nat, skip: bool)
    requires p <= |s| + 1
  {
    Next(s, p, 0, skip).token == WhiteSpace || OneSpan(s, p, skip)
  }

  // All tokens that the call takes for good span no line end; a lookahead may meet any.
  predicate KeepsLines(s: string, st: ScannerState, call: Call)
    requires st.cursor.position <= |s| + 1
  {
    match call
    case Take(skip) => OneLine(s, st.cursor.position, skip)
    case Try(expected, keywordAsName, skip) =>
      Next(s, st.cursor.position, 0, skip).token.InMode(keywordAsName) == expected ==>
        OneLine(s, st.cursor.position, skip)
    case SkipTo(tokens) => OneLineTo(s, st.cursor.position, tokens)
    case SkipBlock => OneLineBlock(s, st.cursor.position, 0, false)
    case _ => true
  }

  // And none of them is white space with a line end in it, behind which the column is not set back.
  predicate KeepsPlaces(s: string, st: ScannerState, call: Call)
    requires st.cursor.position <= |s| + 1
  {
    match call
    case Take(skip) => OneSpan(s, st.cursor.position, skip)
    case Try(expected, keywordAsName, skip) =>
      Next(s, st.cursor.position, 0, skip).token.InMode(keywordAsName) == expected ==>
        OneSpan(s, st.cursor.position, skip)
    case _ => KeepsLines(s, st, call)
  }

  predicate OneLineTo(s: string, p: nat, tokens: set<Token>)
    requires p <= |s| + 1
    decreases |s| + 1 - p
  {
    var next := Next(s, p, 0, true);
    if next.token == EndOfDocument then OneLine(s, p, true)
    else next.token in tokens || (OneLine(s, p, true) && OneLineTo(s, next.end, tokens))
  }

  predicate OneLineBlock(s: string, p: nat, depth: int, seen: bool)
    requires p <= |s| + 1
    decreases |s| + 1 - p
  {
    var next := Next(s, p, 0, true);
    var brace := seen || next.token in {OpenBrace, CloseBrace};
    && OneLine(s, p, true)
    && (next.token == EndOfDocument || (brace && DepthAfter(next.token, depth) <= 0)
        || OneLineBlock(s, next.end, DepthAfter(next.token, depth), brace))
  }

  predicate RunKeepsLines(s: string, st: ScannerState, calls: seq<Call>)
    decreases |calls|
  {
    calls == [] || st.cursor.position > |s| + 1 ||
    (KeepsLines(s, st, calls[0]) &&
     (Step(s, st, calls[0]).Some? ==> RunKeepsLines(s, Step(s, st, calls[0]).value, calls[1..])))
  }

  predicate RunKeepsPlaces(s: string, st: ScannerState, calls: seq<Call>)
    decreases |calls|
  {
    calls == [] || st.cursor.position > |s| + 1 ||
    (KeepsPlaces(s, st, calls[0]) &&
     (Step(s, st, calls[0]).Some? ==> RunKeepsPlaces(s, Step(s, st, calls[0]).value, calls[1..])))
  }
}
