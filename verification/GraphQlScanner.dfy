/** The GraphQL scanner: a cursor over the source, a stack of saved cursors, a line index. */
module GraphQlScanning {
  import opened SourceText
  import opened GraphQlTokens
  import opened GraphQlLexer
  import opened LineIndex
  import opened ScannerRules
  import opened ScannerRuns
  import opened DirectiveNames
  import opened DirectiveScans

  class GraphQlScanner {
    const source: string
    var position: nat
    var line: nat
    var column: nat
    var startPosition: nat
    var startLine: nat
    var startColumn: nat
    var lineIndex: seq<PositionToLine>
    var savedTextCursors: seq<SavedTextCursor>

    ghost function Cursor(): SavedTextCursor
      reads this
    {
      SavedTextCursor(position, line, column, startPosition, startLine, startColumn)
    }

    // What the calls of the scanner work on.
    ghost function State(): ScannerState
      reads this
    {
      ScannerState(Cursor(), lineIndex, savedTextCursors)
    }

    // String scanning may step one place past the end of the text, never further.
    ghost predicate Valid()
      reads this
    {
      startPosition <= position <= |source| + 1 && SavedInside(savedTextCursors, |source| + 1)
    }

    /** The line bookkeeping is right. */
    ghost predicate LinesSound()
      reads this
    {
      LinesIn(source, State())
    }

    // What a revert relies on.
    ghost predicate HistorySound()
      reads this
    {
      HistoryIn(source, State())
    }

    /** Lines and columns are right, here and wherever a revert leads. */
    ghost predicate PlacesSound()
      reads this
    {
      PlacesIn(source, State())
    }

    ghost predicate ColumnSound()
      reads this
    {
      ColumnsIn(source, State())
    }

    // What is left to scan.
    ghost function Rest(): seq<Lexeme>
      requires Valid()
      reads this
    {
      Lexemes(source, position)
    }

    constructor (source: string)
      ensures this.source == source && Valid() && position == 0
      ensures savedTextCursors == []
      ensures LoneCarriageReturns(source) ==> LinesSound() && ColumnSound()
    {
      this.source := source;
      position, line, column := 0, 1, 1;
      startPosition, startLine, startColumn := 0, 1, 1;
      lineIndex := [PositionToLine(0, 1)];
      savedTextCursors := [];
    }

    method SetTokenStartPosition()
      modifies `startPosition, `startColumn
      ensures startPosition == position && startColumn == column
      ensures State() == Started(old(State()))
    {
      startPosition := position;
      startColumn := column;
    }

    method IncrementPosition()
      modifies `position, `column
      ensures position == old(position) + 1 && column == old(column) + 1
    {
      column := column + 1;
      position := position + 1;
    }

    method ScanDigitList()
      modifies `position, `column
      ensures position == DigitsEnd(source, old(position))
      ensures column - position == old(column - position)
    {
      while IsDigit(CharAt(source, position))
        invariant position >= old(position)
        invariant DigitsEnd(source, position) == DigitsEnd(source, old(position))
        invariant column - position == old(column - position)
        decreases |source| - position
      {
        IncrementPosition();
      }
    }

    method ScanIntegerPart()
      modifies `position, `column
      ensures position == IntegerPartEnd(source, old(position))
      ensures column - position == old(column - position)
    {
      var ch := CharAt(source, position);
      if ch == '0' {
        IncrementPosition();
      } else if IsDigit(ch) {
        ScanDigitList();
      }
    }

    method ScanExponent() returns (token: Token)
      requires position < |source|
      modifies `position, `column
      ensures (token, position) == Exponent(source, old(position))
      ensures column - position == old(column - position)
    {
      IncrementPosition();
      var ch := CharAt(source, position);
      if ch == '-' || ch == '+' {
        IncrementPosition();
        ch := CharAt(source, position);
      }
      if !IsDigit(ch) {
        return Unknown;
      }
      IncrementPosition();
      ScanDigitList();
      token := FloatLiteral;
    }

    method ScanNumber() returns (token: Token)
      requires position <= |source|
      modifies `position, `column
      ensures (token, position) == Number(source, old(position))
      ensures column - position == old(column - position)
    {
      ScanIntegerPart();
      var ch := CharAt(source, position);
      if ch == '.' {
        IncrementPosition();
        ch := CharAt(source, position);
        if !IsDigit(ch) {
          return Unknown;
        }
        IncrementPosition();
        ScanDigitList();
        ch := CharAt(source, position);
        if !IsExponentSign(ch) {
          return FloatLiteral;
        }
        token := ScanExponent();
      } else if IsExponentSign(ch) {
        token := ScanExponent();
      } else {
        token := IntegerLiteral;
      }
    }

    method ScanHexadecimalEscape() returns (valid: bool)
      requires position <= |source|
      modifies `position, `column
      ensures (valid, position) == HexEscape(source, old(position), 0)
      ensures column - position == old(column - position)
    {
      var n := 0;
      valid := true;
      while n < 4
        invariant n <= 4 && position <= |source| && valid
        invariant HexEscape(source, position, n) == HexEscape(source, old(position), 0)
        invariant column - position == old(column - position)
      {
        if !IsHexadecimal(CharAt(source, position)) {
          valid := false;
          break;
        }
        IncrementPosition();
        n := n + 1;
      }
      if !valid {
        IncrementPosition();
      }
    }

    method ScanEscapeSequence() returns (valid: bool)
      requires position < |source|
      modifies `position, `column
      ensures (valid, position) == Escape(source, old(position))
      ensures column - position == old(column - position)
    {
      IncrementPosition();
      var ch := CharAt(source, position);
      if ch in ['"', '\\', '/', 'b', 'f', 'n', 'r', 't'] {
        IncrementPosition();
        valid := true;
      } else if ch == 'u' {
        IncrementPosition();
        valid := ScanHexadecimalEscape();
      } else {
        valid := true;
      }
    }

    method ScanStringLiteral() returns (token: Token)
      requires position <= |source|
      modifies `position, `column
      ensures (token, position) == StringEnd(source, old(position), false)
      ensures column - position == old(column - position)
    {
      var truncated := false;
      while position <= |source|
        invariant position <= |source| + 1
        invariant StringEnd(source, position, truncated) == StringEnd(source, old(position), false)
        invariant column - position == old(column - position)
        decreases |source| + 1 - position
      {
        var ch := CharAt(source, position);
        if ch == '\\' {
          var valid := ScanEscapeSequence();
          if !valid {
            return InvalidString;
          }
        } else if IsLineBreakChar(ch) {
          truncated := true;
          IncrementPosition();
        } else if ch == '"' {
          IncrementPosition();
          return if truncated then InvalidString else StringLiteral;
        } else {
          IncrementPosition();
        }
      }
      token := if truncated then InvalidString else StringLiteral;
    }

    method ScanStringBlockAfterDoubleQuotes() returns (token: Token)
      requires position <= |source| + 1
      modifies `position, `column
      ensures (token, position) == BlockEnd(source, old(position))
      ensures column - position == old(column - position)
    {
      while position <= |source|
        invariant position <= |source| + 1
        invariant BlockEnd(source, position) == BlockEnd(source, old(position))
        invariant column - position == old(column - position)
        decreases |source| + 1 - position
      {
        if CharAt(source, position) == '"' {
          if position + 2 >= |source| {
            return Unknown;
          }
          if CharAt(source, position + 1) == '"' && CharAt(source, position + 2) == '"' {
            IncrementPosition();
            IncrementPosition();
            IncrementPosition();
            return StringLiteral;
          }
        }
        IncrementPosition();
      }
      token := Unknown;
    }

    method ScanStringValue() returns (token: Token)
      requires position <= |source|
      modifies `position, `column
      ensures (token, position) == StringToken(source, old(position))
      ensures column - position == old(column - position)
    {
      if CharAt(source, position) == '"' && CharAt(source, position + 1) == '"' {
        IncrementPosition();
        IncrementPosition();
        token := ScanStringBlockAfterDoubleQuotes();
      } else {
        token := ScanStringLiteral();
      }
    }

    method ScanEllipsesAfterFirstDot() returns (token: Token)
      requires position <= |source|
      modifies `position, `column
      ensures (token, position) == Dots(source, old(position))
      ensures column - position == old(column - position)
    {
      if CharAt(source, position) != '.' {
        return Unknown;
      }
      IncrementPosition();
      if CharAt(source, position) != '.' {
        return Unknown;
      }
      IncrementPosition();
      token := Ellipses;
    }

    method ScanNameRest()
      requires position <= |source|
      modifies `position, `column
      ensures position == NameEnd(source, old(position))
      ensures column - position == old(column - position)
      ensures NoBreak(source, old(position), position)
    {
      while position < |source| && IsNamePart(CharAt(source, position))
        invariant old(position) <= position <= |source|
        invariant NameEnd(source, position) == NameEnd(source, old(position))
        invariant NoBreak(source, old(position), position)
        invariant column - position == old(column - position)
      {
        IncrementPosition();
      }
    }

    // The rest of a name, and how many characters that is.
    method ScanNameSize() returns (size: nat)
      requires position <= |source|
      modifies `position, `column
      ensures position == NameEnd(source, old(position)) && size == position - old(position)
      ensures column - position == old(column - position)
    {
      size := 0;
      while position < |source| && IsNamePart(CharAt(source, position))
        invariant old(position) <= position <= |source| && size == position - old(position)
        invariant NameEnd(source, position) == NameEnd(source, old(position))
        invariant column - position == old(column - position)
      {
        IncrementPosition();
        size := size + 1;
      }
    }

    method ScanName() returns (token: Token)
      requires startPosition <= position <= |source|
      modifies `position, `column
      ensures position == NameEnd(source, old(position))
      ensures token == NameToken(TextBetween(source, startPosition, position))
      ensures column - position == old(column - position)
    {
      ScanNameRest();
      token := NameToken(TextBetween(source, startPosition, position));
    }

    // The scanner's switch on a character that starts a token, which has been taken already.
    method ScanToken(ch: char) returns (token: Token)
      requires startPosition < position <= |source| && ch == source[position - 1] && !IsTrivia(ch)
      modifies `position, `column
      ensures (token, position) == TokenFrom(source, startPosition, old(position) - 1)
      ensures column - position == old(column - position)
    {
      if ch == '"' {
        token := ScanStringValue();
      } else if ch == '.' {
        token := ScanEllipsesAfterFirstDot();
      } else if ch == '-' || IsDigit(ch) {
        token := ScanNumber();
      } else if IsNameStart(ch) {
        token := ScanName();
      } else {
        token := Punctuator(ch);
      }
    }

    method RecordLineBreak()
      modifies `line, `lineIndex
      ensures line == old(line) + 1
      ensures lineIndex == old(lineIndex) + [PositionToLine(position, line)]
    {
      line := line + 1;
      lineIndex := lineIndex + [PositionToLine(position, line)];
    }

    // The rest of a comment, up to the end of its line.
    method SkipComment()
      requires startPosition <= position <= |source|
      modifies `position, `column, `startPosition, `startColumn
      ensures position == CommentEnd(source, old(position))
      ensures startPosition - position == old(startPosition - position)
      ensures column - position == old(column - position)
      ensures startColumn - position == old(startColumn - position)
      ensures NoBreak(source, old(position), position)
    {
      while position < |source| && !IsLineBreakChar(CharAt(source, position))
        invariant old(position) <= position <= |source|
        invariant CommentEnd(source, position) == CommentEnd(source, old(position))
        invariant startPosition - position == old(startPosition - position)
        invariant column - position == old(column - position)
        invariant startColumn - position == old(startColumn - position)
        invariant NoBreak(source, old(position), position)
      {
        IncrementPosition();
        startPosition := startPosition + 1;
        startColumn := startColumn + 1;
      }
    }

    // The scanner's switch on a line-break character: `stop` when white space is a token.
    method TakeLineBreak(skipWhiteSpace: bool) returns (stop: bool)
      requires startPosition <= position < |source| && IsLineBreakChar(source[position])
      modifies `position, `column, `startPosition, `startColumn, `startLine, `line, `lineIndex
      ensures stop == !skipWhiteSpace
      ensures State() == BreakTaken(source, old(State()), skipWhiteSpace)
    {
      var ch := source[position];
      IncrementPosition();
      if ch == '\r' && CharAt(source, position + 1) == '\n' {
        IncrementPosition();
      }
      RecordLineBreak();
      stop := !skipWhiteSpace;
      if !stop {
        column := 1;
        startColumn := 1;
        startLine := startLine + 1;
        startPosition := startPosition + 1;
      }
    }

    // The scanner's switch on a blank or on the start of a comment.
    method TakeBlankOrComment(skipWhiteSpace: bool) returns (stop: bool)
      requires startPosition <= position < |source|
      requires IsBlank(source[position]) || source[position] == '#'
      modifies `position, `column, `startPosition, `startColumn
      ensures stop <==> !skipWhiteSpace && source[old(position)] != '#'
      ensures State() == TriviaTaken(source, old(State()), skipWhiteSpace)
    {
      var ch := source[position];
      IncrementPosition();
      if ch == '#' {
        startPosition := startPosition + 1;
        startColumn := startColumn + 1;
        SkipComment();
        return false;
      }
      stop := !skipWhiteSpace;
      if !stop {
        startPosition := startPosition + 1;
        startColumn := startColumn + 1;
      }
    }

    // One trivia character, or one whole comment.
    method TakeTrivia(skipWhiteSpace: bool) returns (stop: bool)
      requires startPosition <= position < |source| && IsTrivia(source[position])
      modifies `position, `column, `startPosition, `startColumn, `startLine, `line, `lineIndex
      ensures stop <==> !skipWhiteSpace && source[old(position)] != '#'
      ensures State() == TriviaTaken(source, old(State()), skipWhiteSpace)
    {
      var ch := source[position];
      if IsLineBreakChar(ch) {
        stop := TakeLineBreak(skipWhiteSpace);
      } else {
        stop := TakeBlankOrComment(skipWhiteSpace);
      }
    }

    // A character that starts a token, and the rest of that token.
    method TakeToken(keywordAsName: bool) returns (token: Token)
      requires startPosition <= position < |source| && !IsTrivia(source[position])
      modifies `position, `column
      ensures token == TokenFrom(source, startPosition, old(position)).0.InMode(keywordAsName)
      ensures State() == TokenTaken(source, old(State()))
    {
      var ch := source[position];
      IncrementPosition();
      token := ScanToken(ch);
      token := token.InMode(keywordAsName);
    }

    /** One call of the scanner. It recognises what `Next` says; of the line bookkeeping it
        keeps everything exactly when the token's own text spans no line end. */
    method TakeNextToken(keywordAsName: bool, skipWhiteSpace: bool) returns (token: Token)
      requires Valid()
      modifies this
      ensures Valid()
      ensures if token == EndOfDocument then old(position) <= position else old(position) < position
      ensures savedTextCursors == old(savedTextCursors) && old(lineIndex) <= lineIndex
      ensures var next := Next(source, old(position), 0, skipWhiteSpace);
              token == next.token.InMode(keywordAsName) && startPosition == next.start && position == next.end
      ensures State() == Taken(source, old(State()), skipWhiteSpace)
      ensures old(LinesSound()) ==>
                && HistorySound()
                && (LinesSound() <==> token == WhiteSpace || NoBreak(source, startPosition, position))
      ensures old(LinesSound() && ColumnSound()) ==>
                && startColumn == TrueColumn(source, startPosition)
                && (ColumnSound() <==> NoBreak(source, startPosition, position))
      ensures old(PlacesSound()) ==> (PlacesSound() <==> NoBreak(source, startPosition, position))
    {
      hide LinesIn, HistoryIn, PlacesIn, OneSpan;
      if PlacesSound() {
        TakenKeepsPlaces(source, State(), skipWhiteSpace);
      }
      SpanIsBetween(source, position, skipWhiteSpace);
      if LinesSound() {
        TakenKeepsLines(source, State(), skipWhiteSpace);
        if ColumnSound() {
          TakenKeepsColumns(source, State(), skipWhiteSpace);
        }
      }
      token := ScanNextToken(keywordAsName, skipWhiteSpace);
    }

    method ScanNextToken(keywordAsName: bool, skipWhiteSpace: bool) returns (token: Token)
      requires Valid()
      modifies this
      ensures token == Next(source, old(position), 0, skipWhiteSpace).token.InMode(keywordAsName)
      ensures State() == Taken(source, old(State()), skipWhiteSpace)
    {
      hide TokenFrom, TriviaEnd, TriviaLag, TriviaTaken, TokenTaken, Next, Scanned;
      SetTokenStartPosition();
      while position < |source|
        invariant startPosition <= position <= |source| + 1
        invariant Next(source, position, position - startPosition, skipWhiteSpace).token ==
                    Next(source, old(position), 0, skipWhiteSpace).token
        invariant Scanned(source, State(), skipWhiteSpace) == Taken(source, old(State()), skipWhiteSpace)
        decreases |source| - position
      {
        var ch := source[position];
        NextPiece(source, position, position - startPosition, skipWhiteSpace);
        ScannedPiece(source, State(), skipWhiteSpace);
        if IsTrivia(ch) {
          var stop := TakeTrivia(skipWhiteSpace);
          if stop {
            return WhiteSpace;
          }
        } else {
          token := TakeToken(keywordAsName);
          return;
        }
      }
      NextAtEnd(source, position, position - startPosition, skipWhiteSpace);
      ScannedPiece(source, State(), skipWhiteSpace);
      token := EndOfDocument;
    }

    /** The same call, white space skipped, as a step through what is left to scan. */
    method TakeLexeme(keywordAsName: bool) returns (token: Token)
      requires Valid()
      modifies this
      ensures Valid()
      ensures savedTextCursors == old(savedTextCursors) && old(lineIndex) <= lineIndex
      ensures old(Rest()) == [] ==> token == EndOfDocument && Rest() == [] && old(position) <= position
      ensures old(Rest()) != [] ==>
                && old(position) < position
                && Rest() == old(Rest())[1..]
                && token == old(Rest())[0].token.InMode(keywordAsName)
                && token !in {EndOfDocument, WhiteSpace}
                && old(Rest())[0] == Lexeme(old(Rest())[0].token, GetValue(), startPosition, position)
      ensures old(LinesSound()) ==> HistorySound() && (LinesSound() <==> NoBreak(source, startPosition, position))
      ensures State() == Taken(source, old(State()), true)
    {
      token := TakeNextToken(keywordAsName, true);
    }

    method Save()
      requires Valid()
      modifies `savedTextCursors
      ensures Valid() && savedTextCursors == old(savedTextCursors) + [Cursor()]
      ensures old(LinesSound()) ==> LinesSound()
      ensures old(PlacesSound()) ==> PlacesSound()
      ensures State() == Saved(old(State()))
    {
      savedTextCursors := savedTextCursors +
        [SavedTextCursor(position, line, column, startPosition, startLine, startColumn)];
    }

    /** A revert restores the cursor saved last. The line index stays as it is. If the history is
        sound, the line bookkeeping is right again, and so are the columns if the saved ones are. */
    method Revert()
      requires Valid() && savedTextCursors != []
      modifies this
      ensures Valid() && lineIndex == old(lineIndex)
      ensures var last := |old(savedTextCursors)| - 1;
              Cursor() == old(savedTextCursors)[last] && savedTextCursors == old(savedTextCursors)[..last]
      ensures old(HistorySound()) ==> LinesSound()
      ensures old(HistorySound() && SavedColumnsIn(source, State())) ==> PlacesSound()
      ensures State() == Reverted(old(State()))
    {
      var last := |savedTextCursors| - 1;
      var saved := savedTextCursors[last];
      assert old(HistorySound()) ==> SavedSound(source, lineIndex, saved, position);
      position := saved.position;
      line := saved.line;
      column := saved.column;
      startPosition := saved.startPosition;
      startLine := saved.startLine;
      startColumn := saved.startColumn;
      savedTextCursors := savedTextCursors[..last];
      if old(HistorySound()) {
        forall k | 0 <= k < |savedTextCursors|
          ensures SavedSound(source, lineIndex, savedTextCursors[k], position)
        {
          assert SavedSound(source, lineIndex, old(savedTextCursors)[k], old(position));
        }
      }
    }

    /** Looking ahead leaves no trace but a longer line index, which gives the same locations. */
    method PeekNextToken() returns (token: Token)
      requires Valid()
      modifies this
      ensures Valid() && Cursor() == old(Cursor()) && savedTextCursors == old(savedTextCursors)
      ensures old(lineIndex) <= lineIndex
      ensures token == Next(source, position, 0, true).token
      ensures old(LinesSound()) ==> LinesSound()
      ensures old(PlacesSound()) ==> PlacesSound()
      ensures State() == Peeked(source, old(State()))
    {
      hide LinesIn, HistoryIn, PlacesIn, Next, Taken;
      if PlacesSound() {
        LookaheadKeepsPlaces(source, State(), true);
      }
      Save();
      token := TakeNextToken(false, true);
      Revert();
    }

    /** Takes the next token if it is the expected one, and then leaves its save on the stack;
        otherwise the call leaves no trace but a longer line index. */
    method TryScan(expected: Token, keywordAsName: bool, skipWhiteSpace: bool) returns (token: Token)
      requires Valid()
      modifies this
      ensures Valid() && old(lineIndex) <= lineIndex
      ensures token == expected != EndOfDocument ==> old(position) < position
      ensures var next := Next(source, old(position), 0, skipWhiteSpace);
              && token == next.token.InMode(keywordAsName)
              && (token == expected ==> startPosition == next.start && position == next.end)
      ensures token == expected ==> savedTextCursors == old(savedTextCursors) + [old(Cursor())]
      ensures token != expected ==> Cursor() == old(Cursor()) && savedTextCursors == old(savedTextCursors)
      ensures old(LinesSound()) ==>
                if token != expected then LinesSound()
                else
                  && HistorySound()
                  && (LinesSound() <==> token == WhiteSpace || NoBreak(source, startPosition, position))
      ensures State() == Tried(source, old(State()), expected, keywordAsName, skipWhiteSpace)
      ensures old(PlacesSound()) ==>
                (PlacesSound() <==> token != expected || NoBreak(source, startPosition, position))
    {
      hide LinesIn, HistoryIn, PlacesIn, OneSpan, Next, Taken, NoBreak, SavedInside;
      if PlacesSound() {
        SavedKeepsPlaces(source, State());
        TakenKeepsPlaces(source, Saved(State()), skipWhiteSpace);
        LookaheadKeepsPlaces(source, State(), skipWhiteSpace);
      }
      SpanIsBetween(source, position, skipWhiteSpace);
      Save();
      token := TakeNextToken(keywordAsName, skipWhiteSpace);
      if token != expected {
        Revert();
      }
    }

    /** Skips the tokens before the first one in `tokens`, which is left to be taken, or all of
        them. */
    method SkipTo(tokens: set<Token>) returns (token: Token)
      requires Valid() && EndOfDocument !in tokens
      modifies this
      ensures Valid() && old(lineIndex) <= lineIndex && old(savedTextCursors) <= savedTextCursors
      ensures old(position) <= position
      ensures StopsAtFirst(old(Rest()), Rest(), tokens)
      ensures if Rest() == [] then token == EndOfDocument else token == Rest()[0].token && token in tokens
      ensures State() == SkippedTo(source, old(State()), tokens)
      ensures old(LinesSound()) ==> (LinesSound() <==> OneLineTo(source, old(position), tokens))
      ensures old(PlacesSound()) ==> (PlacesSound() <==> OneLineTo(source, old(position), tokens))
    {
      hide LinesIn, HistoryIn, PlacesIn, OneLineTo, SkippedTo, Taken, Next, Lexemes, NoBreak, StopsAtFirst;
      if LinesSound() {
        SkippedKeepsLines(source, State(), tokens);
      }
      if PlacesSound() {
        SkippedKeepsPlaces(source, State(), tokens);
      }
      SkipStops(source, State(), tokens);
      while true
        invariant Valid() && old(lineIndex) <= lineIndex && old(savedTextCursors) <= savedTextCursors
        invariant old(position) <= position
        invariant SkippedTo(source, State(), tokens) == SkippedTo(source, old(State()), tokens)
        decreases |source| + 1 - position
      {
        SkipStep(source, State(), tokens);
        FirstLexeme(source, position);
        Save();
        token := TakeNextToken(false, true);
        if token == EndOfDocument {
          NothingLeft(source, position);
          return;
        }
        if token in tokens {
          Revert();
          return;
        }
      }
    }

    /** Skips the shortest run of tokens that has seen a brace and closed every one it opened,
        or everything. */
    method SkipBlock()
      requires Valid()
      modifies this
      ensures Valid() && old(lineIndex) <= lineIndex && savedTextCursors == old(savedTextCursors)
      ensures old(position) <= position
      ensures TakesShortestBlock(old(Rest()), Rest())
      ensures State() == BlockSkipped(source, old(State()), 0, false)
      ensures old(LinesSound()) ==> (LinesSound() <==> OneLineBlock(source, old(position), 0, false))
      ensures old(PlacesSound()) ==> (PlacesSound() <==> OneLineBlock(source, old(position), 0, false))
    {
      hide Lexemes, Next, Taken, BlockSkipped, NoBreak, LinesIn, HistoryIn, PlacesIn, OneLineBlock, TakesShortestBlock,
        SavedInside;
      if LinesSound() {
        BlockKeepsLines(source, State(), 0, false);
      }
      if PlacesSound() {
        BlockKeepsPlaces(source, State(), 0, false);
      }
      BlockSkipsShortest(source, State());
      SkipBlockTokens();
    }

    method SkipBlockTokens()
      requires Valid()
      modifies this
      ensures Valid() && old(position) <= position
      ensures State() == BlockSkipped(source, old(State()), 0, false)
    {
      hide Lexemes, Next, Taken, BlockSkipped, NoBreak, LinesIn, HistoryIn, PlacesIn, Locate,
        GraphQlScanner.ColumnSound;
      var matchedBraces := 0;
      var encounteredBrace := false;
      while true
        invariant Valid() && old(position) <= position
        invariant BlockSkipped(source, State(), matchedBraces, encounteredBrace) ==
                    BlockSkipped(source, old(State()), 0, false)
        decreases |source| + 1 - position
      {
        BlockStep(source, State(), matchedBraces, encounteredBrace);
        var token := TakeNextToken(false, true);
        if token == EndOfDocument {
          return;
        }
        if token == OpenBrace {
          matchedBraces := matchedBraces + 1;
          encounteredBrace := true;
        } else if token == CloseBrace {
          matchedBraces := matchedBraces - 1;
          encounteredBrace := true;
        }
        if encounteredBrace && matchedBraces <= 0 {
          return;
        }
      }
    }

    /** Scans for the name of a directive location, over anything that cannot start one, and tells
        which one it is. The line bookkeeping stays right. The start of the token moves along over white
        space and commas only, so the value begins too early by all other characters passed over. */
    method ScanDirectiveLocation() returns (location: LocationName)
      requires Valid()
      modifies this
      ensures Valid() && savedTextCursors == old(savedTextCursors) && old(lineIndex) <= lineIndex
      ensures old(position) <= position
      ensures var start := DirectiveNameStart(source, old(position));
              if start < |source| then
                position == NameEnd(source, start + 1) && location == NameOf(position - start, GetValue())
              else position == start && location == EndOfLocations
      ensures forall n: nat, e: nat | NameStands(source, old(position), n, e) ::
                position == e && Told(source, old(position), n, e, GetValue(), location)
      ensures NoLetter(source, old(position)) ==> location == EndOfLocations
      ensures State() == DirectiveScanned(source, Started(old(State())))
      ensures old(LinesSound()) ==> LinesSound()
      ensures old(LinesSound() && ColumnSound()) ==> ColumnSound()
      ensures old(PlacesSound()) ==> PlacesSound()
    {
      hide LinesIn, HistoryIn, ColumnsIn, PlacesIn, IsNamePart, Told;
      ScanKeeps(source, State());
      NamesTold(source, State());
      SetTokenStartPosition();
      while position < |source|
        invariant startPosition <= position && old(position) <= position <= |source| + 1
        invariant DirectiveNameStart(source, position) == DirectiveNameStart(source, old(position))
        invariant DirectiveScanned(source, State()) == DirectiveScanned(source, Started(old(State())))
        decreases |source| - position
      {
        var ch := source[position];
        if IsLineBreakChar(ch) {
          var _ := TakeLineBreak(true);
        } else {
          var size := TakeDirectiveCharacter();
          if size > 0 {
            return NameOf(size, GetValue());
          }
        }
      }
      location := EndOfLocations;
    }

    // One character that ends no line, and the rest of the name if it starts one.
    method TakeDirectiveCharacter() returns (size: nat)
      requires startPosition <= position < |source| && !IsLineBreakChar(source[position])
      modifies `position, `column, `startPosition, `startColumn
      ensures startPosition <= position && old(position) < position <= |source|
      ensures size == if IsNameStart(source[old(position)]) then position - old(position) else 0
      ensures size > 0 ==> position == NameEnd(source, old(position) + 1)
      ensures size == 0 ==> DirectiveNameStart(source, position) == DirectiveNameStart(source, old(position))
      ensures State() == old(State()).(cursor := DirectiveCharacterTaken(source, old(State()).cursor))
    {
      hide IsNamePart;
      size := 0;
      var ch := source[position];
      IncrementPosition();
      if IsNameStart(ch) {
        var rest := ScanNameSize();
        size := 1 + rest;
      } else if IsBlank(ch) {
        startPosition := startPosition + 1;
        startColumn := startColumn + 1;
      }
    }

    method GetTokenLocation(start: nat) returns (result: SearchResult)
      ensures lineIndex != [] ==> result == SearchForLine(lineIndex, |source|, 0, |lineIndex| - 1, start)
      ensures LinesSound() && start <= position ==>
                result == if start < |source| then Found(TrueLocation(source, start)) else NotFound
    {
      if lineIndex == [] {
        return OutOfRange;
      }
      if LinesSound() && start <= position {
        WholeSearch(source, lineIndex, start);
      }
      result := SearchForLine(lineIndex, |source|, 0, |lineIndex| - 1, start);
    }

    function GetValue(): string
      reads this
    {
      TextBetween(source, startPosition, position)
    }
  }

  // The next token from one trivia character, or one comment, or one token on.
  lemma NextPiece(s: string, p: nat, lag: nat, skip: bool)
    requires lag <= p < |s|
    ensures if !IsTrivia(s[p]) then Next(s, p, lag, skip).token == TokenFrom(s, p - lag, p).0
            else if skip || s[p] == '#' then
              Next(s, p, lag, skip) == Next(s, TriviaEnd(s, p), lag + TriviaLag(s, p), skip)
            else Next(s, p, lag, skip).token == WhiteSpace
  {
  }

  lemma SpanIsBetween(s: string, p: nat, skip: bool)
    requires p <= |s| + 1
    ensures var next := Next(s, p, 0, skip); OneSpan(s, p, skip) <==> NoBreak(s, next.start, next.end)
  {
  }

  lemma SavedStays(s: string, st: ScannerState)
    ensures SavedColumnsIn(s, st) ==> SavedColumnsIn(s, DirectiveScanned(s, Started(st)))
  {
  }

  // The scan for a directive location keeps lines and columns.
  lemma ScanKeeps(s: string, st: ScannerState)
    ensures var after := DirectiveScanned(s, Started(st));
            && (LinesIn(s, st) ==> LinesIn(s, after))
            && (LinesIn(s, st) && ColumnsIn(s, st) ==> ColumnsIn(s, after))
            && (PlacesIn(s, st) ==> PlacesIn(s, after))
  {
    hide DirectiveScanned, LinesIn;
    SavedStays(s, st);
    if LinesIn(s, st) {
      StartedKeepsLines(s, st);
      DirectiveKeepsLines(s, Started(st));
      if ColumnsIn(s, st) {
        DirectiveKeepsColumns(s, Started(st));
      }
    }
  }

  lemma FirstLexeme(s: string, p: nat)
    requires p <= |s| + 1
    ensures var next := Next(s, p, 0, true);
            next.token != EndOfDocument ==> Lexemes(s, p) != [] && Lexemes(s, p)[0].token == next.token
  {
    hide Next;
  }

  lemma NextAtEnd(s: string, p: nat, lag: nat, skip: bool)
    requires lag <= p <= |s| + 1 && |s| <= p
    ensures Next(s, p, lag, skip).token == EndOfDocument
  {
  }
}
