/** What every run of scanner calls keeps: true locations, and lookahead that leaves no trace. */
module ScannerRuns {
  import opened SourceText
  import opened GraphQlTokens
  import opened GraphQlLexer
  import opened LineIndex
  import opened ScannerRules
  import opened LexerFacts

  // One trivia character, or one whole comment, keeps the line bookkeeping.
  lemma TriviaKeepsLines(s: string, st: ScannerState, skip: bool)
    requires LinesIn(s, st) && st.cursor.startPosition <= st.cursor.position < |s| && IsTrivia(s[st.cursor.position])
    ensures var r := TriviaTaken(s, st, skip);
            LinesIn(s, r) && (skip || s[st.cursor.position] == '#' ==>
              r.cursor.position - r.cursor.startPosition == st.cursor.position - st.cursor.startPosition)
  {
    var p := st.cursor.position;
    assert LoneCarriageReturns(s);
    if IsLineBreakChar(s[p]) {
      Recorded(s, st.index, st.saved, st.cursor.line, p);
    } else {
      CommentStaysOnLine(s, p + 1);
      Moved(s, st.index, st.saved, st.cursor.line, p, TriviaEnd(s, p));
    }
  }

  lemma {:induction false} CommentStaysOnLine(s: string, p: nat)
    requires p <= |s|
    ensures NoBreak(s, p, CommentEnd(s, p))
    decreases |s| - p
  {
    if p < |s| && !IsLineBreakChar(s[p]) {
      CommentStaysOnLine(s, p + 1);
    }
  }

  // From a cursor at its token's start, the bookkeeping is kept exactly over a one-line token.
  lemma {:induction false} ScannedKeepsLines(s: string, st: ScannerState, skip: bool)
    requires LinesIn(s, st) && st.cursor.startPosition == st.cursor.position <= |s| + 1
    ensures HistoryIn(s, Scanned(s, st, skip))
    ensures LinesIn(s, Scanned(s, st, skip)) <==> OneLine(s, st.cursor.position, skip)
    ensures Behind(s, Scanned(s, st, skip)) <==> !OneLine(s, st.cursor.position, skip)
    decreases |s| + 1 - st.cursor.position
  {
    hide HistoryRight, LinesRight, TokenFrom, TriviaTaken, TriviaEnd;
    var p := st.cursor.position;
    if p >= |s| {
      LinesGiveHistory(s, st);
    } else if IsTrivia(s[p]) {
      TriviaKeepsLines(s, st, skip);
      var after := TriviaTaken(s, st, skip);
      LinesGiveHistory(s, after);
      if skip || s[p] == '#' {
        ScannedKeepsLines(s, after, skip);
      }
    } else {
      Moved(s, st.index, st.saved, st.cursor.line, p, TokenFrom(s, p, p).1);
      SameLine(s, p, TokenFrom(s, p, p).1);
      LinesGiveHistory(s, st);
    }
  }

  lemma TriviaKeepsColumns(s: string, st: ScannerState, skip: bool)
    requires LinesIn(s, st) && ColumnsIn(s, st) && st.cursor.startColumn == st.cursor.column
    requires st.cursor.startPosition == st.cursor.position < |s| && IsTrivia(s[st.cursor.position])
    ensures var p, r := st.cursor.position, TriviaTaken(s, st, skip);
            if skip || s[p] == '#' then ColumnsIn(s, r) && r.cursor.startColumn == r.cursor.column
            else r.cursor.startColumn == st.cursor.column && (ColumnsIn(s, r) <==> NoBreak(s, p, r.cursor.position))
  {
    hide HistoryRight;
    var p := st.cursor.position;
    LinesGiveHistory(s, st);
    assert LoneCarriageReturns(s);
    if IsLineBreakChar(s[p]) {
      assert EndsLine(s, p) && TriviaEnd(s, p) == p + 1;
    } else {
      CommentStaysOnLine(s, p + 1);
      SameLine(s, p, TriviaEnd(s, p));
    }
  }

  // The start column is the true one, and the running one stays true over one line exactly.
  lemma {:induction false} ScannedKeepsColumns(s: string, st: ScannerState, skip: bool)
    requires LinesIn(s, st) && ColumnsIn(s, st) && st.cursor.startColumn == st.cursor.column
    requires st.cursor.startPosition == st.cursor.position <= |s| + 1
    ensures var r := Scanned(s, st, skip);
            && r.cursor.startColumn == TrueColumn(s, r.cursor.startPosition)
            && (ColumnsIn(s, r) <==> NoBreak(s, r.cursor.startPosition, r.cursor.position))
    decreases |s| + 1 - st.cursor.position
  {
    hide LinesIn, TokenFrom, TriviaTaken, TriviaEnd;
    var p := st.cursor.position;
    if p < |s| {
      if IsTrivia(s[p]) {
        TriviaKeepsLines(s, st, skip);
        TriviaKeepsColumns(s, st, skip);
        if skip || s[p] == '#' {
          ScannedKeepsColumns(s, TriviaTaken(s, st, skip), skip);
        }
      } else {
        SameLine(s, p, TokenFrom(s, p, p).1);
      }
    }
  }

  lemma TakenKeepsColumns(s: string, st: ScannerState, skip: bool)
    requires LinesIn(s, st) && ColumnsIn(s, st) && st.cursor.position <= |s| + 1
    ensures var r := Taken(s, st, skip);
            && r.cursor.startColumn == TrueColumn(s, r.cursor.startPosition)
            && (ColumnsIn(s, r) <==> NoBreak(s, r.cursor.startPosition, r.cursor.position))
  {
    hide LinesIn, Scanned;
    StartedKeepsLines(s, st);
    ScannedKeepsColumns(s, Started(st), skip);
  }

  lemma LinesGiveHistory(s: string, st: ScannerState)
    requires LinesIn(s, st)
    ensures HistoryIn(s, st) && LoneCarriageReturns(s) && st.cursor.line == TrueLine(s, st.cursor.position)
  {
  }

  lemma StartedKeepsLines(s: string, st: ScannerState)
    requires LinesIn(s, st)
    ensures LinesIn(s, Started(st)) && LinesIn(s, Saved(st))
  {
  }

  lemma TakenKeepsLines(s: string, st: ScannerState, skip: bool)
    requires LinesIn(s, st) && st.cursor.position <= |s| + 1
    ensures HistoryIn(s, Taken(s, st, skip))
    ensures LinesIn(s, Taken(s, st, skip)) <==> OneLine(s, st.cursor.position, skip)
    ensures Behind(s, Taken(s, st, skip)) <==> !OneLine(s, st.cursor.position, skip)
  {
    hide LinesIn, HistoryIn, Scanned, OneLine;
    StartedKeepsLines(s, st);
    ScannedKeepsLines(s, Started(st), skip);
  }

  lemma RevertedKeepsLines(s: string, st: ScannerState)
    requires HistoryIn(s, st) && st.saved != []
    ensures LinesIn(s, Reverted(st))
  {
    var last := |st.saved| - 1;
    assert SavedSound(s, st.index, st.saved[last], st.cursor.position);
    forall k | 0 <= k < last ensures SavedSound(s, st.index, st.saved[k], st.saved[last].position) {
      assert SavedSound(s, st.index, st.saved[k], st.cursor.position);
    }
  }

  // Going back from a lookahead keeps the bookkeeping whatever has been met.
  lemma LookaheadKeepsLines(s: string, st: ScannerState, skip: bool)
    requires LinesIn(s, st) && st.cursor.position <= |s| + 1
    ensures LinesIn(s, Reverted(Taken(s, Saved(st), skip)))
  {
    hide LinesIn, HistoryIn, Taken, Reverted;
    StartedKeepsLines(s, st);
    TakenKeepsLines(s, Saved(st), skip);
    RevertedKeepsLines(s, Taken(s, Saved(st), skip));
  }

  // The line number is behind.
  ghost predicate Behind(s: string, st: ScannerState) {
    st.cursor.line < TrueLine(s, st.cursor.position)
  }

  // A line number that is behind stays behind: every line end passed adds at most one to it.
  lemma {:induction false} ScannedBehind(s: string, st: ScannerState, skip: bool)
    requires LoneCarriageReturns(s) && Behind(s, st)
    requires st.cursor.startPosition <= st.cursor.position <= |s| + 1
    ensures Behind(s, Scanned(s, st, skip))
    decreases |s| + 1 - st.cursor.position
  {
    hide TokenFrom, TriviaEnd;
    var p := st.cursor.position;
    if p < |s| {
      if IsTrivia(s[p]) {
        TriviaBehind(s, st, skip);
        if skip || s[p] == '#' {
          ScannedBehind(s, TriviaTaken(s, st, skip), skip);
        }
      } else {
        SameLine(s, p, TokenTaken(s, st).cursor.position);
      }
    }
  }

  lemma TriviaBehind(s: string, st: ScannerState, skip: bool)
    requires LoneCarriageReturns(s) && Behind(s, st)
    requires st.cursor.startPosition <= st.cursor.position < |s| && IsTrivia(s[st.cursor.position])
    ensures Behind(s, TriviaTaken(s, st, skip))
  {
    var p := st.cursor.position;
    if IsLineBreakChar(s[p]) {
      assert EndsLine(s, p) && TriviaEnd(s, p) == p + 1;
    } else {
      SameLine(s, p, TriviaEnd(s, p));
    }
  }

  lemma {:induction false} SkippedBehind(s: string, st: ScannerState, tokens: set<Token>)
    requires LoneCarriageReturns(s) && Behind(s, st) && st.cursor.position <= |s| + 1
    ensures Behind(s, SkippedTo(s, st, tokens))
    decreases |s| + 1 - st.cursor.position
  {
    hide Scanned, Next;
    ScannedBehind(s, Started(Saved(st)), true);
    var token := Next(s, st.cursor.position, 0, true).token;
    if token != EndOfDocument && token !in tokens {
      SkippedBehind(s, Taken(s, Saved(st), true), tokens);
    }
  }

  lemma {:induction false} BlockBehind(s: string, st: ScannerState, depth: int, seen: bool)
    requires LoneCarriageReturns(s) && Behind(s, st) && st.cursor.position <= |s| + 1
    ensures Behind(s, BlockSkipped(s, st, depth, seen))
    decreases |s| + 1 - st.cursor.position
  {
    hide Scanned, Next;
    ScannedBehind(s, Started(st), true);
    var token := Next(s, st.cursor.position, 0, true).token;
    var brace := seen || token in {OpenBrace, CloseBrace};
    if token != EndOfDocument && !(brace && DepthAfter(token, depth) <= 0) {
      BlockBehind(s, Taken(s, st, true), DepthAfter(token, depth), brace);
    }
  }

  lemma BehindIsWrong(s: string, st: ScannerState)
    ensures Behind(s, st) ==> !LinesIn(s, st)
  {
  }

  lemma {:induction false} SkippedKeepsLines(s: string, st: ScannerState, tokens: set<Token>)
    requires LinesIn(s, st) && st.cursor.position <= |s| + 1
    ensures LinesIn(s, SkippedTo(s, st, tokens)) <==> OneLineTo(s, st.cursor.position, tokens)
    decreases |s| + 1 - st.cursor.position
  {
    hide LinesIn, HistoryIn, Taken, Reverted, OneLine, Behind;
    StartedKeepsLines(s, st);
    LinesGiveHistory(s, st);
    TakenKeepsLines(s, Saved(st), true);
    LookaheadKeepsLines(s, st, true);
    var token, after := Next(s, st.cursor.position, 0, true).token, Taken(s, Saved(st), true);
    if token != EndOfDocument && token !in tokens {
      if OneLine(s, st.cursor.position, true) {
        SkippedKeepsLines(s, after, tokens);
      } else {
        SkippedBehind(s, after, tokens);
        BehindIsWrong(s, SkippedTo(s, after, tokens));
      }
    }
  }

  lemma {:induction false} BlockKeepsLines(s: string, st: ScannerState, depth: int, seen: bool)
    requires LinesIn(s, st) && st.cursor.position <= |s| + 1
    ensures LinesIn(s, BlockSkipped(s, st, depth, seen)) <==> OneLineBlock(s, st.cursor.position, depth, seen)
    decreases |s| + 1 - st.cursor.position
  {
    hide LinesIn, HistoryIn, Taken, OneLine, Behind;
    LinesGiveHistory(s, st);
    TakenKeepsLines(s, st, true);
    var token, after := Next(s, st.cursor.position, 0, true).token, Taken(s, st, true);
    var brace := seen || token in {OpenBrace, CloseBrace};
    if token != EndOfDocument && !(brace && DepthAfter(token, depth) <= 0) {
      if OneLine(s, st.cursor.position, true) {
        BlockKeepsLines(s, after, DepthAfter(token, depth), brace);
      } else {
        BlockBehind(s, after, DepthAfter(token, depth), brace);
        BehindIsWrong(s, BlockSkipped(s, after, DepthAfter(token, depth), brace));
      }
    }
  }

  lemma {:induction false} DirectiveKeepsLines(s: string, st: ScannerState)
    requires LinesIn(s, st) && st.cursor.startPosition <= st.cursor.position
    ensures LinesIn(s, DirectiveScanned(s, st))
    decreases |s| - st.cursor.position
  {
    hide HistoryRight, LinesRight;
    var p := st.cursor.position;
    if p < |s| {
      if IsLineBreakChar(s[p]) {
        TriviaKeepsLines(s, st, true);
        DirectiveKeepsLines(s, BreakTaken(s, st, true));
      } else {
        NamesStayOnLine(s, p + 1);
        var after := st.(cursor := DirectiveCharacterTaken(s, st.cursor));
        Moved(s, st.index, st.saved, st.cursor.line, p, after.cursor.position);
        if !IsNameStart(s[p]) {
          DirectiveKeepsLines(s, after);
        }
      }
    }
  }

  lemma {:induction false} DirectiveKeepsColumns(s: string, st: ScannerState)
    requires LinesIn(s, st) && ColumnsIn(s, st) && st.cursor.startPosition <= st.cursor.position
    ensures ColumnsIn(s, DirectiveScanned(s, st))
    decreases |s| - st.cursor.position
  {
    hide HistoryRight;
    var p := st.cursor.position;
    if p < |s| {
      LinesGiveHistory(s, st);
      if IsLineBreakChar(s[p]) {
        TriviaKeepsLines(s, st, true);
        assert EndsLine(s, p) && TriviaEnd(s, p) == p + 1;
        DirectiveKeepsColumns(s, BreakTaken(s, st, true));
      } else {
        NamesStayOnLine(s, p + 1);
        var after := st.(cursor := DirectiveCharacterTaken(s, st.cursor));
        Moved(s, st.index, st.saved, st.cursor.line, p, after.cursor.position);
        SameLine(s, p, after.cursor.position);
        if !IsNameStart(s[p]) {
          DirectiveKeepsColumns(s, after);
        }
      }
    }
  }

  /** A call keeps the line bookkeeping if and only if every token it takes for good stands on one
      line; the lookahead of a peek, of a try that fails and of a skip that finds its token may
      meet any token. */
  lemma StepKeepsLines(s: string, st: ScannerState, call: Call)
    requires LinesIn(s, st) && st.cursor.startPosition <= st.cursor.position <= |s| + 1
    ensures Step(s, st, call).Some? ==> (LinesIn(s, Step(s, st, call).value) <==> KeepsLines(s, st, call))
  {
    hide LinesIn, HistoryIn, Taken, Reverted, OneLine, SkippedTo, BlockSkipped, DirectiveScanned;
    StartedKeepsLines(s, st);
    match call
    case Take(skip) => TakenKeepsLines(s, st, skip);
    case Save =>
    case Revert =>
      LinesGiveHistory(s, st);
      if st.saved != [] {
        RevertedKeepsLines(s, st);
      }
    case Peek => LookaheadKeepsLines(s, st, true);
    case Try(expected, keywordAsName, skip) =>
      TakenKeepsLines(s, Saved(st), skip);
      LookaheadKeepsLines(s, st, skip);
    case SkipTo(tokens) => SkippedKeepsLines(s, st, tokens);
    case SkipBlock => BlockKeepsLines(s, st, 0, false);
    case ScanDirectiveLocation => DirectiveKeepsLines(s, Started(st));
  }

  // The start of the next token is recorded, whatever the token spans.
  lemma {:induction false} ScannedIsPlaced(s: string, st: ScannerState)
    requires LinesIn(s, st) && st.cursor.startPosition == st.cursor.position <= |s| + 1
    ensures var r := Scanned(s, st, true);
            && r.cursor.line == TrueLine(s, r.cursor.startPosition)
            && IndexSound(s, r.index) && Covers(s, r.index, r.cursor.startPosition)
    decreases |s| + 1 - st.cursor.position
  {
    hide TokenFrom, TriviaTaken, TriviaEnd, IndexSound, Covers;
    var p := st.cursor.position;
    if p < |s| && IsTrivia(s[p]) {
      TriviaKeepsLines(s, st, true);
      ScannedIsPlaced(s, TriviaTaken(s, st, true));
    }
  }

  /** After the next token, a string over many lines included, the running line and the start column
      are the location that the line index gives for the token's start, and the true one. */
  lemma TakenIsPlaced(s: string, st: ScannerState)
    requires PlacesIn(s, st) && st.cursor.position <= |s| + 1
    ensures var r := Taken(s, st, true);
            r.cursor.startPosition < |s| ==>
              && Locate(s, r, r.cursor.startPosition) == Found(Location(r.cursor.line, r.cursor.startColumn))
              && Location(r.cursor.line, r.cursor.startColumn) == TrueLocation(s, r.cursor.startPosition)
  {
    hide LinesIn, Scanned;
    StartedKeepsLines(s, st);
    ScannedIsPlaced(s, Started(st));
    TakenKeepsColumns(s, st, true);
    var r := Taken(s, st, true);
    WholeSearch(s, r.index, r.cursor.startPosition);
  }

  lemma {:induction false} SkippedKeepsPlaces(s: string, st: ScannerState, tokens: set<Token>)
    requires PlacesIn(s, st) && st.cursor.position <= |s| + 1
    ensures PlacesIn(s, SkippedTo(s, st, tokens)) <==> OneLineTo(s, st.cursor.position, tokens)
    decreases |s| + 1 - st.cursor.position
  {
    hide PlacesIn, Taken, Reverted, OneLine, OneSpan;
    PlacesGiveLines(s, st);
    SkippedKeepsLines(s, st, tokens);
    PlacesGiveLines(s, SkippedTo(s, st, tokens));
    if OneLineTo(s, st.cursor.position, tokens) {
      SavedKeepsPlaces(s, st);
      SpansAreLines(s, st.cursor.position);
      TakenKeepsPlaces(s, Saved(st), true);
      LookaheadKeepsPlaces(s, st, true);
      var token := Next(s, st.cursor.position, 0, true).token;
      if token != EndOfDocument && token !in tokens {
        SkippedKeepsPlaces(s, Taken(s, Saved(st), true), tokens);
      }
    }
  }

  lemma {:induction false} BlockKeepsPlaces(s: string, st: ScannerState, depth: int, seen: bool)
    requires PlacesIn(s, st) && st.cursor.position <= |s| + 1
    ensures PlacesIn(s, BlockSkipped(s, st, depth, seen)) <==> OneLineBlock(s, st.cursor.position, depth, seen)
    decreases |s| + 1 - st.cursor.position
  {
    hide PlacesIn, Taken, OneLine, OneSpan;
    PlacesGiveLines(s, st);
    BlockKeepsLines(s, st, depth, seen);
    PlacesGiveLines(s, BlockSkipped(s, st, depth, seen));
    if OneLineBlock(s, st.cursor.position, depth, seen) {
      TakenKeepsPlaces(s, st, true);
      SpansAreLines(s, st.cursor.position);
      var token := Next(s, st.cursor.position, 0, true).token;
      var brace := seen || token in {OpenBrace, CloseBrace};
      if token != EndOfDocument && !(brace && DepthAfter(token, depth) <= 0) {
        BlockKeepsPlaces(s, Taken(s, st, true), DepthAfter(token, depth), brace);
      }
    }
  }

  lemma PlacesGiveLines(s: string, st: ScannerState)
    ensures PlacesIn(s, st) ==> LinesIn(s, st) && ColumnsIn(s, st)
  {
  }

  // Where white space is skipped it is no token.
  lemma SpansAreLines(s: string, p: nat)
    requires p <= |s| + 1
    ensures OneLine(s, p, true) <==> OneSpan(s, p, true)
  {
  }

  lemma SavedKeepsPlaces(s: string, st: ScannerState)
    requires PlacesIn(s, st)
    ensures PlacesIn(s, Saved(st)) && PlacesIn(s, Started(st))
  {
  }

  lemma TakenKeepsPlaces(s: string, st: ScannerState, skip: bool)
    requires PlacesIn(s, st) && st.cursor.position <= |s| + 1
    ensures PlacesIn(s, Taken(s, st, skip)) <==> OneSpan(s, st.cursor.position, skip)
  {
    hide LinesIn, HistoryIn, Next, Taken;
    TakenKeepsLines(s, st, skip);
    TakenKeepsColumns(s, st, skip);
  }

  lemma LookaheadKeepsPlaces(s: string, st: ScannerState, skip: bool)
    requires PlacesIn(s, st) && st.cursor.position <= |s| + 1
    ensures PlacesIn(s, Reverted(Taken(s, Saved(st), skip)))
  {
    hide LinesIn, HistoryIn, Next, Taken;
    LookaheadKeepsLines(s, st, skip);
  }

  lemma RevertedKeepsPlaces(s: string, st: ScannerState)
    requires HistoryIn(s, st) && SavedColumnsIn(s, st) && st.saved != []
    ensures PlacesIn(s, Reverted(st))
  {
    hide LinesIn, HistoryIn;
    RevertedKeepsLines(s, st);
  }

  /** The same for lines and columns together, where white space taken as a token must hold no
      line end either. */
  lemma StepKeepsPlaces(s: string, st: ScannerState, call: Call)
    requires PlacesIn(s, st) && st.cursor.startPosition <= st.cursor.position <= |s| + 1
    ensures Step(s, st, call).Some? ==> (PlacesIn(s, Step(s, st, call).value) <==> KeepsPlaces(s, st, call))
  {
    hide LinesIn, HistoryIn, ColumnsIn, Taken, OneLine, OneSpan, SkippedTo, BlockSkipped, DirectiveScanned, Next;
    SavedKeepsPlaces(s, st);
    match call
    case Take(skip) => TakenKeepsPlaces(s, st, skip);
    case Save =>
    case Revert =>
      LinesGiveHistory(s, st);
      if st.saved != [] {
        RevertedKeepsPlaces(s, st);
      }
    case Peek => LookaheadKeepsPlaces(s, st, true);
    case Try(expected, keywordAsName, skip) =>
      TakenKeepsPlaces(s, Saved(st), skip);
      LookaheadKeepsPlaces(s, st, skip);
    case SkipTo(tokens) => SkippedKeepsPlaces(s, st, tokens);
    case SkipBlock => BlockKeepsPlaces(s, st, 0, false);
    case ScanDirectiveLocation =>
      DirectiveKeepsLines(s, Started(st));
      DirectiveKeepsColumns(s, Started(st));
  }

  // The cursor stays inside, and starts before it ends.
  lemma StepInside(s: string, st: ScannerState, call: Call)
    requires Inside(s, st)
    ensures Step(s, st, call).Some? ==> Inside(s, Step(s, st, call).value) && st.index <= Step(s, st, call).value.index
  {
    hide Taken, SkippedTo, BlockSkipped, DirectiveScanned, Next, Reverted, Inside;
    match call
    case Take(_) => SavedStaysInside(s, st, call);
    case Save => SavedStaysInside(s, st, call);
    case Revert => SavedStaysInside(s, st, call);
    case Peek => SavedStaysInside(s, st, call);
    case Try(_, _, _) => SavedStaysInside(s, st, call);
    case SkipTo(tokens) => SkippedInside(s, st, tokens);
    case SkipBlock => BlockInside(s, st, 0, false);
    case ScanDirectiveLocation =>
      StartedInside(s, st);
      DirectiveInside(s, Started(st));
  }

  lemma StartedInside(s: string, st: ScannerState)
    requires Inside(s, st)
    ensures Inside(s, Started(st))
  {
  }

  lemma SavedStaysInside(s: string, st: ScannerState, call: Call)
    requires Inside(s, st) && (call.Take? || call.Save? || call.Revert? || call.Peek? || call.Try?)
    ensures Step(s, st, call).Some? ==> Inside(s, Step(s, st, call).value) && st.index <= Step(s, st, call).value.index
  {
    hide Taken, SkippedTo, BlockSkipped, DirectiveScanned, Next;
  }

  lemma {:induction false} SkippedInside(s: string, st: ScannerState, tokens: set<Token>)
    requires Inside(s, st)
    ensures Inside(s, SkippedTo(s, st, tokens))
    decreases |s| + 1 - st.cursor.position
  {
    hide Taken;
    var token := Next(s, st.cursor.position, 0, true).token;
    if token != EndOfDocument && token !in tokens {
      SkippedInside(s, Taken(s, Saved(st), true), tokens);
    }
  }

  lemma {:induction false} BlockInside(s: string, st: ScannerState, depth: int, seen: bool)
    requires Inside(s, st)
    ensures Inside(s, BlockSkipped(s, st, depth, seen))
    decreases |s| + 1 - st.cursor.position
  {
    hide Taken;
    var token := Next(s, st.cursor.position, 0, true).token;
    var brace := seen || token in {OpenBrace, CloseBrace};
    if token != EndOfDocument && !(brace && DepthAfter(token, depth) <= 0) {
      BlockInside(s, Taken(s, st, true), DepthAfter(token, depth), brace);
    }
  }

  lemma {:induction false} DirectiveInside(s: string, st: ScannerState)
    requires Inside(s, st)
    ensures Inside(s, DirectiveScanned(s, st))
    decreases |s| - st.cursor.position
  {
    var p := st.cursor.position;
    if p < |s| {
      if IsLineBreakChar(s[p]) {
        DirectiveInside(s, BreakTaken(s, st, true));
      } else if !IsNameStart(s[p]) {
        DirectiveInside(s, st.(cursor := DirectiveCharacterTaken(s, st.cursor)));
      }
    }
  }

  lemma {:induction false} RunKeeps(s: string, st: ScannerState, calls: seq<Call>)
    requires Inside(s, st) && LinesIn(s, st) && RunKeepsLines(s, st, calls)
    ensures Run(s, st, calls).Some? ==> LinesIn(s, Run(s, st, calls).value)
    decreases |calls|
  {
    hide LinesIn, Step, KeepsLines;
    if calls != [] {
      StepKeepsLines(s, st, calls[0]);
      StepInside(s, st, calls[0]);
      if Step(s, st, calls[0]).Some? {
        RunKeeps(s, Step(s, st, calls[0]).value, calls[1..]);
      }
    }
  }

  /** In every run of calls, with any lookahead, reverts and error recovery, over a text in which
      carriage returns stand alone: if every token taken for good stands on one line, the search
      finds the true line and column of every offset up to the cursor. */
  lemma RunLocates(s: string, calls: seq<Call>, q: nat)
    requires LoneCarriageReturns(s) && RunKeepsLines(s, Initial, calls)
    requires Run(s, Initial, calls).Some? && q <= Run(s, Initial, calls).value.cursor.position
    ensures var st := Run(s, Initial, calls).value;
            && st.cursor.line == TrueLine(s, st.cursor.position)
            && Locate(s, st, q) == if q < |s| then Found(TrueLocation(s, q)) else NotFound
  {
    assert LinesIn(s, Initial) by { assert EntrySound(s, PositionToLine(0, 1)); }
    hide Run, RunKeepsLines;
    RunKeeps(s, Initial, calls);
    WholeSearch(s, Run(s, Initial, calls).value.index, q);
  }

  lemma {:induction false} RunKeepsAllPlaces(s: string, st: ScannerState, calls: seq<Call>)
    requires Inside(s, st) && PlacesIn(s, st) && RunKeepsPlaces(s, st, calls)
    ensures Run(s, st, calls).Some? ==>
              var after := Run(s, st, calls).value;
              PlacesIn(s, after) && after.cursor.position <= |s| + 1
    decreases |calls|
  {
    hide PlacesIn, Step, KeepsPlaces;
    if calls != [] {
      StepKeepsPlaces(s, st, calls[0]);
      StepInside(s, st, calls[0]);
      if Step(s, st, calls[0]).Some? {
        RunKeepsAllPlaces(s, Step(s, st, calls[0]).value, calls[1..]);
      }
    }
  }

  /** The cheap location: after every run of calls, with any lookahead, reverts and error recovery,
      whose tokens taken for good hold no line end, the next token's location is its running
      line and start column; the line index gives the same one, and it is the true one. */
  lemma RunLocatesTokens(s: string, calls: seq<Call>)
    requires LoneCarriageReturns(s) && RunKeepsPlaces(s, Initial, calls) && Run(s, Initial, calls).Some?
    ensures var st := Run(s, Initial, calls).value;
            && st.cursor.position <= |s| + 1
            && var r := Taken(s, st, true);
               r.cursor.startPosition < |s| ==>
                 && Locate(s, r, r.cursor.startPosition) == Found(Location(r.cursor.line, r.cursor.startColumn))
                 && Location(r.cursor.line, r.cursor.startColumn) == TrueLocation(s, r.cursor.startPosition)
  {
    assert LinesIn(s, Initial) by { assert EntrySound(s, PositionToLine(0, 1)); }
    hide Run, RunKeepsPlaces, Taken;
    RunKeepsAllPlaces(s, Initial, calls);
    TakenIsPlaced(s, Run(s, Initial, calls).value);
  }

  // The same but for the line index.
  predicate SameBut(a: ScannerState, b: ScannerState) {
    a.cursor == b.cursor && a.saved == b.saved
  }

  lemma {:induction false} ScannedSame(s: string, a: ScannerState, b: ScannerState, skip: bool)
    requires SameBut(a, b) && a.cursor.startPosition <= a.cursor.position <= |s| + 1
    ensures SameBut(Scanned(s, a, skip), Scanned(s, b, skip))
    decreases |s| + 1 - a.cursor.position
  {
    hide TokenFrom, TriviaEnd;
    var p := a.cursor.position;
    if p < |s| && IsTrivia(s[p]) && (skip || s[p] == '#') {
      ScannedSame(s, TriviaTaken(s, a, skip), TriviaTaken(s, b, skip), skip);
    }
  }

  lemma {:induction false} SkippedSame(s: string, a: ScannerState, b: ScannerState, tokens: set<Token>)
    requires SameBut(a, b) && a.cursor.position <= |s| + 1
    ensures SameBut(SkippedTo(s, a, tokens), SkippedTo(s, b, tokens))
    decreases |s| + 1 - a.cursor.position
  {
    hide Scanned;
    ScannedSame(s, Started(Saved(a)), Started(Saved(b)), true);
    var token := Next(s, a.cursor.position, 0, true).token;
    if token != EndOfDocument && token !in tokens {
      SkippedSame(s, Taken(s, Saved(a), true), Taken(s, Saved(b), true), tokens);
    }
  }

  lemma {:induction false} BlockSame(s: string, a: ScannerState, b: ScannerState, depth: int, seen: bool)
    requires SameBut(a, b) && a.cursor.position <= |s| + 1
    ensures SameBut(BlockSkipped(s, a, depth, seen), BlockSkipped(s, b, depth, seen))
    decreases |s| + 1 - a.cursor.position
  {
    hide Scanned;
    ScannedSame(s, Started(a), Started(b), true);
    var token := Next(s, a.cursor.position, 0, true).token;
    var brace := seen || token in {OpenBrace, CloseBrace};
    if token != EndOfDocument && !(brace && DepthAfter(token, depth) <= 0) {
      BlockSame(s, Taken(s, a, true), Taken(s, b, true), DepthAfter(token, depth), brace);
    }
  }

  lemma {:induction false} DirectiveSame(s: string, a: ScannerState, b: ScannerState)
    requires SameBut(a, b)
    ensures SameBut(DirectiveScanned(s, a), DirectiveScanned(s, b))
    decreases |s| - a.cursor.position
  {
    var p := a.cursor.position;
    if p < |s| {
      if IsLineBreakChar(s[p]) {
        DirectiveSame(s, BreakTaken(s, a, true), BreakTaken(s, b, true));
      } else if !IsNameStart(s[p]) {
        DirectiveSame(s, a.(cursor := DirectiveCharacterTaken(s, a.cursor)),
                      b.(cursor := DirectiveCharacterTaken(s, b.cursor)));
      }
    }
  }

  lemma StepSame(s: string, a: ScannerState, b: ScannerState, call: Call)
    requires SameBut(a, b) && a.cursor.position <= |s| + 1
    ensures Step(s, a, call).Some? <==> Step(s, b, call).Some?
    ensures Step(s, a, call).Some? ==> SameBut(Step(s, a, call).value, Step(s, b, call).value)
  {
    hide Scanned;
    match call
    case Take(skip) => ScannedSame(s, Started(a), Started(b), skip);
    case Peek => ScannedSame(s, Started(Saved(a)), Started(Saved(b)), true);
    case Try(_, _, skip) => ScannedSame(s, Started(Saved(a)), Started(Saved(b)), skip);
    case SkipTo(tokens) => SkippedSame(s, a, b, tokens);
    case SkipBlock => BlockSame(s, a, b, 0, false);
    case ScanDirectiveLocation => DirectiveSame(s, Started(a), Started(b));
    case _ =>
  }

  lemma {:induction false} RunSame(s: string, a: ScannerState, b: ScannerState, calls: seq<Call>)
    requires SameBut(a, b)
    ensures Run(s, a, calls).Some? <==> Run(s, b, calls).Some?
    ensures Run(s, a, calls).Some? ==> SameBut(Run(s, a, calls).value, Run(s, b, calls).value)
    ensures RunKeepsLines(s, a, calls) <==> RunKeepsLines(s, b, calls)
    decreases |calls|
  {
    hide Step;
    if calls != [] && a.cursor.position <= |s| + 1 {
      StepSame(s, a, b, calls[0]);
      if Step(s, a, calls[0]).Some? {
        RunSame(s, Step(s, a, calls[0]).value, Step(s, b, calls[0]).value, calls[1..]);
      }
    }
  }

  // The call comes back to where it started.
  predicate IsLookahead(s: string, p: nat, call: Call)
    requires p <= |s| + 1
  {
    match call
    case Peek => true
    case Try(expected, keywordAsName, skip) => Next(s, p, 0, skip).token.InMode(keywordAsName) != expected
    case SkipTo(tokens) => Next(s, p, 0, true).token in tokens && Next(s, p, 0, true).token != EndOfDocument
    case _ => false
  }

  /** Lookahead leaves no trace: whatever is called afterwards, every later cursor, every saved
      one and every location is the same with and without it. */
  lemma LookaheadIsInvisible(s: string, st: ScannerState, call: Call, calls: seq<Call>)
    requires Inside(s, st) && LinesIn(s, st) && IsLookahead(s, st.cursor.position, call)
    requires RunKeepsLines(s, st, calls) && Run(s, st, calls).Some?
    ensures var without, with := Run(s, st, calls), Run(s, st, [call] + calls);
            && with.Some? && SameBut(without.value, with.value)
            && forall q: nat | q <= without.value.cursor.position ::
                 Locate(s, with.value, q) == Locate(s, without.value, q)
  {
    hide LinesIn, RunKeepsLines, Locate, Run, Step, KeepsLines, IsLookahead;
    LookaheadComesBack(s, st, call);
    var after := Step(s, st, call).value;
    OneMoreCall(s, st, call, calls);
    StepKeepsLines(s, st, call);
    StepInside(s, st, call);
    RunSame(s, st, after, calls);
    BothLocate(s, st, after, calls);
  }

  lemma LookaheadComesBack(s: string, st: ScannerState, call: Call)
    requires Inside(s, st) && IsLookahead(s, st.cursor.position, call)
    ensures Step(s, st, call).Some? && SameBut(st, Step(s, st, call).value) && KeepsLines(s, st, call)
  {
    hide Taken, OneLine, Next;
  }

  lemma OneMoreCall(s: string, st: ScannerState, call: Call, calls: seq<Call>)
    requires st.cursor.position <= |s| + 1 && Step(s, st, call).Some?
    ensures Run(s, st, [call] + calls) == Run(s, Step(s, st, call).value, calls)
  {
    hide Step;
    assert ([call] + calls)[1..] == calls;
  }

  lemma BothLocate(s: string, a: ScannerState, b: ScannerState, calls: seq<Call>)
    requires Inside(s, a) && LinesIn(s, a) && Inside(s, b) && LinesIn(s, b) && SameBut(a, b)
    requires RunKeepsLines(s, a, calls) && Run(s, a, calls).Some?
    ensures Run(s, b, calls).Some?
    ensures var x, y := Run(s, a, calls).value, Run(s, b, calls).value;
            forall q: nat | q <= x.cursor.position ::
              Locate(s, y, q) == Locate(s, x, q)
  {
    hide Run, RunKeepsLines;
    RunSame(s, a, b, calls);
    RunKeeps(s, a, calls);
    RunKeeps(s, b, calls);
    var x, y := Run(s, a, calls).value, Run(s, b, calls).value;
    forall q: nat | q <= x.cursor.position
      ensures Locate(s, y, q) == Locate(s, x, q)
    {
      WholeSearch(s, x.index, q);
      WholeSearch(s, y.index, q);
    }
  }

  /** A token that spans a line end leaves the line number behind, and the next line break that is
      recorded while it is behind gets a wrong entry. */
  lemma WrongEntry(s: string, st: ScannerState, skip: bool)
    requires LoneCarriageReturns(s) && st.cursor.position < |s| && IsLineBreakChar(s[st.cursor.position])
    ensures var index := BreakTaken(s, st, skip).index;
            EntrySound(s, index[|index| - 1]) <==> st.cursor.line == TrueLine(s, st.cursor.position)
  {
  }

  /** No call ever repairs such an entry: the index is sound again after no run at all. */
  lemma {:induction false} NeverRepaired(s: string, st: ScannerState, calls: seq<Call>, k: nat)
    requires Inside(s, st) && k < |st.index| && !EntrySound(s, st.index[k])
    ensures Run(s, st, calls).Some? ==>
              var after := Run(s, st, calls).value;
              k < |after.index| && after.index[k] == st.index[k] && !IndexSound(s, after.index) && !LinesIn(s, after)
    decreases |calls|
  {
    hide Step, EntrySound;
    if calls == [] {
      assert !IndexSound(s, st.index);
    } else {
      StepInside(s, st, calls[0]);
      if Step(s, st, calls[0]).Some? {
        NeverRepaired(s, Step(s, st, calls[0]).value, calls[1..], k);
      }
    }
  }
}
