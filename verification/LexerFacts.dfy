/** Facts about single tokens: which can span lines, and what a carriage return costs. */
module LexerFacts {
  import opened SourceText
  import opened GraphQlTokens
  import opened GraphQlLexer
  import opened LineIndex

  lemma {:induction false} DigitsStayOnLine(s: string, p: nat)
    ensures NoBreak(s, p, DigitsEnd(s, p))
    decreases |s| - p
  {
    if IsDigit(CharAt(s, p)) {
      DigitsStayOnLine(s, p + 1);
    }
  }

  lemma {:induction false} NamesStayOnLine(s: string, p: nat)
    ensures NoBreak(s, p, NameEnd(s, p))
    decreases |s| - p
  {
    if IsNamePart(CharAt(s, p)) {
      NamesStayOnLine(s, p + 1);
    }
  }

  lemma ExponentsStayOnLine(s: string, p: nat)
    requires p < |s| && IsExponentSign(s[p])
    ensures NoBreak(s, p, Exponent(s, p).1)
  {
    DigitsStayOnLine(s, p + 2);
    DigitsStayOnLine(s, p + 3);
  }

  lemma NumbersStayOnLine(s: string, p: nat)
    requires p <= |s|
    ensures NoBreak(s, p, Number(s, p).1)
  {
    DigitsStayOnLine(s, p);
    var q := IntegerPartEnd(s, p);
    DigitsStayOnLine(s, q + 2);
    var f := DigitsEnd(s, q + 2);
    if IsExponentSign(CharAt(s, q)) {
      ExponentsStayOnLine(s, q);
    } else if CharAt(s, q) == '.' && IsDigit(CharAt(s, q + 1)) && IsExponentSign(CharAt(s, f)) {
      ExponentsStayOnLine(s, f);
    }
  }

  lemma {:induction false} StringsKeepTheirToken(s: string, start: nat, p: nat)
    requires p < |s| && !IsTrivia(s[p])
    ensures var r := TokenFrom(s, start, p);
            r.0 in {StringLiteral, InvalidString, Unknown} || NoBreak(s, p, r.1)
  {
    if s[p] == '-' || IsDigit(s[p]) {
      NumbersStayOnLine(s, p + 1);
    } else if IsNameStart(s[p]) {
      NamesStayOnLine(s, p + 1);
    }
  }

  /** Only a string, or a block string that is never closed, can span the end of a line: after
      every other token the line bookkeeping is right and line and column locate its start. */
  lemma {:induction false} OnlyStringsSpanLines(s: string, p: nat, lag: nat)
    requires lag <= p <= |s| + 1
    ensures var next := Next(s, p, lag, true);
            && (LoneCarriageReturns(s) && lag == 0 && next.token !in {StringLiteral, InvalidString, Unknown} ==>
                  NoBreak(s, next.start, next.end))
    decreases |s| + 1 - p
  {
    if p < |s| {
      if IsTrivia(s[p]) {
        OnlyStringsSpanLines(s, TriviaEnd(s, p), lag + TriviaLag(s, p));
      } else {
        StringsKeepTheirToken(s, p - lag, p);
      }
    }
  }

  /** The carriage-return branch records a true line start and keeps the token's start in step
      exactly when no line feed stands one or two places after the carriage return. */
  lemma CarriageReturnBranch(s: string, p: nat, line: nat)
    requires p < |s| && s[p] == '\r' && line == TrueLine(s, p)
    ensures EntrySound(s, PositionToLine(TriviaEnd(s, p), line + 1)) && TriviaLag(s, p) == 0
            <==> CharAt(s, p + 1) != '\n' && CharAt(s, p + 2) != '\n'
  {
  }
}
