/** The scanner recognises just the texts of each kind of token. */
module TokenTexts {
  import opened SourceText
  import opened GraphQlTokens
  import opened GraphQlLexer
  import opened TokensInText
  import opened TokenLanguages

  lemma {:induction false} DigitsUpTo(s: string, p: nat)
    requires p <= |s|
    ensures forall k | p <= k < DigitsEnd(s, p) :: Digit(s[k])
    decreases |s| - p
  {
    if p < |s| && IsDigit(s[p]) {
      DigitsUpTo(s, p + 1);
    }
  }

  lemma {:induction false} DigitsEndAt(s: string, p: nat, end: nat)
    requires p <= end <= |s| && !IsDigit(CharAt(s, end)) && forall k | p <= k < end :: Digit(s[k])
    ensures DigitsEnd(s, p) == end
    decreases end - p
  {
    if p < end {
      DigitsEndAt(s, p + 1, end);
    }
  }

  // The integer part of a number ends where the longest integer does.
  lemma IntegerPart(text: string, end: nat)
    requires text != "" && (text[0] == '-' || Digit(text[0])) && 1 <= end <= |text|
    requires !IsDigit(CharAt(text, end))
    ensures IsInteger(text[..end]) <==> IntegerPartEnd(text, 1) == end
  {
    var head := text[..end];
    if IsInteger(head) {
      if head[1..] == "0" {
        assert text[1] == head[1..][0];
      } else {
        forall k | 1 <= k < end ensures Digit(text[k]) {
          assert head[1..][k - 1] == text[k];
        }
        DigitsEndAt(text, 1, end);
      }
    }
    if IntegerPartEnd(text, 1) == end {
      DigitsUpTo(text, 1);
      assert CharAt(text, 1) == '0' ==> head[1..] == "0";
    }
  }

  lemma IntegerSpelled(text: string)
    requires text != "" && (text[0] == '-' || Digit(text[0]))
    ensures Number(text, 1) == (IntegerLiteral, |text|) <==> IsInteger(text)
  {
    hide Exponent;
    assert text[..|text|] == text;
    IntegerPart(text, |text|);
  }

  lemma FractionSpelled(text: string, i: nat, j: nat)
    requires i < j <= |text| && text[i] == '.' && !IsDigit(CharAt(text, j))
    ensures IsFraction(text[i..j]) <==> IsDigit(CharAt(text, i + 1)) && DigitsEnd(text, i + 2) == j
  {
    var part := text[i..j];
    if IsFraction(part) {
      forall k | i + 1 <= k < j ensures Digit(text[k]) {
        assert part[1..][k - i - 1] == text[k];
      }
      DigitsEndAt(text, i + 2, j);
    }
    if IsDigit(CharAt(text, i + 1)) && DigitsEnd(text, i + 2) == j {
      DigitsUpTo(text, i + 2);
    }
  }

  lemma ExponentSpelled(text: string, j: nat)
    requires j < |text| && IsExponentSign(text[j])
    ensures IsExponent(text[j..]) <==> Exponent(text, j) == (FloatLiteral, |text|)
  {
    var part := text[j..];
    var q := if CharAt(text, j + 1) == '-' || CharAt(text, j + 1) == '+' then j + 2 else j + 1;
    if IsExponent(part) {
      forall k | q <= k < |text| ensures Digit(text[k]) {
        assert part[k - j] == text[k];
        assert part[q - j..][k - q] == text[k];
      }
      DigitsEndAt(text, q + 1, |text|);
    }
    if Exponent(text, j) == (FloatLiteral, |text|) {
      DigitsUpTo(text, q + 1);
      assert forall k | q <= k < |text| :: Digit(text[k]);
      assert part[1] == text[j + 1];
    }
  }

  lemma FloatSpelled(text: string)
    requires text != "" && (text[0] == '-' || Digit(text[0]))
    ensures Number(text, 1) == (FloatLiteral, |text|) <==> IsFloat(text)
  {
    hide Exponent, IsInteger, IsFraction, IsExponent, IntegerPartEnd;
    if Number(text, 1) == (FloatLiteral, |text|) {
      FloatHasParts(text);
    }
    if IsFloat(text) {
      var i: nat, j: nat :| FloatParts(text, i, j);
      FloatFromParts(text, i, j);
    }
  }

  lemma FloatHasParts(text: string)
    requires text != "" && (text[0] == '-' || Digit(text[0])) && Number(text, 1) == (FloatLiteral, |text|)
    ensures IsFloat(text)
  {
    hide Exponent, IsInteger, IsFraction, IsExponent;
    var i := IntegerPartEnd(text, 1);
    IntegerPart(text, i);
    if text[i] == '.' {
      var j := DigitsEnd(text, i + 2);
      FractionSpelled(text, i, j);
      if j < |text| {
        ExponentSpelled(text, j);
      }
      assert FloatParts(text, i, j);
    } else {
      ExponentSpelled(text, i);
      assert FloatParts(text, i, i);
    }
  }

  lemma FloatFromParts(text: string, i: nat, j: nat)
    requires text != "" && (text[0] == '-' || Digit(text[0])) && FloatParts(text, i, j)
    ensures Number(text, 1) == (FloatLiteral, |text|)
  {
    hide Exponent;
    if j < |text| {
      assert text[j..][0] == text[j];
      ExponentSpelled(text, j);
    }
    if i < j {
      assert text[i..j][0] == text[i];
      FractionSpelled(text, i, j);
    }
    IntegerPart(text, i);
  }

  lemma {:induction false} HexSpelled(s: string, p: nat, n: nat)
    requires p <= |s| && n <= 4
    ensures var r := HexEscape(s, p, n);
            && (r.0 <==> forall k | p <= k < p + 4 - n :: Hexadecimal(CharAt(s, k)))
            && (r.0 ==> r.1 == p + 4 - n)
            && (!r.0 ==> p < r.1 <= p + 4 - n && !Hexadecimal(CharAt(s, r.1 - 1)) &&
                         forall k | p <= k < r.1 - 1 :: Hexadecimal(CharAt(s, k)))
    decreases 4 - n
  {
    if n < 4 && IsHexadecimal(CharAt(s, p)) {
      HexSpelled(s, p + 1, n + 1);
    }
  }

  // A line break in a text is in its first part or behind it.
  lemma BreakInParts(s: string, p: nat, q: nat, end: nat)
    requires p <= q <= end <= |s|
    ensures HasLineBreak(s[p..end]) <==> HasLineBreak(s[p..q]) || HasLineBreak(s[q..end])
    ensures s[p..end][q - p..] == s[q..end]
  {
    var all, first, second := s[p..end], s[p..q], s[q..end];
    forall k | 0 <= k < |all| ensures all[k] == if k < q - p then first[k] else second[k - (q - p)] {
    }
    if HasLineBreak(first) {
      var k :| 0 <= k < |first| && LineBreak(first[k]);
      assert LineBreak(all[k]);
    }
    if HasLineBreak(second) {
      var k :| 0 <= k < |second| && LineBreak(second[k]);
      assert LineBreak(all[k + q - p]);
    }
  }

  // The rest of a one-line string, once a line break has been seen or not.
  ghost predicate GoodRest(text: string, truncated: bool) {
    Quoted(text) && !truncated && !HasLineBreak(text)
  }

  ghost predicate BadRest(text: string, truncated: bool) {
    (Quoted(text) && (truncated || HasLineBreak(text))) || Misquoted(text)
  }

  lemma {:induction false} QuotedSpelled(s: string, p: nat, end: nat, truncated: bool)
    requires p <= end <= |s|
    ensures StringEnd(s, p, truncated) == (StringLiteral, end) <==> GoodRest(s[p..end], truncated)
    ensures StringEnd(s, p, truncated) == (InvalidString, end) <==> BadRest(s[p..end], truncated)
    decreases |s| - p
  {
    hide HexEscape, Escape, HasLineBreak;
    if p < end {
      if s[p] == '\\' {
        EscapeSpelled(s, p, end, truncated);
        var escape := Escape(s, p);
        if escape.0 && escape.1 <= end {
          QuotedSpelled(s, escape.1, end, truncated);
        }
      } else if s[p] != '"' {
        BreakInParts(s, p, p + 1, end);
        OneBreak(s, p);
        QuotedSpelled(s, p + 1, end, truncated || LineBreak(s[p]));
      } else {
        OneBreak(s, p);
      }
    }
  }

  lemma OneBreak(s: string, p: nat)
    requires p < |s|
    ensures HasLineBreak(s[p..p + 1]) <==> LineBreak(s[p])
  {
    assert s[p..p + 1][0] == s[p];
  }

  // An escape, and what the rest of the string comes to behind it.
  lemma EscapeSpelled(s: string, p: nat, end: nat, truncated: bool)
    requires p < end <= |s| && s[p] == '\\'
    ensures var escape, text := Escape(s, p), s[p..end];
            if escape.0 then
              && (escape.1 > end ==> !Quoted(text) && !Misquoted(text))
              && (escape.1 <= end ==>
                    && (GoodRest(text, truncated) <==> GoodRest(s[escape.1..end], truncated))
                    && (BadRest(text, truncated) <==> BadRest(s[escape.1..end], truncated)))
            else !Quoted(text) && (Misquoted(text) <==> escape.1 == end)
  {
    hide Escape, HasLineBreak, Quoted, Misquoted;
    var escape := Escape(s, p);
    if CharAt(s, p + 1) == 'u' {
      UnicodeEscape(s, p, end);
    } else {
      ShortEscape(s, p, end);
    }
    if escape.0 && escape.1 <= end {
      BreakInParts(s, p, escape.1, end);
      NoBreakInEscape(s, p);
    }
  }

  // The rest behind an escape is the rest of the whole.
  ghost predicate SameRest(s: string, p: nat, q: nat, end: nat)
    requires p <= q && p <= end <= |s|
  {
    if q > end then !Quoted(s[p..end]) && !Misquoted(s[p..end])
    else
      && (Quoted(s[p..end]) <==> Quoted(s[q..end]))
      && (Misquoted(s[p..end]) <==> Misquoted(s[q..end]))
  }

  lemma ShortEscape(s: string, p: nat, end: nat)
    requires p < end <= |s| && s[p] == '\\' && CharAt(s, p + 1) != 'u'
    ensures Escape(s, p).0 && SameRest(s, p, Escape(s, p).1, end)
  {
    var text := s[p..end];
    if p + 1 < end {
      assert text[1] == s[p + 1] && text[1..] == s[p + 1..end] && text[2..] == s[p + 2..end];
    }
  }

  lemma UnicodeEscape(s: string, p: nat, end: nat)
    requires p < end <= |s| && s[p] == '\\' && CharAt(s, p + 1) == 'u'
    ensures var escape := Escape(s, p);
            if escape.0 then SameRest(s, p, escape.1, end)
            else !Quoted(s[p..end]) && (Misquoted(s[p..end]) <==> escape.1 == end)
  {
    hide HexEscape;
    HexSpelled(s, p + 2, 0);
    var escape, text := HexEscape(s, p + 2, 0), s[p..end];
    assert forall k | 0 <= k < |text| :: text[k] == CharAt(s, p + k);
    if |text| < 2 {
      AloneEnds(text);
    } else {
      if escape.0 {
        assert escape.1 == p + 6;
        if p + 6 <= end {
          assert text[6..] == s[p + 6..end];
        }
        forall k | 2 <= k < |text| && k < 6 ensures Hexadecimal(text[k]) {
          assert Hexadecimal(CharAt(s, p + k));
        }
      } else {
        UnicodeBroken(s, p, end, escape.1);
      }
    }
  }

  lemma AloneEnds(text: string)
    requires text == "\\"
    ensures !Quoted(text) && !Misquoted(text)
  {
  }

  lemma UnicodeBroken(s: string, p: nat, end: nat, e: nat)
    requires p + 2 <= end <= |s| && s[p] == '\\' && s[p + 1] == 'u'
    requires p + 2 < e <= p + 6 && !Hexadecimal(CharAt(s, e - 1))
    requires forall k | p + 2 <= k < e - 1 :: Hexadecimal(CharAt(s, k))
    ensures !Quoted(s[p..end]) && (Misquoted(s[p..end]) <==> e == end)
  {
    var text := s[p..end];
    assert forall k | 0 <= k < |text| :: text[k] == CharAt(s, p + k);
    if e < end {
      assert !Hexadecimal(text[e - 1 - p]);
    }
    if e <= end {
      assert !Hexadecimal(text[e - 1 - p]);
    } else if |text| > 2 {
      assert Hexadecimal(text[|text| - 1]);
    }
  }

  lemma NoBreakInEscape(s: string, p: nat)
    requires p < |s| && s[p] == '\\' && Escape(s, p).0
    ensures !HasLineBreak(s[p..Escape(s, p).1])
  {
    hide HexEscape;
    if CharAt(s, p + 1) == 'u' {
      HexSpelled(s, p + 2, 0);
    }
    var escape := Escape(s, p).1;
    forall k | p <= k < escape ensures !LineBreak(s[k]) {
      assert k > p + 1 ==> Hexadecimal(CharAt(s, k));
    }
  }

  // From inside a block string.
  lemma {:induction false} BlockSpelled(s: string, q: nat, end: nat)
    requires q <= end <= |s|
    ensures BlockEnd(s, q) == (StringLiteral, end) <==>
            q + 3 <= end && QuotesAt(s, end - 3) && forall k | q <= k < end - 3 :: !QuotesAt(s, k)
    decreases |s| - q
  {
    if q < end && !(s[q] == '"' && q + 2 >= |s|) && !QuotesAt(s, q) {
      BlockSpelled(s, q + 1, end);
    }
  }

  lemma QuotesInText(s: string, p: nat, text: string)
    requires StandsAt(s, p, text)
    ensures forall k | 0 <= k <= |text| - 3 :: QuotesAt(text, k) <==> QuotesAt(s, p + k)
  {
    StandsSame(s, p, text);
  }

  lemma BlockStringSpelled(s: string, p: nat, text: string)
    requires StandsAt(s, p, text) && text != "" && text[0] == '"'
    requires CharAt(s, p + 1) == '"' && CharAt(s, p + 2) == '"'
    ensures BlockEnd(s, p + 3) == (StringLiteral, p + |text|) <==> IsBlockString(text)
  {
    StandsSame(s, p, text);
    QuotesInText(s, p, text);
    if |text| >= 6 {
      BlockSpelled(s, p + 3, p + |text|);
      assert QuotesAt(text, 0) <==> QuotesAt(s, p);
      assert QuotesAt(text, |text| - 3) <==> QuotesAt(s, p + |text| - 3);
      forall k | 3 <= k < |text| - 3 ensures QuotesAt(text, k) <==> QuotesAt(s, p + k) {
      }
      if IsBlockString(text) {
        forall k | p + 3 <= k < p + |text| - 3 ensures !QuotesAt(s, k) {
          assert !QuotesAt(text, k - p);
        }
      }
      if forall k | p + 3 <= k < p + |text| - 3 :: !QuotesAt(s, k) {
        forall k | 3 <= k < |text| - 3 ensures !QuotesAt(text, k) {
          assert !QuotesAt(s, p + k);
        }
      }
    } else if |text| >= 3 {
      BlockSpelled(s, p + 3, p + |text|);
    }
  }

  lemma StringTokens(s: string, p: nat, text: string)
    requires StandsAt(s, p, text) && CharAt(s, p + |text|) != '"' && text != "" && text[0] == '"'
    ensures StringToken(s, p + 1) == (StringLiteral, p + |text|) <==> IsString(text) || IsBlockString(text)
    ensures StringToken(s, p + 1) == (InvalidString, p + |text|) <==> IsInvalidString(text)
  {
    hide Quoted, Misquoted;
    StandsSame(s, p, text);
    var end := p + |text|;
    assert s[p + 1..end] == text[1..];
    BreakInParts(text, 0, 1, |text|);
    OneBreak(text, 0);
    assert text[0..|text|] == text && text[1..|text|] == text[1..];
    QuotedSpelled(s, p + 1, end, false);
    QuoteFirst(text[1..]);
    if CharAt(s, p + 1) == '"' && CharAt(s, p + 2) == '"' {
      BlockStringSpelled(s, p, text);
    }
  }

  lemma QuoteFirst(text: string)
    ensures text != "" && text[0] == '"' ==> (Quoted(text) <==> |text| == 1) && !Misquoted(text)
    ensures text == "" ==> !Quoted(text) && !Misquoted(text)
  {
  }

  lemma {:induction false} NameRunsOn(text: string, p: nat)
    requires p <= |text|
    ensures NameEnd(text, p) == |text| <==> forall k | p <= k < |text| :: Letter(text[k]) || Digit(text[k])
    decreases |text| - p
  {
    if p < |text| && IsNamePart(text[p]) {
      NameRunsOn(text, p + 1);
    }
  }

  lemma KeywordTold(token: Token)
    requires token.IsKeyword()
    ensures NameToken(Literal(token)) == token && Literal(token) in KEYWORDS
  {
  }

  lemma WordTold(text: string)
    ensures NameToken(text) != GName ==> text == Literal(NameToken(text))
    ensures NameToken(text) == GName ==> text !in KEYWORDS
  {
  }

  // A name is the keyword that it spells, and no other token.
  lemma NameKinds(text: string, token: Token)
    ensures NameToken(text) == token <==>
            if token == GName then text !in KEYWORDS else token.IsKeyword() && text == Literal(token)
  {
    hide NameToken, Literal;
    WordTold(text);
    if NameToken(text) != GName {
      KeywordTold(NameToken(text));
    }
    if token.IsKeyword() {
      KeywordTold(token);
    }
  }

  lemma NamesInText(s: string, p: nat, text: string, token: Token)
    requires Same(s, p, text) && text != "" && Letter(text[0])
    ensures TokenFrom(s, p, p) == (token, p + |text|) <==> IsName(text) && NameToken(text) == token
  {
    hide StringToken, Number, Dots, Punctuator, NameToken, Neutral;
    SameAt(s, p, text, 0);
    NameShift(s, p, text, 1);
    NameRunsOn(text, 1);
    forall k | 0 <= k < |text| ensures s[p..p + |text|][k] == text[k] {
      assert CharAt(s, p + k) == text[k];
    }
    assert s[p..p + |text|] == text;
  }

  lemma NumbersInText(s: string, p: nat, text: string)
    requires Same(s, p, text) && text != "" && (text[0] == '-' || Digit(text[0]))
    ensures TokenFrom(s, p, p) == (IntegerLiteral, p + |text|) <==> IsInteger(text)
    ensures TokenFrom(s, p, p) == (FloatLiteral, p + |text|) <==> IsFloat(text)
    ensures TokenFrom(s, p, p).0 in {IntegerLiteral, FloatLiteral, Unknown}
  {
    hide StringToken, Number, Dots, Punctuator, NameToken, Neutral, IsInteger, IsFloat;
    SameAt(s, p, text, 0);
    NumberShift(s, p, text, 1);
    IntegerSpelled(text);
    FloatSpelled(text);
  }

  lemma DotsInText(s: string, p: nat, text: string, token: Token)
    requires Same(s, p, text) && text != "" && text[0] == '.' && IsKind(token)
    ensures TokenFrom(s, p, p) == (token, p + |text|) <==> text == "..." && token == Ellipses
  {
    hide StringToken, Number, Punctuator, NameToken;
    SameAt(s, p, text, 0);
    SameAt(s, p, text, 1);
    if |text| >= 2 {
      SameAt(s, p, text, 2);
    }
  }

  // Any other token has one character.
  lemma PunctuatorsInText(s: string, p: nat, text: string, token: Token)
    requires StandsAt(s, p, text) && text != "" && IsKind(token) && !IsTrivia(text[0])
    requires !Letter(text[0]) && !Digit(text[0]) && text[0] !in "-.\""
    ensures TokenFrom(s, p, p) == (token, p + |text|) <==>
              token != GName && !token.IsKeyword() && text == Literal(token)
  {
    hide StringToken, Number, Dots, NameToken;
    StandsSame(s, p, text);
    if |text| == 1 {
      assert text == [text[0]];
    }
  }

  // What the texts of tokens start with.
  lemma FirstOfLanguage(text: string, token: Token)
    requires InLanguage(text, token)
    ensures text != "" && !IsTrivia(text[0])
    ensures Letter(text[0]) <==> token == GName || token.IsKeyword()
    ensures text[0] == '-' || Digit(text[0]) <==> token in {IntegerLiteral, FloatLiteral}
    ensures text[0] == '"' <==> token in {StringLiteral, InvalidString}
    ensures text[0] == '.' <==> token == Ellipses
  {
    if token == FloatLiteral {
      var i: nat, j: nat :| FloatParts(text, i, j);
      assert text[..i][0] == text[0];
    }
  }

  /** In front of a character that no token goes on with, a text is scanned as one token of a kind if and
      only if it is in the language of that kind. */
  lemma TokenLanguage(s: string, p: nat, text: string, token: Token)
    requires StandsAt(s, p, text) && Neutral(CharAt(s, p + |text|)) && IsKind(token)
    ensures Next(s, p, 0, true) == Lexed(token, p, p + |text|) <==> InLanguage(text, token)
  {
    hide TokenFrom, Neutral, InLanguage, Literal;
    StandsSame(s, p, text);
    if InLanguage(text, token) {
      FirstOfLanguage(text, token);
    }
    if text != "" && p < |s| && !IsTrivia(text[0]) {
      TokenTold(s, p, text, token);
    }
  }

  lemma TokenTold(s: string, p: nat, text: string, token: Token)
    requires StandsAt(s, p, text) && Same(s, p, text) && IsKind(token) && text != "" && !IsTrivia(text[0])
    ensures TokenFrom(s, p, p) == (token, p + |text|) <==> InLanguage(text, token)
  {
    hide Neutral, NameToken, Number, StringToken, Dots, Punctuator, Literal, IsInteger, IsFloat, IsString,
      IsBlockString, IsInvalidString;
    if InLanguage(text, token) {
      FirstOfLanguage(text, token);
    }
    SameAt(s, p, text, 0);
    if Letter(text[0]) {
      NamesInText(s, p, text, token);
      NameKinds(text, token);
      KeywordsAreNames(text);
      NoLiteral(token);
      if token.IsKeyword() {
        KeywordTold(token);
      }
    } else if text[0] == '-' || Digit(text[0]) {
      NumbersInText(s, p, text);
    } else if text[0] == '"' {
      NoQuoteIsNeutral(s, p, text);
      StringTokens(s, p, text);
    } else if text[0] == '.' {
      DotsInText(s, p, text, token);
      DotsSpelled(text, token);
    } else {
      PunctuatorsInText(s, p, text, token);
      NoLiteral(token);
    }
  }

  lemma NoLiteral(token: Token)
    ensures token in {GName, IntegerLiteral, FloatLiteral, StringLiteral, InvalidString} ==> Literal(token) == ""
  {
  }

  lemma NoQuoteIsNeutral(s: string, p: nat, text: string)
    requires Same(s, p, text)
    ensures CharAt(s, p + |text|) != '"'
  {
  }

  lemma KeywordsAreNames(text: string)
    ensures text in KEYWORDS ==> IsName(text)
  {
  }

  lemma DotsSpelled(text: string, token: Token)
    requires IsKind(token) && text != "" && text[0] == '.'
    ensures InLanguage(text, token) <==> text == "..." && token == Ellipses
  {
    hide IsFloat, IsString, IsBlockString, IsInvalidString, IsInteger, IsName;
    if InLanguage(text, token) {
      FirstOfLanguage(text, token);
    }
  }

  // No carriage return before `q` takes another character along.
  predicate NoneSwallowed(s: string, p: nat, q: nat) {
    forall k | p <= k < q :: CharAt(s, k) == '\r' ==> CharAt(s, k + 2) != '\n'
  }

  lemma {:induction false} CommentSkipped(s: string, p: nat, q: nat)
    requires p <= q <= |s|
    ensures InComment(s[p..q]) <==> CommentEnd(s, p) < q && IsIgnored(s[CommentEnd(s, p)..q])
    decreases q - p
  {
    CommentStops(s, p);
    if p < q {
      assert s[p..q][1..] == s[p + 1..q];
      if !LineBreak(s[p]) {
        CommentSkipped(s, p + 1, q);
      }
    }
  }

  lemma {:induction false} CommentStops(s: string, p: nat)
    requires p <= |s|
    ensures CommentEnd(s, p) < |s| ==> LineBreak(s[CommentEnd(s, p)])
    decreases |s| - p
  {
    if p < |s| && !LineBreak(s[p]) {
      CommentStops(s, p + 1);
    }
  }

  // One step over ignored text, or none.
  lemma NextSteps(s: string, p: nat)
    requires p < |s|
    ensures if Ignorable(s[p]) then Next(s, p, 0, true).start > p else Next(s, p, 0, true).start == p
    ensures !Ignorable(s[p]) ==> Next(s, p, 0, true).token != EndOfDocument
    ensures s[p] == '#' ==>
              var end := CommentEnd(s, p + 1);
              Next(s, p, 0, true) == Next(s, end, 0, true) && Next(s, end, 0, true).start >= end
    ensures Ignorable(s[p]) && s[p] != '#' && !(s[p] == '\r' && CharAt(s, p + 2) == '\n') ==>
              Next(s, p, 0, true) == Next(s, p + 1, 0, true)
  {
    hide TokenFrom;
  }

  lemma IgnoredSteps(text: string)
    requires text != ""
    ensures IsIgnored(text) <==>
            Ignorable(text[0]) && if text[0] == '#' then InComment(text[1..]) else IsIgnored(text[1..])
  {
  }

  /** The next token starts at an offset if and only if the text up to there is ignored and the
      character there is not. */
  lemma {:induction false} IgnoredSkipped(s: string, p: nat, q: nat)
    requires p <= q <= |s| && NoneSwallowed(s, p, q)
    ensures Next(s, p, 0, true).start == q && Next(s, p, 0, true).token != EndOfDocument <==>
            IsIgnored(s[p..q]) && q < |s| && !Ignorable(s[q])
    ensures IsIgnored(s[p..q]) && q < |s| && !Ignorable(s[q]) ==> Next(s, p, 0, true) == Next(s, q, 0, true)
    decreases q - p
  {
    hide Next, IsIgnored, InComment, CommentEnd;
    if p == q {
      NothingIgnored(s, p);
    } else {
      assert CharAt(s, p) == s[p];
      IgnoredSteps(s[p..q]);
      NextSteps(s, p);
      assert s[p..q][1..] == s[p + 1..q];
      if s[p] == '#' {
        CommentStops(s, p + 1);
        CommentSkipped(s, p + 1, q);
        if CommentEnd(s, p + 1) <= q {
          IgnoredSkipped(s, CommentEnd(s, p + 1), q);
        }
      } else if Ignorable(s[p]) {
        IgnoredSkipped(s, p + 1, q);
      }
    }
  }

  lemma NothingIgnored(s: string, p: nat)
    requires p <= |s|
    ensures IsIgnored(s[p..p])
    ensures Next(s, p, 0, true).start == p && Next(s, p, 0, true).token != EndOfDocument <==>
              p < |s| && !Ignorable(s[p])
  {
    hide TokenFrom;
    if p < |s| {
      NextSteps(s, p);
    }
  }

  /** The next token has a text and a kind if and only if what stands before the text is ignored and the
      text is in the language of the kind. */
  lemma NextTokenLanguage(s: string, p: nat, q: nat, text: string, token: Token)
    requires p <= q && StandsAt(s, q, text) && Neutral(CharAt(s, q + |text|)) && IsKind(token)
    requires NoneSwallowed(s, p, q)
    ensures Next(s, p, 0, true) == Lexed(token, q, q + |text|) <==> IsIgnored(s[p..q]) && InLanguage(text, token)
  {
    hide Neutral, InLanguage, IsIgnored, Next;
    TokenLanguage(s, q, text, token);
    if InLanguage(text, token) {
      FirstOfLanguage(text, token);
    }
    StandsSame(s, q, text);
    IgnoredSkipped(s, p, q);
  }
}
