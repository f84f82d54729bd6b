/** Tokens keep their kind wherever a text that spells one stands before a neutral character. */
module TokensInText {
  import opened SourceText
  import opened GraphQlTokens
  import opened GraphQlLexer

  // The text is just one token.
  predicate Spells(text: string, token: Token) {
    Next(text, 0, 0, true) == Lexed(token, 0, |text|) && token !in {Unknown, InvalidString, EndOfDocument}
  }

  predicate StandsAt(s: string, p: nat, text: string) {
    p + |text| <= |s| && s[p..p + |text|] == text
  }

  // A character no token goes on with; so is the end of the text.
  predicate Neutral(c: char) {
    !IsNamePart(c) && c !in {'.', '"', '+', '-', '\\'}
  }

  lemma StandsSame(s: string, p: nat, text: string)
    requires StandsAt(s, p, text)
    ensures forall k | 0 <= k < |text| :: CharAt(s, p + k) == text[k]
  {
    forall k | 0 <= k < |text| ensures CharAt(s, p + k) == text[k] {
      assert s[p..p + |text|][k] == text[k];
    }
  }

  predicate Same(s: string, p: nat, text: string) {
    && p + |text| <= |s| && Neutral(CharAt(s, p + |text|))
    && forall k | 0 <= k < |text| :: CharAt(s, p + k) == text[k]
  }

  lemma {:induction false} DigitsShift(s: string, p: nat, text: string, q: nat)
    requires Same(s, p, text) && q <= |text|
    ensures DigitsEnd(s, p + q) == p + DigitsEnd(text, q)
    decreases |text| - q
  {
    if q < |text| {
      assert CharAt(s, p + q) == text[q];
      DigitsShift(s, p, text, q + 1);
    }
  }

  lemma {:induction false} NameShift(s: string, p: nat, text: string, q: nat)
    requires Same(s, p, text) && q <= |text|
    ensures NameEnd(s, p + q) == p + NameEnd(text, q)
    decreases |text| - q
  {
    if q < |text| {
      assert CharAt(s, p + q) == text[q];
      NameShift(s, p, text, q + 1);
    }
  }

  lemma SameAt(s: string, p: nat, text: string, q: nat)
    requires Same(s, p, text) && q <= |text|
    ensures if q < |text| then CharAt(s, p + q) == text[q] else Neutral(CharAt(s, p + q))
  {
  }

  lemma ExponentShift(s: string, p: nat, text: string, q: nat)
    requires Same(s, p, text) && q < |text|
    ensures Exponent(s, p + q) == (Exponent(text, q).0, p + Exponent(text, q).1)
  {
    SameAt(s, p, text, q + 1);
    var r := if CharAt(text, q + 1) == '-' || CharAt(text, q + 1) == '+' then q + 2 else q + 1;
    SameAt(s, p, text, r);
    if IsDigit(CharAt(text, r)) {
      DigitsShift(s, p, text, r + 1);
    }
  }

  // The part of a number after its integer part.
  function Fraction(s: string, q: nat): (Token, nat)
    requires q <= |s|
  {
    if CharAt(s, q) == '.' then
      if !IsDigit(CharAt(s, q + 1)) then (Unknown, q + 1)
      else
        var f := DigitsEnd(s, q + 2);
        if IsExponentSign(CharAt(s, f)) then Exponent(s, f) else (FloatLiteral, f)
    else if IsExponentSign(CharAt(s, q)) then Exponent(s, q)
    else (IntegerLiteral, q)
  }

  lemma FractionShift(s: string, p: nat, text: string, q: nat)
    requires Same(s, p, text) && q <= |text|
    ensures Fraction(s, p + q) == (Fraction(text, q).0, p + Fraction(text, q).1)
  {
    hide Exponent;
    SameAt(s, p, text, q);
    if CharAt(text, q) == '.' {
      SameAt(s, p, text, q + 1);
      if IsDigit(CharAt(text, q + 1)) {
        DigitsShift(s, p, text, q + 2);
        var f := DigitsEnd(text, q + 2);
        SameAt(s, p, text, f);
        if IsExponentSign(CharAt(text, f)) {
          ExponentShift(s, p, text, f);
        }
      }
    } else if IsExponentSign(CharAt(text, q)) {
      ExponentShift(s, p, text, q);
    }
  }

  lemma NumberShift(s: string, p: nat, text: string, q: nat)
    requires Same(s, p, text) && q <= |text|
    ensures Number(s, p + q) == (Number(text, q).0, p + Number(text, q).1)
  {
    hide Exponent;
    SameAt(s, p, text, q);
    DigitsShift(s, p, text, q);
    FractionShift(s, p, text, IntegerPartEnd(text, q));
  }

  lemma {:induction false} HexShift(s: string, p: nat, text: string, q: nat, n: nat)
    requires Same(s, p, text) && q <= |text| && n <= 4 && HexEscape(text, q, n).1 <= |text|
    ensures HexEscape(s, p + q, n) == (HexEscape(text, q, n).0, p + HexEscape(text, q, n).1)
    decreases 4 - n
  {
    if n < 4 {
      SameAt(s, p, text, q);
      if IsHexadecimal(CharAt(text, q)) {
        HexShift(s, p, text, q + 1, n + 1);
      }
    }
  }

  lemma EscapeShift(s: string, p: nat, text: string, q: nat)
    requires Same(s, p, text) && q + 1 < |text| && Escape(text, q).1 <= |text|
    ensures Escape(s, p + q) == (Escape(text, q).0, p + Escape(text, q).1)
  {
    hide HexEscape;
    SameAt(s, p, text, q + 1);
    if CharAt(text, q + 1) == 'u' {
      HexShift(s, p, text, q + 2, 0);
    }
  }

  // A string that ends within the text does not end in a backslash.
  lemma EscapeInside(text: string, q: nat, truncated: bool)
    requires q < |text| && text[q] == '\\' && StringEnd(text, q, truncated).1 <= |text|
    ensures q + 1 < |text| && Escape(text, q).1 <= |text|
  {
    hide HexEscape;
    assert StringEnd(text, |text|, truncated).1 == |text| + 1;
  }

  lemma {:induction false} StringShift(s: string, p: nat, text: string, q: nat, truncated: bool)
    requires Same(s, p, text) && q <= |text| && StringEnd(text, q, truncated).1 <= |text|
    ensures StringEnd(s, p + q, truncated) == (StringEnd(text, q, truncated).0, p + StringEnd(text, q, truncated).1)
    decreases |text| - q
  {
    hide Escape;
    SameAt(s, p, text, q);
    if q < |text| {
      if text[q] == '\\' {
        EscapeInside(text, q, truncated);
        EscapeShift(s, p, text, q);
        var escape := Escape(text, q);
        if escape.0 {
          StringShift(s, p, text, escape.1, truncated);
        }
      } else if IsLineBreakChar(text[q]) {
        StringShift(s, p, text, q + 1, true);
      } else if text[q] != '"' {
        StringShift(s, p, text, q + 1, truncated);
      }
    }
  }

  lemma {:induction false} BlockShift(s: string, p: nat, text: string, q: nat)
    requires Same(s, p, text) && q <= |text| && BlockEnd(text, q).0 == StringLiteral
    ensures BlockEnd(s, p + q) == (StringLiteral, p + BlockEnd(text, q).1)
    decreases |text| - q
  {
    if q < |text| {
      SameAt(s, p, text, q);
      if text[q] == '"' {
        SameAt(s, p, text, q + 1);
        SameAt(s, p, text, q + 2);
        if text[q + 1] != '"' || text[q + 2] != '"' {
          BlockShift(s, p, text, q + 1);
        }
      } else {
        BlockShift(s, p, text, q + 1);
      }
    }
  }

  lemma StringTokenShift(s: string, p: nat, text: string)
    requires Same(s, p, text) && text != [] && StringToken(text, 1) == (StringLiteral, |text|)
    ensures StringToken(s, p + 1) == (StringLiteral, p + |text|)
  {
    assert |text| >= 2;
    SameAt(s, p, text, 1);
    SameAt(s, p, text, 2);
    if CharAt(text, 1) == '"' && CharAt(text, 2) == '"' {
      BlockShift(s, p, text, 3);
    } else {
      StringShift(s, p, text, 1, false);
    }
  }

  // A text that spells a token starts with that token's first character.
  lemma FirstCharacter(text: string, token: Token)
    requires Spells(text, token)
    ensures text != [] && !IsTrivia(text[0]) && TokenFrom(text, 0, 0) == (token, |text|)
  {
    hide TokenFrom;
  }

  lemma NameInContext(s: string, p: nat, text: string, token: Token)
    requires Same(s, p, text) && text != [] && IsNameStart(text[0]) && TokenFrom(text, 0, 0) == (token, |text|)
    ensures s[p] == text[0] && TokenFrom(s, p, p) == (token, p + |text|)
  {
    hide StringToken, Number, Dots, Punctuator, NameToken, Neutral;
    SameAt(s, p, text, 0);
    NameShift(s, p, text, 1);
    forall k | 0 <= k < |text| ensures s[p..p + |text|][k] == text[k] {
      assert CharAt(s, p + k) == text[k];
    }
    assert TextBetween(s, p, p + |text|) == text == TextBetween(text, 0, |text|);
  }

  lemma NumberInContext(s: string, p: nat, text: string, token: Token)
    requires Same(s, p, text) && text != [] && (text[0] == '-' || IsDigit(text[0])) &&
             TokenFrom(text, 0, 0) == (token, |text|)
    ensures s[p] == text[0] && TokenFrom(s, p, p) == (token, p + |text|)
  {
    hide StringToken, Number, Dots, Punctuator, NameToken, Neutral;
    SameAt(s, p, text, 0);
    NumberShift(s, p, text, 1);
  }

  lemma OtherInContext(s: string, p: nat, text: string, token: Token)
    requires Same(s, p, text) && text != [] && !IsTrivia(text[0]) && TokenFrom(text, 0, 0) == (token, |text|)
    requires !IsNameStart(text[0]) && text[0] != '-' && !IsDigit(text[0]) && token !in {Unknown, InvalidString}
    ensures s[p] == text[0] && TokenFrom(s, p, p) == (token, p + |text|)
  {
    hide StringToken, Number, Punctuator, NameToken, Neutral;
    SameAt(s, p, text, 0);
    if text[0] == '"' {
      StringTokenShift(s, p, text);
    } else if text[0] == '.' {
      assert |text| == 3;
      SameAt(s, p, text, 1);
      SameAt(s, p, text, 2);
    }
  }

  /** A text that spells a token is that token wherever it stands before a neutral character. */
  lemma TokenInContext(s: string, p: nat, text: string, token: Token)
    requires Spells(text, token) && StandsAt(s, p, text) && Neutral(CharAt(s, p + |text|))
    ensures Next(s, p, 0, true) == Lexed(token, p, p + |text|)
  {
    hide TokenFrom, Neutral;
    StandsSame(s, p, text);
    FirstCharacter(text, token);
    if text[0] == '-' || IsDigit(text[0]) {
      NumberInContext(s, p, text, token);
    } else if IsNameStart(text[0]) {
      NameInContext(s, p, text, token);
    } else {
      OtherInContext(s, p, text, token);
    }
  }

  // The lexemes from a token on.
  lemma LexemesFrom(s: string, p: nat, text: string, token: Token)
    requires Spells(text, token) && StandsAt(s, p, text) && Neutral(CharAt(s, p + |text|))
    ensures Lexemes(s, p) == [Lexeme(token, text, p, p + |text|)] + Lexemes(s, p + |text|)
  {
    TokenInContext(s, p, text, token);
  }

  // A punctuator is a token in front of anything.
  lemma PunctuatorAt(s: string, p: nat)
    requires p < |s| && s[p] in {'[', ']', '!'}
    ensures Lexemes(s, p) == [Lexeme(Punctuator(s[p]), [s[p]], p, p + 1)] + Lexemes(s, p + 1)
  {
    assert TextBetween(s, p, p + 1) == [s[p]];
  }

  lemma NamesSpell(name: string)
    requires name != [] && IsNameStart(name[0]) && forall k | 0 <= k < |name| :: IsNamePart(name[k])
    ensures Spells(name, NameToken(name))
  {
    NameRest(name, 1);
    assert TextBetween(name, 0, |name|) == name;
  }

  lemma {:induction false} NameRest(name: string, p: nat)
    requires p <= |name| && forall k | 0 <= k < |name| :: IsNamePart(name[k])
    ensures NameEnd(name, p) == |name|
    decreases |name| - p
  {
    if p < |name| {
      NameRest(name, p + 1);
    }
  }

  lemma EndOfText(s: string)
    ensures Lexemes(s, |s|) == []
  {
  }
}
