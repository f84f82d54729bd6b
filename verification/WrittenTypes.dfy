/** What is read as a type annotation was written as one. */
module WrittenTypes {
  import opened SourceText
  import opened GraphQlTokens
  import opened GraphQlLexer
  import opened GraphQlSyntax
  import opened TypeSyntax
  import opened ValuePrinting
  import opened WrittenValues
  import TokenTexts
  import TypeRoundTrip

  lemma MarkWritten(lexemes: seq<Lexeme>, token: Token, c: char, p: nat) returns (here: seq<Lexeme>)
    requires Punctuator(c) == token && c in {'[', ']', '!'}
    ensures lexemes == here + SkipOptional(lexemes, token)
    ensures Stands(here, TypeRoundTrip.MarkTokens(Starts(lexemes, token), c, p))
  {
    here := if Starts(lexemes, token) then [lexemes[0]] else [];
  }

  lemma NoMarkWritten(c: char, p: nat)
    ensures Stands([], TypeRoundTrip.MarkTokens(false, c, p))
  {
  }

  // The bracket that closes a list, and the mark behind it.
  lemma AfterBangWritten(lexemes: seq<Lexeme>, info: TypeInfo, p: nat) returns (here: seq<Lexeme>)
    requires info.isListType ==> Starts(lexemes, CloseBracket)
    requires info.isNonNullList <==> info.isListType && Starts(lexemes[1..], Exclamation)
    ensures Stands(here, TypeRoundTrip.AfterBangTokens(info, p))
    ensures lexemes == here + if info.isListType then SkipOptional(lexemes[1..], Exclamation) else lexemes
  {
    hide Stands, TypeRoundTrip.MarkTokens, TypeRoundTrip.Mark;
    var q := p + |TypeRoundTrip.Mark(info.isListType, ']')|;
    var marks, last := TypeRoundTrip.MarkTokens(info.isListType, ']', p),
                       TypeRoundTrip.MarkTokens(info.isNonNullList, '!', q);
    if info.isListType {
      var first := MarkWritten(lexemes, CloseBracket, ']', p);
      var second := MarkWritten(lexemes[1..], Exclamation, '!', q);
      Together(first, marks, second, last, SkipOptional(lexemes[1..], Exclamation));
      here := first + second;
    } else {
      here := [] + [];
      NoMarkWritten(']', p);
      NoMarkWritten('!', q);
      Together([], marks, [], last, lexemes);
    }
  }

  lemma AfterNameWritten(lexemes: seq<Lexeme>, info: TypeInfo, p: nat) returns (here: seq<Lexeme>)
    requires ParseAfterName(lexemes, info.base, info.name, info.isListType).Parsed?
    requires ParseAfterName(lexemes, info.base, info.name, info.isListType).info == info
    ensures var r := ParseAfterName(lexemes, info.base, info.name, info.isListType);
            lexemes == here + r.rest && Stands(here, TypeRoundTrip.AfterNameTokens(info, p))
    ensures info.isNonNullList ==> info.isListType
  {
    hide Stands, ParseAfterName, TypeRoundTrip.MarkTokens, TypeRoundTrip.Mark, TypeRoundTrip.AfterBangTokens;
    FlagParts(lexemes, info);
    var q := p + |TypeRoundTrip.Mark(info.isNonNull, '!')|;
    var first := MarkWritten(lexemes, Exclamation, '!', p);
    var second := AfterBangWritten(SkipOptional(lexemes, Exclamation), info, q);
    Together(first, TypeRoundTrip.MarkTokens(info.isNonNull, '!', p), second, TypeRoundTrip.AfterBangTokens(info, q),
             ParseAfterName(lexemes, info.base, info.name, info.isListType).rest);
    here := first + second;
  }

  lemma FlagParts(lexemes: seq<Lexeme>, info: TypeInfo)
    requires ParseAfterName(lexemes, info.base, info.name, info.isListType).Parsed?
    requires ParseAfterName(lexemes, info.base, info.name, info.isListType).info == info
    ensures var r, rest := ParseAfterName(lexemes, info.base, info.name, info.isListType),
                           SkipOptional(lexemes, Exclamation);
            && info.isNonNull == Starts(lexemes, Exclamation)
            && (info.isListType ==> Starts(rest, CloseBracket))
            && (info.isNonNullList <==> info.isListType && Starts(rest[1..], Exclamation))
            && r.rest == if info.isListType then SkipOptional(rest[1..], Exclamation) else rest
  {
  }

  /** The tokens read as a type annotation are just those of the annotation printed, and only a list is a
      non-null list. */
  lemma AnnotationWritten(lexemes: seq<Lexeme>) returns (here: seq<Lexeme>)
    requires AllFromScanner(lexemes) && ParseType(lexemes).Parsed?
    ensures var r := ParseType(lexemes);
            && lexemes == here + r.rest && Stands(here, TypeRoundTrip.TypeTokens(r.info))
            && (r.info.isNonNullList ==> r.info.isListType)
  {
    hide Stands, FromScanner, ParseAfterName, ParseType, SkipOptional, TypeRoundTrip.MarkTokens, TypeRoundTrip.Mark,
      TypeRoundTrip.AfterNameTokens, TypeRoundTrip.BaseToken, BaseName;
    TypeParts(lexemes);
    var r := ParseType(lexemes);
    var mark := MarkWritten(lexemes, OpenBracket, '[', 0);
    var inner := SkipOptional(lexemes, OpenBracket);
    RestFromScanner(mark, inner);
    assert FromScanner(inner[0]);
    var a := |TypeRoundTrip.Mark(r.info.isListType, '[')|;
    var b := a + |BaseName(r.info)|;
    var name := Lexeme(TypeRoundTrip.BaseToken(r.info), BaseName(r.info), a, b);
    NameWritten(inner[0], r.info, a, b);
    var flags := AfterNameWritten(inner[1..], r.info, b);
    var tokens := TypeRoundTrip.AfterNameTokens(r.info, b);
    assert inner == [inner[0]] + inner[1..];
    Together([inner[0]], [name], flags, tokens, r.rest);
    Together(mark, TypeRoundTrip.MarkTokens(r.info.isListType, '[', 0), [inner[0]] + flags, [name] + tokens, r.rest);
    here := mark + ([inner[0]] + flags);
  }

  lemma TypeParts(lexemes: seq<Lexeme>)
    requires ParseType(lexemes).Parsed?
    ensures var inner, r := SkipOptional(lexemes, OpenBracket), ParseType(lexemes);
            && inner != [] && NamesType(inner[0].token) && r.info.base == BaseOf(inner[0].token)
            && r.info.isListType == Starts(lexemes, OpenBracket)
            && r.info.name == (if inner[0].token == GName then inner[0].text else "")
            && r == ParseAfterName(inner[1..], r.info.base, r.info.name, r.info.isListType)
  {
  }

  lemma NameWritten(lexeme: Lexeme, info: TypeInfo, a: nat, b: nat)
    requires FromScanner(lexeme) && NamesType(lexeme.token) && info.base == BaseOf(lexeme.token)
    requires info.name == if lexeme.token == GName then lexeme.text else ""
    ensures Stands([lexeme], [Lexeme(TypeRoundTrip.BaseToken(info), BaseName(info), a, b)])
  {
    hide NameToken;
    TokenTexts.NameKinds(lexeme.text, lexeme.token);
  }
}
