/** Printing a type annotation and reading it again. */
module TypeRoundTrip {
  import opened SourceText
  import opened GraphQlTokens
  import opened GraphQlLexer
  import opened GraphQlSyntax
  import opened TypeSyntax
  import opened ValuePrinting
  import opened TokensInText

  // The name of an annotation is a name if the annotation refers to a symbol, and not there if not.
  predicate Named(info: TypeInfo) {
    if info.base in {TObject, TEnum} then
      && info.name != [] && IsNameStart(info.name[0])
      && forall k | 0 <= k < |info.name| :: IsNamePart(info.name[k])
    else info.name == ""
  }

  // That a symbol is an enum is found out only after parsing.
  function AsParsed(info: TypeInfo): TypeInfo {
    if info.base == TEnum then info.(base := TObject) else info
  }

  function BaseToken(info: TypeInfo): Token {
    match info.base
    case TInt => IntKeyword
    case TFloat => FloatKeyword
    case TString => StringKeyword
    case TBoolean => BooleanKeyword
    case TID => IDKeyword
    case TObject => NameToken(info.name)
    case TEnum => NameToken(info.name)
  }

  lemma BaseSpells(info: TypeInfo)
    requires Named(info)
    ensures Spells(BaseName(info), BaseToken(info))
  {
    hide Spells, IsNamePart;
    if info.base in {TObject, TEnum} {
      NamesSpell(info.name);
    } else {
      BuiltInsSpell();
    }
  }

  lemma BuiltInsSpell()
    ensures Spells("Int", IntKeyword) && Spells("Float", FloatKeyword) && Spells("String", StringKeyword)
    ensures Spells("Boolean", BooleanKeyword) && Spells("ID", IDKeyword)
  {
    hide Spells;
    assert Spells("Int", IntKeyword) by { NamesSpell("Int"); }
    assert Spells("Float", FloatKeyword) by { NamesSpell("Float"); }
    assert Spells("String", StringKeyword) by { NamesSpell("String"); }
    assert Spells("Boolean", BooleanKeyword) by { NamesSpell("Boolean"); }
    assert Spells("ID", IDKeyword) by { NamesSpell("ID"); }
  }

  function Mark(present: bool, c: char): string {
    if present then [c] else ""
  }

  // The text of an annotation after its name, and after the exclamation mark there.
  function AfterName(info: TypeInfo): string {
    Mark(info.isNonNull, '!') + AfterBang(info)
  }

  function AfterBang(info: TypeInfo): string {
    Mark(info.isListType, ']') + Mark(info.isNonNullList, '!')
  }

  lemma TypeNameParts(info: TypeInfo)
    ensures TypeName(info) == Mark(info.isListType, '[') + (BaseName(info) + AfterName(info))
    ensures Neutral(CharAt(AfterName(info), 0))
  {
    hide BaseName;
  }

  // The tokens that spell the same.
  function MarkTokens(present: bool, c: char, p: nat): seq<Lexeme> {
    if present then [Lexeme(Punctuator(c), [c], p, p + 1)] else []
  }

  function AfterBangTokens(info: TypeInfo, p: nat): seq<Lexeme> {
    MarkTokens(info.isListType, ']', p) + MarkTokens(info.isNonNullList, '!', p + |Mark(info.isListType, ']')|)
  }

  function AfterNameTokens(info: TypeInfo, p: nat): seq<Lexeme> {
    MarkTokens(info.isNonNull, '!', p) + AfterBangTokens(info, p + |Mark(info.isNonNull, '!')|)
  }

  function TypeTokens(info: TypeInfo): seq<Lexeme> {
    var a := |Mark(info.isListType, '[')|;
    var b := a + |BaseName(info)|;
    MarkTokens(info.isListType, '[', 0) + ([Lexeme(BaseToken(info), BaseName(info), a, b)] + AfterNameTokens(info, b))
  }

  // The first of two parts stands at `p`, the other one behind it.
  lemma Peel(s: string, p: nat, first: string, rest: string)
    requires p <= |s| && s[p..] == first + rest
    ensures StandsAt(s, p, first) && s[p + |first|..] == rest
  {
    var end := p + |first|;
    assert s[p..end] == s[p..][..|first|] == first;
    assert s[end..] == s[p..][|first|..] == rest;
  }

  lemma MarkAt(s: string, p: nat, present: bool, c: char, rest: string)
    requires p <= |s| && s[p..] == Mark(present, c) + rest && c in {'[', ']', '!'}
    ensures var end := p + |Mark(present, c)|;
            end <= |s| && s[end..] == rest && Lexemes(s, p) == MarkTokens(present, c, p) + Lexemes(s, end)
  {
    hide Lexemes;
    Peel(s, p, Mark(present, c), rest);
    if present {
      assert s[p..p + 1][0] == c;
      PunctuatorAt(s, p);
    }
  }

  lemma AfterBangSpells(s: string, p: nat, info: TypeInfo)
    requires p <= |s| && s[p..] == AfterBang(info)
    ensures Lexemes(s, p) == AfterBangTokens(info, p)
  {
    hide Lexemes, Mark, MarkTokens;
    MarkAt(s, p, info.isListType, ']', Mark(info.isNonNullList, '!'));
    var d := p + |Mark(info.isListType, ']')|;
    assert s[d..] == Mark(info.isNonNullList, '!') + "";
    MarkAt(s, d, info.isNonNullList, '!', "");
    EndOfText(s);
  }

  lemma AfterNameSpells(s: string, p: nat, info: TypeInfo)
    requires p <= |s| && s[p..] == AfterName(info)
    ensures Lexemes(s, p) == AfterNameTokens(info, p)
  {
    hide Lexemes, Mark, MarkTokens, AfterBang, AfterBangTokens;
    MarkAt(s, p, info.isNonNull, '!', AfterBang(info));
    AfterBangSpells(s, p + |Mark(info.isNonNull, '!')|, info);
  }

  lemma PrintedTokens(info: TypeInfo)
    requires Named(info)
    ensures Lexemes(TypeName(info), 0) == TypeTokens(info)
  {
    hide Lexemes, Mark, MarkTokens, AfterName, AfterNameTokens, BaseName, BaseToken, Spells, Neutral, TypeName;
    var s, rest := TypeName(info), BaseName(info) + AfterName(info);
    TypeNameParts(info);
    assert s[0..] == s;
    MarkAt(s, 0, info.isListType, '[', rest);
    var a := |Mark(info.isListType, '[')|;
    Peel(s, a, BaseName(info), AfterName(info));
    var b := a + |BaseName(info)|;
    assert CharAt(s, b) == CharAt(AfterName(info), 0) by { assert b < |s| ==> s[b] == s[b..][0]; }
    BaseSpells(info);
    LexemesFrom(s, a, BaseName(info), BaseToken(info));
    AfterNameSpells(s, b, info);
  }

  // After the name, only the mark of a non-null list that is no list is misread.
  lemma AfterNameReadsBack(info: TypeInfo, base: BaseType, name: string, p: nat)
    ensures ParseAfterName(AfterNameTokens(info, p), base, name, info.isListType) ==
              Parsed(TypeInfo(base, name, info.isNonNull, info.isListType, info.isNonNullList), [])
            <==> (info.isNonNullList ==> info.isListType)
  {
  }

  // The list bracket and the name are what the parser takes first.
  lemma NameTaken(info: TypeInfo)
    ensures var b := |Mark(info.isListType, '[')| + |BaseName(info)|;
            ParseType(TypeTokens(info)) ==
              if !NamesType(BaseToken(info)) then Failed
              else ParseAfterName(AfterNameTokens(info, b), BaseOf(BaseToken(info)),
                                  if BaseToken(info) == GName then BaseName(info) else "", info.isListType)
  {
    hide AfterNameTokens, ParseAfterName, BaseToken, BaseName;
    var open := MarkTokens(info.isListType, '[', 0);
    var b := |Mark(info.isListType, '[')| + |BaseName(info)|;
    var rest := [Lexeme(BaseToken(info), BaseName(info), |Mark(info.isListType, '[')|, b)] + AfterNameTokens(info, b);
    assert rest[1..] == AfterNameTokens(info, b);
    assert BaseToken(info) != OpenBracket by { NoPunctuator(info); }
    var all := TypeTokens(info);
    assert all == open + rest;
    if info.isListType {
      assert all[0].token == OpenBracket && all[1..] == rest;
    } else {
      assert all == rest;
    }
    assert Starts(all, OpenBracket) == info.isListType && SkipOptional(all, OpenBracket) == rest;
  }

  lemma NoPunctuator(info: TypeInfo)
    ensures BaseToken(info) == GName || BaseToken(info).IsKeyword()
  {
    hide NameToken;
  }

  /** Printing an annotation, scanning the text and parsing the tokens gives the annotation back,
      and nothing is left over, exactly when its name is no keyword and only a list is a
      non-null list. */
  lemma AnnotationReadsBack(info: TypeInfo)
    requires Named(info)
    ensures ParseType(Lexemes(TypeName(info), 0)) == Parsed(AsParsed(info), []) <==>
            && (info.base in {TObject, TEnum} ==> !NameToken(info.name).IsKeyword())
            && (info.isNonNullList ==> info.isListType)
  {
    hide Lexemes, TypeName, TypeTokens, NameToken, AfterNameTokens, ParseType;
    PrintedTokens(info);
    NameTaken(info);
    ReadName(info);
  }

  lemma ReadName(info: TypeInfo)
    requires Named(info)
    ensures var b := |Mark(info.isListType, '[')| + |BaseName(info)|;
            (&& NamesType(BaseToken(info))
             && ParseAfterName(AfterNameTokens(info, b), BaseOf(BaseToken(info)),
                               if BaseToken(info) == GName then BaseName(info) else "", info.isListType) ==
                Parsed(AsParsed(info), [])) <==>
            && (info.base in {TObject, TEnum} ==> !NameToken(info.name).IsKeyword())
            && (info.isNonNullList ==> info.isListType)
  {
    hide NameToken, AfterNameTokens;
    var b := |Mark(info.isListType, '[')| + |BaseName(info)|;
    if NamesType(BaseToken(info)) {
      var name := if BaseToken(info) == GName then BaseName(info) else "";
      AfterNameReadsBack(info, BaseOf(BaseToken(info)), name, b);
    }
  }
}
