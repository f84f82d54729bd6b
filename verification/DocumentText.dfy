/** The text of a document, and its way through the scanner. */
module DocumentText {
  import opened SourceText
  import opened GraphQlTokens
  import opened GraphQlLexer
  import opened GraphQlSyntax
  import opened ValuePrinting
  import opened Selections
  import opened TokensInText
  import opened TokenLanguages
  import opened ValueTokens
  import opened DocumentTokens
  import TokenTexts
  import VR = ValueRoundTrip

  // A space comes after every token but an at sign.
  function Gap(token: Token): string {
    if token == At then "" else " "
  }

  function TextOf(tokens: seq<Lexeme>): string {
    if tokens == [] then "" else tokens[0].text + (Gap(tokens[0].token) + TextOf(tokens[1..]))
  }

  // Every token has a text of its kind.
  ghost predicate AllSpelled(tokens: seq<Lexeme>) {
    forall k | 0 <= k < |tokens| :: InLanguage(tokens[k].text, tokens[k].token)
  }

  lemma SpaceSkipped(s: string, q: nat)
    requires q < |s| && s[q] == ' '
    ensures Lexemes(s, q) == Lexemes(s, q + 1)
  {
    hide TokenFrom;
    assert Next(s, q, 0, true) == Next(s, q + 1, 0, true);
  }

  lemma AtSign(s: string, p: nat)
    requires p < |s| && s[p] == '@'
    ensures Lexemes(s, p) == [Lexeme(At, "@", p, p + 1)] + Lexemes(s, p + 1)
  {
    hide TokenFrom;
    AtFrom(s, p);
    assert TextBetween(s, p, p + 1) == [s[p]];
  }

  lemma AtFrom(s: string, p: nat)
    requires p < |s| && s[p] == '@'
    ensures TokenFrom(s, p, p) == (At, p + 1)
  {
    hide StringToken, Number, Dots, NameToken;
  }

  // One token, and the gap behind it.
  lemma OneLexed(s: string, p: nat, text: string, token: Token)
    requires p <= |s| && text + Gap(token) <= s[p..] && InLanguage(text, token)
    ensures var q := p + |text + Gap(token)|;
            q <= |s| && Lexemes(s, p) == [Lexeme(token, text, p, p + |text|)] + Lexemes(s, q)
  {
    hide InLanguage, Lexemes, Next, Neutral;
    var q := p + |text|;
    var all := text + Gap(token);
    assert s[p..][..|all|] == all;
    assert s[p..q] == all[..|text|] == text;
    if token == At {
      assert text == "@" by { AtText(text); }
      assert s[p] == all[0];
      AtSign(s, p);
    } else {
      assert s[q] == all[|text|] == ' ';
      assert Neutral(' ') by { SpaceIsNeutral(); }
      SpelledHere(s, p, text, token);
      SpaceSkipped(s, q);
    }
  }

  lemma AtText(text: string)
    requires InLanguage(text, At)
    ensures text == "@"
  {
  }

  lemma SpaceIsNeutral()
    ensures Neutral(' ')
  {
  }

  lemma SpelledHere(s: string, p: nat, text: string, token: Token)
    requires StandsAt(s, p, text) && Neutral(CharAt(s, p + |text|)) && InLanguage(text, token)
    ensures Lexemes(s, p) == [Lexeme(token, text, p, p + |text|)] + Lexemes(s, p + |text|)
  {
    hide InLanguage, Next, Neutral;
    KindOf(text, token);
    TokenTexts.TokenLanguage(s, p, text, token);
    assert TextBetween(s, p, p + |text|) == text;
  }

  lemma KindOf(text: string, token: Token)
    requires InLanguage(text, token)
    ensures IsKind(token)
  {
  }

  /** Scanning the text of tokens gives these tokens, at signs joined to the names behind them. */
  lemma {:induction false} TextLexed(s: string, p: nat, tokens: seq<Lexeme>)
    requires p <= |s| && s[p..] == TextOf(tokens) && AllSpelled(tokens)
    ensures DocumentTokens.Spells(Lexemes(s, p), tokens)
    ensures tokens != [] ==> Lexemes(s, p) != [] && Lexemes(s, p)[0].start == p
    decreases |tokens|
  {
    hide InLanguage, Lexemes;
    if tokens == [] {
      EndOfText(s);
    } else {
      var t, others := tokens[0], tokens[1..];
      var piece := t.text + Gap(t.token);
      assert s[p..] == piece + TextOf(others);
      OneLexed(s, p, t.text, t.token);
      var q := p + |piece|;
      assert s[q..] == s[p..][|piece|..] == TextOf(others);
      TextLexed(s, q, others);
      LexedOn(Lexemes(s, p), Lexeme(t.token, t.text, p, p + |t.text|), Lexemes(s, q), tokens, q);
    }
  }

  lemma LexedOn(all: seq<Lexeme>, first: Lexeme, others: seq<Lexeme>, tokens: seq<Lexeme>, q: nat)
    requires tokens != [] && all == [first] + others && DocumentTokens.Spells(others, tokens[1..])
    requires first.token == tokens[0].token && first.text == tokens[0].text
    requires first.token == At ==> first.end == q
    requires |tokens| > 1 ==> others != [] && others[0].start == q
    ensures DocumentTokens.Spells(all, tokens)
  {
    forall k | 0 <= k < |all| - 1 && all[k].token == At ensures all[k + 1].start == all[k].end {
      assert k > 0 ==> others[k - 1].token == At;
    }
    forall k | 0 <= k < |all| ensures all[k].token == tokens[k].token && all[k].text == tokens[k].text {
      assert k > 0 ==> all[k] == others[k - 1] && tokens[k] == tokens[1..][k - 1];
    }
  }

  /** The texts in a value are those a parser could have taken them from. */
  ghost predicate SpelledValue(v: Value) {
    match v
    case NoValue => false
    case IntValue(n) => VR.ReadsBack(n)
    case FloatValue(text) => InLanguage(text, FloatLiteral)
    case StringValue(text) => InLanguage(text, StringLiteral)
    case EnumValue(name) => InLanguage(name, GName)
    case ListValue(values) => forall k | 0 <= k < |values| :: SpelledValue(values[k])
    case ObjectValue(fields) =>
      forall k | 0 <= k < |fields| :: InLanguage(fields[k].name, GName) && SpelledValue(fields[k].value)
    case _ => true
  }

  ghost predicate SpelledArguments(arguments: seq<Argument>) {
    forall k | 0 <= k < |arguments| ::
      IsName(arguments[k].name) && SpelledValue(arguments[k].value) && SpelledDirectives(arguments[k].directives)
  }

  ghost predicate SpelledList(list: ArgumentList) {
    list.Parentheses? ==> SpelledArguments(list.arguments)
  }

  ghost predicate SpelledDirectives(directives: seq<Directive>) {
    forall k | 0 <= k < |directives| :: IsName(directives[k].name) && SpelledList(directives[k].arguments)
  }

  // A field may be named like a keyword if it has no alias, and its alias may be.
  ghost predicate SpelledSelection(s: Selection) {
    SpelledDirectives(s.directives) &&
    match s
    case Field(alias, name, arguments, _, selectionSet) =>
      && IsName(s.Key()) && (alias.Some? ==> InLanguage(name, GName)) && SpelledList(arguments)
      && (selectionSet.Braces? ==> SpelledSelections(selectionSet.selections))
    case InlineFragment(typeName, _, selections) => InLanguage(typeName, GName) && SpelledSelections(selections)
    case FragmentSpread(name, _) => InLanguage(name, GName)
  }

  ghost predicate SpelledSelections(selections: seq<Selection>) {
    forall k | 0 <= k < |selections| :: SpelledSelection(selections[k])
  }

  ghost predicate SpelledDefinition(d: Definition) {
    && SpelledDirectives(d.directives) && SpelledSelections(d.selections)
    && match d
       case OperationDefinition(_, name, _, _) => name.Some? ==> IsName(name.value)
       case FragmentDefinition(name, typeName, _, _) => InLanguage(name, GName) && InLanguage(typeName, GName)
  }

  lemma Both(first: seq<Lexeme>, second: seq<Lexeme>)
    requires AllSpelled(first) && AllSpelled(second)
    ensures AllSpelled(first + second)
  {
    hide InLanguage;
  }

  lemma OneSpelled(text: string, token: Token)
    requires InLanguage(text, token)
    ensures AllSpelled([Spelled(token, text)])
  {
    hide InLanguage;
  }

  lemma AnyNameSpelled(name: string)
    requires IsName(name)
    ensures InLanguage(AnyName(name).text, AnyName(name).token)
  {
    hide NameToken, IsName, Literal;
    TokenTexts.NameKinds(name, NameToken(name));
  }

  lemma NumberSpelled(n: int)
    requires VR.ReadsBack(n)
    ensures IsInteger(Decimal(n))
  {
    var m := if n < 0 then -n else n;
    VR.DigitsAreDigits(m);
    VR.DigitCount(m);
    var digits := ValuePrinting.Digits(m);
    assert forall k | 0 <= k < |digits| :: TokenLanguages.Digit(digits[k]);
    if n < 0 {
      assert Decimal(n)[1..] == digits;
    } else {
      assert |digits| == 2 && digits[1] == '0' ==> digits[1..] == "0";
    }
  }

  lemma LiteralSpelled(token: Token)
    requires IsKind(token) && token !in {GName, IntegerLiteral, FloatLiteral, StringLiteral, InvalidString}
    ensures InLanguage(Literal(token), token)
  {
  }

  lemma PunctuatorsSpelled()
    ensures InLanguage("{", OpenBrace) && InLanguage("}", CloseBrace)
    ensures InLanguage("(", OpenParen) && InLanguage(")", CloseParen)
    ensures InLanguage("[", OpenBracket) && InLanguage("]", CloseBracket)
    ensures InLanguage(":", Colon) && InLanguage("@", At) && InLanguage("...", Ellipses)
  {
    hide InLanguage, Literal;
    BracesSpelled();
    BracketsSpelled();
    MarksSpelled();
  }

  lemma BracesSpelled()
    ensures InLanguage("{", OpenBrace) && InLanguage("}", CloseBrace)
  {
    hide InLanguage;
    LiteralSpelled(OpenBrace);
    LiteralSpelled(CloseBrace);
  }

  lemma BracketsSpelled()
    ensures InLanguage("(", OpenParen) && InLanguage(")", CloseParen)
    ensures InLanguage("[", OpenBracket) && InLanguage("]", CloseBracket)
  {
    hide InLanguage;
    LiteralSpelled(OpenParen);
    LiteralSpelled(CloseParen);
    LiteralSpelled(OpenBracket);
    LiteralSpelled(CloseBracket);
  }

  lemma MarksSpelled()
    ensures InLanguage(":", Colon) && InLanguage("@", At) && InLanguage("...", Ellipses)
  {
    hide InLanguage;
    LiteralSpelled(Colon);
    LiteralSpelled(At);
    LiteralSpelled(Ellipses);
  }

  lemma KeywordsSpelled()
    ensures InLanguage("on", OnKeyword) && InLanguage("fragment", FragmentKeyword)
    ensures InLanguage("query", QueryKeyword) && InLanguage("mutation", MutationKeyword)
    ensures InLanguage("subscription", SubscriptionKeyword)
    ensures InLanguage("null", NullKeyword) && InLanguage("true", TrueKeyword) && InLanguage("false", FalseKeyword)
  {
    hide InLanguage;
    LiteralSpelled(OnKeyword);
    LiteralSpelled(FragmentKeyword);
    LiteralSpelled(QueryKeyword);
    LiteralSpelled(MutationKeyword);
    LiteralSpelled(SubscriptionKeyword);
    LiteralSpelled(NullKeyword);
    LiteralSpelled(TrueKeyword);
    LiteralSpelled(FalseKeyword);
  }

  lemma {:induction false} ValueSpelled(v: Value)
    requires SpelledValue(v)
    ensures AllSpelled(TokensOf(v)) && Readable(v)
    decreases v, 1
  {
    hide InLanguage, NameToken, Decimal, ElementTokens, FieldTokens;
    PunctuatorsSpelled();
    KeywordsSpelled();
    match v
    case IntValue(n) => NumberSpelled(n); NumberInLanguage(Decimal(n));
    case ListValue(values) =>
      ElementsSpelled(values);
      Both(ElementTokens(values), [Spelled(CloseBracket, "]")]);
      Both([Spelled(OpenBracket, "[")], ElementTokens(values) + [Spelled(CloseBracket, "]")]);
    case ObjectValue(fields) =>
      ObjectSpelled(fields);
      Both(FieldTokens(fields), [Spelled(CloseBrace, "}")]);
      Both([Spelled(OpenBrace, "{")], FieldTokens(fields) + [Spelled(CloseBrace, "}")]);
    case _ =>
  }

  lemma NumberInLanguage(text: string)
    requires IsInteger(text)
    ensures InLanguage(text, IntegerLiteral)
  {
  }

  lemma {:induction false} ElementsSpelled(values: seq<Value>)
    requires forall k | 0 <= k < |values| :: SpelledValue(values[k])
    ensures AllSpelled(ElementTokens(values)) && forall k | 0 <= k < |values| :: Readable(values[k])
    decreases values, 0
  {
    hide InLanguage, TokensOf, SpelledValue, Readable;
    if values != [] {
      ValueSpelled(values[0]);
      ElementsSpelled(values[1..]);
      Both(TokensOf(values[0]), ElementTokens(values[1..]));
      forall k | 0 < k < |values| ensures Readable(values[k]) {
        assert values[k] == values[1..][k - 1];
      }
    }
  }

  lemma {:induction false} ObjectSpelled(fields: seq<ObjectField>)
    requires forall k | 0 <= k < |fields| :: InLanguage(fields[k].name, GName) && SpelledValue(fields[k].value)
    ensures AllSpelled(FieldTokens(fields))
    ensures forall k | 0 <= k < |fields| :: Readable(fields[k].value) && fields[k].name !in KEYWORDS
    decreases fields, 0
  {
    hide InLanguage, TokensOf, SpelledValue, Readable, NameToken;
    if fields != [] {
      var f := fields[0];
      ValueSpelled(f.value);
      ObjectSpelled(fields[1..]);
      PunctuatorsSpelled();
      NameAloneSpelled(f.name);
      assert AllSpelled(NameAndColon(f));
      Both(TokensOf(f.value), FieldTokens(fields[1..]));
      Both(NameAndColon(f), TokensOf(f.value) + FieldTokens(fields[1..]));
      forall k | 0 < k < |fields| ensures Readable(fields[k].value) && fields[k].name !in KEYWORDS {
        assert fields[k] == fields[1..][k - 1];
      }
    }
  }

  lemma NameAloneSpelled(name: string)
    requires InLanguage(name, GName)
    ensures IsName(name) && name !in KEYWORDS && InLanguage(name, NameToken(name))
  {
    hide NameToken;
    AnyNameSpelled(name);
  }

  // The tokens of each part of a document are spelled right, and its values readable, if the part is.
  lemma {:induction false} ArgumentsSpelled(arguments: seq<Argument>)
    requires SpelledArguments(arguments)
    ensures AllSpelled(ArgumentsTokens(arguments)) && ArgumentsReadable(arguments)
    decreases arguments, 1
  {
    hide InLanguage, NameToken, TokensOf, SpelledValue, Readable, DirectivesTokens, DirectivesReadable,
      SpelledDirectives;
    PunctuatorsSpelled();
    if arguments != [] {
      var a := arguments[0];
      assert SpelledArguments(arguments[1..]);
      ArgumentsSpelled(arguments[1..]);
      ValueSpelled(a.value);
      DirectivesSpelled(a.directives);
      AnyNameSpelled(a.name);
      Both(TokensOf(a.value), DirectivesTokens(a.directives));
      Both([AnyName(a.name), Spelled(Colon, ":")], TokensOf(a.value) + DirectivesTokens(a.directives));
      Both(ArgumentTokens(a), ArgumentsTokens(arguments[1..]));
      forall k | 0 < k < |arguments|
        ensures Readable(arguments[k].value) && DirectivesReadable(arguments[k].directives)
      {
        assert arguments[k] == arguments[1..][k - 1];
      }
    }
  }

  lemma {:induction false} ListSpelled(list: ArgumentList)
    requires SpelledList(list)
    ensures AllSpelled(ArgumentListTokens(list)) && ListReadable(list)
    decreases list, 0
  {
    hide InLanguage, ArgumentsTokens, ArgumentsReadable, SpelledArguments;
    if list.Parentheses? {
      PunctuatorsSpelled();
      ArgumentsSpelled(list.arguments);
      Both([Spelled(OpenParen, "(")], ArgumentsTokens(list.arguments));
    }
  }

  lemma {:induction false} DirectivesSpelled(directives: seq<Directive>)
    requires SpelledDirectives(directives)
    ensures AllSpelled(DirectivesTokens(directives)) && DirectivesReadable(directives)
    decreases directives, 0
  {
    hide InLanguage, NameToken, ArgumentListTokens, ListReadable, SpelledList;
    if directives != [] {
      var d := directives[0];
      assert SpelledDirectives(directives[1..]);
      DirectivesSpelled(directives[1..]);
      ListSpelled(d.arguments);
      AnyNameSpelled(d.name);
      PunctuatorsSpelled();
      Both(ArgumentListTokens(d.arguments), DirectivesTokens(directives[1..]));
      Both([Spelled(At, "@"), AnyName(d.name)], ArgumentListTokens(d.arguments) + DirectivesTokens(directives[1..]));
      forall k | 0 < k < |directives| ensures ListReadable(directives[k].arguments) {
        assert directives[k] == directives[1..][k - 1];
      }
    }
  }

  lemma AliasSpelled(alias: Option<string>, name: string)
    requires IsName(alias.GetOr(name)) && (alias.Some? ==> InLanguage(name, GName))
    ensures AllSpelled(AliasTokens(alias, name))
  {
    hide InLanguage, NameToken;
    PunctuatorsSpelled();
    AnyNameSpelled(alias.GetOr(name));
  }

  lemma {:induction false} SelectionSpelled(s: Selection)
    requires SpelledSelection(s)
    ensures AllSpelled(SelectionTokens(s)) && SelectionReadable(s)
    decreases s, 1
  {
    hide InLanguage, NameToken, ArgumentListTokens, DirectivesTokens, AliasTokens, SetTokens, BracesTokens, AllSpelled,
      SpelledDirectives, SpelledList, SpelledSelections, DirectivesReadable, ListReadable, SelectionsReadable;
    DirectivesSpelled(s.directives);
    var directives := DirectivesTokens(s.directives);
    match s
    case Field(alias, name, arguments, _, selectionSet) =>
      AliasSpelled(alias, name);
      ListSpelled(arguments);
      SetSpelled(selectionSet);
      Both(directives, SetTokens(selectionSet));
      Both(ArgumentListTokens(arguments), directives + SetTokens(selectionSet));
      Both(AliasTokens(alias, name), ArgumentListTokens(arguments) + (directives + SetTokens(selectionSet)));
    case InlineFragment(typeName, _, selections) =>
      BracesAreSpelled(selections);
      HeadSpelled(typeName);
      Both(directives, BracesTokens(selections));
      Both([Spelled(Ellipses, "..."), Spelled(OnKeyword, "on"), OneName(typeName)],
           directives + BracesTokens(selections));
    case FragmentSpread(name, _) =>
      HeadSpelled(name);
      Both([Spelled(Ellipses, "..."), OneName(name)], directives);
  }

  lemma HeadSpelled(name: string)
    requires InLanguage(name, GName)
    ensures AllSpelled([Spelled(Ellipses, "..."), Spelled(OnKeyword, "on"), OneName(name)])
    ensures AllSpelled([Spelled(Ellipses, "..."), OneName(name)])
  {
    hide InLanguage;
    MarksSpelled();
    KeywordsSpelled();
  }

  lemma {:induction false} SetSpelled(selectionSet: SelectionSet)
    requires selectionSet.Braces? ==> SpelledSelections(selectionSet.selections)
    ensures AllSpelled(SetTokens(selectionSet))
    ensures selectionSet.Braces? ==> SelectionsReadable(selectionSet.selections)
    decreases selectionSet, 0
  {
    hide InLanguage, BracesTokens, SelectionsReadable, SpelledSelections;
    if selectionSet.Braces? {
      BracesAreSpelled(selectionSet.selections);
    }
  }

  lemma {:induction false} BracesAreSpelled(selections: seq<Selection>)
    requires SpelledSelections(selections)
    ensures AllSpelled(BracesTokens(selections)) && SelectionsReadable(selections)
    decreases selections, 1
  {
    hide InLanguage, SelectionsTokens, SelectionsReadable, SpelledSelections;
    SelectionsSpelled(selections);
    BracesSpelled();
    Both([Spelled(OpenBrace, "{")], SelectionsTokens(selections));
  }

  lemma {:induction false} SelectionsSpelled(selections: seq<Selection>)
    requires SpelledSelections(selections)
    ensures AllSpelled(SelectionsTokens(selections)) && SelectionsReadable(selections)
    decreases selections, 0
  {
    hide InLanguage, SelectionTokens, SelectionReadable, SpelledSelection;
    BracesSpelled();
    if selections != [] {
      assert SpelledSelections(selections[1..]);
      SelectionsSpelled(selections[1..]);
      SelectionSpelled(selections[0]);
      Both(SelectionTokens(selections[0]), SelectionsTokens(selections[1..]));
      forall k | 0 < k < |selections| ensures SelectionReadable(selections[k]) {
        assert selections[k] == selections[1..][k - 1];
      }
    }
  }

  ghost predicate SpelledVariables(v: Variables) {
    match v
    case OneToken(lexeme) => InLanguage(lexeme.text, lexeme.token)
    case Variable(name, typeName, _, _, _, default) =>
      && InLanguage(name, GName) && InLanguage(typeName.text, typeName.token)
      && (default.Some? ==> SpelledValue(default.value))
  }

  lemma VariablesSpelled(v: Variables)
    requires SpelledVariables(v)
    ensures AllSpelled(VariablesTokens(v))
  {
    hide InLanguage, TokensOf, SpelledValue, MarkIf, AllSpelled;
    match v
    case OneToken(lexeme) =>
      LexemeSpelled(lexeme);
    case Variable(name, typeName, _, isListType, _, default) =>
      LexemeSpelled(typeName);
      VariableNameSpelled(name);
      FlagsSpelled(v);
      DefaultSpelled(default);
      MarksIfSpelled(isListType);
      Both(FlagTokens(v), DefaultTokens(default));
      Both([typeName], FlagTokens(v) + DefaultTokens(default));
      Both(MarkIf(isListType, OpenBracket, "["), [typeName] + (FlagTokens(v) + DefaultTokens(default)));
      Both([OneName(name), Spelled(Colon, ":")],
           MarkIf(isListType, OpenBracket, "[") + ([typeName] + (FlagTokens(v) + DefaultTokens(default))));
  }

  lemma LexemeSpelled(lexeme: Lexeme)
    requires InLanguage(lexeme.text, lexeme.token)
    ensures AllSpelled([lexeme])
  {
    hide InLanguage;
  }

  lemma VariableNameSpelled(name: string)
    requires InLanguage(name, GName)
    ensures AllSpelled([OneName(name), Spelled(Colon, ":")])
  {
    hide InLanguage;
    MarksSpelled();
  }

  lemma MarksIfSpelled(present: bool)
    ensures AllSpelled(MarkIf(present, OpenBracket, "[")) && AllSpelled(MarkIf(present, CloseBracket, "]"))
    ensures AllSpelled(MarkIf(present, Exclamation, "!"))
  {
    hide InLanguage;
    BracketsSpelled();
    LiteralSpelled(Exclamation);
  }

  lemma FlagsSpelled(v: Variables)
    requires v.Variable?
    ensures AllSpelled(FlagTokens(v))
  {
    hide MarkIf, AllSpelled;
    MarksIfSpelled(v.isNonNull);
    MarksIfSpelled(v.isListType);
    MarksIfSpelled(v.isListType && v.isNonNullList);
    var b, c := MarkIf(v.isListType, CloseBracket, "]"), MarkIf(v.isListType && v.isNonNullList, Exclamation, "!");
    Both(b, c);
    Both(MarkIf(v.isNonNull, Exclamation, "!"), b + c);
  }

  lemma DefaultSpelled(default: Option<Value>)
    requires default.Some? ==> SpelledValue(default.value)
    ensures AllSpelled(DefaultTokens(default))
  {
    hide InLanguage, TokensOf, SpelledValue;
    if default.Some? {
      LiteralSpelled(Equal);
      ValueSpelled(default.value);
      Both([Spelled(Equal, "=")], TokensOf(default.value));
    }
  }

  ghost predicate SpelledManner(d: Definition, manner: Manner) {
    HasVariables(d, manner) ==> SpelledVariables(manner.variables)
  }

  lemma NothingSpelled()
    ensures AllSpelled([])
  {
  }

  lemma HeaderSpelled(name: Option<string>, manner: Manner)
    requires name.Some? ==> IsName(name.value)
    requires name.Some? && manner.With? ==> SpelledVariables(manner.variables)
    ensures AllSpelled(HeaderTokens(name, manner))
  {
    hide InLanguage, IsName, VariablesTokens, AllSpelled, SpelledVariables;
    if name.Some? {
      AnyNameSpelled(name.value);
      LexemeSpelled(AnyName(name.value));
      if manner.With? {
        var v := VariablesTokens(manner.variables);
        VariablesSpelled(manner.variables);
        BracketsSpelled();
        OneSpelled("(", OpenParen);
        OneSpelled(")", CloseParen);
        Both(v, [Spelled(CloseParen, ")")]);
        Both([Spelled(OpenParen, "(")], v + [Spelled(CloseParen, ")")]);
        Both([AnyName(name.value)], [Spelled(OpenParen, "(")] + (v + [Spelled(CloseParen, ")")]));
      } else {
        assert [AnyName(name.value)] + [] == [AnyName(name.value)];
      }
    } else {
      NothingSpelled();
    }
  }

  lemma DefinitionSpelled(d: Definition, manner: Manner)
    requires SpelledDefinition(d) && SpelledManner(d, manner)
    ensures AllSpelled(DefinitionTokens(d, manner)) && DefinitionReadable(d)
  {
    hide InLanguage, NameToken, DirectivesTokens, BracesTokens, AllSpelled, SpelledDirectives, SpelledSelections,
      DirectivesReadable, SelectionsReadable, SpelledVariables, HeaderTokens;
    DirectivesSpelled(d.directives);
    BracesAreSpelled(d.selections);
    var body := DirectivesTokens(d.directives) + BracesTokens(d.selections);
    Both(DirectivesTokens(d.directives), BracesTokens(d.selections));
    DefinitionHeadSpelled(d);
    match d
    case OperationDefinition(operationType, name, _, _) =>
      HeaderSpelled(name, manner);
      Both(HeaderTokens(name, manner), body);
      Both([OperationKeyword(operationType)], HeaderTokens(name, manner) + body);
    case FragmentDefinition(name, typeName, _, _) =>
      Both([Spelled(FragmentKeyword, "fragment"), OneName(name), Spelled(OnKeyword, "on"), OneName(typeName)], body);
  }

  lemma DefinitionHeadSpelled(d: Definition)
    requires SpelledDefinition(d)
    ensures d.OperationDefinition? ==> AllSpelled([OperationKeyword(d.operationType)])
    ensures d.FragmentDefinition? ==>
              AllSpelled([Spelled(FragmentKeyword, "fragment"), OneName(d.name), Spelled(OnKeyword, "on"),
                          OneName(d.typeName)])
  {
    hide InLanguage, NameToken, SpelledDirectives, SpelledSelections;
    KeywordsSpelled();
  }

  // Everything in the definitions is spelled right, and so are the variables behind their names.
  ghost predicate SpelledDefinitions(definitions: seq<Definition>, manners: seq<Manner>) {
    && |manners| == |definitions|
    && forall k | 0 <= k < |definitions| ::
         SpelledDefinition(definitions[k]) && SpelledManner(definitions[k], manners[k])
  }

  lemma {:induction false} DefinitionsSpelled(definitions: seq<Definition>, manners: seq<Manner>)
    requires SpelledDefinitions(definitions, manners)
    ensures AllSpelled(DefinitionsTokens(definitions, manners))
    ensures forall k | 0 <= k < |definitions| :: DefinitionReadable(definitions[k])
    decreases |definitions|
  {
    hide InLanguage, DefinitionTokens, SpelledDefinition, DefinitionReadable, SpelledManner;
    if definitions != [] {
      DefinitionSpelled(definitions[0], manners[0]);
      DefinitionsSpelled(definitions[1..], manners[1..]);
      Both(DefinitionTokens(definitions[0], manners[0]), DefinitionsTokens(definitions[1..], manners[1..]));
      forall k | 0 < k < |definitions| ensures DefinitionReadable(definitions[k]) {
        assert definitions[k] == definitions[1..][k - 1];
      }
    }
  }
}
