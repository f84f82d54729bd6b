/** What is read as a document was written as one. */
module WrittenDocuments {
  import opened SourceText
  import opened GraphQlTokens
  import opened GraphQlLexer
  import opened GraphQlSyntax
  import opened Selections
  import opened TokenLanguages
  import opened ValueTokens
  import opened DocumentTokens
  import opened WrittenValues
  import opened VariableReading
  import opened VariableSyntax
  import TokenTexts
  import QS = QuerySyntax
  import TS = TypeSyntax
  import VS = ValueSyntax

  lemma AnyNameStands(lexeme: Lexeme)
    requires FromScanner(lexeme) && QS.IsName(lexeme)
    ensures Stands([lexeme], [AnyName(lexeme.text)])
    ensures lexeme.token == GName ==> Stands([lexeme], [OneName(lexeme.text)])
  {
    hide NameToken;
  }

  lemma {:induction false} ArgumentsWritten(lexemes: seq<Lexeme>, before: seq<Argument>)
    returns (here: seq<Lexeme>, arguments: seq<Argument>)
    requires AllFromScanner(lexemes)
    requires var r := QS.ReadArguments(lexemes, before); r.Read? && r.rest != []
    ensures var r := QS.ReadArguments(lexemes, before);
            r.value == before + arguments && lexemes == here + r.rest && Stands(here, ArgumentsTokens(arguments))
    decreases |lexemes|, 2
  {
    hide VS.ParseValue, QS.ReadDirectives, Stands, TokensOf, DirectivesTokens, FromScanner, ArgumentsTokens, NameToken,
      Answers, NoKeywordNames;
    var rest := QS.ReadArguments(lexemes, before).rest;
    if !QS.IsName(lexemes[0]) {
      here, arguments := [lexemes[0]], [];
      CloserStands(lexemes[0]);
      assert before + arguments == before;
    } else {
      var head, behind := lexemes[..2], lexemes[1..][1..];
      assert lexemes == head + behind;
      RestFromScanner(head, behind);
      var value := VS.ParseValue(behind, false);
      var first, missing := ValueWritten(behind, false);
      RestFromScanner(first, value.rest);
      var directives := QS.ReadDirectives(value.rest, []);
      var second, ds := DirectivesWritten(value.rest, []);
      assert [] + ds == ds && first + missing == first;
      RestFromScanner(second, directives.rest);
      var a := Argument(lexemes[0].text, value.value, ds);
      var more;
      here, more := ArgumentsWritten(directives.rest, before + [a]);
      ArgumentGroups(head, first, second, here, a, more, rest);
      here, arguments := head + first + second + here, [a] + more;
      assert before + arguments == before + [a] + more;
    }
  }

  lemma CloserStands(closer: Lexeme)
    requires !QS.IsName(closer)
    ensures Stands([closer], ArgumentsTokens([]))
  {
  }

  lemma ArgumentGroups(head: seq<Lexeme>, first: seq<Lexeme>, second: seq<Lexeme>, here: seq<Lexeme>, a: Argument,
                       more: seq<Argument>, rest: seq<Lexeme>)
    requires |head| == 2 && FromScanner(head[0]) && QS.IsName(head[0]) && head[0].text == a.name
    requires head[1].token == Colon
    requires Stands(first, TokensOf(a.value)) && Stands(second, DirectivesTokens(a.directives))
    requires Stands(here, ArgumentsTokens(more))
    ensures Stands(head + first + second + here, ArgumentsTokens([a] + more))
    ensures head + (first + (second + (here + rest))) == head + first + second + here + rest
  {
    hide Stands, TokensOf, DirectivesTokens, NameToken, ArgumentsTokens;
    var tokens := [AnyName(a.name), Spelled(Colon, ":")];
    NameAndColonStand(head);
    BothStand(first, TokensOf(a.value), second, DirectivesTokens(a.directives));
    BothStand(head, tokens, first + second, TokensOf(a.value) + DirectivesTokens(a.directives));
    BothStand(head + (first + second), ArgumentTokens(a), here, ArgumentsTokens(more));
    assert head + (first + second) + here == head + first + second + here;
    MoreArguments(a, more);
  }

  lemma MoreArguments(a: Argument, more: seq<Argument>)
    ensures ArgumentsTokens([a] + more) == ArgumentTokens(a) + ArgumentsTokens(more)
  {
    hide ArgumentTokens;
    assert ([a] + more)[1..] == more;
  }

  lemma NameAndColonStand(head: seq<Lexeme>)
    requires |head| == 2 && FromScanner(head[0]) && QS.IsName(head[0]) && head[1].token == Colon
    ensures Stands(head, [AnyName(head[0].text), Spelled(Colon, ":")])
  {
    hide NameToken, Stands;
    AnyNameStands(head[0]);
    OneStands(head[1], Spelled(Colon, ":"));
    BothStand([head[0]], [AnyName(head[0].text)], [head[1]], [Spelled(Colon, ":")]);
    assert head == [head[0]] + [head[1]];
    assert [AnyName(head[0].text), Spelled(Colon, ":")] == [AnyName(head[0].text)] + [Spelled(Colon, ":")];
  }

  lemma {:induction false} ListWritten(lexemes: seq<Lexeme>) returns (here: seq<Lexeme>)
    requires AllFromScanner(lexemes)
    requires var r := QS.ReadOptionalArguments(lexemes); r.Read? && r.rest != []
    ensures var r := QS.ReadOptionalArguments(lexemes);
            lexemes == here + r.rest && Stands(here, ArgumentListTokens(r.value))
    decreases |lexemes|, 0
  {
    hide QS.ReadArguments, Stands, FromScanner, ArgumentsTokens;
    if !Starts(lexemes, OpenParen) {
      here := [];
      NothingStands();
    } else {
      var first := lexemes[0];
      assert lexemes == [first] + lexemes[1..];
      RestFromScanner([first], lexemes[1..]);
      var arguments;
      here, arguments := ArgumentsWritten(lexemes[1..], []);
      assert [] + arguments == arguments;
      OneStands(first, Spelled(OpenParen, "("));
      Together([first], [Spelled(OpenParen, "(")], here, ArgumentsTokens(arguments),
             QS.ReadArguments(lexemes[1..], []).rest);
      here := [first] + here;
    }
  }

  lemma NothingStands()
    ensures Stands([], [])
  {
  }

  lemma {:induction false} DirectivesWritten(lexemes: seq<Lexeme>, before: seq<Directive>)
    returns (here: seq<Lexeme>, directives: seq<Directive>)
    requires AllFromScanner(lexemes)
    requires var r := QS.ReadDirectives(lexemes, before); r.Read? && r.rest != []
    ensures var r := QS.ReadDirectives(lexemes, before);
            r.value == before + directives && lexemes == here + r.rest && Stands(here, DirectivesTokens(directives))
    decreases |lexemes|, 1
  {
    hide QS.ReadOptionalArguments, Stands, FromScanner, DirectivesTokens, ArgumentListTokens, NameToken;
    var rest := QS.ReadDirectives(lexemes, before).rest;
    if !Starts(lexemes, At) {
      here, directives := [], [];
      NothingStands();
      assert DirectivesTokens([]) == [] by { NoDirectives(); }
      assert before + directives == before;
    } else {
      var head, behind := lexemes[..2], lexemes[1..][1..];
      assert lexemes == head + behind;
      RestFromScanner(head, behind);
      var list := QS.ReadOptionalArguments(behind);
      var first := ListWritten(behind);
      RestFromScanner(first, list.rest);
      var d := Directive(lexemes[1].text, list.value);
      var more;
      here, more := DirectivesWritten(list.rest, before + [d]);
      DirectiveGroups(head, first, here, d, more, rest);
      here, directives := head + first + here, [d] + more;
      assert before + directives == before + [d] + more;
    }
  }

  lemma NoDirectives()
    ensures DirectivesTokens([]) == []
  {
  }

  lemma DirectiveGroups(head: seq<Lexeme>, first: seq<Lexeme>, here: seq<Lexeme>, d: Directive, more: seq<Directive>,
                        rest: seq<Lexeme>)
    requires |head| == 2 && head[0].token == At && FromScanner(head[1]) && QS.IsName(head[1]) && head[1].text == d.name
    requires head[1].start == head[0].end
    requires Stands(first, ArgumentListTokens(d.arguments)) && Stands(here, DirectivesTokens(more))
    ensures Stands(head + first + here, DirectivesTokens([d] + more))
    ensures head + (first + (here + rest)) == head + first + here + rest
  {
    hide Stands, DirectivesTokens, NameToken, ArgumentListTokens;
    AtAndNameStand(head);
    BothStand(first, ArgumentListTokens(d.arguments), here, DirectivesTokens(more));
    BothStand(head, [Spelled(At, "@"), AnyName(d.name)], first + here,
              ArgumentListTokens(d.arguments) + DirectivesTokens(more));
    assert head + (first + here) == head + first + here;
    MoreDirectives(d, more);
  }

  lemma MoreDirectives(d: Directive, more: seq<Directive>)
    ensures DirectivesTokens([d] + more) ==
            [Spelled(At, "@"), AnyName(d.name)] + (ArgumentListTokens(d.arguments) + DirectivesTokens(more))
  {
    hide ArgumentListTokens, NameToken;
    assert ([d] + more)[1..] == more;
  }

  lemma AtAndNameStand(head: seq<Lexeme>)
    requires |head| == 2 && head[0].token == At && FromScanner(head[1]) && QS.IsName(head[1])
    requires head[1].start == head[0].end
    ensures Stands(head, [Spelled(At, "@"), AnyName(head[1].text)])
  {
    hide NameToken;
  }

  lemma AliasWritten(first: Lexeme, lexemes: seq<Lexeme>) returns (here: seq<Lexeme>)
    requires AllFromScanner([first] + lexemes) && QS.IsName(first) && QS.ReadAlias(first.text, lexemes).Read?
    ensures var r := QS.ReadAlias(first.text, lexemes);
            [first] + lexemes == here + r.rest && Stands(here, AliasTokens(r.value.0, r.value.1))
  {
    hide Stands, FromScanner, NameToken;
    assert FromScanner(([first] + lexemes)[0]);
    AnyNameStands(first);
    here := [first];
    if Starts(lexemes, Colon) {
      var name := lexemes[1..][0];
      assert name == ([first] + lexemes)[2];
      AnyNameStands(name);
      OneStands(lexemes[0], Spelled(Colon, ":"));
      BothStand([lexemes[0]], [Spelled(Colon, ":")], [name], [OneName(name.text)]);
      BothStand([first], [AnyName(first.text)], [lexemes[0]] + [name], [Spelled(Colon, ":")] + [OneName(name.text)]);
      here := [first] + ([lexemes[0]] + [name]);
      assert [AnyName(first.text)] + ([Spelled(Colon, ":")] + [OneName(name.text)]) ==
             AliasTokens(Some(first.text), name.text);
      assert [first] + lexemes == here + lexemes[1..][1..];
    }
  }

  lemma {:induction false} FieldWritten(first: Lexeme, lexemes: seq<Lexeme>) returns (here: seq<Lexeme>)
    requires AllFromScanner([first] + lexemes) && QS.IsName(first)
    requires var r := QS.ReadField(first.text, lexemes); r.Read? && r.rest != []
    ensures var r := QS.ReadField(first.text, lexemes);
            [first] + lexemes == here + r.rest && Stands(here, SelectionTokens(r.value))
    decreases |lexemes|, 2
  {
    hide QS.ReadAlias, QS.ReadOptionalArguments, QS.ReadDirectives, QS.ReadOptionalBraces, Stands, FromScanner,
      AliasTokens, ArgumentListTokens, DirectivesTokens, SetTokens, QS.IsName;
    var r := QS.ReadField(first.text, lexemes);
    var name := QS.ReadAlias(first.text, lexemes);
    var list := QS.ReadOptionalArguments(name.rest);
    var directives := QS.ReadDirectives(list.rest, []);
    var a := AliasWritten(first, lexemes);
    RestFromScanner(a, name.rest);
    var b := ListWritten(name.rest);
    RestFromScanner(b, list.rest);
    var c, ds := DirectivesWritten(list.rest, []);
    RestFromScanner(c, directives.rest);
    assert [] + ds == ds;
    var d := SetWritten(directives.rest);
    Together(c, DirectivesTokens(ds), d, SetTokens(r.value.selectionSet), r.rest);
    Together(b, ArgumentListTokens(list.value), c + d, DirectivesTokens(ds) + SetTokens(r.value.selectionSet), r.rest);
    Together(a, AliasTokens(name.value.0, name.value.1), b + (c + d),
           ArgumentListTokens(list.value) + (DirectivesTokens(ds) + SetTokens(r.value.selectionSet)), r.rest);
    here := a + (b + (c + d));
  }

  lemma {:induction false} SetWritten(lexemes: seq<Lexeme>) returns (here: seq<Lexeme>)
    requires AllFromScanner(lexemes)
    requires var r := QS.ReadOptionalBraces(lexemes); r.Read? && r.rest != []
    ensures var r := QS.ReadOptionalBraces(lexemes);
            lexemes == here + r.rest && Stands(here, SetTokens(r.value))
    decreases |lexemes|, 1
  {
    hide QS.ReadSelections, Stands, FromScanner, SelectionsTokens;
    if !Starts(lexemes, OpenBrace) {
      here := [];
      NothingStands();
    } else {
      var selections;
      here, selections := BracesWritten(lexemes);
    }
  }

  lemma {:induction false} BracesWritten(lexemes: seq<Lexeme>) returns (here: seq<Lexeme>, selections: seq<Selection>)
    requires AllFromScanner(lexemes) && Starts(lexemes, OpenBrace)
    requires QS.ReadSelections(lexemes[1..], []).Read?
    ensures QS.ReadBraces(lexemes) == QS.ReadSelections(lexemes[1..], [])
    ensures var r := QS.ReadSelections(lexemes[1..], []);
            r.value == selections && lexemes == here + r.rest && Stands(here, BracesTokens(selections))
    decreases |lexemes|, 0
  {
    hide QS.ReadSelections, Stands, FromScanner, SelectionsTokens;
    var first := lexemes[0];
    assert lexemes == [first] + lexemes[1..];
    RestFromScanner([first], lexemes[1..]);
    here, selections := SelectionsWritten(lexemes[1..], []);
    assert [] + selections == selections;
    OneStands(first, Spelled(OpenBrace, "{"));
    Together([first], [Spelled(OpenBrace, "{")], here, SelectionsTokens(selections),
           QS.ReadSelections(lexemes[1..], []).rest);
    here := [first] + here;
  }

  // A name that a fragment goes by, or the tokens of its head.
  lemma HeadStands(here: seq<Lexeme>, tokens: seq<Lexeme>)
    requires |here| == |tokens| && AllFromScanner(here)
    requires forall k | 0 <= k < |here| ::
               && here[k].token == tokens[k].token
               && here[k].token !in {At, CloseParen, IntegerLiteral, StringLiteral, FloatLiteral}
               && (here[k].token == GName ==> here[k].text == tokens[k].text)
               && (here[k].token.IsKeyword() ==> tokens[k].text == Literal(here[k].token))
    ensures Stands(here, tokens)
  {
    hide NameToken, Literal;
    forall k | 0 <= k < |here| ensures AnswersAt(here, tokens, k) {
      assert FromScanner(here[k]);
      TokenTexts.NameKinds(here[k].text, here[k].token);
    }
  }

  lemma {:induction false} FragmentWritten(dots: Lexeme, lexemes: seq<Lexeme>) returns (here: seq<Lexeme>)
    requires AllFromScanner([dots] + lexemes) && dots.token == Ellipses
    requires var r := QS.ReadFragment(lexemes); r.Read? && r.rest != []
    ensures var r := QS.ReadFragment(lexemes);
            [dots] + lexemes == here + r.rest && Stands(here, SelectionTokens(r.value))
    decreases |lexemes|, 4
  {
    hide QS.ReadDirectives, QS.ReadInlineFragment, Stands, AllFromScanner, SelectionTokens;
    if Starts(lexemes, OnKeyword) {
      here := InlineFragmentWritten([dots] + lexemes, lexemes[1..][1..]);
    } else {
      here := SpreadWritten([dots] + lexemes, lexemes[1..]);
    }
  }

  lemma {:induction false} InlineFragmentWritten(lexemes: seq<Lexeme>, behind: seq<Lexeme>) returns (here: seq<Lexeme>)
    requires AllFromScanner(lexemes) && |lexemes| >= 3 && lexemes[3..] == behind
    requires lexemes[0].token == Ellipses && lexemes[1].token == OnKeyword && lexemes[2].token == GName
    requires QS.ReadInlineFragment(lexemes[2].text, behind).Read?
    ensures var r := QS.ReadInlineFragment(lexemes[2].text, behind);
            lexemes == here + r.rest && Stands(here, SelectionTokens(r.value))
    decreases |behind|, 3
  {
    hide QS.ReadInlineFragment, QS.ReadDirectives, QS.ReadBraces, Stands, FromScanner, DirectivesTokens, BracesTokens,
      Literal;
    var head, typeName := lexemes[..3], lexemes[2].text;
    assert lexemes == head + behind;
    RestFromScanner(head, behind);
    var tokens := [Spelled(Ellipses, "..."), Spelled(OnKeyword, "on"), OneName(typeName)];
    OnIsLiteral();
    HeadStands(head, tokens);
    InlineBody(typeName, behind);
    var r := QS.ReadInlineFragment(typeName, behind);
    var body, ds, selections := BodyWritten(behind, r.rest);
    Together(head, tokens, body, DirectivesTokens(ds) + BracesTokens(selections), r.rest);
    here := head + body;
  }

  lemma {:induction false} SpreadWritten(lexemes: seq<Lexeme>, behind: seq<Lexeme>) returns (here: seq<Lexeme>)
    requires AllFromScanner(lexemes) && |lexemes| >= 2 && lexemes[2..] == behind
    requires lexemes[0].token == Ellipses && lexemes[1].token == GName
    requires var r := QS.ReadDirectives(behind, []); r.Read? && r.rest != []
    ensures var r := QS.ReadDirectives(behind, []);
            lexemes == here + r.rest && Stands(here, SelectionTokens(FragmentSpread(lexemes[1].text, r.value)))
    decreases |behind|, 3
  {
    hide QS.ReadDirectives, Stands, FromScanner, DirectivesTokens, Literal;
    var head, name := lexemes[..2], lexemes[1].text;
    assert lexemes == head + behind;
    RestFromScanner(head, behind);
    var tokens := [Spelled(Ellipses, "..."), OneName(name)];
    HeadStands(head, tokens);
    var body, ds := DirectivesWritten(behind, []);
    assert [] + ds == ds;
    Together(head, tokens, body, DirectivesTokens(ds), QS.ReadDirectives(behind, []).rest);
    here := head + body;
  }

  lemma OnIsLiteral()
    ensures Literal(OnKeyword) == "on" && Literal(FragmentKeyword) == "fragment"
  {
  }

  lemma InlineBody(typeName: string, lexemes: seq<Lexeme>)
    requires QS.ReadInlineFragment(typeName, lexemes).Read?
    ensures var directives := QS.ReadDirectives(lexemes, []);
            && directives.Read? && QS.ReadBraces(directives.rest).Read?
            && var selections := QS.ReadBraces(directives.rest);
               QS.ReadInlineFragment(typeName, lexemes) ==
               QS.Read(InlineFragment(typeName, directives.value, selections.value), selections.rest)
  {
    hide QS.ReadDirectives, QS.ReadBraces;
  }

  // Directives, and selections in braces.
  lemma {:induction false} BodyWritten(lexemes: seq<Lexeme>, rest: seq<Lexeme>)
    returns (here: seq<Lexeme>, ds: seq<Directive>, selections: seq<Selection>)
    requires AllFromScanner(lexemes)
    requires var directives := QS.ReadDirectives(lexemes, []);
             && directives.Read? && QS.ReadBraces(directives.rest).Read? && QS.ReadBraces(directives.rest).rest == rest
    ensures QS.ReadDirectives(lexemes, []).value == ds
    ensures QS.ReadBraces(QS.ReadDirectives(lexemes, []).rest).value == selections
    ensures lexemes == here + rest && Stands(here, DirectivesTokens(ds) + BracesTokens(selections))
    decreases |lexemes|, 2
  {
    hide QS.ReadDirectives, QS.ReadSelections, Stands, FromScanner, DirectivesTokens, BracesTokens;
    var directives := QS.ReadDirectives(lexemes, []);
    here, ds := DirectivesWritten(lexemes, []);
    assert [] + ds == ds;
    RestFromScanner(here, directives.rest);
    var braces;
    braces, selections := BracesWritten(directives.rest);
    Together(here, DirectivesTokens(ds), braces, BracesTokens(selections), rest);
    here := here + braces;
  }

  lemma {:induction false} SelectionWritten(lexemes: seq<Lexeme>) returns (here: seq<Lexeme>)
    requires AllFromScanner(lexemes) && lexemes != []
    requires var r := QS.ReadSelection(lexemes); r.Read? && r.rest != []
    ensures var r := QS.ReadSelection(lexemes);
            lexemes == here + r.rest && Stands(here, SelectionTokens(r.value))
    decreases |lexemes|, 1
  {
    hide QS.ReadField, QS.ReadFragment, Stands, FromScanner, SelectionTokens;
    assert lexemes == [lexemes[0]] + lexemes[1..];
    if QS.IsName(lexemes[0]) {
      here := FieldWritten(lexemes[0], lexemes[1..]);
    } else {
      here := FragmentWritten(lexemes[0], lexemes[1..]);
    }
  }

  lemma {:induction false} SelectionsWritten(lexemes: seq<Lexeme>, before: seq<Selection>)
    returns (here: seq<Lexeme>, selections: seq<Selection>)
    requires AllFromScanner(lexemes) && QS.ReadSelections(lexemes, before).Read?
    ensures var r := QS.ReadSelections(lexemes, before);
            r.value == before + selections && lexemes == here + r.rest && Stands(here, SelectionsTokens(selections))
    decreases |lexemes|, 2
  {
    hide QS.ReadSelection, Stands, FromScanner, SelectionTokens, SelectionsTokens;
    var rest := QS.ReadSelections(lexemes, before).rest;
    if lexemes[0].token == CloseBrace {
      here, selections := [lexemes[0]], [];
      LastBraceStands(lexemes[0]);
      assert before + selections == before;
    } else {
      var selection := QS.ReadSelection(lexemes);
      var first := SelectionWritten(lexemes) by { RestIsLeft(selection.rest, before + [selection.value]); }
      RestFromScanner(first, selection.rest);
      var more;
      here, more := SelectionsWritten(selection.rest, before + [selection.value]);
      MoreSelections(selection.value, more);
      Together(first, SelectionTokens(selection.value), here, SelectionsTokens(more), rest);
      here, selections := first + here, [selection.value] + more;
      assert before + selections == before + [selection.value] + more;
    }
  }

  lemma RestIsLeft(lexemes: seq<Lexeme>, before: seq<Selection>)
    requires QS.ReadSelections(lexemes, before).Read?
    ensures lexemes != []
  {
  }

  lemma LastBraceStands(brace: Lexeme)
    requires brace.token == CloseBrace
    ensures Stands([brace], SelectionsTokens([]))
  {
  }

  lemma MoreSelections(s: Selection, more: seq<Selection>)
    ensures SelectionsTokens([s] + more) == SelectionTokens(s) + SelectionsTokens(more)
  {
    hide SelectionTokens;
    assert ([s] + more)[1..] == more;
  }

  // The tokens of a type behind its name.
  lemma FlagsWritten(lexemes: seq<Lexeme>, v: Variables, base: BaseType) returns (here: seq<Lexeme>)
    requires v.Variable? && TS.ParseAfterName(lexemes, base, "", v.isListType).Parsed?
    requires var r := TS.ParseAfterName(lexemes, base, "", v.isListType);
             r.info == TypeInfo(base, "", v.isNonNull, v.isListType, v.isNonNullList)
    ensures var r := TS.ParseAfterName(lexemes, base, "", v.isListType);
            lexemes == here + r.rest && Stands(here, FlagTokens(v)) && (v.isNonNullList ==> v.isListType)
  {
    hide Stands, MarkIf;
    var a := MarkWritten(lexemes, Exclamation, "!");
    var rest := TS.SkipOptional(lexemes, Exclamation);
    var b, c := [], [];
    if v.isListType {
      b := MarkWritten(rest, CloseBracket, "]");
      c := MarkWritten(rest[1..], Exclamation, "!");
    } else {
      NoMark(CloseBracket, "]");
      NoMark(Exclamation, "!");
    }
    var marks := MarkIf(v.isListType, CloseBracket, "]");
    var last := MarkIf(v.isListType && v.isNonNullList, Exclamation, "!");
    var r := TS.ParseAfterName(lexemes, base, "", v.isListType);
    Together(b, marks, c, last, r.rest);
    Together(a, MarkIf(v.isNonNull, Exclamation, "!"), b + c, marks + last, r.rest);
    here := a + (b + c);
  }

  lemma NoMark(token: Token, text: string)
    ensures Stands([], MarkIf(false, token, text))
  {
  }

  lemma MarkWritten(lexemes: seq<Lexeme>, token: Token, text: string) returns (here: seq<Lexeme>)
    requires token in {Exclamation, OpenBracket, CloseBracket}
    ensures lexemes == here + TS.SkipOptional(lexemes, token)
    ensures Stands(here, MarkIf(Starts(lexemes, token), token, text))
  {
    here := if Starts(lexemes, token) then [lexemes[0]] else [];
  }

  lemma DefaultWritten(lexemes: seq<Lexeme>, info: TypeInfo) returns (here: seq<Lexeme>, default: Option<Value>)
    requires AllFromScanner(lexemes) && ReadDefault(lexemes, info).Some? && ReadDefault(lexemes, info).value != []
    ensures lexemes == here + ReadDefault(lexemes, info).value && Stands(here, DefaultTokens(default))
    ensures default.Some? ==> NoKeywordNames(default.value) && DefaultFits(default.value, info)
  {
    hide VS.ParseValue, Stands, FromScanner, TokensOf, DefaultFits, NoKeywordNames;
    if !Starts(lexemes, Equal) {
      here, default := [], None;
      NothingStands();
    } else {
      var first := lexemes[0];
      assert lexemes == [first] + lexemes[1..];
      RestFromScanner([first], lexemes[1..]);
      var value := VS.ParseValue(lexemes[1..], false);
      var missing;
      here, missing := ValueWritten(lexemes[1..], false);
      assert here + missing == here;
      OneStands(first, Spelled(Equal, "="));
      Together([first], [Spelled(Equal, "=")], here, TokensOf(value.value), value.rest);
      here, default := [first] + here, Some(value.value);
    }
  }

  lemma ItselfStands(lexeme: Lexeme)
    requires FromScanner(lexeme)
    ensures Stands([lexeme], [lexeme])
  {
  }

  // The type of a variable, told by any one token.
  lemma TypeWritten(name: string, lexemes: seq<Lexeme>) returns (here: seq<Lexeme>, v: Variables)
    requires AllFromScanner(lexemes) && ReadType(lexemes).Parsed? && ReadType(lexemes).rest != []
    ensures v.Variable? && v.name == name && v.default == None && v.Info() == ReadType(lexemes).info
    ensures v.typeName.token == OpenBracket || v.isNonNullList ==> v.isListType
    ensures lexemes == here + ReadType(lexemes).rest && Stands(here, TypeTokens(v))
  {
    hide Stands, FromScanner, TS.ParseAfterName, FlagTokens, MarkIf;
    var r := ReadType(lexemes);
    var mark := MarkWritten(lexemes, OpenBracket, "[");
    var inner := TS.SkipOptional(lexemes, OpenBracket);
    RestFromScanner(mark, inner);
    TypeParts(lexemes);
    v := Variable(name, inner[0], r.info.isNonNull, r.info.isListType, r.info.isNonNullList, None);
    var flags := FlagsWritten(inner[1..], v, v.Info().base);
    assert inner == [inner[0]] + inner[1..];
    assert FromScanner(inner[0]);
    ItselfStands(inner[0]);
    Together([inner[0]], [v.typeName], flags, FlagTokens(v), r.rest);
    Together(mark, MarkIf(v.isListType, OpenBracket, "["), [inner[0]] + flags, [v.typeName] + FlagTokens(v), r.rest);
    here := mark + ([inner[0]] + flags);
  }

  lemma TypeParts(lexemes: seq<Lexeme>)
    requires ReadType(lexemes).Parsed? && ReadType(lexemes).rest != []
    ensures var inner, r := TS.SkipOptional(lexemes, OpenBracket), ReadType(lexemes);
            && inner != []
            && r == TS.ParseAfterName(inner[1..], BaseOf(inner[0].token), "", Starts(lexemes, OpenBracket))
            && r.info.base == BaseOf(inner[0].token) && r.info.name == ""
            && r.info.isListType == Starts(lexemes, OpenBracket) && (r.info.isNonNullList ==> r.info.isListType)
            && (inner[0].token == OpenBracket ==> r.info.isListType)
  {
  }

  /** What is read over as variables is one token that is no name, or one variable with a default value
      that fits. */
  lemma VariablesWritten(lexemes: seq<Lexeme>) returns (here: seq<Lexeme>, v: Variables)
    requires AllFromScanner(lexemes) && ReadVariables(lexemes).Some? && ReadVariables(lexemes).value != []
    ensures lexemes == here + ReadVariables(lexemes).value && Stands(here, VariablesTokens(v))
    ensures VariablesFit(v) && (v.Variable? ==> (v.typeName.token == OpenBracket || v.isNonNullList ==> v.isListType))
  {
    hide Stands, FromScanner, ReadType, ReadDefault, DefaultTokens, TypeTokens, DefaultFits, NoKeywordNames, NameToken;
    var first := lexemes[0];
    assert FromScanner(first);
    if first.token != GName {
      here, v := [first], OneToken(first);
      ItselfStands(first);
    } else {
      assert lexemes[..2] + lexemes[1..][1..] == lexemes;
      here, v := VariableWritten(lexemes, lexemes[1..][1..]);
    }
  }

  lemma VariableWritten(lexemes: seq<Lexeme>, behind: seq<Lexeme>) returns (here: seq<Lexeme>, v: Variables)
    requires AllFromScanner(lexemes) && |lexemes| >= 2 && lexemes[..2] + behind == lexemes
    requires lexemes[0].token == GName && lexemes[1].token == Colon
    requires var read := ReadType(behind);
             && read.Parsed? && ReadDefault(read.rest, read.info).Some? && ReadDefault(read.rest, read.info).value != []
    ensures lexemes == here + ReadDefault(ReadType(behind).rest, ReadType(behind).info).value
    ensures v.Variable? && Stands(here, VariablesTokens(v)) && VariablesFit(v)
    ensures v.typeName.token == OpenBracket || v.isNonNullList ==> v.isListType
  {
    hide Stands, FromScanner, ReadType, ReadDefault, DefaultTokens, TypeTokens, DefaultFits, NoKeywordNames, NameToken,
      VariablesTokens;
    var head, first := lexemes[..2], lexemes[0];
    RestFromScanner(head, behind);
    assert FromScanner(head[0]);
    var read := ReadType(behind);
    var type';
    type', v := TypeWritten(first.text, behind);
    RestFromScanner(type', read.rest);
    var default', default := DefaultWritten(read.rest, read.info);
    var rest := ReadDefault(read.rest, read.info).value;
    var tokens := [OneName(first.text), Spelled(Colon, ":")];
    NameAndColonStand(head);
    AnyIsOne(first);
    DefaultApart(v, default);
    Together(type', TypeTokens(v), default', DefaultTokens(default), rest);
    Together(head, tokens, type' + default', TypeTokens(v) + DefaultTokens(default), rest);
    v := v.(default := default);
    VariableReading.VariableGroups(v);
    here := head + (type' + default');
  }

  lemma AnyIsOne(lexeme: Lexeme)
    requires FromScanner(lexeme) && lexeme.token == GName
    ensures AnyName(lexeme.text) == OneName(lexeme.text)
  {
    hide NameToken;
  }

  lemma DefaultApart(v: Variables, default: Option<Value>)
    requires v.Variable?
    ensures TypeTokens(v) == TypeTokens(v.(default := default))
  {
  }

  /** An operation's name, and its variables in parentheses. */
  lemma HeaderWritten(lexemes: seq<Lexeme>) returns (here: seq<Lexeme>, manner: Manner)
    requires AllFromScanner(lexemes)
    requires var r := QS.ReadHeader(lexemes); r.Read? && r.rest != []
    ensures var r := QS.ReadHeader(lexemes);
            && lexemes == here + r.rest && Stands(here, HeaderTokens(r.value, manner)) && !manner.Short?
            && (manner.With? ==> here != [] && here[|here| - 1].token == CloseParen && VariablesFit(manner.variables))
  {
    hide Stands, FromScanner, ReadVariables, VariablesTokens, VariablesFit, NameToken;
    var r := QS.ReadHeader(lexemes);
    manner := Plain;
    if r.value.None? {
      here := [];
      NothingStands();
    } else {
      var first := lexemes[0];
      assert FromScanner(first);
      assert lexemes == [first] + lexemes[1..];
      RestFromScanner([first], lexemes[1..]);
      AnyNameStands(first);
      here := [first];
      assert [AnyName(first.text)] + [] == [AnyName(first.text)];
      if Starts(lexemes[1..], OpenParen) {
        var v;
        here, v := ParenthesesWritten(lexemes[1..]);
        manner := With(v);
        Together([first], [AnyName(first.text)], here, ParenthesesTokens(v), r.rest);
        here := [first] + here;
      }
    }
  }

  lemma ParenthesesWritten(lexemes: seq<Lexeme>) returns (here: seq<Lexeme>, v: Variables)
    requires AllFromScanner(lexemes) && Starts(lexemes, OpenParen)
    requires ReadVariables(lexemes[1..]).Some? && Starts(ReadVariables(lexemes[1..]).value, CloseParen)
    ensures lexemes == here + ReadVariables(lexemes[1..]).value[1..] && Stands(here, ParenthesesTokens(v))
    ensures VariablesFit(v) && here != [] && here[|here| - 1].token == CloseParen
  {
    hide Stands, FromScanner, ReadVariables, VariablesTokens, VariablesFit;
    var open, behind := lexemes[0], lexemes[1..];
    assert lexemes == [open] + behind;
    RestFromScanner([open], behind);
    var close, rest := ReadVariables(behind).value[0], ReadVariables(behind).value[1..];
    assert ReadVariables(behind).value == [close] + rest;
    here, v := VariablesWritten(behind);
    OneStands(open, Spelled(OpenParen, "("));
    OneStands(close, Spelled(CloseParen, ")"));
    Together(here, VariablesTokens(v), [close], [Spelled(CloseParen, ")")], rest);
    Together([open], [Spelled(OpenParen, "(")], here + [close], VariablesTokens(v) + [Spelled(CloseParen, ")")], rest);
    here := [open] + (here + [close]);
  }

  // The tokens stand for a definition put in this manner, with a default value that fits.
  predicate StandsFor(here: seq<Lexeme>, d: Definition, manner: Manner) {
    && Stands(here, DefinitionTokens(d, manner)) && MannerFits(d, manner)
    && (HasVariables(d, manner) ==> 1 + |HeaderTokens(d.operationName, manner)| <= |here| &&
                                    here[|HeaderTokens(d.operationName, manner)|].token == CloseParen)
  }

  lemma OperationWritten(keyword: Lexeme, operationType: OperationType, lexemes: seq<Lexeme>)
    returns (here: seq<Lexeme>, manner: Manner)
    requires AllFromScanner([keyword] + lexemes) && keyword.token == OperationKeyword(operationType).token
    requires QS.ReadOperation(operationType, lexemes).Read?
    ensures var r := QS.ReadOperation(operationType, lexemes);
            [keyword] + lexemes == here + r.rest && StandsFor(here, r.value, manner) && here != []
  {
    hide QS.ReadHeader, QS.ReadDirectives, QS.ReadBraces, Stands, FromScanner, DirectivesTokens, BracesTokens,
      HeaderTokens, VariablesFit, NameToken;
    var r, header := QS.ReadOperation(operationType, lexemes), QS.ReadHeader(lexemes);
    RestFromScanner([keyword], lexemes);
    var first;
    first, manner := HeaderWritten(lexemes);
    RestFromScanner(first, header.rest);
    var body, ds, selections := BodyWritten(header.rest, r.rest);
    var tokens := DirectivesTokens(ds) + BracesTokens(selections);
    KeywordStands(keyword, operationType, [keyword] + lexemes);
    Together(first, HeaderTokens(header.value, manner), body, tokens, r.rest);
    Together([keyword], [OperationKeyword(operationType)], first + body,
           HeaderTokens(header.value, manner) + tokens, r.rest);
    here := [keyword] + (first + body);
    SameLength(first, HeaderTokens(header.value, manner));
    assert manner.With? ==> here[|first|] == first[|first| - 1];
  }

  lemma SameLength(here: seq<Lexeme>, tokens: seq<Lexeme>)
    requires Stands(here, tokens)
    ensures |here| == |tokens|
  {
  }

  lemma KeywordStands(keyword: Lexeme, operationType: OperationType, lexemes: seq<Lexeme>)
    requires AllFromScanner(lexemes) && lexemes != [] && lexemes[0] == keyword
    requires keyword.token == OperationKeyword(operationType).token
    ensures Stands([keyword], [OperationKeyword(operationType)])
  {
    assert FromScanner(lexemes[0]);
    hide NameToken;
    TokenTexts.NameKinds(keyword.text, keyword.token);
  }

  lemma FragmentDefinitionWritten(keyword: Lexeme, lexemes: seq<Lexeme>) returns (here: seq<Lexeme>)
    requires AllFromScanner([keyword] + lexemes) && keyword.token == FragmentKeyword
    requires QS.ReadFragmentDefinition(lexemes).Read?
    ensures var r := QS.ReadFragmentDefinition(lexemes);
            [keyword] + lexemes == here + r.rest && StandsFor(here, r.value, Plain) && here != []
  {
    hide QS.ReadFragmentOn, QS.ReadDirectives, QS.ReadBraces, Stands, AllFromScanner, DirectivesTokens, BracesTokens,
      FragmentHeadTokens, DefinitionTokens, HeaderTokens, VariablesFit;
    var all, r := [keyword] + lexemes, QS.ReadFragmentDefinition(lexemes);
    var head, behind := all[..4], lexemes[1..][1..][1..];
    var name, typeName := head[1].text, head[3].text;
    assert all[1..] == lexemes;
    FragmentHead(all, lexemes);
    RestFromScanner(head, behind);
    FragmentBody(name, typeName, behind);
    var body, ds, selections := BodyWritten(behind, r.rest);
    Together(head, FragmentHeadTokens(name, typeName), body, DirectivesTokens(ds) + BracesTokens(selections), r.rest);
    here := head + body;
    FragmentTokens(r.value, Plain);
  }

  lemma FragmentHead(all: seq<Lexeme>, lexemes: seq<Lexeme>)
    requires AllFromScanner(all) && all != [] && all[0].token == FragmentKeyword && all[1..] == lexemes
    requires Starts(lexemes, GName) && Starts(lexemes[1..], OnKeyword) && Starts(lexemes[1..][1..], GName)
    ensures all == all[..4] + lexemes[1..][1..][1..]
    ensures all[1] == lexemes[0] && all[3] == lexemes[1..][1..][0]
    ensures Stands(all[..4], FragmentHeadTokens(all[1].text, all[3].text))
  {
    hide Stands, FromScanner, NameToken, Literal;
    assert all[2] == lexemes[1..][0];
    OnIsLiteral();
    HeadStands(all[..4], FragmentHeadTokens(all[1].text, all[3].text));
  }

  lemma FragmentBody(name: string, typeName: string, lexemes: seq<Lexeme>)
    requires QS.ReadFragmentOn(name, typeName, lexemes).Read?
    ensures var directives := QS.ReadDirectives(lexemes, []);
            && directives.Read? && QS.ReadBraces(directives.rest).Read?
            && var selections := QS.ReadBraces(directives.rest);
               QS.ReadFragmentOn(name, typeName, lexemes) ==
               QS.Read(FragmentDefinition(name, typeName, directives.value, selections.value), selections.rest)
  {
    hide QS.ReadDirectives, QS.ReadBraces;
  }

  lemma DefinitionWritten(lexemes: seq<Lexeme>) returns (here: seq<Lexeme>, manner: Manner)
    requires AllFromScanner(lexemes) && lexemes != [] && QS.ReadDefinition(lexemes).Read?
    ensures var r := QS.ReadDefinition(lexemes);
            lexemes == here + r.rest && StandsFor(here, r.value, manner) && here != []
  {
    hide QS.ReadOperation, QS.ReadSelections, QS.ReadFragmentDefinition, Stands, FromScanner, BracesTokens, StandsFor;
    assert lexemes == [lexemes[0]] + lexemes[1..];
    match lexemes[0].token
    case QueryKeyword => here, manner := OperationWritten(lexemes[0], Query, lexemes[1..]);
    case MutationKeyword => here, manner := OperationWritten(lexemes[0], Mutation, lexemes[1..]);
    case SubscriptionKeyword => here, manner := OperationWritten(lexemes[0], Subscription, lexemes[1..]);
    case OpenBrace =>
      var selections;
      here, selections := BracesWritten(lexemes);
      manner := Short;
      ShortStands(here, selections);
    case FragmentKeyword =>
      here := FragmentDefinitionWritten(lexemes[0], lexemes[1..]);
      manner := Plain;
  }

  lemma ShortStands(here: seq<Lexeme>, selections: seq<Selection>)
    requires Stands(here, BracesTokens(selections))
    ensures StandsFor(here, OperationDefinition(Query, None, [], selections), Short) && here != []
  {
    hide SelectionsTokens;
    SameLength(here, BracesTokens(selections));
  }

  /** One after the other, the tokens stand for definitions. */
  ghost predicate StandForAll(here: seq<Lexeme>, definitions: seq<Definition>, manners: seq<Manner>)
    requires |manners| == |definitions|
  {
    if definitions == [] then here == []
    else
      exists n: nat | n <= |here| ::
        StandsFor(here[..n], definitions[0], manners[0]) && StandForAll(here[n..], definitions[1..], manners[1..])
  }

  /** Nothing but documents is read: the tokens stand for the definitions of the document that is read from
      them, in some manner each, with default values that fit. */
  lemma {:induction false} DocumentWritten(lexemes: seq<Lexeme>, operations: seq<Definition>,
                                           fragments: seq<Definition>)
    returns (definitions: seq<Definition>, manners: seq<Manner>)
    requires AllFromScanner(lexemes) && QS.ReadDocument(lexemes, operations, fragments).Some?
    ensures |manners| == |definitions| && StandForAll(lexemes, definitions, manners)
    ensures QS.ReadDocument(lexemes, operations, fragments) ==
            Some(Document(operations + OperationsOf(definitions), fragments + FragmentsOf(definitions)))
    decreases |lexemes|
  {
    hide QS.ReadDefinition, FromScanner, StandsFor, OperationsOf, FragmentsOf;
    if lexemes == [] {
      definitions, manners := [], [];
      NoDefinitions(operations, fragments);
    } else {
      var r := QS.ReadDefinition(lexemes);
      var here, manner := DefinitionWritten(lexemes);
      RestFromScanner(here, r.rest);
      var operations' := if r.value.FragmentDefinition? then operations else operations + [r.value];
      var fragments' := if r.value.FragmentDefinition? then fragments + [r.value] else fragments;
      definitions, manners := DocumentWritten(r.rest, operations', fragments');
      NextDefinition(r.value, definitions, operations, fragments);
      definitions, manners := [r.value] + definitions, [manner] + manners;
      assert definitions[1..] + [] == definitions[1..] && manners[1..] + [] == manners[1..];
      var n := |here|;
      assert lexemes[..n] == here && lexemes[n..] == r.rest;
    }
  }

  lemma NoDefinitions(operations: seq<Definition>, fragments: seq<Definition>)
    ensures operations + OperationsOf([]) == operations && fragments + FragmentsOf([]) == fragments
  {
  }

  lemma NextDefinition(d: Definition, more: seq<Definition>, operations: seq<Definition>, fragments: seq<Definition>)
    ensures (if d.FragmentDefinition? then operations else operations + [d]) + OperationsOf(more) ==
            operations + OperationsOf([d] + more)
    ensures (if d.FragmentDefinition? then fragments + [d] else fragments) + FragmentsOf(more) ==
            fragments + FragmentsOf([d] + more)
  {
    FirstDefinition(d, more);
    hide OperationsOf, FragmentsOf;
    if d.FragmentDefinition? {
      assert fragments + [d] + FragmentsOf(more) == fragments + ([d] + FragmentsOf(more));
    } else {
      assert operations + [d] + OperationsOf(more) == operations + ([d] + OperationsOf(more));
    }
  }

  lemma FirstDefinition(d: Definition, more: seq<Definition>)
    ensures OperationsOf([d] + more) == if d.FragmentDefinition? then OperationsOf(more) else [d] + OperationsOf(more)
    ensures FragmentsOf([d] + more) == if d.FragmentDefinition? then [d] + FragmentsOf(more) else FragmentsOf(more)
  {
    assert ([d] + more)[0] == d && ([d] + more)[1..] == more;
    assert [] + OperationsOf(more) == OperationsOf(more) && [] + FragmentsOf(more) == FragmentsOf(more);
  }

  lemma {:induction false} NextFromScanner(s: string, p: nat, lag: nat)
    requires lag <= p <= |s| + 1 && Next(s, p, lag, true).token != EndOfDocument
    ensures FromScanner(LexemeOf(s, Next(s, p, lag, true)))
    decreases |s| + 1 - p
  {
    hide NameToken, TokenFrom, TriviaEnd;
    if IsTrivia(s[p]) {
      NextFromScanner(s, TriviaEnd(s, p), lag + TriviaLag(s, p));
    } else {
      TokenNamed(s, p - lag, p);
    }
  }

  lemma TokenNamed(s: string, start: nat, p: nat)
    requires start <= p < |s| && !IsTrivia(s[p])
    ensures var r := TokenFrom(s, start, p);
            QS.IsName(Lexeme(r.0, "", 0, 0)) ==> r.0 == NameToken(TextBetween(s, start, r.1))
  {
    hide NameToken, StringToken, Dots, Number, Punctuator;
  }

  lemma {:induction false} LexemesFromScanner(s: string, p: nat)
    requires p <= |s| + 1
    ensures AllFromScanner(Lexemes(s, p))
    decreases |s| + 1 - p
  {
    hide Next, FromScanner;
    var next := Next(s, p, 0, true);
    if next.token != EndOfDocument {
      NextFromScanner(s, p, 0);
      LexemesFromScanner(s, next.end);
    }
  }
}
