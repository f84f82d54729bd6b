/** The query parser reads back every document from its tokens. */
module DocumentReading {
  import opened SourceText
  import opened GraphQlTokens
  import opened GraphQlLexer
  import opened GraphQlSyntax
  import opened ValueRules
  import opened Selections
  import opened TokenLanguages
  import opened ValueTokens
  import opened DocumentTokens
  import VariableReading
  import VariableSyntax
  import QS = QuerySyntax
  import VS = ValueSyntax

  // What the tokens of a name with a colon are.
  lemma NameThen(here: seq<Lexeme>, name: string, second: Lexeme, after: seq<Lexeme>)
    requires Spells(here, [AnyName(name), second])
    ensures |here| == 2 && QS.IsName(here[0]) && here[0].text == name && here[1].token == second.token
    ensures here[1].text == second.text
    ensures (here + after)[0] == here[0] && (here + after)[1..] == [here[1]] + after
    ensures (here + after)[1..][1..] == after
  {
    NameIsAny(name);
  }

  lemma {:induction false} ArgumentRead(here: seq<Lexeme>, a: Argument, before: seq<Argument>, after: seq<Lexeme>)
    returns (b: Argument)
    requires Readable(a.value) && DirectivesReadable(a.directives) && Spells(here, ArgumentTokens(a)) && Ends(after)
    ensures QS.ReadArguments(here + after, before) == QS.ReadArguments(after, before + [b])
    ensures BareArguments([b]) == BareArguments([a])
    decreases a, 0
  {
    hide VS.ParseValue, QS.ReadArguments, QS.ReadDirectives, Spells, NameToken, TokensOf, DirectivesTokens, Ends, Bare,
      BareDirectives, Readable;
    var head := [AnyName(a.name), Spelled(Colon, ":")];
    var value, directives := TokensOf(a.value), DirectivesTokens(a.directives);
    Cut(here, head, value + directives, after);
    var rest := here[2..];
    Cut(rest, value, directives, after);
    NameThen(here[..2], a.name, Spelled(Colon, ":"), rest + after);
    var n := |value|;
    var v := ReadableRead(rest[..n], a.value, rest[n..] + after);
    var ds := DirectivesRead(rest[n..], a.directives, [], after);
    assert [] + ds == ds;
    b := Argument(a.name, v, ds);
    QS.ArgumentsStep(here + after, before);
    OneArgument(a);
    OneArgument(b);
  }

  lemma OneArgument(a: Argument)
    ensures BareArguments([a]) == [Argument(a.name, Bare(a.value), BareDirectives(a.directives))]
  {
    hide Bare, BareDirectives;
  }

  lemma ReadableRead(here: seq<Lexeme>, v: Value, after: seq<Lexeme>) returns (w: Value)
    requires Readable(v) && Spells(here, TokensOf(v))
    ensures VS.ParseValue(here + after, false) == VS.Parsed(w, after) && Bare(w) == Bare(v)
  {
    hide VS.ParseValue, TokensOf, Bare;
    w := ValueRead(here, v, after, false);
  }

  lemma {:induction false} ArgumentsRead(here: seq<Lexeme>, arguments: seq<Argument>, before: seq<Argument>,
                                         after: seq<Lexeme>)
    returns (r: seq<Argument>)
    requires ArgumentsReadable(arguments) && Spells(here, ArgumentsTokens(arguments))
    ensures QS.ReadArguments(here + after, before) == QS.Read(before + r, after)
    ensures BareArguments(r) == BareArguments(arguments)
    decreases arguments, 1
  {
    hide VS.ParseValue, QS.ReadArguments, QS.ReadDirectives, Spells, Bare, BareDirectives, Readable, BareArguments,
      ArgumentTokens, ArgumentsTokens, Ends;
    ArgumentsStart(here, arguments, after);
    if arguments == [] {
      r := [];
      QS.ArgumentsStep(here + after, before);
      assert before + [] == before;
    } else {
      var n := |ArgumentTokens(arguments[0])|;
      ArgumentsCut(here, arguments, after);
      ArgumentsStart(here[n..], arguments[1..], after);
      var b := ArgumentRead(here[..n], arguments[0], before, here[n..] + after);
      var more := ArgumentsRead(here[n..], arguments[1..], before + [b], after);
      r := [b] + more;
      assert before + r == before + [b] + more;
      FirstArgument(arguments);
      FirstArgument(r);
      assert r[1..] == more;
    }
  }

  lemma FirstArgument(arguments: seq<Argument>)
    requires arguments != []
    ensures BareArguments(arguments) == BareArguments([arguments[0]]) + BareArguments(arguments[1..])
  {
    hide Bare, BareDirectives;
  }

  lemma ArgumentsCut(here: seq<Lexeme>, arguments: seq<Argument>, after: seq<Lexeme>)
    requires arguments != [] && Spells(here, ArgumentsTokens(arguments))
    ensures var n := |ArgumentTokens(arguments[0])|;
            && n <= |here| && Spells(here[..n], ArgumentTokens(arguments[0]))
            && Spells(here[n..], ArgumentsTokens(arguments[1..])) && here + after == here[..n] + (here[n..] + after)
  {
    hide ArgumentTokens, Spells;
    Cut(here, ArgumentTokens(arguments[0]), ArgumentsTokens(arguments[1..]), after);
  }

  // Arguments start with a name, or with the parenthesis that closes them.
  lemma ArgumentsStart(here: seq<Lexeme>, arguments: seq<Argument>, after: seq<Lexeme>)
    requires Spells(here, ArgumentsTokens(arguments))
    ensures here != [] && Ends(here + after)
    ensures arguments == [] ==> !QS.IsName((here + after)[0]) && (here + after)[1..] == after
  {
    hide NameToken, TokensOf, DirectivesTokens;
    FirstOf(here, after);
    if arguments != [] {
      NameIsAny(arguments[0].name);
      assert ArgumentsTokens(arguments)[0] == AnyName(arguments[0].name);
    }
  }

  lemma {:induction false} ListRead(here: seq<Lexeme>, list: ArgumentList, after: seq<Lexeme>) returns (r: ArgumentList)
    requires ListReadable(list) && Spells(here, ArgumentListTokens(list)) && !Starts(after, OpenParen)
    ensures QS.ReadOptionalArguments(here + after) == QS.Read(r, after) && BareList(r) == BareList(list)
    decreases list, 0
  {
    hide QS.ReadArguments, ArgumentsTokens, BareArguments;
    match list
    case NoParentheses =>
      r := NoParentheses;
      assert here + after == after;
    case Parentheses(arguments) =>
      Cut(here, [Spelled(OpenParen, "(")], ArgumentsTokens(arguments), after);
      FirstOf(here, after);
      var more := ArgumentsRead(here[1..], arguments, [], after);
      assert [] + more == more;
      r := Parentheses(more);
  }

  lemma {:induction false} DirectivesRead(here: seq<Lexeme>, directives: seq<Directive>, before: seq<Directive>,
                                          after: seq<Lexeme>)
    returns (r: seq<Directive>)
    requires DirectivesReadable(directives) && Spells(here, DirectivesTokens(directives)) && Ends(after)
    ensures QS.ReadDirectives(here + after, before) == QS.Read(before + r, after)
    ensures BareDirectives(r) == BareDirectives(directives)
    decreases directives, 0
  {
    hide QS.ReadDirectives, QS.ReadOptionalArguments, ArgumentListTokens, BareList, ListReadable, NameToken, Spells;
    if directives == [] {
      r := [];
      NothingBut(here, after);
      QS.DirectivesEnd(after, before);
      assert before + [] == before;
    } else {
      var d := directives[0];
      var list, others := ArgumentListTokens(d.arguments), DirectivesTokens(directives[1..]);
      Cut(here, [Spelled(At, "@"), AnyName(d.name)], list + others, after);
      var rest := here[2..];
      Cut(rest, list, others, after);
      AtAndName(here, d.name, rest + after);
      var n := |list|;
      DirectivesStart(rest[n..], directives[1..], after);
      var arguments := ListRead(rest[..n], d.arguments, rest[n..] + after);
      var e := Directive(d.name, arguments);
      QS.DirectivesStep(here + after, before);
      var more := DirectivesRead(rest[n..], directives[1..], before + [e], after);
      r := [e] + more;
      assert before + r == before + [e] + more;
      assert r[1..] == more;
    }
  }

  lemma NothingBut(here: seq<Lexeme>, after: seq<Lexeme>)
    requires Spells(here, [])
    ensures here + after == after
  {
    assert here == [];
  }

  // An at sign and the name behind it.
  lemma AtAndName(here: seq<Lexeme>, name: string, after: seq<Lexeme>)
    requires |here| >= 2 && Spells(here[..2], [Spelled(At, "@"), AnyName(name)])
    ensures var all := here[..2] + after;
            && |all| >= 2 && all[0].token == At && QS.IsName(all[1]) && all[1].text == name
            && all[1].start == all[0].end && all[1..][1..] == after
  {
    NameIsAny(name);
    assert Joined(here[..2]) && here[..2][0].token == At;
  }

  lemma DirectivesStart(here: seq<Lexeme>, directives: seq<Directive>, after: seq<Lexeme>)
    requires Spells(here, DirectivesTokens(directives)) && !Starts(after, OpenParen)
    ensures !Starts(here + after, OpenParen)
  {
    hide ArgumentListTokens, NameToken;
    if directives != [] {
      assert DirectivesTokens(directives)[0] == Spelled(At, "@");
    }
  }

  lemma AliasRead(here: seq<Lexeme>, alias: Option<string>, name: string, after: seq<Lexeme>)
    requires Spells(here, AliasTokens(alias, name)) && !Starts(after, Colon)
    ensures var all := here + after;
            && here != [] && all[0] == here[0] && QS.IsName(here[0]) && here[0].text == alias.GetOr(name)
            && QS.ReadAlias(here[0].text, all[1..]) == QS.Read((alias, name), after)
  {
    NameIsAny(alias.GetOr(name));
    var all := here + after;
    if alias.None? {
      assert all[1..] == after;
    } else {
      assert all[1..][0] == here[1] && all[1..][1..][0] == here[2] && all[1..][1..][1..] == after;
    }
  }

  // What directives, or the braces behind them, start with ends arguments and an alias.
  lemma BracesStart(here: seq<Lexeme>, selectionSet: SelectionSet, after: seq<Lexeme>)
    requires Spells(here, SetTokens(selectionSet)) && EndsField(after)
    ensures Ends(here + after) && !Starts(here + after, Colon)
  {
    hide SelectionsTokens;
  }

  lemma DirectivesEndAlias(here: seq<Lexeme>, directives: seq<Directive>, after: seq<Lexeme>)
    requires Spells(here, DirectivesTokens(directives)) && !Starts(after, Colon)
    ensures !Starts(here + after, Colon)
  {
    hide ArgumentListTokens, NameToken;
    if directives != [] {
      assert DirectivesTokens(directives)[0] == Spelled(At, "@");
    }
  }

  lemma ListEndsAlias(here: seq<Lexeme>, list: ArgumentList, after: seq<Lexeme>)
    requires Spells(here, ArgumentListTokens(list)) && !Starts(after, Colon)
    ensures !Starts(here + after, Colon)
  {
    hide ArgumentsTokens;
  }

  lemma {:induction false} FieldRead(here: seq<Lexeme>, s: Selection, after: seq<Lexeme>) returns (t: Selection)
    requires s.Field? && SelectionReadable(s) && Spells(here, SelectionTokens(s)) && EndsField(after)
    ensures here != [] && QS.IsName(here[0])
    ensures QS.ReadSelection(here + after) == QS.Read(t, after) && BareSelection(t) == BareSelection(s)
    decreases s, 0
  {
    hide QS.ReadDirectives, QS.ReadOptionalArguments, QS.ReadOptionalBraces, QS.ReadAlias, QS.ReadField,
      ArgumentListTokens, DirectivesTokens, AliasTokens, SetTokens, Spells, BareList, BareDirectives, ListReadable,
      DirectivesReadable, SelectionsReadable, EndsField, Ends, QS.IsName, BareSet;
    var a, b, c, d := AliasTokens(s.alias, s.name), ArgumentListTokens(s.arguments), DirectivesTokens(s.directives),
                      SetTokens(s.selectionSet);
    Cut(here, a, b + (c + d), after);
    var rest := here[|a|..];
    Cut(rest, b, c + d, after);
    var more := rest[|b|..];
    Cut(more, c, d, after);
    var last := more[|c|..];
    BracesStart(last, s.selectionSet, after);
    DirectivesEndAlias(more[..|c|], s.directives, last + after);
    ListEndsAlias(rest[..|b|], s.arguments, more + after);
    AliasRead(here[..|a|], s.alias, s.name, rest + after);
    EndsOpens(last + after);
    DirectivesStart(more[..|c|], s.directives, last + after);
    var arguments := ListRead(rest[..|b|], s.arguments, more + after);
    var directives := DirectivesRead(more[..|c|], s.directives, [], last + after);
    assert [] + directives == directives;
    var selectionSet := SetRead(last, s.selectionSet, after);
    t := Field(s.alias, s.name, arguments, directives, selectionSet);
    QS.FieldPartsRead(here[0].text, (here + after)[1..]);
  }

  lemma EndsOpens(after: seq<Lexeme>)
    requires Ends(after)
    ensures !Starts(after, OpenParen)
  {
  }

  lemma {:induction false} SetRead(here: seq<Lexeme>, selectionSet: SelectionSet, after: seq<Lexeme>)
    returns (r: SelectionSet)
    requires selectionSet.Braces? ==> SelectionsReadable(selectionSet.selections)
    requires Spells(here, SetTokens(selectionSet)) && EndsField(after)
    ensures QS.ReadOptionalBraces(here + after) == QS.Read(r, after) && BareSet(r) == BareSet(selectionSet)
    decreases selectionSet, 0
  {
    hide QS.ReadSelections, SelectionsReadable, SelectionsTokens, BareSelections;
    match selectionSet
    case NoBraces =>
      r := NoBraces;
      assert here + after == after;
    case Braces(selections) =>
      Cut(here, [Spelled(OpenBrace, "{")], SelectionsTokens(selections), after);
      FirstOf(here, after);
      var more := SelectionsRead(here[1..], selections, [], after);
      assert [] + more == more;
      r := Braces(more);
  }

  lemma {:induction false} BracesRead(here: seq<Lexeme>, selections: seq<Selection>, after: seq<Lexeme>)
    returns (r: seq<Selection>)
    requires SelectionsReadable(selections) && Spells(here, BracesTokens(selections))
    ensures here != [] && here[0].token == OpenBrace
    ensures QS.ReadSelections((here + after)[1..], []) == QS.Read(r, after)
    ensures QS.ReadBraces(here + after) == QS.Read(r, after) && BareSelections(r) == BareSelections(selections)
    decreases selections, 2
  {
    hide QS.ReadSelections, SelectionsReadable, SelectionsTokens, BareSelections;
    Cut(here, [Spelled(OpenBrace, "{")], SelectionsTokens(selections), after);
    FirstOf(here, after);
    r := SelectionsRead(here[1..], selections, [], after);
    assert [] + r == r;
  }

  lemma {:induction false} InlineFragmentRead(here: seq<Lexeme>, s: Selection, after: seq<Lexeme>)
    returns (t: Selection)
    requires s.InlineFragment? && SelectionReadable(s) && Spells(here, SelectionTokens(s))
    ensures here != [] && here[0].token == Ellipses
    ensures QS.ReadSelection(here + after) == QS.Read(t, after) && BareSelection(t) == BareSelection(s)
    decreases s, 0
  {
    hide QS.ReadDirectives, QS.ReadBraces, DirectivesTokens, Spells, BareDirectives, DirectivesReadable,
      SelectionsReadable, SelectionsTokens, BareSelections;
    var head := [Spelled(Ellipses, "..."), Spelled(OnKeyword, "on"), OneName(s.typeName)];
    var b, c := DirectivesTokens(s.directives), BracesTokens(s.selections);
    Cut(here, head, b + c, after);
    var rest := here[3..];
    Cut(rest, b, c, after);
    var last := rest[|b|..];
    HeadRead(here, head, rest + after);
    var selections := BracesRead(last, s.selections, after);
    FirstOf(last, after);
    var directives := DirectivesRead(rest[..|b|], s.directives, [], last + after);
    assert [] + directives == directives;
    t := InlineFragment(s.typeName, directives, selections);
    InlineFragmentParts(here + after, s.typeName, rest + after);
  }

  // An inline fragment behind its dots and its type.
  lemma InlineFragmentParts(all: seq<Lexeme>, typeName: string, rest: seq<Lexeme>)
    requires |all| >= 3 && all[0].token == Ellipses && all[1..][0].token == OnKeyword
    requires all[1..][1..][0].token == GName && all[1..][1..][0].text == typeName && all[1..][1..][1..] == rest
    ensures QS.ReadSelection(all) == QS.ReadInlineFragment(typeName, rest)
  {
    hide QS.ReadInlineFragment;
  }

  // The first tokens of a fragment.
  lemma HeadRead(here: seq<Lexeme>, head: seq<Lexeme>, after: seq<Lexeme>)
    requires 2 <= |head| <= |here| && Spells(here[..|head|], head)
    ensures var all := here[..|head|] + after;
            && all[0] == here[0] && here[0].token == head[0].token
            && all[1..][0] == here[1] && here[1].token == head[1].token && here[1].text == head[1].text
            && (|head| == 2 ==> all[1..][1..] == after)
            && (|head| >= 3 ==>
                  && all[1..][1..][0] == here[2] && here[2].token == head[2].token && here[2].text == head[2].text
                  && (|head| == 3 ==> all[1..][1..][1..] == after)
                  && (|head| == 4 ==>
                        && all[1..][1..][1..][0] == here[3] && here[3].token == head[3].token
                        && here[3].text == head[3].text && all[1..][1..][1..][1..] == after))
  {
    assert forall k | 0 <= k < |head| :: here[..|head|][k] == here[k];
  }

  lemma {:induction false} SpreadRead(here: seq<Lexeme>, s: Selection, after: seq<Lexeme>) returns (t: Selection)
    requires s.FragmentSpread? && SelectionReadable(s) && Spells(here, SelectionTokens(s)) && EndsField(after)
    ensures here != [] && here[0].token == Ellipses
    ensures QS.ReadSelection(here + after) == QS.Read(t, after) && BareSelection(t) == BareSelection(s)
    decreases s, 0
  {
    hide QS.ReadDirectives, DirectivesTokens, Spells, BareDirectives, DirectivesReadable;
    var head := [Spelled(Ellipses, "..."), OneName(s.spread)];
    Cut(here, head, DirectivesTokens(s.directives), after);
    HeadRead(here, head, here[2..] + after);
    var directives := DirectivesRead(here[2..], s.directives, [], after);
    assert [] + directives == directives;
    t := FragmentSpread(s.spread, directives);
  }

  lemma {:induction false} SelectionRead(here: seq<Lexeme>, s: Selection, after: seq<Lexeme>) returns (t: Selection)
    requires SelectionReadable(s) && Spells(here, SelectionTokens(s)) && EndsField(after)
    ensures here != [] && (QS.IsName(here[0]) || here[0].token == Ellipses)
    ensures QS.ReadSelection(here + after) == QS.Read(t, after) && BareSelection(t) == BareSelection(s)
    decreases s, 1
  {
    hide QS.ReadSelection, Spells, SelectionReadable, SelectionTokens, BareSelection, QS.IsName, EndsField;
    match s
    case Field(_, _, _, _, _) => t := FieldRead(here, s, after);
    case InlineFragment(_, _, _) => t := InlineFragmentRead(here, s, after);
    case FragmentSpread(_, _) => t := SpreadRead(here, s, after);
  }

  lemma {:induction false} SelectionsRead(here: seq<Lexeme>, selections: seq<Selection>, before: seq<Selection>,
                                          after: seq<Lexeme>)
    returns (r: seq<Selection>)
    requires SelectionsReadable(selections) && Spells(here, SelectionsTokens(selections))
    ensures QS.ReadSelections(here + after, before) == QS.Read(before + r, after)
    ensures BareSelections(r) == BareSelections(selections)
    decreases selections, 1
  {
    hide QS.ReadSelection, QS.ReadSelections, Spells, SelectionReadable, SelectionTokens, SelectionsTokens,
      BareSelection, QS.IsName, EndsField;
    if selections == [] {
      r := [];
      NoSelectionRead(here, before, after);
      assert before + [] == before;
    } else {
      var n := |SelectionTokens(selections[0])|;
      SelectionsCut(here, selections, after);
      var rest := here[n..] + after;
      SelectionsStart(here[n..], selections[1..], after);
      var t := SelectionRead(here[..n], selections[0], rest);
      FirstOf(here, after);
      QS.SelectionsStep(here + after, before);
      var more := SelectionsRead(here[n..], selections[1..], before + [t], after);
      r := [t] + more;
      assert before + r == before + [t] + more;
      assert r[1..] == more;
    }
  }

  lemma NoSelectionRead(here: seq<Lexeme>, before: seq<Selection>, after: seq<Lexeme>)
    requires Spells(here, SelectionsTokens([]))
    ensures QS.ReadSelections(here + after, before) == QS.Read(before, after)
  {
    FirstOf(here, after);
    assert here[1..] + after == after;
  }

  // Selections start with a name, with dots, or with the brace that closes them.
  lemma SelectionsStart(here: seq<Lexeme>, selections: seq<Selection>, after: seq<Lexeme>)
    requires Spells(here, SelectionsTokens(selections))
    ensures EndsField(here + after)
  {
    hide NameToken, ArgumentListTokens, DirectivesTokens, SetTokens, BracesTokens;
    FirstOf(here, after);
    if selections != [] {
      var s := selections[0];
      assert SelectionsTokens(selections)[0] == SelectionTokens(s)[0];
      if s.Field? {
        NameIsAny(s.Key());
        assert SelectionTokens(s)[0] == AnyName(s.Key());
      } else {
        assert SelectionTokens(s)[0] == Spelled(Ellipses, "...");
      }
    }
  }

  lemma SelectionsCut(here: seq<Lexeme>, selections: seq<Selection>, after: seq<Lexeme>)
    requires selections != [] && Spells(here, SelectionsTokens(selections))
    ensures var n := |SelectionTokens(selections[0])|;
            && n <= |here| && here != [] && n > 0 && here[..n][0] == here[0]
            && Spells(here[..n], SelectionTokens(selections[0]))
            && Spells(here[n..], SelectionsTokens(selections[1..])) && here + after == here[..n] + (here[n..] + after)
  {
    hide SelectionTokens, Spells;
    Cut(here, SelectionTokens(selections[0]), SelectionsTokens(selections[1..]), after);
  }

  lemma HeaderRead(here: seq<Lexeme>, name: Option<string>, manner: Manner, after: seq<Lexeme>)
    requires Spells(here, HeaderTokens(name, manner))
    requires name.Some? && manner.With? ==> VariablesComplete(manner.variables)
    requires after != [] && !QS.IsName(after[0]) && after[0].token != OpenParen
    ensures QS.ReadHeader(here + after) ==
            if name.Some? && manner.With? ==> VariablesFit(manner.variables) then QS.Read(name, after) else QS.Unread
  {
    hide VariablesComplete, VariablesFit, VariablesTokens, VariableSyntax.ReadVariables;
    if name.None? {
      assert here + after == after;
    } else {
      NameIsAny(name.value);
      FirstOf(here, after);
      if !manner.With? {
        assert here[1..] + after == after;
      } else {
        Cut(here, [AnyName(name.value)], ParenthesesTokens(manner.variables), after);
        ParenthesesRead(here[1..], manner.variables, after);
      }
    }
  }

  lemma ParenthesesRead(here: seq<Lexeme>, v: Variables, after: seq<Lexeme>)
    requires Spells(here, ParenthesesTokens(v)) && VariablesComplete(v)
    ensures Starts(here + after, OpenParen)
    ensures var rest := VariableSyntax.ReadVariables((here + after)[1..]);
            if VariablesFit(v) then rest.Some? && Starts(rest.value, CloseParen) && rest.value[1..] == after
            else rest.None?
  {
    hide VariablesComplete, VariablesFit, VariablesTokens, VariableSyntax.ReadVariables;
    var first, close := VariablesTokens(v), [Spelled(CloseParen, ")")];
    Cut(here, [Spelled(OpenParen, "(")], first + close, after);
    FirstOf(here, after);
    var rest := here[1..];
    Cut(rest, first, close, after);
    var last := rest[|first|..];
    FirstOf(last, after);
    VariableReading.VariablesRead(rest[..|first|], v, last + after);
    assert last[1..] + after == after;
  }

  // Neither directives nor a brace start with a name or a parenthesis.
  lemma NoNameStarts(here: seq<Lexeme>, directives: seq<Directive>, after: seq<Lexeme>)
    requires Spells(here, DirectivesTokens(directives)) && after != [] && after[0].token == OpenBrace
    ensures var all := here + after; all != [] && !QS.IsName(all[0]) && all[0].token != OpenParen
  {
    hide ArgumentListTokens, NameToken;
    if directives != [] {
      assert DirectivesTokens(directives)[0] == Spelled(At, "@");
    } else {
      assert here == [];
    }
  }

  // Directives and the selections behind them.
  lemma BodyRead(here: seq<Lexeme>, d: Definition, after: seq<Lexeme>) returns (e: Definition)
    requires DefinitionReadable(d) && Spells(here, DirectivesTokens(d.directives) + BracesTokens(d.selections))
    ensures e == d.(directives := e.directives, selections := e.selections) && BareDefinition(e) == BareDefinition(d)
    ensures var read := QS.ReadDirectives(here + after, []);
            && read.Read? && read.value == e.directives && QS.ReadBraces(read.rest) == QS.Read(e.selections, after)
    ensures here + after != [] && !QS.IsName((here + after)[0]) && (here + after)[0].token != OpenParen
  {
    hide QS.ReadDirectives, QS.ReadBraces, QS.ReadSelections, DirectivesTokens, Spells, BareDirectives,
      DirectivesReadable, SelectionsReadable, SelectionsTokens, BareSelections;
    var first, second := DirectivesTokens(d.directives), BracesTokens(d.selections);
    Cut(here, first, second, after);
    var n := |first|;
    var selections := BracesRead(here[n..], d.selections, after);
    FirstOf(here[n..], after);
    NoNameStarts(here[..n], d.directives, here[n..] + after);
    var directives := DirectivesRead(here[..n], d.directives, [], here[n..] + after);
    assert [] + directives == directives;
    e := d.(directives := directives, selections := selections);
  }

  lemma OperationRead(here: seq<Lexeme>, d: Definition, manner: Manner, after: seq<Lexeme>) returns (e: Definition)
    requires d.OperationDefinition? && DefinitionReadable(d) && !(manner.Short? && MayBeShort(d))
    requires MannerReadable(d, manner) && Spells(here, DefinitionTokens(d, manner))
    ensures here != []
    ensures QS.ReadDefinition(here + after) == if MannerFits(d, manner) then QS.Read(e, after) else QS.Unread
    ensures BareDefinition(e) == BareDefinition(d) && e.OperationDefinition?
  {
    hide QS.ReadDirectives, QS.ReadBraces, QS.ReadSelections, QS.ReadHeader, DirectivesTokens, BracesTokens, Spells,
      BareDirectives, DefinitionReadable, BareSelections, HeaderTokens, VariablesComplete, VariablesFit;
    var keyword, header := [OperationKeyword(d.operationType)], HeaderTokens(d.operationName, manner);
    var body := DirectivesTokens(d.directives) + BracesTokens(d.selections);
    Cut(here, keyword, header + body, after);
    Cut(here[1..], header, body, after);
    var rest := here[1..][|header|..];
    e := BodyRead(rest, d, after);
    HeaderRead(here[1..][..|header|], d.operationName, manner, rest + after);
    KeywordRead(here, d.operationType, after);
  }

  lemma KeywordRead(here: seq<Lexeme>, operationType: OperationType, after: seq<Lexeme>)
    requires here != [] && Spells(here[..1], [OperationKeyword(operationType)])
    ensures var all := here + after;
            && all[1..] == here[1..] + after && QS.ReadDefinition(all) == QS.ReadOperation(operationType, all[1..])
  {
    hide QS.ReadOperation, QS.ReadSelections, QS.ReadFragmentDefinition;
    FirstOf(here, after);
    assert here[..1][0] == here[0];
  }

  lemma FragmentRead(here: seq<Lexeme>, d: Definition, manner: Manner, after: seq<Lexeme>) returns (e: Definition)
    requires d.FragmentDefinition? && DefinitionReadable(d) && Spells(here, DefinitionTokens(d, manner))
    ensures here != [] && QS.ReadDefinition(here + after) == QS.Read(e, after)
    ensures BareDefinition(e) == BareDefinition(d) && e.FragmentDefinition?
  {
    hide QS.ReadDirectives, QS.ReadBraces, QS.ReadDefinition, QS.ReadFragmentOn, DirectivesTokens, BracesTokens, Spells,
      BareDirectives, DefinitionReadable, BareSelections, FragmentHeadTokens;
    FragmentTokens(d, manner);
    var body := DirectivesTokens(d.directives) + BracesTokens(d.selections);
    Cut(here, FragmentHeadTokens(d.name, d.typeName), body, after);
    e := BodyRead(here[4..], d, after);
    FragmentHeadRead(here, d.name, d.typeName, here[4..] + after);
    FragmentBodyRead(d.name, d.typeName, here[4..] + after);
  }

  lemma FragmentHeadRead(here: seq<Lexeme>, name: string, typeName: string, after: seq<Lexeme>)
    requires 4 <= |here| && Spells(here[..4], FragmentHeadTokens(name, typeName))
    ensures QS.ReadDefinition(here[..4] + after) == QS.ReadFragmentOn(name, typeName, after)
  {
    hide QS.ReadFragmentOn, QS.ReadOperation, QS.ReadSelections, Spells;
    HeadRead(here, FragmentHeadTokens(name, typeName), after);
  }

  // What follows the head of a fragment.
  lemma FragmentBodyRead(name: string, typeName: string, lexemes: seq<Lexeme>)
    ensures var directives := QS.ReadDirectives(lexemes, []);
            directives.Read? ==>
              var selections := QS.ReadBraces(directives.rest);
              selections.Read? ==>
                QS.ReadFragmentOn(name, typeName, lexemes) ==
                QS.Read(FragmentDefinition(name, typeName, directives.value, selections.value), selections.rest)
  {
    hide QS.ReadDirectives, QS.ReadBraces;
  }

  lemma ShortRead(here: seq<Lexeme>, d: Definition, after: seq<Lexeme>) returns (e: Definition)
    requires MayBeShort(d) && DefinitionReadable(d) && Spells(here, BracesTokens(d.selections))
    ensures here != [] && QS.ReadDefinition(here + after) == QS.Read(e, after)
    ensures BareDefinition(e) == BareDefinition(d) && e.OperationDefinition?
  {
    hide QS.ReadSelections, BracesTokens, Spells, SelectionsReadable, BareSelections;
    var selections := BracesRead(here, d.selections, after);
    FirstOf(here, after);
    e := OperationDefinition(Query, None, [], selections);
  }

  lemma DefinitionRead(here: seq<Lexeme>, d: Definition, manner: Manner, after: seq<Lexeme>) returns (e: Definition)
    requires DefinitionReadable(d) && MannerReadable(d, manner) && Spells(here, DefinitionTokens(d, manner))
    ensures here != []
    ensures QS.ReadDefinition(here + after) == if MannerFits(d, manner) then QS.Read(e, after) else QS.Unread
    ensures BareDefinition(e) == BareDefinition(d) && e.OperationDefinition? == d.OperationDefinition?
  {
    hide QS.ReadDefinition, Spells, BareDefinition, DefinitionReadable, BracesTokens, DirectivesTokens, VariablesFit,
      VariablesComplete;
    if manner.Short? && MayBeShort(d) {
      e := ShortRead(here, d, after);
    } else if d.OperationDefinition? {
      e := OperationRead(here, d, manner, after);
    } else {
      e := FragmentRead(here, d, manner, after);
    }
  }

  predicate MannersReadable(definitions: seq<Definition>, manners: seq<Manner>)
    requires |manners| == |definitions|
  {
    forall k | 0 <= k < |definitions| ::
      DefinitionReadable(definitions[k]) && MannerReadable(definitions[k], manners[k])
  }

  predicate MannersFit(definitions: seq<Definition>, manners: seq<Manner>)
    requires |manners| == |definitions|
  {
    forall k | 0 <= k < |definitions| :: MannerFits(definitions[k], manners[k])
  }

  lemma FirstManner(definitions: seq<Definition>, manners: seq<Manner>)
    requires |manners| == |definitions| && definitions != []
    ensures MannersFit(definitions, manners) <==>
            MannerFits(definitions[0], manners[0]) && MannersFit(definitions[1..], manners[1..])
    ensures MannersReadable(definitions, manners) ==> MannersReadable(definitions[1..], manners[1..])
  {
    hide MannerFits, MannerReadable, DefinitionReadable;
    assert forall k | 0 < k < |definitions| ::
             definitions[k] == definitions[1..][k - 1] && manners[k] == manners[1..][k - 1];
  }

  /** Every document is read back from its tokens, in whatever order its definitions come and in whatever
      manner they are put, up to the places of names in its values, if and only if the default values
      of all variables fit. */
  lemma {:induction false} DefinitionsRead(here: seq<Lexeme>, definitions: seq<Definition>, manners: seq<Manner>,
                                           operations: seq<Definition>, fragments: seq<Definition>)
    returns (es: seq<Definition>)
    requires |manners| == |definitions| && MannersReadable(definitions, manners)
    requires Spells(here, DefinitionsTokens(definitions, manners))
    ensures QS.ReadDocument(here, operations, fragments) ==
            if MannersFit(definitions, manners)
            then Some(Document(operations + OperationsOf(es), fragments + FragmentsOf(es))) else None
    ensures BareDefinitions(es) == BareDefinitions(definitions)
    decreases |definitions|
  {
    hide QS.ReadDefinition, Spells, BareDefinition, DefinitionReadable, DefinitionTokens, MannerFits, MannerReadable,
      MannersFit;
    if definitions == [] {
      es := [];
      NothingBut(here, []);
      assert operations + [] == operations && fragments + [] == fragments;
      assert MannersFit([], manners) by { NoManners(manners); }
    } else {
      var d, manner := definitions[0], manners[0];
      var n := |DefinitionTokens(d, manner)|;
      Cut(here, DefinitionTokens(d, manner), DefinitionsTokens(definitions[1..], manners[1..]), []);
      assert here[n..] + [] == here[n..] && here + [] == here;
      var e := DefinitionRead(here[..n], d, manner, here[n..]);
      FirstManner(definitions, manners);
      var operations' := if e.OperationDefinition? then operations + [e] else operations;
      var fragments' := if e.OperationDefinition? then fragments else fragments + [e];
      var more := DefinitionsRead(here[n..], definitions[1..], manners[1..], operations', fragments');
      es := [e] + more;
      assert es[1..] == more;
      assert operations' + OperationsOf(more) == operations + OperationsOf(es);
      assert fragments' + FragmentsOf(more) == fragments + FragmentsOf(es);
    }
  }

  lemma NoManners(manners: seq<Manner>)
    requires manners == []
    ensures MannersFit([], manners)
  {
  }
}
