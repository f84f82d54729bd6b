/** What is read as a value was written as one. */
module WrittenValues {
  import opened SourceText
  import opened GraphQlTokens
  import opened GraphQlLexer
  import opened GraphQlSyntax
  import opened TokenLanguages
  import opened ValuePrinting
  import opened ValueTokens
  import TokenTexts
  import ValueRoundTrip
  import QS = QuerySyntax
  import VS = ValueSyntax

  // A token as it comes from the scanner: a keyword or a name is told by its text.
  predicate FromScanner(lexeme: Lexeme) {
    lexeme.start < lexeme.end && (QS.IsName(lexeme) ==> lexeme.token == NameToken(lexeme.text))
  }

  predicate AllFromScanner(lexemes: seq<Lexeme>) {
    forall k | 0 <= k < |lexemes| :: FromScanner(lexemes[k])
  }

  /** The token stands where another one is called for: a number may be put in another way, and any token
      that is no name closes a parenthesis. */
  predicate Answers(here: Lexeme, token: Lexeme) {
    if token.token == CloseParen then !QS.IsName(here)
    else
      && here.token == token.token
      && (QS.IsName(token) || token.token in {StringLiteral, FloatLiteral} ==> here.text == token.text)
      && (token.token == IntegerLiteral ==> VS.NumberOf(here.text) == VS.NumberOf(token.text))
  }

  // An at sign is followed at once by what comes behind it.
  predicate AnswersAt(here: seq<Lexeme>, tokens: seq<Lexeme>, k: nat)
    requires k < |here| == |tokens|
  {
    && Answers(here[k], tokens[k])
    && (tokens[k] == Spelled(At, "@") ==> k + 1 < |here| && here[k + 1].start == here[k].end)
  }

  /** The tokens stand for those that are called for. */
  predicate Stands(here: seq<Lexeme>, tokens: seq<Lexeme>) {
    |here| == |tokens| && forall k | 0 <= k < |here| :: AnswersAt(here, tokens, k)
  }

  lemma BothStand(a: seq<Lexeme>, first: seq<Lexeme>, b: seq<Lexeme>, second: seq<Lexeme>)
    requires Stands(a, first) && Stands(b, second)
    ensures Stands(a + b, first + second)
  {
    var here, tokens := a + b, first + second;
    forall k | 0 <= k < |here| ensures AnswersAt(here, tokens, k) {
      if k < |a| {
        assert AnswersAt(a, first, k);
      } else {
        assert AnswersAt(b, second, k - |a|);
        assert here[k] == b[k - |a|] && tokens[k] == second[k - |a|];
        assert k + 1 < |here| ==> here[k + 1] == b[k + 1 - |a|];
      }
    }
  }

  // Two parts after each other, and what comes behind them.
  lemma Together(a: seq<Lexeme>, first: seq<Lexeme>, b: seq<Lexeme>, second: seq<Lexeme>, rest: seq<Lexeme>)
    requires Stands(a, first) && Stands(b, second)
    ensures Stands(a + b, first + second) && a + (b + rest) == a + b + rest
  {
    hide Stands;
    BothStand(a, first, b, second);
  }

  lemma OneStands(here: Lexeme, token: Lexeme)
    requires Answers(here, token) && token.token != At
    ensures Stands([here], [token])
  {
  }

  // The braces that are missing at the end of the text.
  predicate OnlyBraces(missing: seq<Lexeme>) {
    forall k | 0 <= k < |missing| :: missing[k].token == CloseBrace
  }

  lemma LeafWritten(lexeme: Lexeme)
    requires FromScanner(lexeme) && VS.IsLeaf(lexeme.token)
    ensures Stands([lexeme], TokensOf(VS.LeafValue(lexeme.token, lexeme.text)))
  {
    hide NameToken, VS.NumberOf, Decimal;
    if lexeme.token == IntegerLiteral {
      ValueRoundTrip.NumberOfDecimal(VS.NumberOf(lexeme.text));
    } else if QS.IsName(lexeme) {
      TokenTexts.NameKinds(lexeme.text, lexeme.token);
    }
  }

  lemma RestFromScanner(here: seq<Lexeme>, rest: seq<Lexeme>)
    requires AllFromScanner(here + rest)
    ensures AllFromScanner(rest)
  {
    assert forall k | 0 <= k < |rest| :: rest[k] == (here + rest)[|here| + k];
  }

  /** The tokens read as a value are those that spell it, up to the way numbers are put and to braces that
      are missing at the end of the text; and the query parser reads no field named like a keyword. */
  lemma {:induction false} ValueWritten(lexemes: seq<Lexeme>, keywordNames: bool)
    returns (here: seq<Lexeme>, missing: seq<Lexeme>)
    requires AllFromScanner(lexemes) && VS.ParseValue(lexemes, keywordNames).Parsed?
    ensures var r := VS.ParseValue(lexemes, keywordNames);
            && lexemes == here + r.rest && OnlyBraces(missing) && (missing != [] ==> r.rest == [])
            && Stands(here + missing, TokensOf(r.value)) && (!keywordNames ==> NoKeywordNames(r.value))
    decreases |lexemes|, 0
  {
    hide VS.ParseValue, VS.ParseElements, VS.ParseFields, VS.LeafValue, Stands, TokensOf, FromScanner, ElementTokens,
      FieldTokens;
    VS.ParseValueStep(lexemes, keywordNames);
    var first, rest := lexemes[0], lexemes[1..];
    assert lexemes == [first] + rest;
    missing := [];
    if first.token == OpenBracket {
      var vs;
      here, vs := ElementsWritten(rest, [], keywordNames);
      ListWritten(first, here, vs);
      here := [first] + here;
      assert [] + vs == vs;
    } else if first.token == OpenBrace {
      var fs;
      here, missing, fs := FieldsWritten(rest, [], keywordNames);
      ObjectWritten(first, here, missing, fs);
      here := [first] + here;
      assert [] + fs == fs;
    } else {
      here := [first];
      if first.token != CloseBracket {
        LeafWritten(first);
      } else {
        BracketWritten(first);
      }
    }
    assert here + [] == here;
  }

  lemma BracketWritten(first: Lexeme)
    requires first.token == CloseBracket
    ensures Stands([first], TokensOf(NoValue))
  {
  }

  lemma ListWritten(first: Lexeme, here: seq<Lexeme>, vs: seq<Value>)
    requires first.token == OpenBracket && Stands(here, ElementsAndEnd(vs))
    ensures Stands([first] + here, TokensOf(ListValue(vs)))
  {
    hide Stands, ElementTokens;
    OneStands(first, Spelled(OpenBracket, "["));
    BothStand([first], [Spelled(OpenBracket, "[")], here, ElementsAndEnd(vs));
  }

  lemma ObjectWritten(first: Lexeme, here: seq<Lexeme>, missing: seq<Lexeme>, fs: seq<ObjectField>)
    requires first.token == OpenBrace && Stands(here + missing, FieldsAndEnd(fs))
    ensures Stands([first] + here + missing, TokensOf(ObjectValue(fs)))
  {
    hide Stands, FieldTokens;
    OneStands(first, Spelled(OpenBrace, "{"));
    BothStand([first], [Spelled(OpenBrace, "{")], here + missing, FieldsAndEnd(fs));
    assert [first] + (here + missing) == [first] + here + missing;
  }

  lemma {:induction false} ElementsWritten(lexemes: seq<Lexeme>, before: seq<Value>, keywordNames: bool)
    returns (here: seq<Lexeme>, vs: seq<Value>)
    requires AllFromScanner(lexemes) && VS.ParseElements(lexemes, before, keywordNames).Parsed?
    ensures var r := VS.ParseElements(lexemes, before, keywordNames);
            && r.value == ListValue(before + vs) && lexemes == here + r.rest && Stands(here, ElementsAndEnd(vs))
            && (!keywordNames ==> NoKeywordElements(vs))
    decreases |lexemes|, 1
  {
    hide VS.ParseValue, VS.ParseElements, Stands, TokensOf, FromScanner, ElementsAndEnd, NoKeywordNames;
    ElementsStep(lexemes, before, keywordNames);
    var element := VS.ParseValue(lexemes, keywordNames);
    var first, missing := ValueWritten(lexemes, keywordNames);
    if element.value.NoValue? {
      here, vs := first, [];
      NoValueEnds(lexemes, keywordNames, first);
      assert before + vs == before;
    } else {
      RestFromScanner(first, element.rest);
      var others;
      here, others := ElementsWritten(element.rest, before + [element.value], keywordNames);
      assert missing == [] by {
        ElementsStep([], before + [element.value], keywordNames);
        VS.ParseValueStep([], keywordNames);
      }
      assert first + missing == first;
      vs := [element.value] + others;
      NextElementWritten(first, element.value, here, others);
      assert first + (here + VS.ParseElements(lexemes, before, keywordNames).rest) ==
             first + here + VS.ParseElements(lexemes, before, keywordNames).rest;
      here := first + here;
      assert before + vs == before + [element.value] + others;
    }
  }

  lemma NoValueEnds(lexemes: seq<Lexeme>, keywordNames: bool, here: seq<Lexeme>)
    requires var r := VS.ParseValue(lexemes, keywordNames); r.Parsed? && r.value.NoValue? && lexemes == here + r.rest
    ensures Stands(here, ElementsAndEnd([]))
  {
    hide VS.ParseValue, VS.ParseElements, VS.ParseFields, VS.LeafValue;
    VS.ParseValueStep(lexemes, keywordNames);
    var rest := VS.ParseValue(lexemes, keywordNames).rest;
    assert |here| == 1 && here[0] == lexemes[0];
  }

  lemma NextElementWritten(first: seq<Lexeme>, v: Value, here: seq<Lexeme>, others: seq<Value>)
    requires Stands(first, TokensOf(v)) && Stands(here, ElementsAndEnd(others))
    ensures Stands(first + here, ElementsAndEnd([v] + others))
    ensures NoKeywordNames(v) && NoKeywordElements(others) ==> NoKeywordElements([v] + others)
  {
    hide Stands, TokensOf, NoKeywordNames;
    BothStand(first, TokensOf(v), here, ElementsAndEnd(others));
    assert ([v] + others)[1..] == others;
    assert TokensOf(v) + ElementsAndEnd(others) == ElementsAndEnd([v] + others);
  }

  lemma {:induction false} FieldsWritten(lexemes: seq<Lexeme>, before: seq<ObjectField>, keywordNames: bool)
    returns (here: seq<Lexeme>, missing: seq<Lexeme>, fs: seq<ObjectField>)
    requires AllFromScanner(lexemes) && VS.ParseFields(lexemes, before, keywordNames).Parsed?
    ensures var r := VS.ParseFields(lexemes, before, keywordNames);
            && r.value == ObjectValue(before + fs) && lexemes == here + r.rest && OnlyBraces(missing)
            && (missing != [] ==> r.rest == []) && Stands(here + missing, FieldsAndEnd(fs))
            && (!keywordNames ==> NoKeywordFields(fs))
    decreases |lexemes|, 1
  {
    hide VS.ParseValue, VS.ParseFields, Stands, TokensOf, FromScanner, FieldsAndEnd, NoKeywordNames, NoKeywordFields,
      NameToken;
    var r := VS.ParseFields(lexemes, before, keywordNames);
    FieldsShape(lexemes, before, keywordNames);
    if lexemes == [] || lexemes[0].token == CloseBrace {
      fs := [];
      if lexemes == [] {
        here, missing := [], [Spelled(CloseBrace, "}")];
      } else {
        here, missing := [lexemes[0]], [];
      }
      ClosingBrace((here + missing)[0]);
      assert NoKeywordFields([]) by { NoFields([]); }
      assert here + missing == [(here + missing)[0]];
      assert before + fs == before;
    } else {
      FieldsStep(lexemes, before, keywordNames);
      var value := VS.ParseValue(lexemes[2..], keywordNames);
      var head := lexemes[..2];
      assert lexemes == head + lexemes[2..];
      RestFromScanner(head, lexemes[2..]);
      var first, fewer := ValueWritten(lexemes[2..], keywordNames);
      var f := ObjectField(lexemes[0].text, value.value, lexemes[0].start, lexemes[0].end);
      RestFromScanner(first, value.rest);
      var others;
      here, missing, others := FieldsWritten(value.rest, before + [f], keywordNames);
      fs := [f] + others;
      NextFieldWritten(head, f, first + fewer, here + missing, others, keywordNames);
      FieldGroups(head, first, fewer, here, missing, r.rest);
      here, missing := head + first + here, fewer + missing;
      assert before + fs == before + [f] + others;
    }
  }

  lemma FieldsShape(lexemes: seq<Lexeme>, before: seq<ObjectField>, keywordNames: bool)
    requires VS.ParseFields(lexemes, before, keywordNames).Parsed?
    ensures lexemes == [] ==> VS.ParseFields(lexemes, before, keywordNames) == VS.Parsed(ObjectValue(before), [])
    ensures lexemes != [] && lexemes[0].token == CloseBrace ==>
              VS.ParseFields(lexemes, before, keywordNames) == VS.Parsed(ObjectValue(before), lexemes[1..])
    ensures lexemes != [] && lexemes[0].token != CloseBrace ==>
              |lexemes| >= 2 && lexemes[0].token.InMode(keywordNames) == GName && lexemes[1].token == Colon
  {
    hide VS.ParseValue;
  }

  lemma ClosingBrace(brace: Lexeme)
    requires brace.token == CloseBrace
    ensures Stands([brace], FieldsAndEnd([]))
  {
  }

  // Braces are missing only where nothing comes behind them.
  lemma FieldGroups(head: seq<Lexeme>, first: seq<Lexeme>, fewer: seq<Lexeme>, here: seq<Lexeme>, missing: seq<Lexeme>,
                    rest: seq<Lexeme>)
    requires fewer != [] ==> here == []
    ensures head + first + here + (fewer + missing) == head + ((first + fewer) + (here + missing))
    ensures head + (first + (here + rest)) == head + first + here + rest
  {
  }

  lemma NextFieldWritten(head: seq<Lexeme>, f: ObjectField, first: seq<Lexeme>, here: seq<Lexeme>,
                         others: seq<ObjectField>, keywordNames: bool)
    requires |head| == 2 && FromScanner(head[0]) && head[0].token.InMode(keywordNames) == GName
    requires head[0].text == f.name
    requires head[1].token == Colon
    requires Stands(first, TokensOf(f.value)) && Stands(here, FieldsAndEnd(others))
    ensures Stands(head + (first + here), FieldsAndEnd([f] + others))
    ensures !keywordNames && NoKeywordNames(f.value) && NoKeywordFields(others) ==> NoKeywordFields([f] + others)
  {
    hide Stands, TokensOf, NameToken, NoKeywordNames, FieldsAndEnd;
    BothStand(first, TokensOf(f.value), here, FieldsAndEnd(others));
    HeadStands(head, f);
    BothStand(head, NameAndColon(f), first + here, TokensOf(f.value) + FieldsAndEnd(others));
    FieldParts([f] + others);
    assert ([f] + others)[1..] == others;
    TokenTexts.NameKinds(f.name, head[0].token);
  }

  lemma HeadStands(head: seq<Lexeme>, f: ObjectField)
    requires |head| == 2 && FromScanner(head[0]) && QS.IsName(head[0]) && head[0].text == f.name
    requires head[1].token == Colon
    ensures Stands(head, NameAndColon(f))
  {
    hide NameToken;
  }
}
