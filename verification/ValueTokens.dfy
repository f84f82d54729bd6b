/** Values as tokens: every complete value, objects included, is read back from the tokens that spell it. */
module ValueTokens {
  import opened SourceText
  import opened GraphQlTokens
  import opened GraphQlLexer
  import opened GraphQlSyntax
  import opened ValueRules
  import opened ValuePrinting
  import opened TokenLanguages
  import TokenTexts
  import ValueRoundTrip
  import VS = ValueSyntax

  // A token whose place does not matter.
  function Spelled(token: Token, text: string): Lexeme {
    Lexeme(token, text, 0, 0)
  }

  /** The tokens of a value. The names in an object carry the places its fields do. */
  function TokensOf(v: Value): (tokens: seq<Lexeme>)
    ensures tokens != []
  {
    match v
    case NullValue => [Spelled(NullKeyword, "null")]
    case BooleanValue(b) => [if b then Spelled(TrueKeyword, "true") else Spelled(FalseKeyword, "false")]
    case IntValue(n) => [Spelled(IntegerLiteral, Decimal(n))]
    case FloatValue(text) => [Spelled(FloatLiteral, text)]
    case EnumValue(name) => [Spelled(GName, name)]
    case StringValue(text) => [Spelled(StringLiteral, text)]
    case ListValue(values) => [Spelled(OpenBracket, "[")] + (ElementTokens(values) + [Spelled(CloseBracket, "]")])
    case ObjectValue(fields) => [Spelled(OpenBrace, "{")] + (FieldTokens(fields) + [Spelled(CloseBrace, "}")])
    case NoValue => [Spelled(CloseBracket, "]")]
  }

  function ElementTokens(values: seq<Value>): seq<Lexeme> {
    if values == [] then [] else TokensOf(values[0]) + ElementTokens(values[1..])
  }

  function FieldTokens(fields: seq<ObjectField>): seq<Lexeme> {
    if fields == [] then []
    else
      var f := fields[0];
      NameAndColon(f) + (TokensOf(f.value) + FieldTokens(fields[1..]))
  }

  // No field of an object in the value is named like a keyword.
  predicate NoKeywordNames(v: Value) {
    match v
    case ListValue(values) => forall k | 0 <= k < |values| :: NoKeywordNames(values[k])
    case ObjectValue(fields) =>
      forall k | 0 <= k < |fields| :: fields[k].name !in KEYWORDS && NoKeywordNames(fields[k].value)
    case _ => true
  }

  // The value without the places of its names.
  function Bare(v: Value): Value {
    match v
    case ListValue(values) => ListValue(BareAll(values))
    case ObjectValue(fields) => ObjectValue(BareFields(fields))
    case _ => v
  }

  function BareAll(values: seq<Value>): (r: seq<Value>)
    ensures |r| == |values| && forall k | 0 <= k < |r| :: r[k] == Bare(values[k])
  {
    if values == [] then [] else [Bare(values[0])] + BareAll(values[1..])
  }

  function BareFields(fields: seq<ObjectField>): (r: seq<ObjectField>)
    ensures |r| == |fields|
    ensures forall k | 0 <= k < |r| :: r[k] == ObjectField(fields[k].name, Bare(fields[k].value), 0, 0)
  {
    if fields == [] then []
    else [ObjectField(fields[0].name, Bare(fields[0].value), 0, 0)] + BareFields(fields[1..])
  }

  // The same tokens, wherever they stand.
  predicate Alike(here: seq<Lexeme>, tokens: seq<Lexeme>) {
    && |here| == |tokens|
    && forall k | 0 <= k < |here| :: here[k].token == tokens[k].token && here[k].text == tokens[k].text
  }

  // Two parts alike are alike together, and the other way round.
  lemma AlikeParts(here: seq<Lexeme>, first: seq<Lexeme>, second: seq<Lexeme>)
    requires Alike(here, first + second)
    ensures |first| <= |here| && here == here[..|first|] + here[|first|..]
    ensures Alike(here[..|first|], first) && Alike(here[|first|..], second)
    ensures here == first + second ==> here[..|first|] == first && here[|first|..] == second
  {
    var tokens := first + second;
    assert forall k | 0 <= k < |first| :: first[k] == tokens[k];
    assert forall k | 0 <= k < |second| :: second[k] == tokens[|first| + k];
  }

  /** A complete value is read back from its tokens, with just what comes after them left over, up to the
      places of its names, and with these if the tokens carry them. The query parser reads no value
      with a field named like a keyword. */
  lemma {:induction false} ValueRead(here: seq<Lexeme>, v: Value, after: seq<Lexeme>, keywordNames: bool)
    returns (w: Value)
    requires Complete(v) && Alike(here, TokensOf(v))
    ensures VS.ParseValue(here + after, keywordNames) ==
            if keywordNames || NoKeywordNames(v) then VS.Parsed(w, after) else VS.Failed
    ensures Bare(w) == Bare(v) && (here == TokensOf(v) ==> w == v)
    decreases v, 1
  {
    hide VS.ParseValue, VS.ParseElements, VS.ParseFields, VS.LeafValue, TokensOf, Alike, ElementsAndEnd, FieldsAndEnd,
      BareAll, BareFields;
    var all := here + after;
    NotEmpty(here, v);
    assert all[0] == here[0] && all[1..] == here[1..] + after;
    assert [] + after == after;
    VS.ParseValueStep(all, keywordNames);
    match v
    case ListValue(values) =>
      ListTokens(here, values);
      var ws := ElementsRead(here[1..], values, [], after, keywordNames);
      w := ListValue(ws);
    case ObjectValue(fields) =>
      ObjectTokens(here, fields);
      var fs := FieldsRead(here[1..], fields, [], after, keywordNames);
      w := ObjectValue(fs);
    case _ =>
      w := v;
      LeafRead(here, v);
  }

  lemma NotEmpty(here: seq<Lexeme>, v: Value)
    requires Alike(here, TokensOf(v))
    ensures here != []
  {
  }

  lemma LeafRead(here: seq<Lexeme>, v: Value)
    requires !v.ListValue? && !v.ObjectValue? && !v.NoValue? && Alike(here, TokensOf(v))
    ensures |here| == 1 && here[1..] == [] && VS.IsLeaf(here[0].token) && VS.LeafValue(here[0].token, here[0].text) == v
  {
    if v.IntValue? {
      ValueRoundTrip.NumberOfDecimal(v.number);
    }
  }

  lemma ListTokens(here: seq<Lexeme>, values: seq<Value>)
    requires Alike(here, TokensOf(ListValue(values)))
    ensures here[0].token == OpenBracket && Alike(here[1..], ElementsAndEnd(values))
    ensures here == TokensOf(ListValue(values)) ==> here[1..] == ElementsAndEnd(values)
  {
    AlikeParts(here, [Spelled(OpenBracket, "[")], ElementsAndEnd(values));
  }

  lemma ObjectTokens(here: seq<Lexeme>, fields: seq<ObjectField>)
    requires Alike(here, TokensOf(ObjectValue(fields)))
    ensures here[0].token == OpenBrace && Alike(here[1..], FieldsAndEnd(fields))
    ensures here == TokensOf(ObjectValue(fields)) ==> here[1..] == FieldsAndEnd(fields)
  {
    AlikeParts(here, [Spelled(OpenBrace, "{")], FieldsAndEnd(fields));
  }

  // One step of reading a list.
  lemma ElementsStep(lexemes: seq<Lexeme>, before: seq<Value>, keywordNames: bool)
    ensures var element := VS.ParseValue(lexemes, keywordNames);
            VS.ParseElements(lexemes, before, keywordNames) ==
              if element.Failed? then VS.Failed
              else if element.value.NoValue? then VS.Parsed(ListValue(before), element.rest)
              else VS.ParseElements(element.rest, before + [element.value], keywordNames)
  {
    hide VS.ParseValue;
  }

  // The tokens of a list behind its bracket.
  function ElementsAndEnd(values: seq<Value>): seq<Lexeme> {
    ElementTokens(values) + [Spelled(CloseBracket, "]")]
  }

  lemma FirstElement(here: seq<Lexeme>, values: seq<Value>)
    requires values != [] && Alike(here, ElementsAndEnd(values))
    ensures var n := |TokensOf(values[0])|;
            && n <= |here| && here == here[..n] + here[n..]
            && Alike(here[..n], TokensOf(values[0])) && Alike(here[n..], ElementsAndEnd(values[1..]))
            && (here == ElementsAndEnd(values) ==>
                  here[..n] == TokensOf(values[0]) && here[n..] == ElementsAndEnd(values[1..]))
  {
    hide TokensOf, Alike;
    assert ElementsAndEnd(values) == TokensOf(values[0]) + ElementsAndEnd(values[1..]);
    AlikeParts(here, TokensOf(values[0]), ElementsAndEnd(values[1..]));
  }

  lemma NoElement(here: seq<Lexeme>, after: seq<Lexeme>, keywordNames: bool)
    requires Alike(here, ElementsAndEnd([]))
    ensures VS.ParseValue(here + after, keywordNames) == VS.Parsed(NoValue, after)
  {
    assert (here + after)[0] == here[0] && (here + after)[1..] == after;
  }

  // The elements of a list, up to the bracket that closes it.
  lemma {:induction false} ElementsRead(here: seq<Lexeme>, values: seq<Value>, before: seq<Value>, after: seq<Lexeme>,
                                        keywordNames: bool)
    returns (ws: seq<Value>)
    requires forall k | 0 <= k < |values| :: Complete(values[k])
    requires Alike(here, ElementsAndEnd(values))
    ensures VS.ParseElements(here + after, before, keywordNames) ==
            if keywordNames || NoKeywordElements(values) then VS.Parsed(ListValue(before + ws), after) else VS.Failed
    ensures BareAll(ws) == BareAll(values) && (here == ElementsAndEnd(values) ==> ws == values)
    decreases values, 0
  {
    hide VS.ParseValue, VS.ParseElements, TokensOf, Bare, BareAll, Alike, ElementsAndEnd, Complete, NoKeywordNames,
      NoKeywordElements;
    ElementsStep(here + after, before, keywordNames);
    if values == [] {
      ws := [];
      NoElement(here, after, keywordNames);
      NoElements(before);
    } else {
      FirstElement(here, values);
      var n := |TokensOf(values[0])|;
      Regroup(here, n, after);
      var w := ValueRead(here[..n], values[0], here[n..] + after, keywordNames);
      NotMissing(values[0], w);
      var more := ElementsRead(here[n..], values[1..], before + [w], after, keywordNames);
      ws := [w] + more;
      OneMoreElement(values, w, more, before);
    }
  }

  predicate NoKeywordElements(values: seq<Value>) {
    forall k | 0 <= k < |values| :: NoKeywordNames(values[k])
  }

  lemma Regroup(here: seq<Lexeme>, n: nat, after: seq<Lexeme>)
    requires n <= |here|
    ensures here[..n] + (here[n..] + after) == here + after
  {
  }

  lemma NoElements(before: seq<Value>)
    ensures before + [] == before && NoKeywordElements([]) && BareAll([]) == []
  {
  }

  lemma OneMoreElement(values: seq<Value>, w: Value, more: seq<Value>, before: seq<Value>)
    requires values != [] && Bare(w) == Bare(values[0]) && BareAll(more) == BareAll(values[1..])
    ensures BareAll([w] + more) == BareAll(values) && before + ([w] + more) == before + [w] + more
    ensures w == values[0] && more == values[1..] ==> [w] + more == values
    ensures NoKeywordElements(values) <==> NoKeywordNames(values[0]) && NoKeywordElements(values[1..])
  {
    hide Bare, BareAll, NoKeywordNames, NoKeywordElements;
    BareFirst(values);
    BareFirst([w] + more);
    assert ([w] + more)[1..] == more;
    FirstKeywordElement(values);
  }

  lemma FirstKeywordElement(values: seq<Value>)
    requires values != []
    ensures NoKeywordElements(values) <==> NoKeywordNames(values[0]) && NoKeywordElements(values[1..])
    ensures values == [values[0]] + values[1..]
  {
    hide NoKeywordNames;
    assert forall k | 0 < k < |values| :: values[k] == values[1..][k - 1];
  }

  lemma BareFirst(values: seq<Value>)
    requires values != []
    ensures BareAll(values) == [Bare(values[0])] + BareAll(values[1..])
  {
    hide Bare;
  }

  lemma NotMissing(v: Value, w: Value)
    requires Complete(v) && Bare(w) == Bare(v)
    ensures !w.NoValue?
  {
  }

  // One step of reading an object.
  lemma FieldsStep(lexemes: seq<Lexeme>, before: seq<ObjectField>, keywordNames: bool)
    requires |lexemes| >= 2 && lexemes[0].token != CloseBrace && lexemes[1].token == Colon
    ensures var value := VS.ParseValue(lexemes[2..], keywordNames);
            VS.ParseFields(lexemes, before, keywordNames) ==
              if lexemes[0].token.InMode(keywordNames) != GName || value.Failed? then VS.Failed
              else
                VS.ParseFields(
                  value.rest, before + [ObjectField(lexemes[0].text, value.value, lexemes[0].start, lexemes[0].end)],
                  keywordNames)
  {
    hide VS.ParseValue;
  }

  function FieldsAndEnd(fields: seq<ObjectField>): seq<Lexeme> {
    FieldTokens(fields) + [Spelled(CloseBrace, "}")]
  }

  lemma FirstField(here: seq<Lexeme>, fields: seq<ObjectField>)
    requires fields != [] && Alike(here, FieldsAndEnd(fields))
    ensures var f, n := fields[0], 2 + |TokensOf(fields[0].value)|;
            && n <= |here| && here[0].token == NameToken(f.name) && here[0].text == f.name && here[1].token == Colon
            && here[2..] == here[2..n] + here[n..]
            && Alike(here[2..n], TokensOf(f.value)) && Alike(here[n..], FieldsAndEnd(fields[1..]))
            && (here == FieldsAndEnd(fields) ==>
                  && here[0].start == f.start && here[0].end == f.end
                  && here[2..n] == TokensOf(f.value) && here[n..] == FieldsAndEnd(fields[1..]))
  {
    hide TokensOf, Alike, NameToken;
    var f, n := fields[0], 2 + |TokensOf(fields[0].value)|;
    var name := NameAndColon(f);
    var value, others := TokensOf(f.value), FieldsAndEnd(fields[1..]);
    FieldParts(fields);
    AlikeParts(here, name, value + others);
    AlikeParts(here[2..], value, others);
    SlicesOfRest(here, n);
    TwoAlike(here, name);
  }

  function NameAndColon(f: ObjectField): (tokens: seq<Lexeme>)
    ensures |tokens| == 2
  {
    [Lexeme(NameToken(f.name), f.name, f.start, f.end), Spelled(Colon, ":")]
  }

  lemma FieldParts(fields: seq<ObjectField>)
    requires fields != []
    ensures FieldsAndEnd(fields) == NameAndColon(fields[0]) + (TokensOf(fields[0].value) + FieldsAndEnd(fields[1..]))
  {
    hide TokensOf, NameToken;
    var a, b := NameAndColon(fields[0]), TokensOf(fields[0].value);
    var c, d := FieldTokens(fields[1..]), [Spelled(CloseBrace, "}")];
    assert a + (b + c) + d == a + (b + (c + d));
  }

  lemma SlicesOfRest(here: seq<Lexeme>, n: nat)
    requires 2 <= n <= |here|
    ensures here[2..][..n - 2] == here[2..n] && here[2..][n - 2..] == here[n..] && here[2..] == here[2..n] + here[n..]
  {
  }

  lemma TwoAlike(here: seq<Lexeme>, name: seq<Lexeme>)
    requires |here| >= 2 && |name| == 2 && Alike(here[..2], name)
    ensures here[0].token == name[0].token && here[0].text == name[0].text && here[1].token == name[1].token
    ensures here[..2] == name ==> here[0] == name[0]
  {
    assert here[..2][0] == here[0] && here[..2][1] == here[1];
  }

  lemma NoField(here: seq<Lexeme>, before: seq<ObjectField>, after: seq<Lexeme>, keywordNames: bool)
    requires Alike(here, FieldsAndEnd([]))
    ensures VS.ParseFields(here + after, before, keywordNames) == VS.Parsed(ObjectValue(before), after)
  {
    assert (here + after)[0] == here[0] && (here + after)[1..] == after;
  }

  // The fields of an object, up to the brace that closes it.
  lemma {:induction false} FieldsRead(here: seq<Lexeme>, fields: seq<ObjectField>, before: seq<ObjectField>,
                                      after: seq<Lexeme>, keywordNames: bool)
    returns (fs: seq<ObjectField>)
    requires forall k | 0 <= k < |fields| :: Complete(fields[k].value)
    requires Alike(here, FieldsAndEnd(fields))
    ensures VS.ParseFields(here + after, before, keywordNames) ==
            if keywordNames || NoKeywordFields(fields) then VS.Parsed(ObjectValue(before + fs), after) else VS.Failed
    ensures BareFields(fs) == BareFields(fields) && (here == FieldsAndEnd(fields) ==> fs == fields)
    decreases fields, 0
  {
    hide VS.ParseValue, VS.ParseFields, TokensOf, Bare, BareFields, NameToken, Alike, FieldsAndEnd, Complete,
      NoKeywordNames, NoKeywordFields;
    var all := here + after;
    if fields == [] {
      fs := [];
      NoField(here, before, after, keywordNames);
      NoFields(before);
    } else {
      FirstField(here, fields);
      var f, n := fields[0], 2 + |TokensOf(fields[0].value)|;
      RegroupFields(here, n, after);
      NameInMode(f.name, keywordNames);
      FieldsStep(all, before, keywordNames);
      var w := ValueRead(here[2..n], f.value, here[n..] + after, keywordNames);
      var g := ObjectField(all[0].text, w, all[0].start, all[0].end);
      var more := FieldsRead(here[n..], fields[1..], before + [g], after, keywordNames);
      fs := [g] + more;
      OneMoreField(fields, g, more, before);
    }
  }

  lemma RegroupFields(here: seq<Lexeme>, n: nat, after: seq<Lexeme>)
    requires 2 <= n <= |here|
    ensures var all := here + after;
            |all| >= 2 && all[0] == here[0] && all[1] == here[1] && all[2..] == here[2..n] + (here[n..] + after)
  {
  }

  lemma NoFields(before: seq<ObjectField>)
    ensures before + [] == before && NoKeywordFields([]) && BareFields([]) == []
  {
  }

  lemma OneMoreField(fields: seq<ObjectField>, g: ObjectField, more: seq<ObjectField>, before: seq<ObjectField>)
    requires fields != [] && g.name == fields[0].name && Bare(g.value) == Bare(fields[0].value)
    requires BareFields(more) == BareFields(fields[1..])
    ensures BareFields([g] + more) == BareFields(fields) && before + ([g] + more) == before + [g] + more
    ensures g == fields[0] && more == fields[1..] ==> [g] + more == fields
    ensures NoKeywordFields(fields) <==>
            fields[0].name !in KEYWORDS && NoKeywordNames(fields[0].value) && NoKeywordFields(fields[1..])
  {
    hide Bare, NoKeywordNames;
    assert ([g] + more)[1..] == more;
    assert forall k | 0 < k < |fields| :: fields[k] == fields[1..][k - 1];
  }

  predicate NoKeywordFields(fields: seq<ObjectField>) {
    forall k | 0 <= k < |fields| :: fields[k].name !in KEYWORDS && NoKeywordNames(fields[k].value)
  }

  lemma NameInMode(name: string, keywordNames: bool)
    ensures NameToken(name).InMode(keywordNames) == GName <==> keywordNames || name !in KEYWORDS
    ensures NameToken(name) != CloseBrace
  {
    hide NameToken;
    TokenTexts.NameKinds(name, GName);
  }

  /** Reading the tokens of a value gives just that value back: always for the schema's parser, and for
      the query parser if and only if no field name at any depth is a keyword. */
  lemma TokensReadBack(v: Value, after: seq<Lexeme>)
    requires Complete(v)
    ensures VS.ParseValue(TokensOf(v) + after, true) == VS.Parsed(v, after)
    ensures VS.ParseValue(TokensOf(v) + after, false) == VS.Parsed(v, after) <==> NoKeywordNames(v)
  {
    hide VS.ParseValue, TokensOf;
    var w := ValueRead(TokensOf(v), v, after, true);
    w := ValueRead(TokensOf(v), v, after, false);
  }
}
