/** The two parsers of values, and the two checks, side by side. */
module ValueAgreement {
  import opened SourceText
  import opened GraphQlTokens
  import opened GraphQlLexer
  import opened GraphQlSyntax
  import opened ValueRules
  import opened SharedAnnotations
  import VS = ValueSyntax

  /** Tokens that the query parser takes as a value of a type without a diagnostic are read as the
      same value by the schema's parser, with the same tokens left over, and its check passes it
      too, if only no field was left without a value. Where no list is met again inside itself,
      such a value conforms to the type. */
  lemma QueryValuesAreSchemaValues(lexemes: seq<Lexeme>, symbols: Symbols, annotations: Annotations, t: Type)
    requires Closed(symbols, annotations.Keys) && RequiredRecorded(symbols, annotations) && t in annotations
    requires var r := VS.ParseValue(lexemes, false);
             r.Parsed? && Accepts(symbols, annotations, r.value, t)
    ensures var r := VS.ParseValue(lexemes, true);
            && r == VS.ParseValue(lexemes, false)
            && (Passes(symbols, annotations, r.value, t) <==> Complete(r.value))
            && (Harmless(symbols, annotations, t) ==>
                  (Conforms(symbols, annotations, r.value, annotations[t]) <==> Complete(r.value)))
  {
    VS.KeywordNamesOnlyAdd(lexemes);
    var v := VS.ParseValue(lexemes, true).value;
    QueryCheckIsStricter(symbols, annotations, v, t);
    if Harmless(symbols, annotations, t) {
      SharedFlagsAreHarmless(symbols, annotations, v, t);
    }
  }

  // The tokens of an object whose one field has a closing bracket for a value.
  function Hole(open: Lexeme, name: Lexeme, colon: Lexeme, bracket: Lexeme, brace: Lexeme): seq<Lexeme> {
    [open, name, colon, bracket, brace]
  }

  lemma HoleParsed(open: Lexeme, name: Lexeme, colon: Lexeme, bracket: Lexeme, brace: Lexeme)
    requires open.token == OpenBrace && name.token == GName && colon.token == Colon
    requires bracket.token == CloseBracket && brace.token == CloseBrace
    ensures VS.ParseValue(Hole(open, name, colon, bracket, brace), false) ==
            VS.Parsed(ObjectValue([ObjectField(name.text, NoValue, name.start, name.end)]), [])
  {
    var fields := [ObjectField(name.text, NoValue, name.start, name.end)];
    assert VS.ParseFields([brace], fields, false) == VS.Parsed(ObjectValue(fields), []);
    assert VS.ParseValue([bracket, brace], false) == VS.Parsed(NoValue, [brace]);
    var rest := [name, colon, bracket, brace];
    assert rest[2..] == [bracket, brace];
    assert VS.ParseFields(rest, [], false) == VS.ParseFields([brace], fields, false);
    assert Hole(open, name, colon, bracket, brace)[1..] == rest;
  }

  /** Such a hole is overlooked by the query parser in every input object with that field and no
      other required one; the value does not pass the schema's check, which crashes on it. */
  lemma HoleIsOverlooked(open: Lexeme, name: Lexeme, colon: Lexeme, bracket: Lexeme, brace: Lexeme,
                         symbols: Symbols, annotations: Annotations, t: Type)
    requires open.token == OpenBrace && name.token == GName && colon.token == Colon
    requires bracket.token == CloseBracket && brace.token == CloseBrace
    requires Closed(symbols, annotations.Keys) && t in annotations
    requires var info := annotations[t];
             && info.base == TObject && !info.isListType
             && info.name in symbols && symbols[info.name].InputObjectType?
             && name.text in symbols[info.name].inputFields
             && forall f | f in symbols[info.name].requiredFields :: f == name.text
    ensures var r := VS.ParseValue(Hole(open, name, colon, bracket, brace), false);
            && r == VS.Parsed(ObjectValue([ObjectField(name.text, NoValue, name.start, name.end)]), [])
            && Accepts(symbols, annotations, r.value, t) && !Passes(symbols, annotations, r.value, t)
  {
    hide VS.ParseValue, Hole;
    HoleParsed(open, name, colon, bracket, brace);
    var fields := [ObjectField(name.text, NoValue, name.start, name.end)];
    assert fields[0].name == name.text && HasField(fields, name.text);
    assert !Passes(symbols, annotations, NoValue, symbols[annotations[t].name].inputFields[name.text].annotation);
  }
}
