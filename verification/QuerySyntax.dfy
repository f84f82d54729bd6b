/** The syntax of queries over scanned tokens, as the query parser reads them. */
module QuerySyntax {
  import opened SourceText
  import opened GraphQlTokens
  import opened GraphQlLexer
  import opened GraphQlSyntax
  import opened Selections
  import opened VariableSyntax
  import VS = ValueSyntax

  /** What has been read and the tokens after it, or a text that draws a diagnostic. */
  datatype Read<T> = Read(value: T, rest: seq<Lexeme>) | Unread

  // A token that is a name once keywords are read as names.
  predicate IsName(lexeme: Lexeme) {
    lexeme.token.InMode(true) == GName
  }

  /** Arguments after their opening parenthesis: any token that is no name ends them, and so does
      the end of the document. */
  function ReadArguments(lexemes: seq<Lexeme>, before: seq<Argument>): (r: Read<seq<Argument>>)
    ensures r.Read? ==> |r.rest| <= |lexemes|
    decreases |lexemes|, 2
  {
    if lexemes == [] then Read(before, [])
    else if !IsName(lexemes[0]) then Read(before, lexemes[1..])
    else if !Starts(lexemes[1..], Colon) then Unread
    else
      var value := VS.ParseValue(lexemes[1..][1..], false);
      if value.Failed? then Unread
      else
        var directives := ReadDirectives(value.rest, []);
        if directives.Unread? then Unread
        else ReadArguments(directives.rest, before + [Argument(lexemes[0].text, value.value, directives.value)])
  }

  function ReadOptionalArguments(lexemes: seq<Lexeme>): (r: Read<ArgumentList>)
    ensures r.Read? ==> |r.rest| <= |lexemes|
    decreases |lexemes|, 0
  {
    if !Starts(lexemes, OpenParen) then Read(NoParentheses, lexemes)
    else
      var arguments := ReadArguments(lexemes[1..], []);
      if arguments.Unread? then Unread else Read(Parentheses(arguments.value), arguments.rest)
  }

  /** Directives: no white space may come between the at sign and the name. */
  function ReadDirectives(lexemes: seq<Lexeme>, before: seq<Directive>): (r: Read<seq<Directive>>)
    ensures r.Read? ==> |r.rest| <= |lexemes|
    decreases |lexemes|, 1
  {
    if !Starts(lexemes, At) then Read(before, lexemes)
    else if |lexemes| < 2 || !IsName(lexemes[1]) || lexemes[1].start != lexemes[0].end then Unread
    else
      var arguments := ReadOptionalArguments(lexemes[1..][1..]);
      if arguments.Unread? then Unread
      else ReadDirectives(arguments.rest, before + [Directive(lexemes[1].text, arguments.value)])
  }

  // The key of a field is its alias if a colon follows, and its name if not.
  function ReadAlias(key: string, lexemes: seq<Lexeme>): (r: Read<(Option<string>, string)>)
    ensures r.Read? ==> |r.rest| <= |lexemes|
  {
    if !Starts(lexemes, Colon) then Read((None, key), lexemes)
    else if !Starts(lexemes[1..], GName) then Unread
    else Read((Some(key), lexemes[1..][0].text), lexemes[1..][1..])
  }

  // A field after its key.
  function ReadField(key: string, lexemes: seq<Lexeme>): (r: Read<Selection>)
    ensures r.Read? ==> |r.rest| <= |lexemes|
    decreases |lexemes|, 2
  {
    var name := ReadAlias(key, lexemes);
    if name.Unread? then Unread
    else
      var arguments := ReadOptionalArguments(name.rest);
      if arguments.Unread? then Unread
      else
        var directives := ReadDirectives(arguments.rest, []);
        if directives.Unread? then Unread
        else
          var selectionSet := ReadOptionalBraces(directives.rest);
          if selectionSet.Unread? then Unread
          else Read(Field(name.value.0, name.value.1, arguments.value, directives.value, selectionSet.value),
                    selectionSet.rest)
  }

  // A fragment after its dots: inline, or the spread of a named one.
  function ReadFragment(lexemes: seq<Lexeme>): (r: Read<Selection>)
    ensures r.Read? ==> |r.rest| <= |lexemes|
    decreases |lexemes|, 2
  {
    if Starts(lexemes, OnKeyword) then
      if !Starts(lexemes[1..], GName) then Unread
      else ReadInlineFragment(lexemes[1..][0].text, lexemes[1..][1..])
    else if Starts(lexemes, GName) then
      var directives := ReadDirectives(lexemes[1..], []);
      if directives.Unread? then Unread else Read(FragmentSpread(lexemes[0].text, directives.value), directives.rest)
    else Unread
  }

  // An inline fragment after its type.
  function ReadInlineFragment(typeName: string, lexemes: seq<Lexeme>): (r: Read<Selection>)
    ensures r.Read? ==> |r.rest| <= |lexemes|
    decreases |lexemes|, 2
  {
    var directives := ReadDirectives(lexemes, []);
    if directives.Unread? then Unread
    else
      var selections := ReadBraces(directives.rest);
      if selections.Unread? then Unread
      else Read(InlineFragment(typeName, directives.value, selections.value), selections.rest)
  }

  function ReadSelection(lexemes: seq<Lexeme>): (r: Read<Selection>)
    requires lexemes != []
    ensures r.Read? ==> |r.rest| < |lexemes|
    decreases |lexemes|, 1
  {
    if IsName(lexemes[0]) then ReadField(lexemes[0].text, lexemes[1..])
    else if lexemes[0].token == Ellipses then ReadFragment(lexemes[1..])
    else Unread
  }

  // Selections up to their closing brace.
  function ReadSelections(lexemes: seq<Lexeme>, before: seq<Selection>): (r: Read<seq<Selection>>)
    ensures r.Read? ==> |r.rest| < |lexemes|
    decreases |lexemes|, 2
  {
    if lexemes == [] then Unread
    else if lexemes[0].token == CloseBrace then Read(before, lexemes[1..])
    else
      var selection := ReadSelection(lexemes);
      if selection.Unread? then Unread else ReadSelections(selection.rest, before + [selection.value])
  }

  // A closing brace ends the selections; only names and dots go on with them.
  lemma SelectionsEnd(lexemes: seq<Lexeme>, before: seq<Selection>)
    ensures Starts(lexemes, CloseBrace) ==> ReadSelections(lexemes, before) == Read(before, lexemes[1..])
    ensures lexemes == [] || (lexemes[0].token !in {CloseBrace, Ellipses} && !IsName(lexemes[0])) ==>
              ReadSelections(lexemes, before) == Unread
  {
  }

  function ReadBraces(lexemes: seq<Lexeme>): (r: Read<seq<Selection>>)
    ensures r.Read? ==> |r.rest| < |lexemes|
    decreases |lexemes|, 0
  {
    if Starts(lexemes, OpenBrace) then ReadSelections(lexemes[1..], []) else Unread
  }

  function ReadOptionalBraces(lexemes: seq<Lexeme>): (r: Read<SelectionSet>)
    ensures r.Read? ==> |r.rest| <= |lexemes|
    decreases |lexemes|, 1
  {
    if !Starts(lexemes, OpenBrace) then Read(NoBraces, lexemes)
    else
      var selections := ReadSelections(lexemes[1..], []);
      if selections.Unread? then Unread else Read(Braces(selections.value), selections.rest)
  }

  // The name of an operation, if it has one, and what follows it and the variables, which are left out.
  function ReadHeader(lexemes: seq<Lexeme>): (r: Read<Option<string>>)
    ensures r.Read? ==> |r.rest| <= |lexemes|
  {
    if lexemes == [] || !IsName(lexemes[0]) then Read(None, lexemes)
    else if !Starts(lexemes[1..], OpenParen) then Read(Some(lexemes[0].text), lexemes[1..])
    else
      var rest := ReadVariables(lexemes[1..][1..]);
      if rest.Some? && Starts(rest.value, CloseParen) then Read(Some(lexemes[0].text), rest.value[1..]) else Unread
  }

  // An operation after its keyword.
  function ReadOperation(operationType: OperationType, lexemes: seq<Lexeme>): (r: Read<Definition>)
    ensures r.Read? ==> |r.rest| <= |lexemes|
  {
    var header := ReadHeader(lexemes);
    if header.Unread? then Unread
    else
      var directives := ReadDirectives(header.rest, []);
      if directives.Unread? then Unread
      else
        var selections := ReadBraces(directives.rest);
        if selections.Unread? then Unread
        else
          Read(OperationDefinition(operationType, header.value, directives.value, selections.value), selections.rest)
  }

  // A fragment definition after its keyword.
  function ReadFragmentDefinition(lexemes: seq<Lexeme>): (r: Read<Definition>)
    ensures r.Read? ==> |r.rest| <= |lexemes|
  {
    if !Starts(lexemes, GName) || !Starts(lexemes[1..], OnKeyword) || !Starts(lexemes[1..][1..], GName) then Unread
    else
      ReadFragmentOn(lexemes[0].text, lexemes[1..][1..][0].text, lexemes[1..][1..][1..])
  }

  function ReadFragmentOn(name: string, typeName: string, lexemes: seq<Lexeme>): (r: Read<Definition>)
    ensures r.Read? ==> |r.rest| <= |lexemes|
  {
    var directives := ReadDirectives(lexemes, []);
    if directives.Unread? then Unread
    else
      var selections := ReadBraces(directives.rest);
      if selections.Unread? then Unread
      else Read(FragmentDefinition(name, typeName, directives.value, selections.value), selections.rest)
  }

  function ReadDefinition(lexemes: seq<Lexeme>): (r: Read<Definition>)
    requires lexemes != []
    ensures r.Read? ==> |r.rest| < |lexemes|
  {
    match lexemes[0].token
    case QueryKeyword => ReadOperation(Query, lexemes[1..])
    case MutationKeyword => ReadOperation(Mutation, lexemes[1..])
    case SubscriptionKeyword => ReadOperation(Subscription, lexemes[1..])
    case OpenBrace =>
      var selections := ReadSelections(lexemes[1..], []);
      if selections.Unread? then Unread
      else Read(OperationDefinition(Query, None, [], selections.value), selections.rest)
    case FragmentKeyword => ReadFragmentDefinition(lexemes[1..])
    case _ => Unread
  }

  /** A document: all of its definitions, operations and fragments apart, in their order. */
  function ReadDocument(lexemes: seq<Lexeme>, operations: seq<Definition>, fragments: seq<Definition>): Option<Document>
    decreases |lexemes|
  {
    if lexemes == [] then Some(Document(operations, fragments))
    else
      var definition := ReadDefinition(lexemes);
      if definition.Unread? then None
      else if definition.value.FragmentDefinition? then
        ReadDocument(definition.rest, operations, fragments + [definition.value])
      else ReadDocument(definition.rest, operations + [definition.value], fragments)
  }

  // The last step, or the next one, of reading arguments and directives.
  lemma ArgumentsStep(lexemes: seq<Lexeme>, read: seq<Argument>)
    ensures lexemes == [] ==> ReadArguments(lexemes, read) == Read(read, [])
    ensures lexemes != [] && !IsName(lexemes[0]) ==> ReadArguments(lexemes, read) == Read(read, lexemes[1..])
    ensures lexemes != [] && IsName(lexemes[0]) && Starts(lexemes[1..], Colon) ==>
              var value := VS.ParseValue(lexemes[1..][1..], false);
              value.Parsed? ==>
                var directives := ReadDirectives(value.rest, []);
                directives.Read? ==>
                  ReadArguments(lexemes, read) ==
                  ReadArguments(directives.rest, read + [Argument(lexemes[0].text, value.value, directives.value)])
  {
    hide VS.ParseValue, ReadDirectives;
  }

  lemma DirectivesEnd(lexemes: seq<Lexeme>, read: seq<Directive>)
    ensures !Starts(lexemes, At) ==> ReadDirectives(lexemes, read) == Read(read, lexemes)
  {
  }

  lemma DirectivesStep(lexemes: seq<Lexeme>, read: seq<Directive>)
    ensures |lexemes| >= 2 && lexemes[0].token == At && IsName(lexemes[1]) && lexemes[1].start == lexemes[0].end ==>
              && lexemes[1..] != [] && lexemes[1..][0] == lexemes[1]
              && var arguments := ReadOptionalArguments(lexemes[1..][1..]);
                 arguments.Read? ==>
                   ReadDirectives(lexemes, read) ==
                   ReadDirectives(arguments.rest, read + [Directive(lexemes[1].text, arguments.value)])
  {
    hide ReadOptionalArguments;
  }

  lemma SelectionsStep(lexemes: seq<Lexeme>, read: seq<Selection>)
    requires lexemes != [] && (IsName(lexemes[0]) || lexemes[0].token == Ellipses)
    ensures var selection := ReadSelection(lexemes);
            selection.Read? ==>
              ReadSelections(lexemes, read) == ReadSelections(selection.rest, read + [selection.value])
  {
    hide ReadSelection;
  }

  // A field is read part by part.
  lemma FieldPartsRead(key: string, lexemes: seq<Lexeme>)
    ensures var name := ReadAlias(key, lexemes);
            if name.Unread? then ReadField(key, lexemes).Unread?
            else
              && name.value.0.GetOr(name.value.1) == key
              && var arguments := ReadOptionalArguments(name.rest);
                 if arguments.Unread? then ReadField(key, lexemes).Unread?
                 else
                   var directives := ReadDirectives(arguments.rest, []);
                   if directives.Unread? then ReadField(key, lexemes).Unread?
                   else
                     var selectionSet := ReadOptionalBraces(directives.rest);
                     ReadField(key, lexemes) ==
                       if selectionSet.Unread? then Unread
                       else
                         Read(Field(name.value.0, name.value.1, arguments.value, directives.value,
                                       selectionSet.value),
                                 selectionSet.rest)
  {
    hide ReadOptionalArguments, ReadDirectives, ReadOptionalBraces;
  }
}
