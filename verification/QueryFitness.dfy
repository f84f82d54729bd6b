/** When tokens spell something that fits a schema, part by part: what must come next if the whole is
    to fit. */
module QueryFitness {
  import opened SourceText
  import opened GraphQlTokens
  import opened GraphQlLexer
  import opened GraphQlSyntax
  import opened ValueRules
  import opened Selections
  import opened QuerySyntax
  import VS = ValueSyntax

  ghost predicate ArgumentsFit(schema: Schema, annotations: Annotations, declared: map<string, Type>,
                               read: Read<seq<Argument>>)
    requires SchemaClosed(schema, annotations.Keys) && ArgumentsClosed(declared, annotations.Keys)
  {
    read.Read? && ArgumentsSound(schema, annotations, declared, read.value)
  }

  ghost predicate OptionalFits(schema: Schema, annotations: Annotations, declared: map<string, Type>,
                               read: Read<ArgumentList>)
    requires SchemaClosed(schema, annotations.Keys) && ArgumentsClosed(declared, annotations.Keys)
  {
    read.Read? && (read.value.Parentheses? ==> ArgumentsSound(schema, annotations, declared, read.value.arguments))
  }

  ghost predicate DirectivesFit(schema: Schema, annotations: Annotations, location: DirectiveLocation,
                                read: Read<seq<Directive>>)
    requires SchemaClosed(schema, annotations.Keys)
  {
    read.Read? && DirectivesSound(schema, annotations, read.value, location)
  }

  ghost predicate SelectionFits(schema: Schema, annotations: Annotations, scope: Declaration, read: Read<Selection>)
    requires SchemaClosed(schema, annotations.Keys) && FieldsClosed(scope, annotations.Keys)
  {
    read.Read? && SelectionSound(schema, annotations, Any, scope, read.value)
  }

  ghost predicate SelectionsFit(schema: Schema, annotations: Annotations, scope: Declaration,
                                read: Read<seq<Selection>>)
    requires SchemaClosed(schema, annotations.Keys) && FieldsClosed(scope, annotations.Keys)
  {
    read.Read? && SelectionsSound(schema, annotations, Any, scope, read.value)
  }

  ghost predicate DefinitionFits(schema: Schema, annotations: Annotations, read: Read<Definition>)
    requires SchemaClosed(schema, annotations.Keys)
  {
    read.Read? && DefinitionSound(schema, annotations, Any, read.value)
  }

  // What has been read stays in front.
  lemma {:induction false} ArgumentsKept(lexemes: seq<Lexeme>, before: seq<Argument>)
    ensures ReadArguments(lexemes, before).Read? ==> before <= ReadArguments(lexemes, before).value
    decreases |lexemes|
  {
    hide ReadDirectives;
    if lexemes != [] && IsName(lexemes[0]) && Starts(lexemes[1..], Colon) {
      var value := VS.ParseValue(lexemes[1..][1..], false);
      if value.Parsed? {
        var directives := ReadDirectives(value.rest, []);
        if directives.Read? {
          ArgumentsKept(directives.rest, before + [Argument(lexemes[0].text, value.value, directives.value)]);
        }
      }
    }
  }

  lemma {:induction false} DirectivesKept(lexemes: seq<Lexeme>, before: seq<Directive>)
    ensures ReadDirectives(lexemes, before).Read? ==> before <= ReadDirectives(lexemes, before).value
    decreases |lexemes|
  {
    hide ReadOptionalArguments;
    if |lexemes| >= 2 && lexemes[0].token == At && IsName(lexemes[1]) && lexemes[1].start == lexemes[0].end {
      var arguments := ReadOptionalArguments(lexemes[1..][1..]);
      if arguments.Read? {
        DirectivesKept(arguments.rest, before + [Directive(lexemes[1].text, arguments.value)]);
      }
    }
  }

  lemma {:induction false} SelectionsKept(lexemes: seq<Lexeme>, before: seq<Selection>)
    ensures ReadSelections(lexemes, before).Read? ==> before <= ReadSelections(lexemes, before).value
    decreases |lexemes|
  {
    hide ReadSelection;
    if lexemes != [] && lexemes[0].token != CloseBrace && ReadSelection(lexemes).Read? {
      var selection := ReadSelection(lexemes);
      SelectionsKept(selection.rest, before + [selection.value]);
    }
  }

  /** If arguments fit, then so does the next one. */
  lemma NextArgument(schema: Schema, annotations: Annotations, declared: map<string, Type>, lexemes: seq<Lexeme>,
                     before: seq<Argument>)
    requires SchemaClosed(schema, annotations.Keys) && ArgumentsClosed(declared, annotations.Keys)
    requires lexemes != [] && IsName(lexemes[0])
    ensures ArgumentsFit(schema, annotations, declared, ReadArguments(lexemes, before)) ==>
              && Starts(lexemes[1..], Colon) && lexemes[0].text in declared
              && var value := VS.ParseValue(lexemes[1..][1..], false);
                 && value.Parsed? && Accepts(schema.symbols, annotations, value.value, declared[lexemes[0].text])
                 && DirectivesFit(schema, annotations, OnArgumentDefinition, ReadDirectives(value.rest, []))
  {
    hide ReadDirectives, Accepts, DirectivesSound;
    var all := ReadArguments(lexemes, before);
    if ArgumentsFit(schema, annotations, declared, all) {
      var value := VS.ParseValue(lexemes[1..][1..], false);
      var directives := ReadDirectives(value.rest, []);
      var next := Argument(lexemes[0].text, value.value, directives.value);
      ArgumentsKept(directives.rest, before + [next]);
      assert all.value[|before|] == (before + [next])[|before|] == next;
      assert ArgumentSound(schema, annotations, declared, all.value[|before|]);
    }
  }

  /** If directives fit, then so does the next one, and none before it has its name. */
  lemma NextDirective(schema: Schema, annotations: Annotations, location: DirectiveLocation, lexemes: seq<Lexeme>,
                      before: seq<Directive>)
    requires SchemaClosed(schema, annotations.Keys) && Starts(lexemes, At)
    ensures DirectivesFit(schema, annotations, location, ReadDirectives(lexemes, before)) ==>
              && |lexemes| >= 2 && IsName(lexemes[1]) && lexemes[1].start == lexemes[0].end
              && lexemes[1].text in schema.directives && location in schema.directives[lexemes[1].text].locations
              && (forall k | 0 <= k < |before| :: before[k].name != lexemes[1].text)
              && OptionalFits(schema, annotations, schema.directives[lexemes[1].text].arguments,
                              ReadOptionalArguments(lexemes[1..][1..]))
  {
    hide ReadOptionalArguments, ArgumentsSound;
    var all := ReadDirectives(lexemes, before);
    if DirectivesFit(schema, annotations, location, all) {
      var arguments := ReadOptionalArguments(lexemes[1..][1..]);
      var next := Directive(lexemes[1].text, arguments.value);
      DirectivesKept(arguments.rest, before + [next]);
      assert all.value[|before|] == (before + [next])[|before|] == next;
      assert forall k | 0 <= k < |before| :: all.value[k] == (before + [next])[k] == before[k];
      assert DirectiveSound(schema, annotations, all.value[|before|], location);
    }
  }

  /** If selections fit, then so does the next one. */
  lemma NextSelection(schema: Schema, annotations: Annotations, scope: Declaration, lexemes: seq<Lexeme>,
                      before: seq<Selection>)
    requires SchemaClosed(schema, annotations.Keys) && FieldsClosed(scope, annotations.Keys)
    ensures SelectionsFit(schema, annotations, scope, ReadSelections(lexemes, before)) ==>
              lexemes != [] &&
              (lexemes[0].token == CloseBrace || SelectionFits(schema, annotations, scope, ReadSelection(lexemes)))
  {
    hide ReadSelection, SelectionSound;
    var all := ReadSelections(lexemes, before);
    if SelectionsFit(schema, annotations, scope, all) && lexemes != [] && lexemes[0].token != CloseBrace {
      var next := ReadSelection(lexemes);
      SelectionsKept(next.rest, before + [next.value]);
      assert all.value[|before|] == (before + [next.value])[|before|] == next.value;
    }
  }
}
