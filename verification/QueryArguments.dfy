/** The argument values of a query that drew no diagnostic, at every depth of its selections. */
module QueryArguments {
  import opened SourceText
  import opened GraphQlSyntax
  import opened ValueRules
  import opened SharedAnnotations
  import opened InputCoercion
  import opened Selections

  // A test of a value against the annotation it is given for.
  type Test = (Value, Type) -> bool

  // Every one of the arguments passes the test, and so does every argument of their directives.
  ghost predicate ValuesPass(schema: Schema, declared: map<string, Type>, arguments: seq<Argument>, test: Test)
    decreases arguments
  {
    forall k | 0 <= k < |arguments| ::
      && (arguments[k].name in declared ==> test(arguments[k].value, declared[arguments[k].name]))
      && DirectivesPass(schema, arguments[k].directives, test)
  }

  ghost predicate DirectivesPass(schema: Schema, directives: seq<Directive>, test: Test)
    decreases directives
  {
    forall k |
      && 0 <= k < |directives|
      && directives[k].name in schema.directives && directives[k].arguments.Parentheses? ::
      ValuesPass(schema, schema.directives[directives[k].name].arguments, directives[k].arguments.arguments, test)
  }

  // Every argument in the selection, and in all that is selected inside it, passes the test.
  ghost predicate ArgumentsPass(schema: Schema, annotations: Annotations, scope: Declaration, s: Selection, test: Test)
    requires SchemaClosed(schema, annotations.Keys) && FieldsClosed(scope, annotations.Keys)
    decreases s
  {
    match s
    case Field(_, _, arguments, directives, selectionSet) =>
      DirectivesPass(schema, directives, test) &&
      ((scope.ObjectType? || scope.InterfaceType?) && s.Key() in scope.fields ==>
        var field := scope.fields[s.Key()];
        && (arguments.Parentheses? ==> ValuesPass(schema, field.arguments, arguments.arguments, test))
        && (selectionSet.Braces? && annotations[field.annotation].name in schema.symbols ==>
              var inner := schema.symbols[annotations[field.annotation].name];
              forall k | 0 <= k < |selectionSet.selections| ::
                ArgumentsPass(schema, annotations, inner, selectionSet.selections[k], test)))
    case InlineFragment(typeName, directives, selections) =>
      DirectivesPass(schema, directives, test) &&
      (typeName in schema.symbols ==>
        forall k | 0 <= k < |selections| ::
          ArgumentsPass(schema, annotations, schema.symbols[typeName], selections[k], test))
    case FragmentSpread(_, directives) => DirectivesPass(schema, directives, test)
  }

  // The arguments a declaration's fields take have types whose shared flags do no harm.
  ghost predicate ArgumentsHarmless(schema: Schema, annotations: Annotations, declaration: Declaration)
    requires SchemaClosed(schema, annotations.Keys) && FieldsClosed(declaration, annotations.Keys)
  {
    declaration.ObjectType? || declaration.InterfaceType? ==>
      forall f | f in declaration.fields ::
        forall a | a in declaration.fields[f].arguments ::
          Harmless(schema.symbols, annotations, declaration.fields[f].arguments[a])
  }

  // So do the arguments of all fields in the schema, and required input fields are on record.
  ghost predicate SchemaHarmless(schema: Schema, annotations: Annotations)
    requires SchemaClosed(schema, annotations.Keys)
  {
    && RequiredRecorded(schema.symbols, annotations)
    && (forall d | d in schema.directives ::
          forall a | a in schema.directives[d].arguments ::
            Harmless(schema.symbols, annotations, schema.directives[d].arguments[a]))
    && (forall n | n in schema.symbols :: ArgumentsHarmless(schema, annotations, schema.symbols[n]))
    && ArgumentsHarmless(schema, annotations, schema.query)
    && (schema.mutation.Some? ==> ArgumentsHarmless(schema, annotations, schema.mutation.value))
    && (schema.subscription.Some? ==> ArgumentsHarmless(schema, annotations, schema.subscription.value))
  }

  // On values that the parser accepts where flags do no harm, the two tests agree.
  ghost predicate AgreeOnAccepted(symbols: Symbols, annotations: Annotations, first: Test, second: Test)
    requires Closed(symbols, annotations.Keys)
  {
    forall v, t | t in annotations && Harmless(symbols, annotations, t) && Accepts(symbols, annotations, v, t) ::
      first(v, t) <==> second(v, t)
  }

  lemma {:induction false} SameValues(schema: Schema, annotations: Annotations, declared: map<string, Type>,
                                      arguments: seq<Argument>, first: Test, second: Test)
    requires SchemaClosed(schema, annotations.Keys) && SchemaHarmless(schema, annotations)
    requires ArgumentsClosed(declared, annotations.Keys)
    requires forall a | a in declared :: Harmless(schema.symbols, annotations, declared[a])
    requires AgreeOnAccepted(schema.symbols, annotations, first, second)
    requires ArgumentsSound(schema, annotations, declared, arguments)
    ensures ValuesPass(schema, declared, arguments, first) <==> ValuesPass(schema, declared, arguments, second)
    decreases arguments
  {
    forall k | 0 <= k < |arguments|
      ensures var a := arguments[k];
              && a.name in declared && (first(a.value, declared[a.name]) <==> second(a.value, declared[a.name]))
              && (DirectivesPass(schema, a.directives, first) <==> DirectivesPass(schema, a.directives, second))
    {
      assert ArgumentSound(schema, annotations, declared, arguments[k]);
      SameDirectives(schema, annotations, arguments[k].directives, OnArgumentDefinition, first, second);
    }
  }

  lemma {:induction false} SameDirectives(schema: Schema, annotations: Annotations, directives: seq<Directive>,
                                          location: DirectiveLocation, first: Test, second: Test)
    requires SchemaClosed(schema, annotations.Keys) && SchemaHarmless(schema, annotations)
    requires AgreeOnAccepted(schema.symbols, annotations, first, second)
    requires DirectivesSound(schema, annotations, directives, location)
    ensures DirectivesPass(schema, directives, first) <==> DirectivesPass(schema, directives, second)
    decreases directives
  {
    forall k | 0 <= k < |directives| && directives[k].arguments.Parentheses?
      ensures directives[k].name in schema.directives
      ensures var declared := schema.directives[directives[k].name].arguments;
              ValuesPass(schema, declared, directives[k].arguments.arguments, first) <==>
              ValuesPass(schema, declared, directives[k].arguments.arguments, second)
    {
      assert DirectiveSound(schema, annotations, directives[k], location);
      assert ArgumentsClosed(schema.directives[directives[k].name].arguments, annotations.Keys);
      assert forall a | a in schema.directives[directives[k].name].arguments ::
          Harmless(schema.symbols, annotations, schema.directives[directives[k].name].arguments[a]);
      SameValues(schema, annotations, schema.directives[directives[k].name].arguments,
                 directives[k].arguments.arguments, first, second);
    }
  }

  lemma {:induction false} SameArguments(schema: Schema, annotations: Annotations, rule: SpreadRule, scope: Declaration,
                                         s: Selection, first: Test, second: Test)
    requires SchemaClosed(schema, annotations.Keys) && FieldsClosed(scope, annotations.Keys)
    requires SchemaHarmless(schema, annotations) && ArgumentsHarmless(schema, annotations, scope)
    requires AgreeOnAccepted(schema.symbols, annotations, first, second)
    requires SelectionSound(schema, annotations, rule, scope, s)
    ensures ArgumentsPass(schema, annotations, scope, s, first) <==>
              ArgumentsPass(schema, annotations, scope, s, second)
    decreases s
  {
    hide DirectivesSound, ValuesPass, DirectivesPass, AgreeOnAccepted;
    match s
    case Field(_, _, arguments, directives, selectionSet) =>
      var field := scope.fields[s.Key()];
      SameDirectives(schema, annotations, directives, OnField, first, second);
      if arguments.Parentheses? {
        SameValues(schema, annotations, field.arguments, arguments.arguments, first, second);
      }
      if selectionSet.Braces? {
        var inner := schema.symbols[annotations[field.annotation].name];
        forall k | 0 <= k < |selectionSet.selections|
          ensures ArgumentsPass(schema, annotations, inner, selectionSet.selections[k], first) <==>
                  ArgumentsPass(schema, annotations, inner, selectionSet.selections[k], second)
        {
          SameArguments(schema, annotations, rule, inner, selectionSet.selections[k], first, second);
        }
      }
    case InlineFragment(typeName, directives, selections) =>
      SameDirectives(schema, annotations, directives, OnInlineFragment, first, second);
      forall k | 0 <= k < |selections|
        ensures ArgumentsPass(schema, annotations, schema.symbols[typeName], selections[k], first) <==>
                ArgumentsPass(schema, annotations, schema.symbols[typeName], selections[k], second)
      {
        SameArguments(schema, annotations, rule, schema.symbols[typeName], selections[k], first, second);
      }
    case FragmentSpread(_, directives) =>
      SameDirectives(schema, annotations, directives, OnFragmentSpread, first, second);
  }

  // Every argument in the document passes the test.
  ghost predicate DefinitionPasses(schema: Schema, annotations: Annotations, definition: Definition, test: Test)
    requires SchemaClosed(schema, annotations.Keys)
  {
    && DirectivesPass(schema, definition.directives, test)
    && match definition
       case FragmentDefinition(_, typeName, _, selections) =>
         typeName in schema.symbols ==>
           forall k | 0 <= k < |selections| ::
             ArgumentsPass(schema, annotations, schema.symbols[typeName], selections[k], test)
       case OperationDefinition(operationType, _, _, selections) =>
         RootType(schema, operationType).Some? ==>
           forall k | 0 <= k < |selections| ::
             ArgumentsPass(schema, annotations, RootType(schema, operationType).value, selections[k], test)
  }

  ghost predicate DocumentPasses(schema: Schema, annotations: Annotations, document: Document, test: Test)
    requires SchemaClosed(schema, annotations.Keys)
  {
    forall d | d in document.operations + document.fragments :: DefinitionPasses(schema, annotations, d, test)
  }

  lemma SameInDefinition(schema: Schema, annotations: Annotations, rule: SpreadRule, definition: Definition,
                         first: Test, second: Test)
    requires SchemaClosed(schema, annotations.Keys) && SchemaHarmless(schema, annotations)
    requires AgreeOnAccepted(schema.symbols, annotations, first, second)
    requires DefinitionSound(schema, annotations, rule, definition)
    ensures DefinitionPasses(schema, annotations, definition, first) <==>
              DefinitionPasses(schema, annotations, definition, second)
  {
    var scope := if definition.FragmentDefinition? then schema.symbols[definition.typeName]
                 else RootType(schema, definition.operationType).value;
    SameDirectives(schema, annotations, definition.directives,
                   if definition.FragmentDefinition? then OnFragmentDefinition
                   else OperationLocation(definition.operationType),
                   first, second);
    forall k | 0 <= k < |definition.selections|
      ensures ArgumentsPass(schema, annotations, scope, definition.selections[k], first) <==>
              ArgumentsPass(schema, annotations, scope, definition.selections[k], second)
    {
      SameArguments(schema, annotations, rule, scope, definition.selections[k], first, second);
    }
  }

  // The tests: the specification's, the checkers', and what is left to ask of the values alone.
  ghost function IsCoercible(symbols: Symbols, annotations: Annotations): Test
    requires Closed(symbols, annotations.Keys)
  {
    (v, t) => t in annotations && Coercible(symbols, annotations, v, annotations[t])
  }

  ghost function IsConforming(symbols: Symbols, annotations: Annotations): Test
    requires Closed(symbols, annotations.Keys)
  {
    (v, t) => t in annotations && Conforms(symbols, annotations, v, annotations[t])
  }

  ghost function IsComplete(): Test {
    (v: Value, t: Type) => Complete(v)
  }

  ghost function IsCompleteAndFits(symbols: Symbols, annotations: Annotations): Test
    requires Closed(symbols, annotations.Keys)
  {
    (v, t) => t in annotations && Complete(v) && IntsFit(symbols, annotations, v, annotations[t])
  }

  /** In a document that fits the schema, where no list is met again inside itself: all arguments
      of all fields and directives at all depths can be coerced to their types (GraphQL specification, June 2018,
      section 5.6) exactly when none has a part without a value and all integers can be
      represented; and they conform to the checkers' rules exactly when none has such a part. */
  lemma ArgumentsCoerce(schema: Schema, annotations: Annotations, document: Document)
    requires SchemaClosed(schema, annotations.Keys) && SchemaHarmless(schema, annotations)
    requires DocumentSound(schema, annotations, document)
    ensures DocumentPasses(schema, annotations, document, IsCoercible(schema.symbols, annotations)) <==>
            DocumentPasses(schema, annotations, document, IsCompleteAndFits(schema.symbols, annotations))
    ensures DocumentPasses(schema, annotations, document, IsConforming(schema.symbols, annotations)) <==>
            DocumentPasses(schema, annotations, document, IsComplete())
  {
    var symbols := schema.symbols;
    TestsAgree(symbols, annotations);
    forall d | d in document.operations + document.fragments
      ensures DefinitionPasses(schema, annotations, d, IsCoercible(symbols, annotations)) <==>
              DefinitionPasses(schema, annotations, d, IsCompleteAndFits(symbols, annotations))
      ensures DefinitionPasses(schema, annotations, d, IsConforming(symbols, annotations)) <==>
              DefinitionPasses(schema, annotations, d, IsComplete())
    {
      SameInDefinition(schema, annotations, Resolved(document.fragments), d,
                       IsCoercible(symbols, annotations), IsCompleteAndFits(symbols, annotations));
      SameInDefinition(schema, annotations, Resolved(document.fragments), d,
                       IsConforming(symbols, annotations), IsComplete());
    }
  }

  lemma TestsAgree(symbols: Symbols, annotations: Annotations)
    requires Closed(symbols, annotations.Keys) && RequiredRecorded(symbols, annotations)
    ensures AgreeOnAccepted(symbols, annotations, IsCoercible(symbols, annotations),
                            IsCompleteAndFits(symbols, annotations))
    ensures AgreeOnAccepted(symbols, annotations, IsConforming(symbols, annotations), IsComplete())
  {
    forall v, t | t in annotations && Harmless(symbols, annotations, t) && Accepts(symbols, annotations, v, t)
      ensures IsCoercible(symbols, annotations)(v, t) <==> IsCompleteAndFits(symbols, annotations)(v, t)
      ensures IsConforming(symbols, annotations)(v, t) <==> IsComplete()(v, t)
    {
      AcceptedCoerces(symbols, annotations, v, t);
    }
  }
}
