/** Whether a document fits a schema does not depend on the places of names in its values. */
module DocumentPlaces {
  import opened SourceText
  import opened GraphQlSyntax
  import opened ValueRules
  import opened Selections
  import opened ValueTokens
  import opened DocumentTokens

  lemma {:induction false} SameAccepted(symbols: Symbols, annotations: Annotations, v: Value, t: Type)
    requires Closed(symbols, annotations.Keys) && t in annotations
    ensures Accepts(symbols, annotations, v, t) <==> Accepts(symbols, annotations, Bare(v), t)
    decreases v, 1
  {
    hide Closed, LeafFits;
    match v
    case ListValue(values) =>
      var inside := annotations[t := annotations[t].(isListType := false)];
      assert inside.Keys == annotations.Keys;
      forall k | 0 <= k < |values|
        ensures Accepts(symbols, inside, values[k], t) <==> Accepts(symbols, inside, BareAll(values)[k], t)
      {
        SameAccepted(symbols, inside, values[k], t);
      }
    case ObjectValue(fields) => SameObjectAccepted(symbols, annotations, fields, t);
    case _ =>
  }

  lemma {:induction false} SameObjectAccepted(symbols: Symbols, annotations: Annotations, fields: seq<ObjectField>,
                                              t: Type)
    requires Closed(symbols, annotations.Keys) && t in annotations
    ensures Accepts(symbols, annotations, ObjectValue(fields), t) <==>
            Accepts(symbols, annotations, Bare(ObjectValue(fields)), t)
    decreases fields, 0
  {
    hide DistinctNames, HasField;
    SameNames(fields);
    var info := annotations[t];
    if info.name in symbols && symbols[info.name].InputObjectType? {
      var declared := symbols[info.name].inputFields;
      forall k | 0 <= k < |fields| && fields[k].name in declared
        ensures Accepts(symbols, annotations, fields[k].value, declared[fields[k].name].annotation) <==>
                Accepts(symbols, annotations, BareFields(fields)[k].value, declared[fields[k].name].annotation)
      {
        SameAccepted(symbols, annotations, fields[k].value, declared[fields[k].name].annotation);
      }
    }
  }

  lemma SameNames(fields: seq<ObjectField>)
    ensures DistinctNames(fields) <==> DistinctNames(BareFields(fields))
    ensures forall name :: HasField(fields, name) <==> HasField(BareFields(fields), name)
  {
    hide Bare;
    var bare := BareFields(fields);
    forall name ensures HasField(fields, name) <==> HasField(bare, name) {
      if k :| 0 <= k < |fields| && fields[k].name == name {
        assert bare[k].name == name;
      }
      if k :| 0 <= k < |bare| && bare[k].name == name {
        assert fields[k].name == name;
      }
    }
    assert forall k | 0 <= k < |fields| :: bare[k].name == fields[k].name;
  }

  lemma {:induction false} BareArgumentsAt(arguments: seq<Argument>)
    ensures |BareArguments(arguments)| == |arguments|
    ensures forall k | 0 <= k < |arguments| ::
              var a := arguments[k];
              BareArguments(arguments)[k] == Argument(a.name, Bare(a.value), BareDirectives(a.directives))
    decreases |arguments|
  {
    hide Bare, BareDirectives;
    if arguments != [] {
      BareArgumentsAt(arguments[1..]);
    }
  }

  lemma {:induction false} BareDirectivesAt(directives: seq<Directive>)
    ensures |BareDirectives(directives)| == |directives|
    ensures forall k | 0 <= k < |directives| ::
              BareDirectives(directives)[k] == Directive(directives[k].name, BareList(directives[k].arguments))
    decreases |directives|
  {
    hide BareList;
    if directives != [] {
      BareDirectivesAt(directives[1..]);
    }
  }

  lemma {:induction false} BareSelectionsAt(selections: seq<Selection>)
    ensures |BareSelections(selections)| == |selections|
    ensures forall k | 0 <= k < |selections| :: BareSelections(selections)[k] == BareSelection(selections[k])
    decreases |selections|
  {
    hide BareSelection;
    if selections != [] {
      BareSelectionsAt(selections[1..]);
    }
  }

  lemma {:induction false} BareDefinitionsAt(definitions: seq<Definition>)
    ensures |BareDefinitions(definitions)| == |definitions|
    ensures forall k | 0 <= k < |definitions| :: BareDefinitions(definitions)[k] == BareDefinition(definitions[k])
    decreases |definitions|
  {
    hide BareDefinition;
    if definitions != [] {
      BareDefinitionsAt(definitions[1..]);
    }
  }

  lemma {:induction false} SameArguments(schema: Schema, annotations: Annotations, declared: map<string, Type>,
                                         arguments: seq<Argument>)
    requires SchemaClosed(schema, annotations.Keys) && ArgumentsClosed(declared, annotations.Keys)
    ensures ArgumentsSound(schema, annotations, declared, arguments) <==>
            ArgumentsSound(schema, annotations, declared, BareArguments(arguments))
    decreases arguments
  {
    hide Accepts, DirectivesSound, BareArguments, Bare, BareDirectives;
    var bare := BareArguments(arguments);
    BareArgumentsAt(arguments);
    forall k | 0 <= k < |arguments|
      ensures ArgumentSound(schema, annotations, declared, arguments[k]) <==>
              ArgumentSound(schema, annotations, declared, bare[k])
    {
      var a := arguments[k];
      if a.name in declared {
        SameAccepted(schema.symbols, annotations, a.value, declared[a.name]);
      }
      SameDirectives(schema, annotations, a.directives, OnArgumentDefinition);
    }
    SameArgumentNames(arguments);
  }

  lemma SameArgumentNames(arguments: seq<Argument>)
    ensures forall name :: HasArgument(arguments, name) <==> HasArgument(BareArguments(arguments), name)
  {
    hide Bare, BareDirectives, BareArguments;
    var bare := BareArguments(arguments);
    BareArgumentsAt(arguments);
    forall name ensures HasArgument(arguments, name) <==> HasArgument(bare, name) {
      if k :| 0 <= k < |arguments| && arguments[k].name == name {
        assert bare[k].name == name;
      }
      if k :| 0 <= k < |bare| && bare[k].name == name {
        assert arguments[k].name == name;
      }
    }
  }

  lemma {:induction false} SameList(schema: Schema, annotations: Annotations, declared: map<string, Type>,
                                    list: ArgumentList)
    requires SchemaClosed(schema, annotations.Keys) && ArgumentsClosed(declared, annotations.Keys)
    ensures BareList(list).Parentheses? == list.Parentheses?
    ensures list.Parentheses? ==>
              (ArgumentsSound(schema, annotations, declared, list.arguments) <==>
               ArgumentsSound(schema, annotations, declared, BareList(list).arguments))
    decreases list
  {
    hide ArgumentsSound, BareArguments;
    if list.Parentheses? {
      SameArguments(schema, annotations, declared, list.arguments);
    }
  }

  lemma {:induction false} SameDirectives(schema: Schema, annotations: Annotations, directives: seq<Directive>,
                                          location: DirectiveLocation)
    requires SchemaClosed(schema, annotations.Keys)
    ensures DirectivesSound(schema, annotations, directives, location) <==>
            DirectivesSound(schema, annotations, BareDirectives(directives), location)
    decreases directives
  {
    hide ArgumentsSound, BareDirectives, BareList;
    var bare := BareDirectives(directives);
    BareDirectivesAt(directives);
    forall k | 0 <= k < |directives|
      ensures bare[k].name == directives[k].name
      ensures DirectiveSound(schema, annotations, directives[k], location) <==>
              DirectiveSound(schema, annotations, bare[k], location)
    {
      var d := directives[k];
      if d.name in schema.directives {
        assert ArgumentsClosed(schema.directives[d.name].arguments, annotations.Keys);
        SameList(schema, annotations, schema.directives[d.name].arguments, d.arguments);
      }
    }
  }

  function BareRule(rule: SpreadRule): SpreadRule {
    match rule
    case Any => Any
    case Resolved(fragments) => Resolved(BareDefinitions(fragments))
  }

  lemma {:induction false} SameFragment(fragments: seq<Definition>, name: string)
    ensures var first, bare := FirstFragment(fragments, name), FirstFragment(BareDefinitions(fragments), name);
            first.Some? == bare.Some? && (first.Some? ==> bare.value == BareDefinition(first.value))
    decreases |fragments|
  {
    hide BareSelections, BareDirectives;
    if fragments != [] {
      SameFragment(fragments[1..], name);
      assert BareDefinitions(fragments)[1..] == BareDefinitions(fragments[1..]);
    }
  }

  lemma SameSpread(schema: Schema, rule: SpreadRule, reference: Reference)
    ensures SpreadAllowed(schema, rule, reference) <==> SpreadAllowed(schema, BareRule(rule), reference)
  {
    hide PossibleTypes, BareDefinitions;
    if rule.Resolved? {
      SameFragment(rule.fragments, reference.name);
    }
  }

  lemma {:induction false} SameSelection(schema: Schema, annotations: Annotations, rule: SpreadRule, scope: Declaration,
                                         s: Selection)
    requires SchemaClosed(schema, annotations.Keys) && FieldsClosed(scope, annotations.Keys)
    ensures SelectionSound(schema, annotations, rule, scope, s) <==>
            SelectionSound(schema, annotations, BareRule(rule), scope, BareSelection(s))
    decreases s, 0
  {
    hide DirectivesSound, ArgumentsSound, SelectionsSound, SpreadAllowed, PossibleTypes, BareDirectives, BareList,
      BareSelections, BareRule;
    match s
    case Field(_, _, arguments, directives, selectionSet) =>
      SameDirectives(schema, annotations, directives, OnField);
      if (scope.ObjectType? || scope.InterfaceType?) && s.Key() in scope.fields {
        var field := scope.fields[s.Key()];
        SameList(schema, annotations, field.arguments, arguments);
        var info := annotations[field.annotation];
        if selectionSet.Braces? && info.name in schema.symbols {
          SameSelections(schema, annotations, rule, schema.symbols[info.name], selectionSet.selections);
        }
      }
    case InlineFragment(typeName, directives, selections) =>
      SameDirectives(schema, annotations, directives, OnInlineFragment);
      if typeName in schema.symbols {
        SameSelections(schema, annotations, rule, schema.symbols[typeName], selections);
      }
    case FragmentSpread(spread, directives) =>
      SameDirectives(schema, annotations, directives, OnFragmentSpread);
      SameSpread(schema, rule, Reference(spread, scope));
  }

  lemma {:induction false} SameSelections(schema: Schema, annotations: Annotations, rule: SpreadRule,
                                          scope: Declaration, selections: seq<Selection>)
    requires SchemaClosed(schema, annotations.Keys) && FieldsClosed(scope, annotations.Keys)
    ensures SelectionsSound(schema, annotations, rule, scope, selections) <==>
            SelectionsSound(schema, annotations, BareRule(rule), scope, BareSelections(selections))
    decreases selections, 0
  {
    hide SelectionSound, BareSelection, BareSelections, BareRule;
    BareSelectionsAt(selections);
    forall k | 0 <= k < |selections|
      ensures SelectionSound(schema, annotations, rule, scope, selections[k]) <==>
              SelectionSound(schema, annotations, BareRule(rule), scope, BareSelections(selections)[k])
    {
      SameSelection(schema, annotations, rule, scope, selections[k]);
    }
  }

  lemma SameDefinition(schema: Schema, annotations: Annotations, rule: SpreadRule, d: Definition)
    requires SchemaClosed(schema, annotations.Keys)
    ensures DefinitionSound(schema, annotations, rule, d) <==>
            DefinitionSound(schema, annotations, BareRule(rule), BareDefinition(d))
  {
    hide DirectivesSound, SelectionsSound, BareDirectives, BareSelections, BareRule;
    match d
    case FragmentDefinition(_, typeName, directives, selections) =>
      SameDirectives(schema, annotations, directives, OnFragmentDefinition);
      if typeName in schema.symbols {
        SameSelections(schema, annotations, rule, schema.symbols[typeName], selections);
      }
    case OperationDefinition(operationType, _, directives, selections) =>
      SameDirectives(schema, annotations, directives, OperationLocation(operationType));
      if RootType(schema, operationType).Some? {
        SameSelections(schema, annotations, rule, RootType(schema, operationType).value, selections);
      }
  }

  // Documents alike but for places fit together.
  lemma SameDocument(schema: Schema, annotations: Annotations, document: Document)
    requires SchemaClosed(schema, annotations.Keys)
    ensures DocumentSound(schema, annotations, document) <==>
            DocumentSound(schema, annotations,
                          Document(BareDefinitions(document.operations), BareDefinitions(document.fragments)))
  {
    hide DefinitionSound, BareDefinition, BareDefinitions;
    var all, rule := document.operations + document.fragments, Resolved(document.fragments);
    var bare := BareDefinitions(document.operations) + BareDefinitions(document.fragments);
    BareDefinitionsAt(document.operations);
    BareDefinitionsAt(document.fragments);
    forall k | 0 <= k < |all|
      ensures bare[k] == BareDefinition(all[k])
      ensures DefinitionSound(schema, annotations, rule, all[k]) <==>
                DefinitionSound(schema, annotations, BareRule(rule), bare[k])
    {
      SameDefinition(schema, annotations, rule, all[k]);
    }
    AllInBoth(schema, annotations, rule, all, bare);
    SameNamesOfFragments(document.fragments);
  }

  lemma AllInBoth(schema: Schema, annotations: Annotations, rule: SpreadRule, all: seq<Definition>,
                  bare: seq<Definition>)
    requires SchemaClosed(schema, annotations.Keys) && |bare| == |all|
    requires forall k | 0 <= k < |all| ::
               DefinitionSound(schema, annotations, rule, all[k]) <==>
                 DefinitionSound(schema, annotations, BareRule(rule), bare[k])
    ensures (forall d | d in all :: DefinitionSound(schema, annotations, rule, d)) <==>
            forall d | d in bare :: DefinitionSound(schema, annotations, BareRule(rule), d)
  {
    hide DefinitionSound, BareRule;
    if forall d | d in all :: DefinitionSound(schema, annotations, rule, d) {
      forall d | d in bare ensures DefinitionSound(schema, annotations, BareRule(rule), d) {
        var k :| 0 <= k < |bare| && bare[k] == d;
        assert all[k] in all;
      }
    }
    if forall d | d in bare :: DefinitionSound(schema, annotations, BareRule(rule), d) {
      forall d | d in all ensures DefinitionSound(schema, annotations, rule, d) {
        var k :| 0 <= k < |all| && all[k] == d;
        assert bare[k] in bare;
      }
    }
  }

  lemma SameNamesOfFragments(fragments: seq<Definition>)
    ensures DistinctFragments(fragments) <==> DistinctFragments(BareDefinitions(fragments))
  {
    hide BareDefinitions, BareSelections, BareDirectives;
    BareDefinitionsAt(fragments);
    var bare := BareDefinitions(fragments);
    forall k | 0 <= k < |fragments|
      ensures bare[k].FragmentDefinition? == fragments[k].FragmentDefinition?
      ensures bare[k].FragmentDefinition? ==> bare[k].name == fragments[k].name
    {
    }
  }

  lemma {:induction false} BareParts(definitions: seq<Definition>)
    ensures OperationsOf(BareDefinitions(definitions)) == BareDefinitions(OperationsOf(definitions))
    ensures FragmentsOf(BareDefinitions(definitions)) == BareDefinitions(FragmentsOf(definitions))
    decreases |definitions|
  {
    hide BareSelections, BareDirectives;
    if definitions != [] {
      BareParts(definitions[1..]);
      assert BareDefinitions(definitions)[1..] == BareDefinitions(definitions[1..]);
      BareJoined(if definitions[0].OperationDefinition? then [definitions[0]] else [], OperationsOf(definitions[1..]));
      BareJoined(if definitions[0].FragmentDefinition? then [definitions[0]] else [], FragmentsOf(definitions[1..]));
    }
  }

  lemma {:induction false} BareJoined(first: seq<Definition>, second: seq<Definition>)
    requires |first| <= 1
    ensures BareDefinitions(first + second) == BareDefinitions(first) + BareDefinitions(second)
  {
    hide BareDefinition;
    if first == [] {
      assert first + second == second;
    } else {
      assert (first + second)[1..] == second;
    }
  }
}
