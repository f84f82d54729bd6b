/** A document fits a schema exactly if it obeys every rule at every place. */
module DocumentValidity {
  import opened SourceText
  import opened GraphQlSyntax
  import opened ValueRules
  import opened Selections
  import opened DocumentRules
  import DN = DirectiveNames

  lemma BothObey(schema: Schema, annotations: Annotations, fragments: seq<Definition>, first: seq<Place>,
                 second: seq<Place>)
    requires SchemaClosed(schema, annotations.Keys)
    ensures AllObey(schema, annotations, fragments, first + second) <==>
            AllObey(schema, annotations, fragments, first) && AllObey(schema, annotations, fragments, second)
  {
    hide Obeys;
    if AllObey(schema, annotations, fragments, first + second) {
      assert forall place | place in first :: place in first + second;
      assert forall place | place in second :: place in first + second;
    }
  }

  lemma OneObeys(schema: Schema, annotations: Annotations, fragments: seq<Definition>, place: Place)
    requires SchemaClosed(schema, annotations.Keys)
    ensures AllObey(schema, annotations, fragments, [place]) <==> Obeys(schema, annotations, fragments, place)
  {
    hide Obeys;
    assert place in [place];
  }

  // A place, and the places behind it.
  lemma FirstObeys(schema: Schema, annotations: Annotations, fragments: seq<Definition>, place: Place,
                   others: seq<Place>)
    requires SchemaClosed(schema, annotations.Keys)
    ensures AllObey(schema, annotations, fragments, [place] + others) <==>
            Obeys(schema, annotations, fragments, place) && AllObey(schema, annotations, fragments, others)
  {
    hide Obeys, AllObey;
    BothObey(schema, annotations, fragments, [place], others);
    OneObeys(schema, annotations, fragments, place);
  }

  lemma LocationsByName(first: DirectiveLocation, second: DirectiveLocation)
    ensures DN.Spelling(LocationOf(first)) == DN.Spelling(LocationOf(second)) <==> first == second
  {
    SpellingOfLocation(first);
    SpellingOfLocation(second);
  }

  lemma SpellingOfLocation(location: DirectiveLocation)
    ensures var name := DN.Spelling(LocationOf(location));
            match location
            case OnQuery => |name| == 5 && name[0] == 'Q'
            case OnMutation => |name| == 8
            case OnSubscription => |name| == 12
            case OnField => |name| == 5 && name[0] == 'F'
            case OnFragmentDefinition => |name| == 19 && name[0] == 'F'
            case OnFragmentSpread => |name| == 15 && name[0] == 'F'
            case OnInlineFragment => |name| == 15 && name[0] == 'I'
            case OnArgumentDefinition => |name| == 19 && name[0] == 'A'
  {
  }

  lemma DirectiveAllowed(schema: Schema, annotations: Annotations, fragments: seq<Definition>,
                         location: DirectiveLocation, d: Directive)
    requires SchemaClosed(schema, annotations.Keys)
    ensures Obeys(schema, annotations, fragments, DirectivePlace(DN.Spelling(LocationOf(location)), d)) <==>
            d.name in schema.directives && location in schema.directives[d.name].locations
  {
    hide SchemaClosed, DN.Spelling, LocationOf;
    if d.name in schema.directives {
      forall l: DirectiveLocation
        ensures DN.Spelling(LocationOf(l)) == DN.Spelling(LocationOf(location)) <==> l == location
      {
        LocationsByName(l, location);
      }
    }
  }

  lemma {:induction false} DirectivesObey(schema: Schema, annotations: Annotations, fragments: seq<Definition>,
                                          location: DirectiveLocation, directives: seq<Directive>)
    requires SchemaClosed(schema, annotations.Keys)
    ensures AllObey(schema, annotations, fragments,
                    DirectivesPlaces(schema, DN.Spelling(LocationOf(location)), directives)) <==>
            DirectivesSound(schema, annotations, directives, location)
    decreases directives, 1
  {
    hide AllObey, SchemaClosed, DirectiveSound, DN.Spelling, LocationOf, EachDirective;
    EachDirectiveObeys(schema, annotations, fragments, location, directives);
    FirstObeys(schema, annotations, fragments, DirectivesPlace(directives),
               EachDirective(schema, DN.Spelling(LocationOf(location)), directives));
  }

  lemma {:induction false} EachDirectiveObeys(schema: Schema, annotations: Annotations, fragments: seq<Definition>,
                                              location: DirectiveLocation, directives: seq<Directive>)
    requires SchemaClosed(schema, annotations.Keys)
    ensures AllObey(schema, annotations, fragments,
                    EachDirective(schema, DN.Spelling(LocationOf(location)), directives)) <==>
            forall k | 0 <= k < |directives| :: DirectiveSound(schema, annotations, directives[k], location)
    decreases directives, 0
  {
    hide AllObey, Obeys, DirectiveSound, DN.Spelling, LocationOf, ListPlaces;
    if directives == [] {
      NothingObeys(schema, annotations, fragments);
    } else {
      var d, name := directives[0], DN.Spelling(LocationOf(location));
      var inside := ListPlaces(schema, ArgumentsOfDirective(schema, d.name), d.arguments);
      var others := EachDirective(schema, name, directives[1..]);
      FirstObeys(schema, annotations, fragments, DirectivePlace(name, d), inside + others);
      BothObey(schema, annotations, fragments, inside, others);
      EachDirectiveObeys(schema, annotations, fragments, location, directives[1..]);
      assert forall k | 0 < k < |directives| :: directives[k] == directives[1..][k - 1];
      OneDirectiveObeys(schema, annotations, fragments, location, d);
    }
  }

  lemma NothingObeys(schema: Schema, annotations: Annotations, fragments: seq<Definition>)
    requires SchemaClosed(schema, annotations.Keys)
    ensures AllObey(schema, annotations, fragments, [])
  {
  }

  lemma {:induction false} OneDirectiveObeys(schema: Schema, annotations: Annotations, fragments: seq<Definition>,
                                             location: DirectiveLocation, d: Directive)
    requires SchemaClosed(schema, annotations.Keys)
    ensures Obeys(schema, annotations, fragments, DirectivePlace(DN.Spelling(LocationOf(location)), d)) &&
            AllObey(schema, annotations, fragments,
                    ListPlaces(schema, ArgumentsOfDirective(schema, d.name), d.arguments)) <==>
            DirectiveSound(schema, annotations, d, location)
    decreases d
  {
    hide AllObey, Obeys, DN.Spelling, LocationOf, ListPlaces, ArgumentsSound;
    DirectiveAllowed(schema, annotations, fragments, location, d);
    if d.name in schema.directives {
      assert ArgumentsClosed(schema.directives[d.name].arguments, annotations.Keys);
      ListObeys(schema, annotations, fragments, schema.directives[d.name].arguments, d.arguments);
    }
  }

  lemma {:induction false} ListObeys(schema: Schema, annotations: Annotations, fragments: seq<Definition>,
                                     declared: map<string, Type>, list: ArgumentList)
    requires SchemaClosed(schema, annotations.Keys) && ArgumentsClosed(declared, annotations.Keys)
    ensures AllObey(schema, annotations, fragments, ListPlaces(schema, Some(declared), list)) <==>
            (list.Parentheses? ==> ArgumentsSound(schema, annotations, declared, list.arguments))
    decreases list
  {
    hide AllObey, Obeys, ArgumentSound, EachArgument, SchemaClosed;
    if list.NoParentheses? {
      NothingObeys(schema, annotations, fragments);
    } else {
      FirstObeys(schema, annotations, fragments, ListPlace(Some(declared), list.arguments),
                 EachArgument(schema, Some(declared), list.arguments));
      EachArgumentObeys(schema, annotations, fragments, declared, list.arguments);
      RequiredObey(schema, annotations, fragments, declared, list.arguments);
    }
  }

  lemma RequiredObey(schema: Schema, annotations: Annotations, fragments: seq<Definition>, declared: map<string, Type>,
                     arguments: seq<Argument>)
    requires SchemaClosed(schema, annotations.Keys) && ArgumentsClosed(declared, annotations.Keys)
    ensures Obeys(schema, annotations, fragments, ListPlace(Some(declared), arguments)) <==>
            forall a | a in declared && !annotations[declared[a]].TakesNull() :: HasArgument(arguments, a)
  {
    hide SchemaClosed;
  }

  lemma {:induction false} EachArgumentObeys(schema: Schema, annotations: Annotations, fragments: seq<Definition>,
                                             declared: map<string, Type>, arguments: seq<Argument>)
    requires SchemaClosed(schema, annotations.Keys) && ArgumentsClosed(declared, annotations.Keys)
    ensures AllObey(schema, annotations, fragments, EachArgument(schema, Some(declared), arguments)) <==>
            forall k | 0 <= k < |arguments| :: ArgumentSound(schema, annotations, declared, arguments[k])
    decreases arguments
  {
    hide AllObey, Obeys, ArgumentSound, DirectivesPlaces, SchemaClosed;
    if arguments == [] {
      NothingObeys(schema, annotations, fragments);
    } else {
      var a := arguments[0];
      var inside := DirectivesPlaces(schema, "ARGUMENT_DEFINITION", a.directives);
      var others := EachArgument(schema, Some(declared), arguments[1..]);
      FirstObeys(schema, annotations, fragments, ArgumentPlace(Some(declared), a), inside + others);
      BothObey(schema, annotations, fragments, inside, others);
      EachArgumentObeys(schema, annotations, fragments, declared, arguments[1..]);
      assert forall k | 0 < k < |arguments| :: arguments[k] == arguments[1..][k - 1];
      OneArgumentObeys(schema, annotations, fragments, declared, a);
    }
  }

  lemma {:induction false} OneArgumentObeys(schema: Schema, annotations: Annotations, fragments: seq<Definition>,
                                            declared: map<string, Type>, a: Argument)
    requires SchemaClosed(schema, annotations.Keys) && ArgumentsClosed(declared, annotations.Keys)
    ensures Obeys(schema, annotations, fragments, ArgumentPlace(Some(declared), a)) &&
            AllObey(schema, annotations, fragments, DirectivesPlaces(schema, "ARGUMENT_DEFINITION", a.directives)) <==>
            ArgumentSound(schema, annotations, declared, a)
    decreases a
  {
    hide AllObey, DirectivesPlaces, SchemaClosed, DirectivesSound, Accepts;
    DirectivesObey(schema, annotations, fragments, OnArgumentDefinition, a.directives);
  }

  // A spread, where every fragment has a name of its own.
  lemma SpreadObeys(schema: Schema, fragments: seq<Definition>, scope: Declaration, name: string)
    requires DistinctFragments(fragments)
    ensures SpreadDefined(schema, fragments, Some(scope), name) <==>
            SpreadAllowed(schema, Resolved(fragments), Reference(name, scope))
  {
    hide CanOccur, PossibleTypes;
    FirstIsOnly(fragments, name);
    if FirstFragment(fragments, name).Some? {
      OccursExactly(schema, scope, FirstFragment(fragments, name).value.typeName);
    }
  }

  lemma {:induction false} FirstIsOnly(fragments: seq<Definition>, name: string)
    requires DistinctFragments(fragments)
    ensures forall k | 0 <= k < |fragments| && fragments[k].FragmentDefinition? && fragments[k].name == name ::
              FirstFragment(fragments, name) == Some(fragments[k])
    decreases |fragments|
  {
    if fragments != [] {
      forall j, k | 0 <= j < k < |fragments[1..]| && fragments[1..][j].FragmentDefinition? &&
                    fragments[1..][k].FragmentDefinition?
        ensures fragments[1..][j].name != fragments[1..][k].name
      {
        assert fragments[1..][j] == fragments[j + 1] && fragments[1..][k] == fragments[k + 1];
      }
      FirstIsOnly(fragments[1..], name);
      assert forall k | 0 < k < |fragments| :: fragments[k] == fragments[1..][k - 1];
    }
  }

  lemma OccursExactly(schema: Schema, scope: Declaration, typeName: string)
    ensures CanOccur(schema, Some(scope), typeName) <==>
            && typeName in schema.symbols && schema.symbols[typeName].ObjectType?
            && typeName in PossibleTypes(schema.symbols, scope)
  {
  }

  lemma {:induction false} SelectionObeys(schema: Schema, annotations: Annotations, fragments: seq<Definition>,
                                          scope: Declaration, s: Selection)
    requires SchemaClosed(schema, annotations.Keys) && FieldsClosed(scope, annotations.Keys)
    requires DistinctFragments(fragments)
    ensures AllObey(schema, annotations, fragments, SelectionPlaces(schema, annotations, Some(scope), s)) <==>
            SelectionSound(schema, annotations, Resolved(fragments), scope, s)
    decreases s, 1
  {
    match s
    case Field(_, _, _, _, _) => FieldObeys(schema, annotations, fragments, scope, s);
    case InlineFragment(_, _, _) => InlineFragmentObeys(schema, annotations, fragments, scope, s);
    case FragmentSpread(spread, directives) =>
      hide AllObey, DirectivesPlaces, DirectivesSound, SpreadAllowed, SpreadDefined;
      FirstObeys(schema, annotations, fragments, SelectionPlace(Some(scope), s),
                 DirectivesPlaces(schema, "FRAGMENT_SPREAD", directives));
      DirectivesObey(schema, annotations, fragments, OnFragmentSpread, directives);
      SpreadObeys(schema, fragments, scope, spread);
  }

  lemma {:induction false} FieldObeys(schema: Schema, annotations: Annotations, fragments: seq<Definition>,
                                      scope: Declaration, s: Selection)
    requires SchemaClosed(schema, annotations.Keys) && FieldsClosed(scope, annotations.Keys) && s.Field?
    requires DistinctFragments(fragments)
    ensures AllObey(schema, annotations, fragments, SelectionPlaces(schema, annotations, Some(scope), s)) <==>
            SelectionSound(schema, annotations, Resolved(fragments), scope, s)
    decreases s, 0
  {
    hide AllObey, DirectivesPlaces, DirectivesSound, ListPlaces, ArgumentsSound, EachSelection, SelectionsSound;
    var field := FieldOf(Some(scope), s.Key());
    var first := ListPlaces(schema, ArgumentsOfField(field), s.arguments);
    var second := DirectivesPlaces(schema, "FIELD", s.directives);
    var inner := TypeInside(schema, annotations, field);
    var third :=
      if s.selectionSet.Braces? then EachSelection(schema, annotations, inner, s.selectionSet.selections) else [];
    FirstObeys(schema, annotations, fragments, SelectionPlace(Some(scope), s), first + (second + third));
    BothObey(schema, annotations, fragments, first, second + third);
    BothObey(schema, annotations, fragments, second, third);
    DirectivesObey(schema, annotations, fragments, OnField, s.directives);
    if field.Some? {
      ListObeys(schema, annotations, fragments, field.value.arguments, s.arguments);
      if s.selectionSet.NoBraces? {
        NothingObeys(schema, annotations, fragments);
      } else if inner.Some? {
        EachSelectionObeys(schema, annotations, fragments, inner.value, s.selectionSet.selections);
      }
    }
  }

  lemma {:induction false} InlineFragmentObeys(schema: Schema, annotations: Annotations, fragments: seq<Definition>,
                                               scope: Declaration, s: Selection)
    requires SchemaClosed(schema, annotations.Keys) && FieldsClosed(scope, annotations.Keys) && s.InlineFragment?
    requires DistinctFragments(fragments)
    ensures AllObey(schema, annotations, fragments, SelectionPlaces(schema, annotations, Some(scope), s)) <==>
            SelectionSound(schema, annotations, Resolved(fragments), scope, s)
    decreases s, 0
  {
    hide AllObey, DirectivesPlaces, DirectivesSound, EachSelection, SelectionsSound, PossibleTypes, CanOccur;
    var first := DirectivesPlaces(schema, "INLINE_FRAGMENT", s.directives);
    var second := EachSelection(schema, annotations, TypeNamed(schema, s.typeName), s.selections);
    FirstObeys(schema, annotations, fragments, SelectionPlace(Some(scope), s),
               [ConditionPlace(s.typeName)] + (first + second));
    FirstObeys(schema, annotations, fragments, ConditionPlace(s.typeName), first + second);
    BothObey(schema, annotations, fragments, first, second);
    DirectivesObey(schema, annotations, fragments, OnInlineFragment, s.directives);
    OccursExactly(schema, scope, s.typeName);
    if s.typeName in schema.symbols {
      EachSelectionObeys(schema, annotations, fragments, schema.symbols[s.typeName], s.selections);
    }
  }

  lemma {:induction false} EachSelectionObeys(schema: Schema, annotations: Annotations, fragments: seq<Definition>,
                                              scope: Declaration, selections: seq<Selection>)
    requires SchemaClosed(schema, annotations.Keys) && FieldsClosed(scope, annotations.Keys)
    requires DistinctFragments(fragments)
    ensures AllObey(schema, annotations, fragments, EachSelection(schema, annotations, Some(scope), selections)) <==>
            SelectionsSound(schema, annotations, Resolved(fragments), scope, selections)
    decreases selections, 1
  {
    hide AllObey, SelectionPlaces, SelectionSound;
    if selections == [] {
      NothingObeys(schema, annotations, fragments);
    } else {
      BothObey(schema, annotations, fragments, SelectionPlaces(schema, annotations, Some(scope), selections[0]),
               EachSelection(schema, annotations, Some(scope), selections[1..]));
      SelectionObeys(schema, annotations, fragments, scope, selections[0]);
      EachSelectionObeys(schema, annotations, fragments, scope, selections[1..]);
      assert forall k | 0 < k < |selections| :: selections[k] == selections[1..][k - 1];
    }
  }

  lemma DefinitionObeys(schema: Schema, annotations: Annotations, fragments: seq<Definition>, d: Definition)
    requires SchemaClosed(schema, annotations.Keys) && DistinctFragments(fragments)
    ensures AllObey(schema, annotations, fragments, DefinitionPlaces(schema, annotations, d)) <==>
            DefinitionSound(schema, annotations, Resolved(fragments), d)
  {
    hide AllObey, DirectivesPlaces, DirectivesSound, EachSelection, SelectionsSound;
    match d
    case FragmentDefinition(_, typeName, directives, selections) =>
      var first := DirectivesPlaces(schema, "FRAGMENT_DEFINITION", directives);
      var second := EachSelection(schema, annotations, TypeNamed(schema, typeName), selections);
      FirstObeys(schema, annotations, fragments, ConditionPlace(typeName), first + second);
      BothObey(schema, annotations, fragments, first, second);
      DirectivesObey(schema, annotations, fragments, OnFragmentDefinition, directives);
      if typeName in schema.symbols {
        EachSelectionObeys(schema, annotations, fragments, schema.symbols[typeName], selections);
      }
    case OperationDefinition(operationType, _, directives, selections) =>
      var root, location := RootType(schema, operationType), OperationLocation(operationType);
      var first := DirectivesPlaces(schema, DN.Spelling(LocationOf(location)), directives);
      var second := EachSelection(schema, annotations, root, selections);
      FirstObeys(schema, annotations, fragments, OperationPlace(root), first + second);
      BothObey(schema, annotations, fragments, first, second);
      DirectivesObey(schema, annotations, fragments, location, directives);
      if root.Some? {
        EachSelectionObeys(schema, annotations, fragments, root.value, selections);
      }
  }

  lemma {:induction false} EachDefinitionObeys(schema: Schema, annotations: Annotations, fragments: seq<Definition>,
                                               definitions: seq<Definition>)
    requires SchemaClosed(schema, annotations.Keys) && DistinctFragments(fragments)
    ensures AllObey(schema, annotations, fragments, EachDefinition(schema, annotations, definitions)) <==>
            forall d | d in definitions :: DefinitionSound(schema, annotations, Resolved(fragments), d)
    decreases |definitions|
  {
    hide AllObey, DefinitionPlaces, DefinitionSound;
    if definitions == [] {
      NothingObeys(schema, annotations, fragments);
    } else {
      BothObey(schema, annotations, fragments, DefinitionPlaces(schema, annotations, definitions[0]),
               EachDefinition(schema, annotations, definitions[1..]));
      DefinitionObeys(schema, annotations, fragments, definitions[0]);
      EachDefinitionObeys(schema, annotations, fragments, definitions[1..]);
      assert forall d :: d in definitions <==> d == definitions[0] || d in definitions[1..];
    }
  }

  /** The document fits the schema if and only if it obeys every rule at every one of its places. */
  lemma FitsByRules(schema: Schema, annotations: Annotations, document: Document)
    requires SchemaClosed(schema, annotations.Keys)
    ensures DocumentSound(schema, annotations, document) <==> RulesObeyed(schema, annotations, document)
  {
    hide AllObey, EachDefinition, DefinitionSound;
    var fragments := document.fragments;
    BothObey(schema, annotations, fragments, EachDefinition(schema, annotations, document.operations),
             EachDefinition(schema, annotations, fragments));
    if DistinctFragments(fragments) {
      EachDefinitionObeys(schema, annotations, fragments, document.operations);
      EachDefinitionObeys(schema, annotations, fragments, fragments);
    }
  }
}
