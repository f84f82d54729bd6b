/**
 Queries as the query parser builds them, and what it means for one to fit a schema:
 GraphQL specification, June 2018, sections 5.3.1, 5.4.1, 5.5.2.1, 5.5.2.3, 5.7.1 and 5.7.2.
 */
module Selections {
  import opened SourceText
  import opened GraphQlSyntax
  import opened ValueRules

  datatype DirectiveLocation =
    | OnQuery | OnMutation | OnSubscription | OnField
    | OnFragmentDefinition | OnFragmentSpread | OnInlineFragment | OnArgumentDefinition

  datatype DirectiveDefinition = DirectiveDefinition(arguments: map<string, Type>, locations: set<DirectiveLocation>)

  datatype Argument = Argument(name: string, value: Value, directives: seq<Directive>)

  datatype Directive = Directive(name: string, arguments: ArgumentList)

  datatype ArgumentList = NoParentheses | Parentheses(arguments: seq<Argument>)

  // A field with or without parentheses and braces.
  datatype Selection =
    | Field(alias: Option<string>, name: string, arguments: ArgumentList, directives: seq<Directive>,
            selectionSet: SelectionSet)
    | InlineFragment(typeName: string, directives: seq<Directive>, selections: seq<Selection>)
    | FragmentSpread(spread: string, directives: seq<Directive>)
  {
    // The name the parser looks a field up by.
    function Key(): string
      requires Field?
    {
      alias.GetOr(name)
    }
  }

  datatype SelectionSet = NoBraces | Braces(selections: seq<Selection>)

  datatype OperationType = Query | Mutation | Subscription

  datatype Definition =
    | FragmentDefinition(name: string, typeName: string, directives: seq<Directive>, selections: seq<Selection>)
    | OperationDefinition(operationType: OperationType, operationName: Option<string>, directives: seq<Directive>,
                          selections: seq<Selection>)

  datatype Document = Document(operations: seq<Definition>, fragments: seq<Definition>)

  // The schema, and what its type annotations contain.
  datatype Schema = Schema(
    symbols: Symbols,
    directives: map<string, DirectiveDefinition>,
    query: Declaration, mutation: Option<Declaration>, subscription: Option<Declaration>)

  // Every declaration is listed under its own name.
  ghost predicate NamesMatch(symbols: Symbols) {
    forall n | n in symbols :: symbols[n].name == n
  }

  // Every annotation the schema refers to is accounted for, and every declaration has its name.
  ghost predicate SchemaClosed(schema: Schema, types: set<Type>) {
    && NamesMatch(schema.symbols)
    && Closed(schema.symbols, types)
    && (forall name | name in schema.symbols :: FieldsClosed(schema.symbols[name], types))
    && FieldsClosed(schema.query, types)
    && (schema.mutation.Some? ==> FieldsClosed(schema.mutation.value, types))
    && (schema.subscription.Some? ==> FieldsClosed(schema.subscription.value, types))
    && (forall name | name in schema.directives :: ArgumentsClosed(schema.directives[name].arguments, types))
  }

  // The object types a value of the given type can have: GraphQL specification, section 5.5.2.3.
  ghost function PossibleTypes(symbols: Symbols, scope: Declaration): set<string> {
    match scope
    case ObjectType(name, _, _) => {name}
    case InterfaceType(name, _) =>
      set n | n in symbols && symbols[n].ObjectType? && name in symbols[n].implementations
    case UnionType(_, members) => set n | n in symbols && symbols[n].ObjectType? && n in members
    case _ => {}
  }

  // A spread that is looked up once the whole document has been read.
  datatype Reference = Reference(name: string, scope: Declaration)

  /** When a fragment spread is taken: any one while the document is being read; afterwards, if the
      fragment exists and its type is possible. */
  datatype SpreadRule = Any | Resolved(fragments: seq<Definition>)

  function FirstFragment(fragments: seq<Definition>, name: string): (r: Option<Definition>)
    ensures r.Some? ==> r.value in fragments && r.value.FragmentDefinition? && r.value.name == name
  {
    if fragments == [] then None
    else if fragments[0].FragmentDefinition? && fragments[0].name == name then Some(fragments[0])
    else FirstFragment(fragments[1..], name)
  }

  ghost predicate SpreadAllowed(schema: Schema, rule: SpreadRule, reference: Reference) {
    match rule
    case Any => true
    case Resolved(fragments) =>
      && FirstFragment(fragments, reference.name).Some?
      && var typeName := FirstFragment(fragments, reference.name).value.typeName;
         && typeName in schema.symbols && schema.symbols[typeName].ObjectType?
         && typeName in PossibleTypes(schema.symbols, reference.scope)
  }

  /** Every directive is defined, allowed at the location and given once, and so is what stands in
      its parentheses. */
  ghost predicate DirectivesSound(schema: Schema, annotations: Annotations, directives: seq<Directive>,
                                  location: DirectiveLocation)
    requires SchemaClosed(schema, annotations.Keys)
    decreases directives
  {
    && (forall k | 0 <= k < |directives| :: DirectiveSound(schema, annotations, directives[k], location))
    && (forall j, k | 0 <= j < k < |directives| :: directives[j].name != directives[k].name)
  }

  ghost predicate DirectiveSound(schema: Schema, annotations: Annotations, directive: Directive,
                                 location: DirectiveLocation)
    requires SchemaClosed(schema, annotations.Keys)
    decreases directive
  {
    && directive.name in schema.directives && location in schema.directives[directive.name].locations
    && (directive.arguments.Parentheses? ==>
          ArgumentsSound(schema, annotations, schema.directives[directive.name].arguments,
                         directive.arguments.arguments))
  }

  predicate HasArgument(arguments: seq<Argument>, name: string) {
    exists k | 0 <= k < |arguments| :: arguments[k].name == name
  }

  // Every argument is declared and has a value the rules accept; none that must be given is missing.
  ghost predicate ArgumentsSound(schema: Schema, annotations: Annotations, declared: map<string, Type>,
                                 arguments: seq<Argument>)
    requires SchemaClosed(schema, annotations.Keys) && ArgumentsClosed(declared, annotations.Keys)
    decreases arguments
  {
    && (forall k | 0 <= k < |arguments| :: ArgumentSound(schema, annotations, declared, arguments[k]))
    && (forall a | a in declared && !annotations[declared[a]].TakesNull() :: HasArgument(arguments, a))
  }

  ghost predicate ArgumentSound(schema: Schema, annotations: Annotations, declared: map<string, Type>,
                                argument: Argument)
    requires SchemaClosed(schema, annotations.Keys) && ArgumentsClosed(declared, annotations.Keys)
    decreases argument
  {
    && argument.name in declared && Accepts(schema.symbols, annotations, argument.value, declared[argument.name])
    && DirectivesSound(schema, annotations, argument.directives, OnArgumentDefinition)
  }

  /** A selection fits the type in scope: a field is declared there, an inline fragment is on an
      object type that can occur there, and so on for all that is selected inside it. */
  ghost predicate SelectionSound(schema: Schema, annotations: Annotations, rule: SpreadRule, scope: Declaration,
                                 s: Selection)
    requires SchemaClosed(schema, annotations.Keys) && FieldsClosed(scope, annotations.Keys)
    decreases s
  {
    match s
    case Field(_, _, arguments, directives, selectionSet) =>
      && (scope.ObjectType? || scope.InterfaceType?)
      && s.Key() in scope.fields
      && var field := scope.fields[s.Key()];
         && (arguments.Parentheses? ==> ArgumentsSound(schema, annotations, field.arguments, arguments.arguments))
         && DirectivesSound(schema, annotations, directives, OnField)
         && (selectionSet.Braces? ==>
               var info := annotations[field.annotation];
               && info.base == TObject && info.name in schema.symbols
               && SelectionsSound(schema, annotations, rule, schema.symbols[info.name], selectionSet.selections))
    case InlineFragment(typeName, directives, selections) =>
      && typeName in schema.symbols && schema.symbols[typeName].ObjectType?
      && typeName in PossibleTypes(schema.symbols, scope)
      && DirectivesSound(schema, annotations, directives, OnInlineFragment)
      && SelectionsSound(schema, annotations, rule, schema.symbols[typeName], selections)
    case FragmentSpread(spread, directives) =>
      SpreadAllowed(schema, rule, Reference(spread, scope)) &&
      DirectivesSound(schema, annotations, directives, OnFragmentSpread)
  }

  ghost predicate SelectionsSound(schema: Schema, annotations: Annotations, rule: SpreadRule, scope: Declaration,
                                  selections: seq<Selection>)
    requires SchemaClosed(schema, annotations.Keys) && FieldsClosed(scope, annotations.Keys)
    decreases selections
  {
    forall k | 0 <= k < |selections| :: SelectionSound(schema, annotations, rule, scope, selections[k])
  }

  // The type that the selections inside a field are on.
  function FieldType(schema: Schema, annotations: Annotations, scope: Declaration,
                     key: string): (inner: Option<Declaration>)
    requires SchemaClosed(schema, annotations.Keys) && FieldsClosed(scope, annotations.Keys)
    ensures inner.Some? ==> FieldsClosed(inner.value, annotations.Keys)
  {
    if (scope.ObjectType? || scope.InterfaceType?) && key in scope.fields then
      var info := annotations[scope.fields[key].annotation];
      if info.base == TObject && info.name in schema.symbols then Some(schema.symbols[info.name]) else None
    else None
  }

  // The spreads in a selection, each with the type in scope, in the order of the text.
  ghost function Spreads(schema: Schema, annotations: Annotations, scope: Declaration, s: Selection): seq<Reference>
    requires SchemaClosed(schema, annotations.Keys) && FieldsClosed(scope, annotations.Keys)
    decreases s
  {
    match s
    case Field(_, _, _, _, selectionSet) =>
      var inner := FieldType(schema, annotations, scope, s.Key());
      if selectionSet.Braces? && inner.Some? then AllSpreads(schema, annotations, inner.value, selectionSet.selections)
      else []
    case InlineFragment(typeName, _, selections) =>
      if typeName in schema.symbols then AllSpreads(schema, annotations, schema.symbols[typeName], selections) else []
    case FragmentSpread(spread, _) => [Reference(spread, scope)]
  }

  ghost function AllSpreads(schema: Schema, annotations: Annotations, scope: Declaration,
                            selections: seq<Selection>): seq<Reference>
    requires SchemaClosed(schema, annotations.Keys) && FieldsClosed(scope, annotations.Keys)
    decreases selections
  {
    if selections == [] then []
    else
      var last := |selections| - 1;
      AllSpreads(schema, annotations, scope, selections[..last]) + Spreads(schema, annotations, scope, selections[last])
  }

  ghost predicate SpreadsAllowed(schema: Schema, rule: SpreadRule, references: seq<Reference>) {
    forall r | r in references :: SpreadAllowed(schema, rule, r)
  }

  /** Checking the spreads of a selection afterwards is as good as checking them in place. */
  lemma {:induction false} SpreadsApart(schema: Schema, annotations: Annotations, rule: SpreadRule, scope: Declaration,
                                        s: Selection)
    requires SchemaClosed(schema, annotations.Keys) && FieldsClosed(scope, annotations.Keys)
    ensures SelectionSound(schema, annotations, rule, scope, s) <==>
            SelectionSound(schema, annotations, Any, scope, s) &&
            SpreadsAllowed(schema, rule, Spreads(schema, annotations, scope, s))
    decreases s
  {
    match s
    case Field(_, _, _, _, selectionSet) =>
      var inner := FieldType(schema, annotations, scope, s.Key());
      if selectionSet.Braces? && inner.Some? {
        AllSpreadsApart(schema, annotations, rule, inner.value, selectionSet.selections);
      }
    case InlineFragment(typeName, _, selections) =>
      if typeName in schema.symbols {
        AllSpreadsApart(schema, annotations, rule, schema.symbols[typeName], selections);
      }
    case FragmentSpread(spread, _) =>
      assert Spreads(schema, annotations, scope, s) == [Reference(spread, scope)];
  }

  lemma {:induction false} AllSpreadsApart(schema: Schema, annotations: Annotations, rule: SpreadRule,
                                           scope: Declaration, selections: seq<Selection>)
    requires SchemaClosed(schema, annotations.Keys) && FieldsClosed(scope, annotations.Keys)
    ensures SelectionsSound(schema, annotations, rule, scope, selections) <==>
            && SelectionsSound(schema, annotations, Any, scope, selections)
            && SpreadsAllowed(schema, rule, AllSpreads(schema, annotations, scope, selections))
    decreases selections
  {
    if selections != [] {
      var last := |selections| - 1;
      AllSpreadsApart(schema, annotations, rule, scope, selections[..last]);
      SpreadsApart(schema, annotations, rule, scope, selections[last]);
      LastSelection(schema, annotations, rule, scope, selections);
      LastSelection(schema, annotations, Any, scope, selections);
    }
  }

  lemma LastSelection(schema: Schema, annotations: Annotations, rule: SpreadRule, scope: Declaration,
                      selections: seq<Selection>)
    requires SchemaClosed(schema, annotations.Keys) && FieldsClosed(scope, annotations.Keys) && selections != []
    ensures var last := |selections| - 1;
            SelectionsSound(schema, annotations, rule, scope, selections) <==>
            && SelectionsSound(schema, annotations, rule, scope, selections[..last])
            && SelectionSound(schema, annotations, rule, scope, selections[last])
  {
    hide SelectionSound;
    var last := |selections| - 1;
    assert selections == selections[..last] + [selections[last]];
  }

  // The type an operation selects on.
  function RootType(schema: Schema, operationType: OperationType): Option<Declaration> {
    match operationType
    case Query => Some(schema.query)
    case Mutation => schema.mutation
    case Subscription => schema.subscription
  }

  function OperationLocation(operationType: OperationType): DirectiveLocation {
    match operationType
    case Query => OnQuery
    case Mutation => OnMutation
    case Subscription => OnSubscription
  }

  ghost predicate DefinitionSound(schema: Schema, annotations: Annotations, rule: SpreadRule, definition: Definition)
    requires SchemaClosed(schema, annotations.Keys)
  {
    match definition
    case FragmentDefinition(_, typeName, directives, selections) =>
      && typeName in schema.symbols && schema.symbols[typeName].ObjectType?
      && DirectivesSound(schema, annotations, directives, OnFragmentDefinition)
      && SelectionsSound(schema, annotations, rule, schema.symbols[typeName], selections)
    case OperationDefinition(operationType, _, directives, selections) =>
      && RootType(schema, operationType).Some?
      && DirectivesSound(schema, annotations, directives, OperationLocation(operationType))
      && SelectionsSound(schema, annotations, rule, RootType(schema, operationType).value, selections)
  }

  // The spreads in a definition.
  ghost function DefinitionSpreads(schema: Schema, annotations: Annotations, definition: Definition): seq<Reference>
    requires SchemaClosed(schema, annotations.Keys)
  {
    match definition
    case FragmentDefinition(_, typeName, _, selections) =>
      if typeName in schema.symbols then AllSpreads(schema, annotations, schema.symbols[typeName], selections) else []
    case OperationDefinition(operationType, _, _, selections) =>
      if RootType(schema, operationType).Some?
      then AllSpreads(schema, annotations, RootType(schema, operationType).value, selections) else []
  }

  lemma DefinitionApart(schema: Schema, annotations: Annotations, rule: SpreadRule, definition: Definition)
    requires SchemaClosed(schema, annotations.Keys)
    ensures DefinitionSound(schema, annotations, rule, definition) <==>
            && DefinitionSound(schema, annotations, Any, definition)
            && SpreadsAllowed(schema, rule, DefinitionSpreads(schema, annotations, definition))
  {
    match definition
    case FragmentDefinition(_, typeName, _, selections) =>
      if typeName in schema.symbols {
        AllSpreadsApart(schema, annotations, rule, schema.symbols[typeName], selections);
      }
    case OperationDefinition(operationType, _, _, selections) =>
      if RootType(schema, operationType).Some? {
        AllSpreadsApart(schema, annotations, rule, RootType(schema, operationType).value, selections);
      }
  }

  predicate DistinctFragments(fragments: seq<Definition>) {
    forall j, k | 0 <= j < k < |fragments| && fragments[j].FragmentDefinition? && fragments[k].FragmentDefinition? ::
      fragments[j].name != fragments[k].name
  }

  /** The document fits the schema: every definition does, with all spreads resolved, and every
      fragment has a name of its own. */
  ghost predicate DocumentSound(schema: Schema, annotations: Annotations, document: Document)
    requires SchemaClosed(schema, annotations.Keys)
  {
    && (forall d | d in document.operations + document.fragments ::
          DefinitionSound(schema, annotations, Resolved(document.fragments), d))
    && DistinctFragments(document.fragments)
  }
}
