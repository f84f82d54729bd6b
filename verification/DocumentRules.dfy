/**
 The rules for documents one by one, over all places of a document at once: GraphQL specification, June
 2018, sections 5.3.1, 5.4.1, 5.4.2.1, 5.5.1.1 to 5.5.1.3, 5.5.2.1, 5.5.2.3, 5.6.1 and 5.7.1 to 5.7.3, with the
 query parser's own ideas of them: a field goes by its alias, a fragment is on an object type, and an
 argument of a query may have directives.
 */
module DocumentRules {
  import opened SourceText
  import opened GraphQlSyntax
  import opened ValueRules
  import opened Selections
  import DN = DirectiveNames

  /** A place a rule is about. Where no type is known nothing is in scope. */
  datatype Place =
    | OperationPlace(root: Option<Declaration>)
    | ConditionPlace(typeName: string)
    | SelectionPlace(scope: Option<Declaration>, selection: Selection)
    | ListPlace(declared: Option<map<string, Type>>, arguments: seq<Argument>)
    | ArgumentPlace(declared: Option<map<string, Type>>, argument: Argument)
    | DirectivesPlace(directives: seq<Directive>)
    | DirectivePlace(location: string, directive: Directive)

  function LocationOf(location: DirectiveLocation): DN.LocationName {
    match location
    case OnQuery => DN.QueryLocation
    case OnMutation => DN.MutationLocation
    case OnSubscription => DN.SubscriptionLocation
    case OnField => DN.FieldLocation
    case OnFragmentDefinition => DN.FragmentDefinitionLocation
    case OnFragmentSpread => DN.FragmentSpreadLocation
    case OnInlineFragment => DN.InlineFragmentLocation
    case OnArgumentDefinition => DN.ArgumentDefinitionLocation
  }

  function TypeNamed(schema: Schema, name: string): Option<Declaration> {
    if name in schema.symbols then Some(schema.symbols[name]) else None
  }

  function FieldOf(scope: Option<Declaration>, key: string): Option<FieldDefinition> {
    if scope.Some? && (scope.value.ObjectType? || scope.value.InterfaceType?) && key in scope.value.fields
    then Some(scope.value.fields[key]) else None
  }

  function ArgumentsOfField(field: Option<FieldDefinition>): Option<map<string, Type>> {
    if field.Some? then Some(field.value.arguments) else None
  }

  function ArgumentsOfDirective(schema: Schema, name: string): Option<map<string, Type>> {
    if name in schema.directives then Some(schema.directives[name].arguments) else None
  }

  // The type that is selected on inside a field.
  function TypeInside(schema: Schema, annotations: Annotations, field: Option<FieldDefinition>): Option<Declaration> {
    if field.Some? && field.value.annotation in annotations && annotations[field.value.annotation].base == TObject
    then TypeNamed(schema, annotations[field.value.annotation].name) else None
  }

  // All places of directives, with those of their arguments, and so on.
  function DirectivesPlaces(schema: Schema, location: string, directives: seq<Directive>): seq<Place>
    decreases directives, 1
  {
    [DirectivesPlace(directives)] + EachDirective(schema, location, directives)
  }

  function EachDirective(schema: Schema, location: string, directives: seq<Directive>): seq<Place>
    decreases directives, 0
  {
    if directives == [] then []
    else
      var d := directives[0];
      [DirectivePlace(location, d)] +
      (ListPlaces(schema, ArgumentsOfDirective(schema, d.name), d.arguments) +
       EachDirective(schema, location, directives[1..]))
  }

  function ListPlaces(schema: Schema, declared: Option<map<string, Type>>, list: ArgumentList): seq<Place>
    decreases list
  {
    match list
    case NoParentheses => []
    case Parentheses(arguments) => [ListPlace(declared, arguments)] + EachArgument(schema, declared, arguments)
  }

  function EachArgument(schema: Schema, declared: Option<map<string, Type>>, arguments: seq<Argument>): seq<Place>
    decreases arguments
  {
    if arguments == [] then []
    else
      var a := arguments[0];
      [ArgumentPlace(declared, a)] +
      (DirectivesPlaces(schema, "ARGUMENT_DEFINITION", a.directives) + EachArgument(schema, declared, arguments[1..]))
  }

  // All places of a selection, with those of what is selected inside it.
  function SelectionPlaces(schema: Schema, annotations: Annotations, scope: Option<Declaration>,
                           s: Selection): seq<Place>
    decreases s
  {
    [SelectionPlace(scope, s)] +
    match s
    case Field(_, _, arguments, directives, selectionSet) =>
      var field := FieldOf(scope, s.Key());
      ListPlaces(schema, ArgumentsOfField(field), arguments) +
      (DirectivesPlaces(schema, "FIELD", directives) +
       match selectionSet
       case NoBraces => []
       case Braces(selections) =>
         EachSelection(schema, annotations, TypeInside(schema, annotations, field), selections))
    case InlineFragment(typeName, directives, selections) =>
      [ConditionPlace(typeName)] +
      (DirectivesPlaces(schema, "INLINE_FRAGMENT", directives) +
       EachSelection(schema, annotations, TypeNamed(schema, typeName), selections))
    case FragmentSpread(_, directives) => DirectivesPlaces(schema, "FRAGMENT_SPREAD", directives)
  }

  function EachSelection(schema: Schema, annotations: Annotations, scope: Option<Declaration>,
                         selections: seq<Selection>): seq<Place>
    decreases selections
  {
    if selections == [] then []
    else
      SelectionPlaces(schema, annotations, scope, selections[0]) +
      EachSelection(schema, annotations, scope, selections[1..])
  }

  function DefinitionPlaces(schema: Schema, annotations: Annotations, d: Definition): seq<Place> {
    match d
    case FragmentDefinition(_, typeName, directives, selections) =>
      [ConditionPlace(typeName)] +
      (DirectivesPlaces(schema, "FRAGMENT_DEFINITION", directives) +
       EachSelection(schema, annotations, TypeNamed(schema, typeName), selections))
    case OperationDefinition(operationType, _, directives, selections) =>
      var (root, location) :=
        match operationType
        case Query => (Some(schema.query), "QUERY")
        case Mutation => (schema.mutation, "MUTATION")
        case Subscription => (schema.subscription, "SUBSCRIPTION");
      [OperationPlace(root)] +
      (DirectivesPlaces(schema, location, directives) + EachSelection(schema, annotations, root, selections))
  }

  function EachDefinition(schema: Schema, annotations: Annotations, definitions: seq<Definition>): seq<Place> {
    if definitions == [] then []
    else
      DefinitionPlaces(schema, annotations, definitions[0]) + EachDefinition(schema, annotations, definitions[1..])
  }

  // Sections 5.5.1.2 and 5.5.1.3.
  predicate OnObject(schema: Schema, typeName: string) {
    TypeNamed(schema, typeName).Some? && TypeNamed(schema, typeName).value.ObjectType?
  }

  // Section 5.5.2.3: an object of the type can be met where something of the type in scope is.
  predicate CanOccur(schema: Schema, scope: Option<Declaration>, typeName: string) {
    && OnObject(schema, typeName) && scope.Some?
    && match scope.value
       case ObjectType(name, _, _) => typeName == name
       case InterfaceType(name, _) => name in schema.symbols[typeName].implementations
       case UnionType(_, members) => typeName in members
       case _ => false
  }

  // Section 5.5.2.1.
  predicate SpreadDefined(schema: Schema, fragments: seq<Definition>, scope: Option<Declaration>, name: string) {
    exists k | 0 <= k < |fragments| :: fragments[k].FragmentDefinition? && fragments[k].name == name &&
                                       CanOccur(schema, scope, fragments[k].typeName)
  }

  // Section 5.4.2.1: what has to be given is.
  predicate RequiredGiven(annotations: Annotations, declared: map<string, Type>, arguments: seq<Argument>) {
    forall name | name in declared && declared[name] in annotations ::
      var info := annotations[declared[name]];
      (if info.isListType then info.isNonNullList else info.isNonNull || info.isNonNullList) ==>
        exists k | 0 <= k < |arguments| :: arguments[k].name == name
  }

  /** What the rules ask of one place. */
  ghost predicate Obeys(schema: Schema, annotations: Annotations, fragments: seq<Definition>, place: Place)
    requires SchemaClosed(schema, annotations.Keys)
  {
    match place
    case OperationPlace(root) => root.Some?
    case ConditionPlace(typeName) => OnObject(schema, typeName)
    case SelectionPlace(scope, selection) =>
      (match selection
       case Field(_, _, _, _, selectionSet) =>
         // Section 5.3.1.
         && FieldOf(scope, selection.Key()).Some?
         && (selectionSet.Braces? ==> TypeInside(schema, annotations, FieldOf(scope, selection.Key())).Some?)
       case InlineFragment(typeName, _, _) => CanOccur(schema, scope, typeName)
       case FragmentSpread(spread, _) => SpreadDefined(schema, fragments, scope, spread))
    case ListPlace(declared, arguments) => declared.Some? && RequiredGiven(annotations, declared.value, arguments)
    case ArgumentPlace(declared, argument) =>
      // Sections 5.4.1 and 5.6.1.
      && declared.Some? && argument.name in declared.value && declared.value[argument.name] in annotations
      && Accepts(schema.symbols, annotations, argument.value, declared.value[argument.name])
    case DirectivesPlace(directives) =>
      // Section 5.7.3.
      forall j, k | 0 <= j < |directives| && 0 <= k < |directives| && directives[j].name == directives[k].name :: j == k
    case DirectivePlace(location, directive) =>
      // Sections 5.7.1 and 5.7.2.
      && directive.name in schema.directives
      && exists l | l in schema.directives[directive.name].locations :: DN.Spelling(LocationOf(l)) == location
  }

  ghost predicate AllObey(schema: Schema, annotations: Annotations, fragments: seq<Definition>, places: seq<Place>)
    requires SchemaClosed(schema, annotations.Keys)
  {
    forall place | place in places :: Obeys(schema, annotations, fragments, place)
  }

  // Section 5.5.1.1.
  predicate FragmentsUnique(fragments: seq<Definition>) {
    forall j, k | 0 <= j < |fragments| && 0 <= k < |fragments| && fragments[j].FragmentDefinition? &&
                  fragments[k].FragmentDefinition? && fragments[j].name == fragments[k].name :: j == k
  }

  /** The document obeys the rules at all of its places. */
  ghost predicate RulesObeyed(schema: Schema, annotations: Annotations, document: Document)
    requires SchemaClosed(schema, annotations.Keys)
  {
    && FragmentsUnique(document.fragments)
    && AllObey(schema, annotations, document.fragments,
               EachDefinition(schema, annotations, document.operations) +
               EachDefinition(schema, annotations, document.fragments))
  }
}
