/**
 Documents as tokens, after the grammar of the GraphQL specification, June 2018, sections 2.2 to 2.12:
 every document is read back from the tokens that spell it.
 */
module DocumentTokens {
  import opened SourceText
  import opened GraphQlTokens
  import opened GraphQlLexer
  import opened GraphQlSyntax
  import opened ValueRules
  import opened Selections
  import opened TokenLanguages
  import opened VariableSyntax
  import opened ValueTokens

  // Where any name will do, a keyword will too.
  function AnyName(name: string): Lexeme {
    Spelled(NameToken(name), name)
  }

  function OneName(name: string): Lexeme {
    Spelled(GName, name)
  }

  function ArgumentTokens(a: Argument): seq<Lexeme> {
    [AnyName(a.name), Spelled(Colon, ":")] + (TokensOf(a.value) + DirectivesTokens(a.directives))
  }

  // Arguments, and the parenthesis that closes them.
  function ArgumentsTokens(arguments: seq<Argument>): (tokens: seq<Lexeme>)
    ensures tokens != []
  {
    if arguments == [] then [Spelled(CloseParen, ")")]
    else ArgumentTokens(arguments[0]) + ArgumentsTokens(arguments[1..])
  }

  function ArgumentListTokens(list: ArgumentList): seq<Lexeme> {
    match list
    case NoParentheses => []
    case Parentheses(arguments) => [Spelled(OpenParen, "(")] + ArgumentsTokens(arguments)
  }

  function DirectivesTokens(directives: seq<Directive>): seq<Lexeme> {
    if directives == [] then []
    else
      [Spelled(At, "@"), AnyName(directives[0].name)] +
      (ArgumentListTokens(directives[0].arguments) + DirectivesTokens(directives[1..]))
  }

  function AliasTokens(alias: Option<string>, name: string): (tokens: seq<Lexeme>)
    ensures tokens != []
  {
    match alias
    case None => [AnyName(name)]
    case Some(a) => [AnyName(a), Spelled(Colon, ":"), OneName(name)]
  }

  function SelectionTokens(s: Selection): (tokens: seq<Lexeme>)
    ensures tokens != []
  {
    match s
    case Field(alias, name, arguments, directives, selectionSet) =>
      AliasTokens(alias, name) +
        (ArgumentListTokens(arguments) + (DirectivesTokens(directives) + SetTokens(selectionSet)))
    case InlineFragment(typeName, directives, selections) =>
      [Spelled(Ellipses, "..."), Spelled(OnKeyword, "on"), OneName(typeName)] +
      (DirectivesTokens(directives) + BracesTokens(selections))
    case FragmentSpread(name, directives) =>
      [Spelled(Ellipses, "..."), OneName(name)] + DirectivesTokens(directives)
  }

  function SetTokens(selectionSet: SelectionSet): seq<Lexeme> {
    match selectionSet
    case NoBraces => []
    case Braces(selections) => BracesTokens(selections)
  }

  function BracesTokens(selections: seq<Selection>): (tokens: seq<Lexeme>)
    ensures tokens != [] && tokens[0].token == OpenBrace
    decreases selections, 1
  {
    [Spelled(OpenBrace, "{")] + SelectionsTokens(selections)
  }

  // Selections, and the brace that closes them.
  function SelectionsTokens(selections: seq<Selection>): (tokens: seq<Lexeme>)
    ensures tokens != []
    decreases selections, 0
  {
    if selections == [] then [Spelled(CloseBrace, "}")]
    else SelectionTokens(selections[0]) + SelectionsTokens(selections[1..])
  }

  function OperationKeyword(operationType: OperationType): Lexeme {
    match operationType
    case Query => Spelled(QueryKeyword, "query")
    case Mutation => Spelled(MutationKeyword, "mutation")
    case Subscription => Spelled(SubscriptionKeyword, "subscription")
  }

  // A query with nothing but its selections may be put without its keyword.
  predicate MayBeShort(d: Definition) {
    d.OperationDefinition? && d.operationType == Query && d.operationName == None && d.directives == []
  }

  /** What may stand in the parentheses behind the name of an operation: one token that is no name, or one
      variable, whose type goes by any one token. */
  datatype Variables =
    | OneToken(lexeme: Lexeme)
    | Variable(name: string, typeName: Lexeme, isNonNull: bool, isListType: bool, isNonNullList: bool,
               default: Option<Value>)
  {
    // The type of the variable as far as it is told.
    function Info(): TypeInfo
      requires Variable?
    {
      var base :=
        match typeName.token
        case IntKeyword => TInt
        case FloatKeyword => TFloat
        case StringKeyword => TString
        case BooleanKeyword => TBoolean
        case IDKeyword => TID
        case _ => TObject;
      TypeInfo(base, "", isNonNull, isListType, isNonNullList)
    }
  }

  function MarkIf(present: bool, token: Token, text: string): seq<Lexeme> {
    if present then [Spelled(token, text)] else []
  }

  function DefaultTokens(default: Option<Value>): seq<Lexeme> {
    match default
    case None => []
    case Some(v) => [Spelled(Equal, "=")] + TokensOf(v)
  }

  // The tokens of a type behind its name.
  function FlagTokens(v: Variables): seq<Lexeme>
    requires v.Variable?
  {
    MarkIf(v.isNonNull, Exclamation, "!") +
    (MarkIf(v.isListType, CloseBracket, "]") + MarkIf(v.isListType && v.isNonNullList, Exclamation, "!"))
  }

  function VariablesTokens(v: Variables): seq<Lexeme> {
    match v
    case OneToken(lexeme) => [lexeme]
    case Variable(name, typeName, _, isListType, _, default) =>
      [OneName(name), Spelled(Colon, ":")] +
      (MarkIf(isListType, OpenBracket, "[") + ([typeName] + (FlagTokens(v) + DefaultTokens(default))))
  }

  // How a definition is put: only a query with nothing but its selections can do without its keyword,
  // and only an operation with a name can have variables.
  datatype Manner = Short | Plain | With(variables: Variables)

  function ParenthesesTokens(v: Variables): seq<Lexeme> {
    [Spelled(OpenParen, "(")] + (VariablesTokens(v) + [Spelled(CloseParen, ")")])
  }

  function HeaderTokens(name: Option<string>, manner: Manner): seq<Lexeme> {
    match name
    case None => []
    case Some(n) =>
      [AnyName(n)] + if manner.With? then ParenthesesTokens(manner.variables) else []
  }

  function FragmentHeadTokens(name: string, typeName: string): seq<Lexeme> {
    [Spelled(FragmentKeyword, "fragment"), OneName(name), Spelled(OnKeyword, "on"), OneName(typeName)]
  }

  function DefinitionTokens(d: Definition, manner: Manner): (tokens: seq<Lexeme>)
    ensures tokens != []
  {
    if manner.Short? && MayBeShort(d) then BracesTokens(d.selections)
    else
      match d
      case OperationDefinition(operationType, name, directives, selections) =>
        [OperationKeyword(operationType)] +
        (HeaderTokens(name, manner) + (DirectivesTokens(directives) + BracesTokens(selections)))
      case FragmentDefinition(name, typeName, directives, selections) =>
        FragmentHeadTokens(name, typeName) + (DirectivesTokens(directives) + BracesTokens(selections))
  }

  lemma FragmentTokens(d: Definition, manner: Manner)
    requires d.FragmentDefinition?
    ensures DefinitionTokens(d, manner) ==
            FragmentHeadTokens(d.name, d.typeName) + (DirectivesTokens(d.directives) + BracesTokens(d.selections))
    ensures |FragmentHeadTokens(d.name, d.typeName)| == 4
  {
    hide DirectivesTokens, BracesTokens;
  }

  function DefinitionsTokens(definitions: seq<Definition>, manners: seq<Manner>): seq<Lexeme>
    requires |manners| == |definitions|
  {
    if definitions == [] then []
    else DefinitionTokens(definitions[0], manners[0]) + DefinitionsTokens(definitions[1..], manners[1..])
  }

  // A default value that the type of its variable takes, and no field in which is named like a keyword.
  predicate VariablesFit(v: Variables) {
    match v
    case OneToken(lexeme) => lexeme.token != GName
    case Variable(_, _, _, _, _, default) =>
      default.Some? ==> NoKeywordNames(default.value) && DefaultFits(default.value, v.Info())
  }

  predicate HasVariables(d: Definition, manner: Manner) {
    d.OperationDefinition? && d.operationName.Some? && manner.With?
  }

  predicate MannerFits(d: Definition, manner: Manner) {
    HasVariables(d, manner) ==> VariablesFit(manner.variables)
  }

  // What is asked of the tokens of variables: a bracket in front of a type makes it a list, and so on.
  predicate VariablesComplete(v: Variables) {
    match v
    case OneToken(_) => true
    case Variable(_, typeName, _, isListType, isNonNullList, default) =>
      && (typeName.token == OpenBracket || isNonNullList ==> isListType)
      && (default.Some? ==> Complete(default.value))
  }

  predicate MannerReadable(d: Definition, manner: Manner) {
    HasVariables(d, manner) ==> VariablesComplete(manner.variables)
  }

  // The values in it are complete, and no field in one is named like a keyword.
  predicate Readable(v: Value) {
    Complete(v) && NoKeywordNames(v)
  }

  predicate ArgumentsReadable(arguments: seq<Argument>) {
    forall k | 0 <= k < |arguments| :: Readable(arguments[k].value) && DirectivesReadable(arguments[k].directives)
  }

  predicate ListReadable(list: ArgumentList) {
    list.Parentheses? ==> ArgumentsReadable(list.arguments)
  }

  predicate DirectivesReadable(directives: seq<Directive>) {
    forall k | 0 <= k < |directives| :: ListReadable(directives[k].arguments)
  }

  predicate SelectionReadable(s: Selection) {
    DirectivesReadable(s.directives) &&
    match s
    case Field(_, _, arguments, _, selectionSet) =>
      ListReadable(arguments) && (selectionSet.Braces? ==> SelectionsReadable(selectionSet.selections))
    case InlineFragment(_, _, selections) => SelectionsReadable(selections)
    case FragmentSpread(_, _) => true
  }

  predicate SelectionsReadable(selections: seq<Selection>) {
    forall k | 0 <= k < |selections| :: SelectionReadable(selections[k])
  }

  predicate DefinitionReadable(d: Definition) {
    DirectivesReadable(d.directives) && SelectionsReadable(d.selections)
  }

  // The same without the places of names in values.
  function BareArguments(arguments: seq<Argument>): seq<Argument> {
    if arguments == [] then []
    else
      var a := arguments[0];
      [Argument(a.name, Bare(a.value), BareDirectives(a.directives))] + BareArguments(arguments[1..])
  }

  function BareList(list: ArgumentList): ArgumentList {
    match list
    case NoParentheses => NoParentheses
    case Parentheses(arguments) => Parentheses(BareArguments(arguments))
  }

  function BareDirectives(directives: seq<Directive>): seq<Directive> {
    if directives == [] then []
    else [Directive(directives[0].name, BareList(directives[0].arguments))] + BareDirectives(directives[1..])
  }

  function BareSelection(s: Selection): Selection {
    match s
    case Field(alias, name, arguments, directives, selectionSet) =>
      Field(alias, name, BareList(arguments), BareDirectives(directives), BareSet(selectionSet))
    case InlineFragment(typeName, directives, selections) =>
      InlineFragment(typeName, BareDirectives(directives), BareSelections(selections))
    case FragmentSpread(name, directives) => FragmentSpread(name, BareDirectives(directives))
  }

  function BareSet(selectionSet: SelectionSet): SelectionSet {
    match selectionSet
    case NoBraces => NoBraces
    case Braces(selections) => Braces(BareSelections(selections))
  }

  function BareSelections(selections: seq<Selection>): seq<Selection> {
    if selections == [] then [] else [BareSelection(selections[0])] + BareSelections(selections[1..])
  }

  function BareDefinition(d: Definition): Definition {
    d.(directives := BareDirectives(d.directives), selections := BareSelections(d.selections))
  }

  function BareDefinitions(definitions: seq<Definition>): seq<Definition> {
    if definitions == [] then [] else [BareDefinition(definitions[0])] + BareDefinitions(definitions[1..])
  }

  function OperationsOf(definitions: seq<Definition>): seq<Definition> {
    if definitions == [] then []
    else (if definitions[0].OperationDefinition? then [definitions[0]] else []) + OperationsOf(definitions[1..])
  }

  function FragmentsOf(definitions: seq<Definition>): seq<Definition> {
    if definitions == [] then []
    else (if definitions[0].FragmentDefinition? then [definitions[0]] else []) + FragmentsOf(definitions[1..])
  }

  // The document that definitions make up, in whatever order they come.
  function DocumentOf(definitions: seq<Definition>): Document {
    Document(OperationsOf(definitions), FragmentsOf(definitions))
  }

  // No white space comes between an at sign and what follows it.
  predicate Joined(here: seq<Lexeme>) {
    forall k | 0 <= k < |here| - 1 && here[k].token == At :: here[k + 1].start == here[k].end
  }

  predicate Spells(here: seq<Lexeme>, tokens: seq<Lexeme>) {
    Alike(here, tokens) && Joined(here)
  }

  // Two parts, and what comes after them.
  lemma Cut(here: seq<Lexeme>, first: seq<Lexeme>, second: seq<Lexeme>, after: seq<Lexeme>)
    requires Spells(here, first + second)
    ensures var n := |first|;
            && n <= |here| && Spells(here[..n], first) && Spells(here[n..], second)
            && here + after == here[..n] + (here[n..] + after)
  {
    AlikeParts(here, first, second);
  }

  // Tokens that what is read would go on with.
  predicate Ends(after: seq<Lexeme>) {
    after == [] || after[0].token !in {At, OpenParen}
  }

  predicate EndsField(after: seq<Lexeme>) {
    after == [] || after[0].token !in {At, OpenParen, Colon, OpenBrace}
  }

  // What the first of two parts starts with, the whole does.
  lemma FirstOf(here: seq<Lexeme>, after: seq<Lexeme>)
    requires here != []
    ensures (here + after)[0] == here[0] && (here + after)[1..] == here[1..] + after
  {
  }

  lemma NameIsAny(name: string)
    ensures AnyName(name).token.InMode(true) == GName
    ensures AnyName(name).token !in {At, OpenParen, CloseParen, Colon, OpenBrace, CloseBrace, Ellipses}
  {
    hide NameToken;
  }
}
