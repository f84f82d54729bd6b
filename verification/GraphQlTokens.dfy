/** The tokens of the GraphQL scanner and its keyword table. */
module GraphQlTokens {

  datatype Token =
    | Unknown
    | GName
    | WhiteSpace
    | Ampersand
    | OnKeyword
    | Pipe
    | MutationKeyword
    | QueryKeyword
    | SubscriptionKeyword
    | DirectiveKeyword
    | EnumKeyword
    | FragmentKeyword
    | InputKeyword
    | InterfaceKeyword
    | SchemaKeyword
    | TypeKeyword
    | UnionKeyword
    | IDKeyword
    | IntKeyword
    | FloatKeyword
    | StringKeyword
    | BooleanKeyword
    | NullKeyword
    | TrueKeyword
    | FalseKeyword
    | ImplementsKeyword
    | IntegerLiteral
    | FloatLiteral
    | StringLiteral
    | InvalidString
    | At
    | Colon
    | CloseBrace
    | CloseParen
    | CloseBracket
    | Ellipses
    | Exclamation
    | Equal
    | OpenBrace
    | OpenBracket
    | OpenParen
    | EndOfDocument
  {
    predicate IsKeyword() {
      match this
      case OnKeyword | MutationKeyword | QueryKeyword | SubscriptionKeyword | DirectiveKeyword
         | EnumKeyword | FragmentKeyword | InputKeyword | InterfaceKeyword | SchemaKeyword
         | TypeKeyword | UnionKeyword | IDKeyword | IntKeyword | FloatKeyword | StringKeyword
         | BooleanKeyword | NullKeyword | TrueKeyword | FalseKeyword | ImplementsKeyword => true
      case _ => false
    }

    // The token a caller sees when it asks for keywords to be read as names.
    function InMode(keywordAsName: bool): Token {
      if keywordAsName && IsKeyword() then GName else this
    }
  }

  // What the scanner's switch over the length and first letters of a name computes.
  function NameToken(name: string): (token: Token)
    ensures token == GName || token.IsKeyword()
  {
    match name
    case "ID" => IDKeyword
    case "on" => OnKeyword
    case "Int" => IntKeyword
    case "enum" => EnumKeyword
    case "true" => TrueKeyword
    case "type" => TypeKeyword
    case "null" => NullKeyword
    case "query" => QueryKeyword
    case "false" => FalseKeyword
    case "Float" => FloatKeyword
    case "input" => InputKeyword
    case "union" => UnionKeyword
    case "String" => StringKeyword
    case "schema" => SchemaKeyword
    case "Boolean" => BooleanKeyword
    case "mutation" => MutationKeyword
    case "fragment" => FragmentKeyword
    case "interface" => InterfaceKeyword
    case "directive" => DirectiveKeyword
    case "implements" => ImplementsKeyword
    case "subscription" => SubscriptionKeyword
    case _ => GName
  }
}
