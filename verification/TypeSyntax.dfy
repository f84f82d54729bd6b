/** The syntax of type annotations over scanned tokens (GraphQL specification, June 2018,
    section 2.11). */
module TypeSyntax {
  import opened GraphQlTokens
  import opened GraphQlLexer
  import opened GraphQlSyntax

  /** An annotation and the tokens after it, or a text that draws a diagnostic. */
  datatype Parse = Parsed(info: TypeInfo, rest: seq<Lexeme>) | Failed

  predicate NamesType(token: Token) {
    token in {IntKeyword, FloatKeyword, StringKeyword, BooleanKeyword, IDKeyword, GName}
  }

  function BaseOf(token: Token): BaseType
    requires NamesType(token)
  {
    match token
    case IntKeyword => TInt
    case FloatKeyword => TFloat
    case StringKeyword => TString
    case BooleanKeyword => TBoolean
    case IDKeyword => TID
    case GName => TObject
  }

  function SkipOptional(lexemes: seq<Lexeme>, token: Token): seq<Lexeme> {
    if Starts(lexemes, token) then lexemes[1..] else lexemes
  }

  function ParseType(lexemes: seq<Lexeme>): Parse {
    var isList, inner := Starts(lexemes, OpenBracket), SkipOptional(lexemes, OpenBracket);
    if inner == [] || !NamesType(inner[0].token) then Failed
    else
      ParseAfterName(inner[1..], BaseOf(inner[0].token), if inner[0].token == GName then inner[0].text else "", isList)
  }

  function ParseAfterName(lexemes: seq<Lexeme>, base: BaseType, name: string, isList: bool): (r: Parse)
    ensures r.Parsed? ==> |r.rest| <= |lexemes| && r.info.base == base
  {
    var isNonNull, rest := Starts(lexemes, Exclamation), SkipOptional(lexemes, Exclamation);
    if !isList then Parsed(TypeInfo(base, name, isNonNull, false, false), rest)
    else if !Starts(rest, CloseBracket) then Failed
    else
      Parsed(TypeInfo(base, name, isNonNull, true, Starts(rest[1..], Exclamation)),
             SkipOptional(rest[1..], Exclamation))
  }
}
