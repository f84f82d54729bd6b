/**
 The texts of each kind of token: GraphQL specification, June 2018, section 2.1 and appendix B, with
 what the scanner makes of them.
 */
module TokenLanguages {
  import opened GraphQlTokens

  predicate Letter(c: char) {
    c == '_' || 'A' <= c <= 'Z' || 'a' <= c <= 'z'
  }

  predicate Digit(c: char) {
    '0' <= c <= '9'
  }

  predicate Hexadecimal(c: char) {
    '0' <= c <= '9' || 'A' <= c <= 'F' || 'a' <= c <= 'f'
  }

  predicate LineBreak(c: char) {
    c == '\n' || c == '\r'
  }

  predicate IsName(text: string) {
    text != "" && Letter(text[0]) && forall k | 0 <= k < |text| :: Letter(text[k]) || Digit(text[k])
  }

  predicate Digits(text: string) {
    forall k | 0 <= k < |text| :: Digit(text[k])
  }

  /** An integer: a minus sign or a digit, and then a single zero or any digits that do not start with
      one. So a minus sign alone is one, and 100 is none. */
  predicate IsInteger(text: string) {
    && text != "" && (text[0] == '-' || Digit(text[0]))
    && (text[1..] == "0" || (Digits(text[1..]) && (|text| > 1 ==> text[1] != '0')))
  }

  predicate IsFraction(text: string) {
    |text| >= 2 && text[0] == '.' && Digits(text[1..])
  }

  predicate IsExponent(text: string) {
    && |text| >= 2 && text[0] in "eE"
    && (if text[1] in "+-" then |text| >= 3 && Digits(text[2..]) else Digits(text[1..]))
  }

  // An integer up to `i`, a fraction from there to `j`, and an exponent; one of these may be missing.
  predicate FloatParts(text: string, i: nat, j: nat) {
    && i <= j <= |text| && IsInteger(text[..i])
    && (i == j || IsFraction(text[i..j])) && (j == |text| || IsExponent(text[j..]))
    && i < |text|
  }

  ghost predicate IsFloat(text: string) {
    exists i: nat, j: nat :: FloatParts(text, i, j)
  }

  /** The rest of a one-line string behind its opening quote, up to the closing one. A backslash in front
      of a character that makes no escape stands for itself. */
  predicate Quoted(text: string) {
    text != "" &&
    if text[0] == '"' then |text| == 1
    else if text[0] != '\\' then Quoted(text[1..])
    else if |text| >= 2 && text[1] in "\"\\/bfnrt" then Quoted(text[2..])
    else if |text| >= 2 && text[1] == 'u' then
      |text| >= 6 && (forall k | 2 <= k < 6 :: Hexadecimal(text[k])) && Quoted(text[6..])
    else Quoted(text[1..])
  }

  // The rest of a one-line string that ends at a character that is no digit of a Unicode escape.
  predicate Misquoted(text: string) {
    text != "" && text[0] != '"' &&
    if text[0] != '\\' then Misquoted(text[1..])
    else if |text| >= 2 && text[1] in "\"\\/bfnrt" then Misquoted(text[2..])
    else if |text| >= 2 && text[1] == 'u' then
      if 3 <= |text| <= 6 then
        (forall k | 2 <= k < |text| - 1 :: Hexadecimal(text[k])) && !Hexadecimal(text[|text| - 1])
      else |text| > 6 && (forall k | 2 <= k < 6 :: Hexadecimal(text[k])) && Misquoted(text[6..])
    else Misquoted(text[1..])
  }

  predicate HasLineBreak(text: string) {
    exists k | 0 <= k < |text| :: LineBreak(text[k])
  }

  predicate IsString(text: string) {
    text != "" && text[0] == '"' && Quoted(text[1..]) && !HasLineBreak(text)
  }

  // A string with a line break in it, or with a Unicode escape of less than four digits.
  predicate IsInvalidString(text: string) {
    && text != "" && text[0] == '"'
    && ((Quoted(text[1..]) && HasLineBreak(text)) || Misquoted(text[1..]))
  }

  predicate QuotesAt(text: string, k: nat) {
    k + 3 <= |text| && text[k] == '"' && text[k + 1] == '"' && text[k + 2] == '"'
  }

  /** A block string: three quotes, and then the next three quotes end it. */
  predicate IsBlockString(text: string) {
    && |text| >= 6 && QuotesAt(text, 0) && QuotesAt(text, |text| - 3)
    && forall k | 3 <= k < |text| - 3 :: !QuotesAt(text, k)
  }

  // The text of a token that has just one: a punctuator or a keyword.
  function Literal(token: Token): string {
    match token
    case Ampersand => "&"
    case Pipe => "|"
    case At => "@"
    case Colon => ":"
    case Exclamation => "!"
    case Equal => "="
    case OpenBrace => "{"
    case CloseBrace => "}"
    case OpenBracket => "["
    case CloseBracket => "]"
    case OpenParen => "("
    case CloseParen => ")"
    case Ellipses => "..."
    case OnKeyword => "on"
    case MutationKeyword => "mutation"
    case QueryKeyword => "query"
    case SubscriptionKeyword => "subscription"
    case DirectiveKeyword => "directive"
    case EnumKeyword => "enum"
    case FragmentKeyword => "fragment"
    case InputKeyword => "input"
    case InterfaceKeyword => "interface"
    case SchemaKeyword => "schema"
    case TypeKeyword => "type"
    case UnionKeyword => "union"
    case IDKeyword => "ID"
    case IntKeyword => "Int"
    case FloatKeyword => "Float"
    case StringKeyword => "String"
    case BooleanKeyword => "Boolean"
    case NullKeyword => "null"
    case TrueKeyword => "true"
    case FalseKeyword => "false"
    case ImplementsKeyword => "implements"
    case _ => ""
  }

  const KEYWORDS: set<string> := {
    "on", "mutation", "query", "subscription", "directive", "enum", "fragment", "input", "interface", "schema",
    "type", "union", "ID", "Int", "Float", "String", "Boolean", "null", "true", "false", "implements"
  }

  // A token with a text of its own. `Unknown` is what no other kind of token is.
  predicate IsKind(token: Token) {
    token !in {Unknown, WhiteSpace, EndOfDocument}
  }

  /** The texts of a kind of token. */
  ghost predicate InLanguage(text: string, token: Token) {
    match token
    case GName => IsName(text) && text !in KEYWORDS
    case IntegerLiteral => IsInteger(text)
    case FloatLiteral => IsFloat(text)
    case StringLiteral => IsString(text) || IsBlockString(text)
    case InvalidString => IsInvalidString(text)
    case _ => IsKind(token) && text == Literal(token)
  }

  // Section 2.1.7: nothing in front of a token counts but these characters and comments.
  predicate Ignorable(c: char) {
    c in " ,\n\r#" || c == '\U{FEFF}'
  }

  /** Ignored text, comments closed by a line break included. */
  predicate IsIgnored(text: string)
    decreases |text|, 0
  {
    text == "" || (Ignorable(text[0]) && if text[0] == '#' then InComment(text[1..]) else IsIgnored(text[1..]))
  }

  predicate InComment(text: string)
    decreases |text|, 1
  {
    text != "" && if LineBreak(text[0]) then IsIgnored(text) else InComment(text[1..])
  }
}
