/**
 What one call of the GraphQL scanner recognises, as functions of the text and the
 offset: the specification the scanner's loops are proved against.
 */
module GraphQlLexer {
  import opened SourceText
  import opened GraphQlTokens

  // A recognised token, the offset it is said to start at and the offset after it.
  datatype Lexed = Lexed(token: Token, start: nat, end: nat)

  predicate IsNameStart(c: char) {
    'A' <= c <= 'Z' || 'a' <= c <= 'z' || c == '_'
  }

  predicate IsNamePart(c: char) {
    IsNameStart(c) || IsDigit(c)
  }

  predicate IsBlank(c: char) {
    c == '\U{FEFF}' || c == ' ' || c == ','
  }

  // The text between two offsets, cut off at the end of the source.
  function TextBetween(s: string, start: nat, end: nat): string {
    var hi := if end < |s| then end else |s|;
    if start <= hi then s[start..hi] else ""
  }

  function DigitsEnd(s: string, p: nat): (end: nat)
    ensures p <= end && (p <= |s| ==> end <= |s|)
    ensures !IsDigit(CharAt(s, end))
    decreases |s| - p
  {
    if IsDigit(CharAt(s, p)) then DigitsEnd(s, p + 1) else p
  }

  function NameEnd(s: string, p: nat): (end: nat)
    ensures p <= end && (p <= |s| ==> end <= |s|)
    ensures !IsNamePart(CharAt(s, end))
    decreases |s| - p
  {
    if IsNamePart(CharAt(s, p)) then NameEnd(s, p + 1) else p
  }

  function CommentEnd(s: string, p: nat): (end: nat)
    requires p <= |s|
    ensures p <= end <= |s|
    decreases |s| - p
  {
    if p < |s| && !IsLineBreakChar(s[p]) then CommentEnd(s, p + 1) else p
  }

  // The integer part after the first character of a number. A minus sign or a first digit
  // has been taken already, so of a second digit 0 exactly one character is taken.
  function IntegerPartEnd(s: string, p: nat): (end: nat)
    ensures p <= end && (p <= |s| ==> end <= |s|)
  {
    if CharAt(s, p) == '0' then p + 1 else DigitsEnd(s, p)
  }

  // From the `e` or `E` of an exponent.
  function Exponent(s: string, p: nat): (r: (Token, nat))
    requires p < |s|
    ensures r.0 in {FloatLiteral, Unknown} && p < r.1 <= |s|
  {
    var q := if CharAt(s, p + 1) == '-' || CharAt(s, p + 1) == '+' then p + 2 else p + 1;
    if IsDigit(CharAt(s, q)) then (FloatLiteral, DigitsEnd(s, q + 1)) else (Unknown, q)
  }

  predicate IsExponentSign(c: char) {
    c == 'e' || c == 'E'
  }

  function Number(s: string, p: nat): (r: (Token, nat))
    requires p <= |s|
    ensures r.0 in {IntegerLiteral, FloatLiteral, Unknown} && p <= r.1 <= |s|
  {
    var q := IntegerPartEnd(s, p);
    if CharAt(s, q) == '.' then
      if !IsDigit(CharAt(s, q + 1)) then (Unknown, q + 1)
      else
        var f := DigitsEnd(s, q + 2);
        if IsExponentSign(CharAt(s, f)) then Exponent(s, f) else (FloatLiteral, f)
    else if IsExponentSign(CharAt(s, q)) then Exponent(s, q)
    else (IntegerLiteral, q)
  }

  // After the backslash-u of an escape, with `n` hexadecimal digits read.
  function HexEscape(s: string, p: nat, n: nat): (r: (bool, nat))
    requires p <= |s| && n <= 4
    ensures p <= r.1 <= |s| + 1 && (r.0 ==> r.1 <= |s|) && (!r.0 ==> p < r.1)
    decreases 4 - n
  {
    if n == 4 then (true, p)
    else if IsHexadecimal(CharAt(s, p)) then HexEscape(s, p + 1, n + 1)
    else (false, p + 1)
  }

  // From the backslash of an escape: whether it is valid, and the offset after it. After
  // any other character only the backslash is taken.
  function Escape(s: string, p: nat): (r: (bool, nat))
    requires p < |s|
    ensures p < r.1 <= |s| + 1 && (r.0 ==> r.1 <= |s|)
  {
    var c := CharAt(s, p + 1);
    if c in ['"', '\\', '/', 'b', 'f', 'n', 'r', 't'] then (true, p + 2)
    else if c == 'u' then HexEscape(s, p + 2, 0)
    else (true, p + 1)
  }

  // A one-line string after its opening quote; `truncated` once a line break was seen.
  function StringEnd(s: string, p: nat, truncated: bool): (r: (Token, nat))
    requires p <= |s| + 1
    ensures r.0 in {StringLiteral, InvalidString} && p <= r.1 <= |s| + 1
    decreases |s| + 1 - p
  {
    if p > |s| then (if truncated then InvalidString else StringLiteral, p)
    else
      var c := CharAt(s, p);
      if c == '\\' then
        var escape := Escape(s, p);
        if escape.0 then StringEnd(s, escape.1, truncated) else (InvalidString, escape.1)
      else if IsLineBreakChar(c) then StringEnd(s, p + 1, true)
      else if c == '"' then (if truncated then InvalidString else StringLiteral, p + 1)
      else StringEnd(s, p + 1, truncated)
  }

  // A block string after its three opening quotes.
  function BlockEnd(s: string, p: nat): (r: (Token, nat))
    requires p <= |s| + 1
    ensures r.0 in {StringLiteral, Unknown} && p <= r.1 <= |s| + 1
    decreases |s| + 1 - p
  {
    if p > |s| then (Unknown, p)
    else if CharAt(s, p) == '"' && p + 2 >= |s| then (Unknown, p)
    else if CharAt(s, p) == '"' && CharAt(s, p + 1) == '"' && CharAt(s, p + 2) == '"' then (StringLiteral, p + 3)
    else BlockEnd(s, p + 1)
  }

  function StringToken(s: string, p: nat): (r: (Token, nat))
    requires p <= |s|
    ensures r.0 in {StringLiteral, InvalidString, Unknown} && p <= r.1 <= |s| + 1
  {
    if CharAt(s, p) == '"' && CharAt(s, p + 1) == '"' then BlockEnd(s, p + 2) else StringEnd(s, p, false)
  }

  // After the first of up to three dots.
  function Dots(s: string, p: nat): (r: (Token, nat))
    requires p <= |s|
    ensures r.0 in {Ellipses, Unknown} && p <= r.1 <= |s|
  {
    if CharAt(s, p) != '.' then (Unknown, p)
    else if CharAt(s, p + 1) != '.' then (Unknown, p + 1)
    else (Ellipses, p + 2)
  }

  predicate IsTrivia(c: char) {
    IsLineBreakChar(c) || IsBlank(c) || c == '#'
  }

  function Punctuator(c: char): (token: Token)
    ensures !token.IsKeyword() && token !in {GName, EndOfDocument, WhiteSpace}
  {
    match c
    case '&' => Ampersand
    case '(' => OpenParen
    case ')' => CloseParen
    case '[' => OpenBracket
    case ']' => CloseBracket
    case '{' => OpenBrace
    case '}' => CloseBrace
    case ':' => Colon
    case '!' => Exclamation
    case '@' => At
    case '|' => Pipe
    case '=' => Equal
    case _ => Unknown
  }

  // The token whose first character is at `p`, keywords told apart.
  function TokenFrom(s: string, start: nat, p: nat): (r: (Token, nat))
    requires p < |s| && !IsTrivia(s[p])
    ensures p < r.1 <= |s| + 1
    ensures r.0 !in {EndOfDocument, WhiteSpace}
  {
    var c := s[p];
    if c == '"' then StringToken(s, p + 1)
    else if c == '.' then Dots(s, p + 1)
    else if c == '-' || IsDigit(c) then Number(s, p + 1)
    else if IsNameStart(c) then
      var end := NameEnd(s, p + 1);
      (NameToken(TextBetween(s, start, end)), end)
    else (Punctuator(c), p + 1)
  }

  // Where the trivia at `p` ends: a comment, a line break or a blank. A carriage return takes
  // the character after it along when a line feed stands two places on.
  function TriviaEnd(s: string, p: nat): (end: nat)
    requires p < |s| && IsTrivia(s[p])
    ensures p < end <= |s|
  {
    if s[p] == '#' then CommentEnd(s, p + 1)
    else if s[p] == '\r' && CharAt(s, p + 2) == '\n' then p + 2
    else p + 1
  }

  // How far the start of the token falls behind over the trivia at `p`: a line break moves
  // the start by one, also where the scanner takes two characters.
  function TriviaLag(s: string, p: nat): nat
    requires p < |s| && IsTrivia(s[p])
  {
    if s[p] == '\r' then TriviaEnd(s, p) - p - 1 else 0
  }

  // One call of the scanner from offset `p`, where the start has fallen behind by `lag`.
  function Next(s: string, p: nat, lag: nat, skip: bool): (r: Lexed)
    requires lag <= p <= |s| + 1
    ensures p - lag <= r.start <= r.end <= |s| + 1
    ensures p <= r.end
    ensures r.token == EndOfDocument ==> r.end >= |s|
    ensures r.token != EndOfDocument ==> p < r.end
    ensures r.token == WhiteSpace ==> !skip
    decreases |s| + 1 - p
  {
    if p >= |s| then Lexed(EndOfDocument, p - lag, p)
    else if IsTrivia(s[p]) then
      if skip || s[p] == '#' then Next(s, TriviaEnd(s, p), lag + TriviaLag(s, p), skip)
      else Lexed(WhiteSpace, p - lag, TriviaEnd(s, p))
    else
      var token := TokenFrom(s, p - lag, p);
      Lexed(token.0, p - lag, token.1)
  }

  // A token together with its text.
  datatype Lexeme = Lexeme(token: Token, text: string, start: nat, end: nat)

  function LexemeOf(s: string, lexed: Lexed): Lexeme {
    Lexeme(lexed.token, TextBetween(s, lexed.start, lexed.end), lexed.start, lexed.end)
  }

  // All that is left to scan from offset `p`, keywords told apart.
  function Lexemes(s: string, p: nat): seq<Lexeme>
    requires p <= |s| + 1
    decreases |s| + 1 - p
  {
    var next := Next(s, p, 0, true);
    if next.token == EndOfDocument then [] else [LexemeOf(s, next)] + Lexemes(s, next.end)
  }

  // The first token.
  predicate Starts(lexemes: seq<Lexeme>, token: Token) {
    lexemes != [] && lexemes[0].token == token
  }
}
