/** The syntax of values over scanned tokens, as both parsers read it. */
module ValueSyntax {
  import opened SourceText
  import opened GraphQlTokens
  import opened GraphQlLexer
  import opened GraphQlSyntax

  // The number in a run of digits.
  function DigitsValue(text: string): nat
    requires forall k | 0 <= k < |text| :: IsDigit(text[k])
  {
    if text == [] then 0
    else
      assert IsDigit(text[|text| - 1]);
      DigitsValue(text[..|text| - 1]) * 10 + (text[|text| - 1] as int - '0' as int)
  }

  // The leading digits of a text.
  function LeadingDigits(text: string): (digits: string)
    ensures forall k | 0 <= k < |digits| :: IsDigit(digits[k])
  {
    if text != [] && IsDigit(text[0]) then [text[0]] + LeadingDigits(text[1..]) else []
  }

  // What `atoi` reads, on numbers it can represent.
  function NumberOf(text: string): int {
    if text != [] && text[0] == '-' then 0 - DigitsValue(LeadingDigits(text[1..])) else DigitsValue(LeadingDigits(text))
  }

  // The tokens that are values by themselves.
  predicate IsLeaf(token: Token) {
    token in {NullKeyword, StringLiteral, IntegerLiteral, FloatLiteral, TrueKeyword, FalseKeyword, GName}
  }

  function LeafValue(token: Token, text: string): (value: Value)
    requires IsLeaf(token)
    ensures !value.NoValue? && !value.ListValue? && !value.ObjectValue?
  {
    match token
    case NullKeyword => NullValue
    case StringLiteral => StringValue(text)
    case IntegerLiteral => IntValue(NumberOf(text))
    case FloatLiteral => FloatValue(text)
    case TrueKeyword => BooleanValue(true)
    case FalseKeyword => BooleanValue(false)
    case GName => EnumValue(text)
  }

  /** A value and the tokens after it, or a text that draws a diagnostic. A closing bracket is
      read as `NoValue`, and the end of the document closes an object. The schema's parser
      takes keywords as the names of object fields, the query parser does not. */
  datatype Parse = Parsed(value: Value, rest: seq<Lexeme>) | Failed

  function ParseValue(lexemes: seq<Lexeme>, keywordNames: bool): (r: Parse)
    ensures r.Parsed? ==> |r.rest| < |lexemes|
    decreases |lexemes|, 1
  {
    if lexemes == [] then Failed
    else
      var text, rest := lexemes[0].text, lexemes[1..];
      match lexemes[0].token
      case OpenBracket => ParseElements(rest, [], keywordNames)
      case OpenBrace => ParseFields(rest, [], keywordNames)
      case CloseBracket => Parsed(NoValue, rest)
      case token => if IsLeaf(token) then Parsed(LeafValue(token, text), rest) else Failed
  }

  function ParseElements(lexemes: seq<Lexeme>, before: seq<Value>, keywordNames: bool): (r: Parse)
    ensures r.Parsed? ==> |r.rest| < |lexemes| && r.value.ListValue?
    decreases |lexemes|, 2
  {
    var element := ParseValue(lexemes, keywordNames);
    if element.Failed? then Failed
    else if element.value.NoValue? then Parsed(ListValue(before), element.rest)
    else ParseElements(element.rest, before + [element.value], keywordNames)
  }

  function ParseFields(lexemes: seq<Lexeme>, before: seq<ObjectField>, keywordNames: bool): (r: Parse)
    ensures r.Parsed? ==> |r.rest| <= |lexemes| && r.value.ObjectValue?
    decreases |lexemes|, 2
  {
    if lexemes == [] then Parsed(ObjectValue(before), [])
    else if lexemes[0].token == CloseBrace then Parsed(ObjectValue(before), lexemes[1..])
    else if lexemes[0].token.InMode(keywordNames) != GName || |lexemes| < 2 || lexemes[1].token != Colon then Failed
    else
      var field := ParseValue(lexemes[2..], keywordNames);
      if field.Failed? then Failed
      else
        var name := lexemes[0];
        ParseFields(field.rest, before + [ObjectField(name.text, field.value, name.start, name.end)], keywordNames)
  }

  // What the first token makes of the rest.
  lemma ParseValueStep(lexemes: seq<Lexeme>, keywordNames: bool)
    ensures var r := ParseValue(lexemes, keywordNames);
            if lexemes == [] then r == Failed
            else
              var token, text, rest := lexemes[0].token, lexemes[0].text, lexemes[1..];
              && (token == OpenBracket ==> r == ParseElements(rest, [], keywordNames))
              && (token == OpenBrace ==> r == ParseFields(rest, [], keywordNames))
              && (token == CloseBracket ==> r == Parsed(NoValue, rest))
              && (IsLeaf(token) ==> r == Parsed(LeafValue(token, text), rest))
              && (token !in {OpenBracket, OpenBrace, CloseBracket} && !IsLeaf(token) ==> r == Failed)
  {
  }

  // What the query parser reads, the schema's parser reads in the same way.
  lemma {:induction false} KeywordNamesOnlyAdd(lexemes: seq<Lexeme>)
    ensures ParseValue(lexemes, false).Parsed? ==> ParseValue(lexemes, true) == ParseValue(lexemes, false)
    decreases |lexemes|, 1
  {
    if lexemes != [] {
      if lexemes[0].token == OpenBracket {
        KeywordNamesOnlyAddInElements(lexemes[1..], []);
      } else if lexemes[0].token == OpenBrace {
        KeywordNamesOnlyAddInFields(lexemes[1..], []);
      }
    }
  }

  lemma {:induction false} KeywordNamesOnlyAddInElements(lexemes: seq<Lexeme>, before: seq<Value>)
    ensures ParseElements(lexemes, before, false).Parsed? ==>
              ParseElements(lexemes, before, true) == ParseElements(lexemes, before, false)
    decreases |lexemes|, 2
  {
    KeywordNamesOnlyAdd(lexemes);
    var element := ParseValue(lexemes, false);
    if element.Parsed? && !element.value.NoValue? {
      KeywordNamesOnlyAddInElements(element.rest, before + [element.value]);
    }
  }

  lemma {:induction false} KeywordNamesOnlyAddInFields(lexemes: seq<Lexeme>, before: seq<ObjectField>)
    ensures ParseFields(lexemes, before, false).Parsed? ==>
              ParseFields(lexemes, before, true) == ParseFields(lexemes, before, false)
    decreases |lexemes|, 2
  {
    if |lexemes| >= 2 && lexemes[0].token == GName && lexemes[1].token == Colon {
      KeywordNamesOnlyAdd(lexemes[2..]);
      var field, name := ParseValue(lexemes[2..], false), lexemes[0];
      if field.Parsed? {
        KeywordNamesOnlyAddInFields(field.rest, before + [ObjectField(name.text, field.value, name.start, name.end)]);
      }
    }
  }

  // What has been read stays in front.
  lemma {:induction false} ElementsKept(lexemes: seq<Lexeme>, before: seq<Value>, keywordNames: bool)
    ensures var r := ParseElements(lexemes, before, keywordNames);
            r.Parsed? ==> before <= r.value.values
    decreases |lexemes|
  {
    var element := ParseValue(lexemes, keywordNames);
    if element.Parsed? && !element.value.NoValue? {
      ElementsKept(element.rest, before + [element.value], keywordNames);
    }
  }

  lemma {:induction false} FieldsKept(lexemes: seq<Lexeme>, before: seq<ObjectField>, keywordNames: bool)
    ensures var r := ParseFields(lexemes, before, keywordNames);
            r.Parsed? ==> before <= r.value.fields
    decreases |lexemes|
  {
    if |lexemes| >= 2 && lexemes[0].token.InMode(keywordNames) == GName && lexemes[1].token == Colon {
      var field, name := ParseValue(lexemes[2..], keywordNames), lexemes[0];
      if field.Parsed? {
        FieldsKept(field.rest, before + [ObjectField(name.text, field.value, name.start, name.end)], keywordNames);
      }
    }
  }
}
