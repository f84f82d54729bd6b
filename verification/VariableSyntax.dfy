/**
 The variables of an operation, as the query parser reads them: after a first one it goes on only
 behind a comma, which is no token, and it keeps none of them. The dollar sign of the GraphQL
 specification (June 2018, section 2.10) is no token either.
 */
module VariableSyntax {
  import opened SourceText
  import opened GraphQlTokens
  import opened GraphQlLexer
  import opened GraphQlSyntax
  import opened ValueRules
  import TS = TypeSyntax
  import VS = ValueSyntax

  /** The query parser takes the default value for the type of a variable. The name of that type is
      not kept, so neither objects nor enum values can be looked up. */
  predicate DefaultFits(v: Value, info: TypeInfo) {
    match v
    case NoValue => true
    case NullValue => !info.IsRequired()
    case EnumValue(_) => false
    case ListValue(values) =>
      info.isListType && forall k | 0 <= k < |values| :: DefaultFits(values[k], info.(isListType := false))
    case _ => LeafFits(v, info)
  }

  // It is what the query parser takes for an annotation where nothing is declared.
  lemma {:induction false} DefaultsAccepted(annotations: Annotations, v: Value, t: Type)
    requires t in annotations
    ensures DefaultFits(v, annotations[t]) <==> Accepts(map[], annotations, v, t)
    decreases v
  {
    if v.ListValue? {
      var inside := annotations[t := annotations[t].(isListType := false)];
      forall k | 0 <= k < |v.values|
        ensures DefaultFits(v.values[k], inside[t]) <==> Accepts(map[], inside, v.values[k], t)
      {
        DefaultsAccepted(inside, v.values[k], t);
      }
    }
  }

  // No part of the value that is no field of an object is null.
  predicate NoNulls(v: Value) {
    match v
    case NullValue => false
    case ListValue(values) => forall k | 0 <= k < |values| :: NoNulls(values[k])
    case _ => true
  }

  /** How far the test for default values is from the rules the checkers share: it is not looser on
      complete values, and stricter exactly in that a non-null flag keeps out every null, also the
      one that stands for the whole list, or for an item, where only the other of them may not be
      null. */
  lemma {:induction false} DefaultsConform(v: Value, info: TypeInfo)
    requires info.base != TEnum
    ensures DefaultFits(v, info) && Complete(v) <==>
            Conforms(map[], map[], v, info) && (info.IsRequired() ==> NoNulls(v))
    decreases v
  {
    if v.ListValue? {
      var inside := info.(isListType := false);
      forall k | 0 <= k < |v.values|
        ensures DefaultFits(v.values[k], inside) && Complete(v.values[k]) <==>
                Conforms(map[], map[], v.values[k], info.Element()) && (info.IsRequired() ==> NoNulls(v.values[k]))
      {
        DefaultsConform(v.values[k], inside);
      }
    }
  }

  // Any token will do for a type; all but the built-in scalars stand for an object type.
  function BaseOf(token: Token): BaseType {
    if TS.NamesType(token) then TS.BaseOf(token) else TObject
  }

  function ReadType(lexemes: seq<Lexeme>): (r: TS.Parse)
    ensures r.Parsed? ==> |r.rest| <= |lexemes| && r.info.base != TEnum
  {
    var inner := TS.SkipOptional(lexemes, OpenBracket);
    TS.ParseAfterName(if inner == [] then [] else inner[1..], if inner == [] then TObject else BaseOf(inner[0].token),
                      "", Starts(lexemes, OpenBracket))
  }

  // What follows the default value of a variable, if it has one.
  function ReadDefault(lexemes: seq<Lexeme>, info: TypeInfo): (r: Option<seq<Lexeme>>)
    ensures r.Some? ==> |r.value| <= |lexemes|
  {
    if !Starts(lexemes, Equal) then Some(lexemes)
    else
      var value := VS.ParseValue(lexemes[1..], false);
      if value.Parsed? && DefaultFits(value.value, info) then Some(value.rest) else None
  }

  /** What follows the variables behind their opening parenthesis: any one token that is no name, or
      one variable with a default value that fits. */
  function ReadVariables(lexemes: seq<Lexeme>): (r: Option<seq<Lexeme>>)
    ensures r.Some? ==> |r.value| <= |lexemes|
  {
    if lexemes == [] then Some([])
    else if lexemes[0].token != GName then Some(lexemes[1..])
    else if !Starts(lexemes[1..], Colon) then None
    else
      var read := ReadType(lexemes[1..][1..]);
      if read.Failed? then None else ReadDefault(read.rest, read.info)
  }
}
