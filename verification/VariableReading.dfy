/** The query parser reads over variables, if their default values fit. */
module VariableReading {
  import opened SourceText
  import opened GraphQlTokens
  import opened GraphQlLexer
  import opened GraphQlSyntax
  import opened ValueRules
  import opened TokenLanguages
  import opened ValueTokens
  import opened DocumentTokens
  import opened VariableSyntax
  import TS = TypeSyntax
  import VS = ValueSyntax

  // Places do not matter to a default value.
  lemma {:induction false} SameDefault(v: Value, info: TypeInfo)
    ensures DefaultFits(v, info) <==> DefaultFits(Bare(v), info)
    decreases v
  {
    if v.ListValue? {
      forall k | 0 <= k < |v.values|
        ensures DefaultFits(v.values[k], info.(isListType := false)) <==>
                DefaultFits(BareAll(v.values)[k], info.(isListType := false))
      {
        SameDefault(v.values[k], info.(isListType := false));
      }
    }
  }

  lemma DefaultRead(here: seq<Lexeme>, default: Option<Value>, info: TypeInfo, after: seq<Lexeme>)
    requires default.Some? ==> Complete(default.value)
    requires Spells(here, DefaultTokens(default)) && !Starts(after, Equal)
    ensures ReadDefault(here + after, info) ==
            if default.Some? ==> NoKeywordNames(default.value) && DefaultFits(default.value, info)
            then Some(after) else None
  {
    hide VS.ParseValue, TokensOf, DefaultFits, Complete, NoKeywordNames, Bare;
    if default.None? {
      assert here + after == after;
    } else {
      var v := default.value;
      Cut(here, [Spelled(Equal, "=")], TokensOf(v), after);
      FirstOf(here, after);
      var w := ValueRead(here[1..], v, after, false);
      SameDefault(v, info);
      SameDefault(w, info);
    }
  }

  lemma MarkRead(here: seq<Lexeme>, present: bool, token: Token, text: string, after: seq<Lexeme>)
    requires Spells(here, MarkIf(present, token, text)) && (!present ==> !Starts(after, token))
    ensures Starts(here + after, token) == present && TS.SkipOptional(here + after, token) == after
    ensures present ==> (here + after)[1..] == after
    ensures !present ==> here + after == after
  {
    if present {
      FirstOf(here, after);
      assert here[1..] + after == after;
    } else {
      assert here + after == after;
    }
  }

  lemma FlagsRead(here: seq<Lexeme>, v: Variables, base: BaseType, after: seq<Lexeme>)
    requires v.Variable? && (v.isNonNullList ==> v.isListType)
    requires Spells(here, FlagTokens(v)) && !Starts(after, Exclamation)
    ensures TS.ParseAfterName(here + after, base, "", v.isListType) ==
            TS.Parsed(TypeInfo(base, "", v.isNonNull, v.isListType, v.isNonNullList), after)
  {
    hide Spells, TS.SkipOptional;
    var a, b := MarkIf(v.isNonNull, Exclamation, "!"), MarkIf(v.isListType, CloseBracket, "]");
    var c := MarkIf(v.isListType && v.isNonNullList, Exclamation, "!");
    Cut(here, a, b + c, after);
    var rest := here[|a|..];
    Cut(rest, b, c, after);
    var last := rest[|b|..];
    MarkRead(last, v.isListType && v.isNonNullList, Exclamation, "!", after);
    if v.isListType {
      MarkRead(rest[..|b|], true, CloseBracket, "]", last + after);
    } else {
      NothingIn(rest[..|b|], last + after);
    }
    MarkRead(here[..|a|], v.isNonNull, Exclamation, "!", rest + after);
  }

  lemma NothingIn(here: seq<Lexeme>, after: seq<Lexeme>)
    requires here == []
    ensures here + after == after
  {
  }

  // The type of a variable, and what comes behind it.
  lemma TypeRead(here: seq<Lexeme>, v: Variables, after: seq<Lexeme>)
    requires v.Variable? && VariablesComplete(v)
    requires Spells(here, TypeTokens(v))
    requires !Starts(after, Exclamation)
    ensures ReadType(here + after) == TS.Parsed(v.Info(), after)
  {
    hide FlagTokens, Complete, TS.ParseAfterName, TS.SkipOptional, MarkIf;
    var mark, flags := MarkIf(v.isListType, OpenBracket, "["), FlagTokens(v);
    Cut(here, mark, [v.typeName] + flags, after);
    var rest := here[|mark|..];
    Cut(rest, [v.typeName], flags, after);
    FirstOf(rest, after);
    assert rest[..1][0] == rest[0];
    MarkRead(here[..|mark|], v.isListType, OpenBracket, "[", rest + after);
    FlagsRead(rest[1..], v, v.Info().base, after);
  }

  /** The parser goes on behind the variables if and only if what they are given by default fits. */
  lemma VariablesRead(here: seq<Lexeme>, v: Variables, after: seq<Lexeme>)
    requires VariablesComplete(v) && Spells(here, VariablesTokens(v)) && Starts(after, CloseParen)
    ensures ReadVariables(here + after) == if VariablesFit(v) then Some(after) else None
  {
    if v.OneToken? {
      FirstOf(here, after);
      assert here[1..] + after == after;
    } else {
      OneVariableRead(here, v, after);
    }
  }

  function TypeTokens(v: Variables): seq<Lexeme>
    requires v.Variable?
  {
    MarkIf(v.isListType, OpenBracket, "[") + ([v.typeName] + FlagTokens(v))
  }

  lemma OneVariableRead(here: seq<Lexeme>, v: Variables, after: seq<Lexeme>)
    requires v.Variable? && VariablesComplete(v) && Spells(here, VariablesTokens(v)) && Starts(after, CloseParen)
    ensures ReadVariables(here + after) == if VariablesFit(v) then Some(after) else None
  {
    hide VariablesTokens, TypeTokens, DefaultTokens, ReadType, ReadDefault, NoKeywordNames, DefaultFits, Spells;
    var head, default := [OneName(v.name), Spelled(Colon, ":")], DefaultTokens(v.default);
    VariableGroups(v);
    Cut(here, head, TypeTokens(v) + default, after);
    var rest := here[2..];
    Cut(rest, TypeTokens(v), default, after);
    var last := rest[|TypeTokens(v)|..];
    DefaultStart(last, v.default, after);
    TypeRead(rest[..|TypeTokens(v)|], v, last + after);
    DefaultRead(last, v.default, v.Info(), after);
    TwoRead(here, head, rest + after);
  }

  lemma VariableGroups(v: Variables)
    requires v.Variable?
    ensures VariablesTokens(v) == [OneName(v.name), Spelled(Colon, ":")] + (TypeTokens(v) + DefaultTokens(v.default))
  {
    hide DefaultTokens, FlagTokens, MarkIf;
    TwoGroups(MarkIf(v.isListType, OpenBracket, "["), v.typeName, FlagTokens(v), DefaultTokens(v.default));
  }

  lemma TwoGroups(mark: seq<Lexeme>, name: Lexeme, flags: seq<Lexeme>, default: seq<Lexeme>)
    ensures mark + ([name] + (flags + default)) == mark + ([name] + flags) + default
  {
  }

  lemma DefaultStart(here: seq<Lexeme>, default: Option<Value>, after: seq<Lexeme>)
    requires Spells(here, DefaultTokens(default)) && Starts(after, CloseParen)
    ensures !Starts(here + after, Exclamation) && !Starts(after, Equal)
  {
    hide TokensOf;
  }

  lemma TwoRead(here: seq<Lexeme>, head: seq<Lexeme>, after: seq<Lexeme>)
    requires |head| == 2 <= |here| && Spells(here[..2], head)
    ensures var all := here[..2] + after;
            && all != [] && all[0].token == head[0].token && all[1..] != [] && all[1..][0].token == head[1].token
            && all[1..][1..] == after
  {
    assert here[..2][0].token == head[0].token && here[..2][1].token == head[1].token;
  }
}
