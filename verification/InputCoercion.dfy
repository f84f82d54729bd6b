/**
 Input coercion as the GraphQL specification, June 2018, defines it (sections 3.5, 3.9 to 3.12 and
 5.6), and how far the rules of the checkers are from it.
 */
module InputCoercion {
  import opened SourceText
  import opened GraphQlSyntax
  import opened ValueRules
  import opened SharedAnnotations

  // Section 3.5.1: a number that 32 bits can represent.
  predicate IsInt32(n: int) {
    -0x8000_0000 <= n < 0x8000_0000
  }

  // Section 3.12: the outermost exclamation mark.
  predicate IsNonNullType(info: TypeInfo) {
    info.isNonNullList || (info.isNonNull && !info.isListType)
  }

  /** The value can be coerced to the type. An integer is a float (3.5.2) and an identifier (3.5.5),
      a single item is a list of one (3.11), an enum value is a member of its type (3.9), and an
      input object (3.10) has no unknown field (5.6.2), none twice (5.6.3), and every field of
      non-null type (5.6.4). */
  ghost predicate Coercible(symbols: Symbols, annotations: Annotations, v: Value, info: TypeInfo)
    requires Closed(symbols, annotations.Keys)
    decreases v, if info.isListType then 1 else 0
  {
    if v.NullValue? then !IsNonNullType(info)
    else if info.isListType then
      if v.ListValue? then forall k | 0 <= k < |v.values| ::
        Coercible(symbols, annotations, v.values[k], info.Element())
      else Coercible(symbols, annotations, v, info.Element())
    else
      match info.base
      case TInt => v.IntValue? && IsInt32(v.number)
      case TFloat => v.FloatValue? || v.IntValue?
      case TString => v.StringValue?
      case TBoolean => v.BooleanValue?
      case TID => v.StringValue? || v.IntValue?
      case TEnum =>
        && v.EnumValue? && info.name in symbols && symbols[info.name].EnumType?
        && v.name in symbols[info.name].values
      case TObject =>
        && v.ObjectValue? && info.name in symbols && symbols[info.name].InputObjectType?
        && var declared := symbols[info.name].inputFields;
           && (forall j, k | 0 <= j < k < |v.fields| :: v.fields[j].name != v.fields[k].name)
           && (forall k | 0 <= k < |v.fields| ::
                 && v.fields[k].name in declared
                 && Coercible(symbols, annotations, v.fields[k].value,
                              annotations[declared[v.fields[k].name].annotation]))
           && (forall f | f in declared && IsNonNullType(annotations[declared[f].annotation]) ::
                 exists k | 0 <= k < |v.fields| :: v.fields[k].name == f)
  }

  /** The value makes no use of what the checkers refuse: an integer for a float, a single item for
      a list, and leaving out a nullable list of non-null items. */
  ghost predicate Plain(symbols: Symbols, annotations: Annotations, v: Value, info: TypeInfo)
    requires Closed(symbols, annotations.Keys)
    decreases v
  {
    match v
    case NullValue => true
    case ListValue(values) =>
      info.isListType ==> forall k | 0 <= k < |values| :: Plain(symbols, annotations, values[k], info.Element())
    case IntValue(_) => !info.isListType && info.base != TFloat
    case ObjectValue(fields) =>
      && !info.isListType
      && var declared := FieldsOf(symbols, info);
         && (forall f | f in declared && annotations[declared[f].annotation].IsRequired() :: HasField(fields, f))
         && forall k | 0 <= k < |fields| && fields[k].name in declared ::
              Plain(symbols, annotations, fields[k].value, annotations[declared[fields[k].name].annotation])
    case _ => !info.isListType
  }

  /** What the rules of the checkers leave open: enum values are members of their types. */
  ghost predicate NamesKnown(symbols: Symbols, annotations: Annotations, v: Value, info: TypeInfo)
    requires Closed(symbols, annotations.Keys)
    decreases v
  {
    match v
    case EnumValue(name) => info.base == TEnum ==> IsEnumMember(symbols, info, name)
    case ListValue(values) => forall k | 0 <= k < |values| ::
      NamesKnown(symbols, annotations, values[k], info.Element())
    case ObjectValue(fields) =>
      var declared := FieldsOf(symbols, info);
      forall k | 0 <= k < |fields| && fields[k].name in declared ::
        NamesKnown(symbols, annotations, fields[k].value, annotations[declared[fields[k].name].annotation])
    case _ => true
  }

  /** And integers can be represented. */
  ghost predicate IntsFit(symbols: Symbols, annotations: Annotations, v: Value, info: TypeInfo)
    requires Closed(symbols, annotations.Keys)
    decreases v
  {
    match v
    case IntValue(n) => info.base == TInt ==> IsInt32(n)
    case ListValue(values) => forall k | 0 <= k < |values| :: IntsFit(symbols, annotations, values[k], info.Element())
    case ObjectValue(fields) =>
      var declared := FieldsOf(symbols, info);
      forall k | 0 <= k < |fields| && fields[k].name in declared ::
        IntsFit(symbols, annotations, fields[k].value, annotations[declared[fields[k].name].annotation])
    case _ => true
  }

  lemma {:induction false} ConformingIsPlain(symbols: Symbols, annotations: Annotations, v: Value, info: TypeInfo)
    requires Closed(symbols, annotations.Keys) && Conforms(symbols, annotations, v, info)
    ensures Plain(symbols, annotations, v, info)
    decreases v
  {
    match v
    case ListValue(values) =>
      forall k | 0 <= k < |values| ensures Plain(symbols, annotations, values[k], info.Element()) {
        ConformingIsPlain(symbols, annotations, values[k], info.Element());
      }
    case ObjectValue(fields) =>
      var declared := symbols[info.name].inputFields;
      forall k | 0 <= k < |fields|
        ensures Plain(symbols, annotations, fields[k].value, annotations[declared[fields[k].name].annotation])
      {
        ConformingIsPlain(symbols, annotations, fields[k].value, annotations[declared[fields[k].name].annotation]);
      }
    case _ =>
  }

  lemma {:induction false} CoercibleIsKnown(symbols: Symbols, annotations: Annotations, v: Value, info: TypeInfo)
    requires Closed(symbols, annotations.Keys) && Coercible(symbols, annotations, v, info)
    ensures NamesKnown(symbols, annotations, v, info) && IntsFit(symbols, annotations, v, info) && Complete(v)
    decreases v, if info.isListType then 1 else 0
  {
    if info.isListType && !v.ListValue? && !v.NullValue? {
      CoercibleIsKnown(symbols, annotations, v, info.Element());
      assert FieldsOf(symbols, info) == FieldsOf(symbols, info.Element());
    } else {
      match v
      case ListValue(values) =>
        forall k | 0 <= k < |values|
          ensures NamesKnown(symbols, annotations, values[k], info.Element())
          ensures IntsFit(symbols, annotations, values[k], info.Element()) && Complete(values[k])
        {
          CoercibleIsKnown(symbols, annotations, values[k], info.Element());
        }
      case ObjectValue(fields) =>
        var declared := symbols[info.name].inputFields;
        forall k | 0 <= k < |fields|
          ensures var below := annotations[declared[fields[k].name].annotation];
                  && NamesKnown(symbols, annotations, fields[k].value, below)
                  && IntsFit(symbols, annotations, fields[k].value, below) && Complete(fields[k].value)
        {
          CoercibleIsKnown(symbols, annotations, fields[k].value, annotations[declared[fields[k].name].annotation]);
        }
      case _ =>
    }
  }

  /** Where the checkers' rules and the specification part: of the values that conform, the
      specification refuses exactly those with an unknown enum value or an integer out of range;
      of those it coerces, the checkers refuse exactly those that are not plain. */
  lemma {:induction false} CoercionGap(symbols: Symbols, annotations: Annotations, v: Value, info: TypeInfo)
    requires Closed(symbols, annotations.Keys)
    ensures Conforms(symbols, annotations, v, info) ==>
              (Coercible(symbols, annotations, v, info) <==>
               NamesKnown(symbols, annotations, v, info) && IntsFit(symbols, annotations, v, info))
    ensures Coercible(symbols, annotations, v, info) ==>
              (Conforms(symbols, annotations, v, info) <==> Plain(symbols, annotations, v, info))
  {
    if Conforms(symbols, annotations, v, info) {
      ConformingIsPlain(symbols, annotations, v, info);
      if NamesKnown(symbols, annotations, v, info) && IntsFit(symbols, annotations, v, info) {
        ConformingCoerces(symbols, annotations, v, info);
      }
    }
    if Coercible(symbols, annotations, v, info) {
      CoercibleIsKnown(symbols, annotations, v, info);
      if Plain(symbols, annotations, v, info) {
        PlainConforms(symbols, annotations, v, info);
      }
    }
  }

  lemma {:induction false} ConformingCoerces(symbols: Symbols, annotations: Annotations, v: Value, info: TypeInfo)
    requires Closed(symbols, annotations.Keys) && Conforms(symbols, annotations, v, info)
    requires NamesKnown(symbols, annotations, v, info) && IntsFit(symbols, annotations, v, info)
    ensures Coercible(symbols, annotations, v, info)
    decreases v
  {
    match v
    case ListValue(values) =>
      forall k | 0 <= k < |values| ensures Coercible(symbols, annotations, values[k], info.Element()) {
        ConformingCoerces(symbols, annotations, values[k], info.Element());
      }
    case ObjectValue(fields) =>
      var declared := symbols[info.name].inputFields;
      forall k | 0 <= k < |fields|
        ensures Coercible(symbols, annotations, fields[k].value, annotations[declared[fields[k].name].annotation])
      {
        ConformingCoerces(symbols, annotations, fields[k].value, annotations[declared[fields[k].name].annotation]);
      }
    case _ =>
  }

  lemma {:induction false} PlainConforms(symbols: Symbols, annotations: Annotations, v: Value, info: TypeInfo)
    requires Closed(symbols, annotations.Keys)
    requires Coercible(symbols, annotations, v, info) && Plain(symbols, annotations, v, info)
    ensures Conforms(symbols, annotations, v, info)
    decreases v
  {
    match v
    case ListValue(values) =>
      forall k | 0 <= k < |values| ensures Conforms(symbols, annotations, values[k], info.Element()) {
        PlainConforms(symbols, annotations, values[k], info.Element());
      }
    case ObjectValue(fields) =>
      var declared := symbols[info.name].inputFields;
      forall k | 0 <= k < |fields|
        ensures Conforms(symbols, annotations, fields[k].value, annotations[declared[fields[k].name].annotation])
      {
        PlainConforms(symbols, annotations, fields[k].value, annotations[declared[fields[k].name].annotation]);
      }
    case _ =>
  }

  // The query parser does look enum values up.
  lemma {:induction false} AcceptedNamesKnown(symbols: Symbols, declared: Annotations, now: Annotations, v: Value,
                                              t: Type, info: TypeInfo)
    requires Closed(symbols, declared.Keys) && SameNames(declared, now) && t in declared
    requires info.base == declared[t].base && info.name == declared[t].name && Accepts(symbols, now, v, t)
    ensures NamesKnown(symbols, declared, v, info)
    decreases v
  {
    match v
    case ListValue(values) =>
      var inside := now[t := now[t].(isListType := false)];
      forall k | 0 <= k < |values| ensures NamesKnown(symbols, declared, values[k], info.Element()) {
        AcceptedNamesKnown(symbols, declared, inside, values[k], t, info.Element());
      }
    case ObjectValue(fields) =>
      var inputFields := symbols[info.name].inputFields;
      forall k | 0 <= k < |fields|
        ensures NamesKnown(symbols, declared, fields[k].value, declared[inputFields[fields[k].name].annotation])
      {
        var u := inputFields[fields[k].name].annotation;
        AcceptedNamesKnown(symbols, declared, now, fields[k].value, u, declared[u]);
      }
    case _ =>
  }

  /** A value that the query parser accepts meets the specification exactly when no part of it is
      missing and its integers can be represented. */
  lemma AcceptedCoerces(symbols: Symbols, annotations: Annotations, v: Value, t: Type)
    requires Closed(symbols, annotations.Keys) && RequiredRecorded(symbols, annotations) &&
             Harmless(symbols, annotations, t)
    requires Accepts(symbols, annotations, v, t)
    ensures Coercible(symbols, annotations, v, annotations[t]) <==>
            Complete(v) && IntsFit(symbols, annotations, v, annotations[t])
    ensures Complete(v) <==> Conforms(symbols, annotations, v, annotations[t])
  {
    QueryCheckIsStricter(symbols, annotations, v, t);
    SharedFlagsAreHarmless(symbols, annotations, v, t);
    AcceptedNamesKnown(symbols, annotations, annotations, v, t, annotations[t]);
    CoercionGap(symbols, annotations, v, annotations[t]);
    if Coercible(symbols, annotations, v, annotations[t]) {
      CoercibleIsKnown(symbols, annotations, v, annotations[t]);
    }
  }
}
