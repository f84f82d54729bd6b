/**
 When a value is acceptable for a type annotation: by the rules on values alone, and by
 what a checker does that clears the flags of shared annotations on its way down.
 */
module ValueRules {
  import opened SourceText
  import opened GraphQlSyntax

  // The rules for a value with no parts.
  predicate LeafFits(v: Value, info: TypeInfo) {
    match v
    case NullValue => info.TakesNull()
    case BooleanValue(_) => info.base == TBoolean && !info.isListType
    case IntValue(_) => info.base.TakesIntegers() && !info.isListType
    case FloatValue(_) => info.base == TFloat && !info.isListType
    case EnumValue(_) => info.base == TEnum && !info.isListType
    case StringValue(_) => info.base.TakesStrings() && !info.isListType
    case _ => false
  }

  predicate DistinctNames(fields: seq<ObjectField>) {
    forall j, k | 0 <= j < k < |fields| :: fields[j].name != fields[k].name
  }

  predicate HasField(fields: seq<ObjectField>, name: string) {
    exists k | 0 <= k < |fields| :: fields[k].name == name
  }

  // The names of an object value: no duplicates, each one declared, no required one missing.
  ghost predicate NamesFit(fields: seq<ObjectField>, declared: map<string, InputField>, annotations: Annotations)
    requires forall f | f in declared :: declared[f].annotation in annotations
  {
    && DistinctNames(fields)
    && (forall k | 0 <= k < |fields| :: fields[k].name in declared)
    && (forall f | f in declared && annotations[declared[f].annotation].IsRequired() :: HasField(fields, f))
  }

  /** The value conforms to a type by the rules that the checkers share, with the annotations as they
      were declared. How far these are from input coercion, see `InputCoercion`. */
  ghost predicate Conforms(symbols: Symbols, annotations: Annotations, v: Value, info: TypeInfo)
    requires Closed(symbols, annotations.Keys)
    decreases v
  {
    match v
    case ListValue(values) =>
      info.isListType && forall k | 0 <= k < |values| :: Conforms(symbols, annotations, values[k], info.Element())
    case ObjectValue(fields) =>
      && info.base == TObject && !info.isListType
      && info.name in symbols && symbols[info.name].InputObjectType?
      && var declared := symbols[info.name].inputFields;
         && NamesFit(fields, declared, annotations)
         && forall k | 0 <= k < |fields| ::
              Conforms(symbols, annotations, fields[k].value, annotations[declared[fields[k].name].annotation])
    case _ => LeafFits(v, info)
  }

  /** The value passes a checker that, while it is inside a list, has cleared the list flags of
      the one annotation every use of that type shares. */
  ghost predicate Passes(symbols: Symbols, annotations: Annotations, v: Value, t: Type)
    requires Closed(symbols, annotations.Keys) && t in annotations
    decreases v
  {
    var info := annotations[t];
    match v
    case ListValue(values) =>
      && info.isListType
      && var inside := annotations[t := info.Element()];
         forall k | 0 <= k < |values| :: Passes(symbols, inside, values[k], t)
    case ObjectValue(fields) =>
      && info.base == TObject && !info.isListType
      && info.name in symbols
      && (symbols[info.name].InputObjectType? ==>
            var declared := symbols[info.name].inputFields;
            && NamesFit(fields, declared, annotations)
            && forall k | 0 <= k < |fields| ::
                 fields[k].name in declared &&
                 Passes(symbols, annotations, fields[k].value, declared[fields[k].name].annotation))
    case _ => LeafFits(v, info)
  }

  // The value an enum annotation names among the values of its declaration.
  predicate IsEnumMember(symbols: Symbols, info: TypeInfo, name: string) {
    info.name in symbols && symbols[info.name].EnumType? && name in symbols[info.name].values
  }

  // What the query parser asks of the names of an object value: the required fields are those
  // recorded when the input object was declared.
  ghost predicate NamesAccepted(fields: seq<ObjectField>, declared: map<string, InputField>, required: seq<string>) {
    && DistinctNames(fields)
    && (forall k | 0 <= k < |fields| :: fields[k].name in declared)
    && (forall f | f in required :: HasField(fields, f))
  }

  /** The query parser takes the value without a diagnostic. It clears only the list flag on its
      way down, refuses null wherever either non-null flag is set, wants enum members that
      exist, and overlooks a field whose value is a closing bracket. */
  ghost predicate Accepts(symbols: Symbols, annotations: Annotations, v: Value, t: Type)
    requires Closed(symbols, annotations.Keys) && t in annotations
    decreases v
  {
    var info := annotations[t];
    match v
    case NoValue => true
    case NullValue => !info.IsRequired()
    case EnumValue(name) => LeafFits(v, info) && IsEnumMember(symbols, info, name)
    case ListValue(values) =>
      && info.isListType
      && var inside := annotations[t := info.(isListType := false)];
         forall k | 0 <= k < |values| :: Accepts(symbols, inside, values[k], t)
    case ObjectValue(fields) =>
      && info.base == TObject && !info.isListType
      && info.name in symbols && symbols[info.name].InputObjectType?
      && var declared := symbols[info.name].inputFields;
         && NamesAccepted(fields, declared, symbols[info.name].requiredFields)
         && forall k | 0 <= k < |fields| ::
              Accepts(symbols, annotations, fields[k].value, declared[fields[k].name].annotation)
    case _ => LeafFits(v, info)
  }

  // No part of the value is missing.
  predicate Complete(v: Value) {
    match v
    case NoValue => false
    case ListValue(values) => forall k | 0 <= k < |values| :: Complete(values[k])
    case ObjectValue(fields) => forall k | 0 <= k < |fields| :: Complete(fields[k].value)
    case _ => true
  }

  // Every declared field with a non-null flag is on its input object's list.
  ghost predicate RequiredRecorded(symbols: Symbols, annotations: Annotations)
    requires Closed(symbols, annotations.Keys)
  {
    forall name | name in symbols && symbols[name].InputObjectType? ::
      forall f | f in symbols[name].inputFields && annotations[symbols[name].inputFields[f].annotation].IsRequired() ::
        f in symbols[name].requiredFields
  }

  // The flags a schema check sees where a query check sees the first ones.
  ghost predicate Looser(strict: Annotations, loose: Annotations) {
    && strict.Keys == loose.Keys
    && forall t | t in strict ::
         loose[t] == strict[t] || loose[t] == strict[t].(isNonNullList := false)
  }

  lemma {:induction false} AcceptedPasses(symbols: Symbols, strict: Annotations, loose: Annotations, v: Value, t: Type)
    requires Closed(symbols, strict.Keys) && Looser(strict, loose) && RequiredRecorded(symbols, strict)
    requires t in strict && Accepts(symbols, strict, v, t)
    ensures Passes(symbols, loose, v, t) <==> Complete(v)
    decreases v
  {
    match v
    case ListValue(values) =>
      var inStrict := strict[t := strict[t].(isListType := false)];
      var inLoose := loose[t := loose[t].Element()];
      forall k | 0 <= k < |values| ensures Passes(symbols, inLoose, values[k], t) <==> Complete(values[k]) {
        AcceptedPasses(symbols, inStrict, inLoose, values[k], t);
      }
    case ObjectValue(fields) =>
      var declared := symbols[strict[t].name].inputFields;
      forall k | 0 <= k < |fields|
        ensures Passes(symbols, loose, fields[k].value, declared[fields[k].name].annotation) <==>
                  Complete(fields[k].value)
      {
        AcceptedPasses(symbols, strict, loose, fields[k].value, declared[fields[k].name].annotation);
      }
    case _ =>
  }

  /** The one-pass check of queries is never looser than the two-pass check of schemas, for
      all type graphs, also those in which a list is met again inside itself: a value it takes
      passes exactly when no field of it was left without a value. */
  lemma QueryCheckIsStricter(symbols: Symbols, annotations: Annotations, v: Value, t: Type)
    requires Closed(symbols, annotations.Keys) && RequiredRecorded(symbols, annotations)
    requires t in annotations && Accepts(symbols, annotations, v, t)
    ensures Passes(symbols, annotations, v, t) <==> Complete(v)
  {
    AcceptedPasses(symbols, annotations, annotations, v, t);
  }
}
