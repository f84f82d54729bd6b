/** Exactly which values the query parser takes, by the rules and what it asks beyond them. */
module AcceptedValues {
  import opened SourceText
  import opened GraphQlSyntax
  import opened ValueRules
  import opened SharedAnnotations

  /** Every enum value in it is among the values of the enum its annotation names. */
  ghost predicate EnumsListed(symbols: Symbols, annotations: Annotations, v: Value, t: Type)
    requires Closed(symbols, annotations.Keys) && t in annotations
    decreases v
  {
    var name := annotations[t].name;
    match v
    case EnumValue(member) => name in symbols && symbols[name].EnumType? && member in symbols[name].values
    case ListValue(values) => forall k | 0 <= k < |values| :: EnumsListed(symbols, annotations, values[k], t)
    case ObjectValue(fields) =>
      name in symbols && symbols[name].InputObjectType? ==>
        forall k | 0 <= k < |fields| && fields[k].name in symbols[name].inputFields ::
          EnumsListed(symbols, annotations, fields[k].value, symbols[name].inputFields[fields[k].name].annotation)
    case _ => true
  }

  /** No null in it stands where either of the two exclamation marks of its annotation does. */
  ghost predicate NullsKeptOut(symbols: Symbols, annotations: Annotations, v: Value, t: Type)
    requires Closed(symbols, annotations.Keys) && t in annotations
    decreases v
  {
    var name := annotations[t].name;
    match v
    case NullValue => !annotations[t].isNonNull && !annotations[t].isNonNullList
    case ListValue(values) => forall k | 0 <= k < |values| :: NullsKeptOut(symbols, annotations, values[k], t)
    case ObjectValue(fields) =>
      name in symbols && symbols[name].InputObjectType? ==>
        forall k | 0 <= k < |fields| && fields[k].name in symbols[name].inputFields ::
          NullsKeptOut(symbols, annotations, fields[k].value, symbols[name].inputFields[fields[k].name].annotation)
    case _ => true
  }

  /** No object in it leaves out a name on the list of required ones. */
  ghost predicate ListedGiven(symbols: Symbols, annotations: Annotations, v: Value, t: Type)
    requires Closed(symbols, annotations.Keys) && t in annotations
    decreases v
  {
    var name := annotations[t].name;
    match v
    case ListValue(values) => forall k | 0 <= k < |values| :: ListedGiven(symbols, annotations, values[k], t)
    case ObjectValue(fields) =>
      name in symbols && symbols[name].InputObjectType? ==>
        && (forall f | f in symbols[name].requiredFields :: exists k | 0 <= k < |fields| :: fields[k].name == f)
        && forall k | 0 <= k < |fields| && fields[k].name in symbols[name].inputFields ::
             ListedGiven(symbols, annotations, fields[k].value, symbols[name].inputFields[fields[k].name].annotation)
    case _ => true
  }

  // The same but for the flags that are cleared inside lists.
  ghost predicate SameButLists(declared: Annotations, now: Annotations) {
    declared.Keys == now.Keys && forall u | u in declared :: now[u] == declared[u].(isListType := now[u].isListType)
  }

  /** The one-pass check of queries is the two-pass check of schemas and these three conditions, for all
      type graphs: those also in which a list is met again inside itself. */
  lemma {:induction false} AcceptsBeyondPasses(symbols: Symbols, declared: Annotations, strict: Annotations,
                                               loose: Annotations, v: Value, t: Type)
    requires Closed(symbols, declared.Keys) && SameButLists(declared, strict) && Looser(strict, loose)
    requires RequiredRecorded(symbols, declared) && InputsOnly(symbols, declared)
    requires t in declared && NamesInput(symbols, declared[t]) && Complete(v)
    ensures Accepts(symbols, strict, v, t) <==>
            && Passes(symbols, loose, v, t) && EnumsListed(symbols, declared, v, t)
            && NullsKeptOut(symbols, declared, v, t) && ListedGiven(symbols, declared, v, t)
    decreases v, 1
  {
    hide LeafFits, RequiredRecorded, InputsOnly, Closed;
    LeafBeyondPasses(strict[t], loose[t], v);
    match v
    case ListValue(values) =>
      ElementsBeyondPasses(symbols, declared, strict, loose, values, t);
    case ObjectValue(fields) =>
      if strict[t].base == TObject && !strict[t].isListType {
        ObjectBeyondPasses(symbols, declared, strict, loose, fields, t);
      }
    case _ =>
  }

  lemma {:induction false} ElementsBeyondPasses(symbols: Symbols, declared: Annotations, strict: Annotations,
                                                loose: Annotations, values: seq<Value>, t: Type)
    requires Closed(symbols, declared.Keys) && SameButLists(declared, strict) && Looser(strict, loose)
    requires RequiredRecorded(symbols, declared) && InputsOnly(symbols, declared)
    requires t in declared && NamesInput(symbols, declared[t]) && Complete(ListValue(values))
    ensures var v := ListValue(values);
            Accepts(symbols, strict, v, t) <==>
            && Passes(symbols, loose, v, t) && EnumsListed(symbols, declared, v, t)
            && NullsKeptOut(symbols, declared, v, t) && ListedGiven(symbols, declared, v, t)
    decreases values, 0
  {
    hide LeafFits, RequiredRecorded, InputsOnly, Closed, NamesInput, NamesFit, NamesAccepted, IsEnumMember;
    var inStrict := strict[t := strict[t].(isListType := false)];
    var inLoose := loose[t := loose[t].Element()];
    assert inStrict.Keys == declared.Keys && inLoose.Keys == declared.Keys;
    forall k | 0 <= k < |values|
      ensures Accepts(symbols, inStrict, values[k], t) <==>
              && Passes(symbols, inLoose, values[k], t) && EnumsListed(symbols, declared, values[k], t)
              && NullsKeptOut(symbols, declared, values[k], t) && ListedGiven(symbols, declared, values[k], t)
    {
      AcceptsBeyondPasses(symbols, declared, inStrict, inLoose, values[k], t);
    }
  }

  // A value with no parts is judged alike but for null.
  lemma LeafBeyondPasses(strict: TypeInfo, loose: TypeInfo, v: Value)
    requires loose == strict || loose == strict.(isNonNullList := false)
    ensures !v.NullValue? ==> LeafFits(v, strict) == LeafFits(v, loose)
    ensures v.NullValue? && !strict.IsRequired() ==> LeafFits(v, loose)
  {
  }

  lemma {:induction false} ObjectBeyondPasses(symbols: Symbols, declared: Annotations, strict: Annotations,
                                              loose: Annotations, fields: seq<ObjectField>, t: Type)
    requires Closed(symbols, declared.Keys) && SameButLists(declared, strict) && Looser(strict, loose)
    requires RequiredRecorded(symbols, declared) && InputsOnly(symbols, declared)
    requires t in declared && NamesInput(symbols, declared[t]) && Complete(ObjectValue(fields))
    requires strict[t].base == TObject && !strict[t].isListType
    ensures var v := ObjectValue(fields);
            Accepts(symbols, strict, v, t) <==>
            && Passes(symbols, loose, v, t) && EnumsListed(symbols, declared, v, t)
            && NullsKeptOut(symbols, declared, v, t) && ListedGiven(symbols, declared, v, t)
    decreases fields, 0
  {
    var inputFields := symbols[declared[t].name].inputFields;
    forall k | 0 <= k < |fields| && fields[k].name in inputFields
      ensures var u := inputFields[fields[k].name].annotation;
              Accepts(symbols, strict, fields[k].value, u) <==>
              && Passes(symbols, loose, fields[k].value, u) && EnumsListed(symbols, declared, fields[k].value, u)
              && NullsKeptOut(symbols, declared, fields[k].value, u)
              && ListedGiven(symbols, declared, fields[k].value, u)
    {
      AcceptsBeyondPasses(symbols, declared, strict, loose, fields[k].value, inputFields[fields[k].name].annotation);
    }
  }

  /** On a type whose flags do no harm, a complete value is accepted if and only if it conforms, its enum
      values are members of their enums, no null stands where either non-null flag is set and no name on
      a list of required ones is left out, through lists and input objects at every depth. */
  lemma AcceptedExactly(symbols: Symbols, annotations: Annotations, v: Value, t: Type)
    requires Closed(symbols, annotations.Keys) && Harmless(symbols, annotations, t)
    requires RequiredRecorded(symbols, annotations) && Complete(v)
    ensures Accepts(symbols, annotations, v, t) <==>
            && Conforms(symbols, annotations, v, annotations[t]) && EnumsListed(symbols, annotations, v, t)
            && NullsKeptOut(symbols, annotations, v, t) && ListedGiven(symbols, annotations, v, t)
  {
    AcceptsBeyondPasses(symbols, annotations, annotations, annotations, v, t);
    SharedFlagsAreHarmless(symbols, annotations, v, t);
  }

  // The lists of required names hold the required fields and nothing else.
  ghost predicate RecordedExactly(symbols: Symbols, annotations: Annotations)
    requires Closed(symbols, annotations.Keys)
  {
    forall name | name in symbols && symbols[name].InputObjectType? ::
      forall f :: f in symbols[name].requiredFields <==>
                  f in symbols[name].inputFields && annotations[symbols[name].inputFields[f].annotation].IsRequired()
  }

  // What conforms then leaves out none of them.
  lemma {:induction false} ConformingGivesListed(symbols: Symbols, annotations: Annotations, v: Value, t: Type,
                                                 info: TypeInfo)
    requires Closed(symbols, annotations.Keys) && RecordedExactly(symbols, annotations)
    requires t in annotations && info.name == annotations[t].name && Conforms(symbols, annotations, v, info)
    ensures ListedGiven(symbols, annotations, v, t)
    decreases v
  {
    match v
    case ListValue(values) =>
      forall k | 0 <= k < |values| ensures ListedGiven(symbols, annotations, values[k], t) {
        ConformingGivesListed(symbols, annotations, values[k], t, info.Element());
      }
    case ObjectValue(fields) =>
      var inputFields := symbols[info.name].inputFields;
      forall k | 0 <= k < |fields|
        ensures ListedGiven(symbols, annotations, fields[k].value, inputFields[fields[k].name].annotation)
      {
        var u := inputFields[fields[k].name].annotation;
        ConformingGivesListed(symbols, annotations, fields[k].value, u, annotations[u]);
      }
      forall f | f in symbols[info.name].requiredFields ensures exists k | 0 <= k < |fields| :: fields[k].name == f {
        assert HasField(fields, f);
      }
    case _ =>
  }

  /** Where just the required fields are recorded, two conditions are left. */
  lemma AcceptedWhereRecorded(symbols: Symbols, annotations: Annotations, v: Value, t: Type)
    requires Closed(symbols, annotations.Keys) && Harmless(symbols, annotations, t)
    requires RecordedExactly(symbols, annotations) && Complete(v)
    ensures Accepts(symbols, annotations, v, t) <==>
            && Conforms(symbols, annotations, v, annotations[t])
            && EnumsListed(symbols, annotations, v, t) && NullsKeptOut(symbols, annotations, v, t)
  {
    hide Accepts, Conforms, EnumsListed, NullsKeptOut, ListedGiven, Complete, InputsOnly, NoListHoldsItself;
    assert RequiredRecorded(symbols, annotations);
    AcceptedExactly(symbols, annotations, v, t);
    if Conforms(symbols, annotations, v, annotations[t]) {
      ConformingGivesListed(symbols, annotations, v, t, annotations[t]);
    }
  }
}
