/** The checks of a parsed schema: values, implementations and recursive directives. */
module SchemaChecking {
  import opened SourceText
  import opened GraphQlSyntax
  import opened ValueRules
  import opened DeclarationRules
  import opened SchemaReferences
  import opened Diagnostics
  import opened ValuePrinting

  class SchemaChecker {
    const symbols: Symbols
    ghost const types: set<Type>
    var diagnostics: seq<Diagnostic>

    constructor (symbols: Symbols, ghost types: set<Type>)
      ensures this.symbols == symbols && this.types == types && diagnostics == []
    {
      this.symbols := symbols;
      this.types := types;
      diagnostics := [];
    }

    // What the annotations contain at this moment.
    ghost function Now(): (annotations: Annotations)
      reads types
      ensures annotations.Keys == types
    {
      Snapshot(types)
    }

    method AddDiagnostic(diagnostic: Diagnostic)
      modifies `diagnostics
      ensures diagnostics == old(diagnostics) + [diagnostic]
    {
      diagnostics := diagnostics + [diagnostic];
    }

    // Reports a value that does not fit; printing it for the message may go wrong.
    method RejectValue(value: Value) returns (ending: Ending)
      modifies `diagnostics
      ensures ending.Returned? <==> Printable(value)
      ensures ending.FollowedNull? <==> MeetsNull(value)
      ensures diagnostics == if ending.Returned? then old(diagnostics) + [ValueNotAssignable] else old(diagnostics)
    {
      var printed := GetValueString(value);
      match printed
      case Text(_) =>
        AddDiagnostic(ValueNotAssignable);
        ending := Returned;
      case Throws => ending := Threw;
      case FollowsNull => ending := FollowedNull;
    }

    /** Checks a value against an annotation. The check returns without a diagnostic exactly when
        the value passes; if it returns, every annotation is as before. It follows a null pointer
        only if a part of the value is missing, and does so where the first field of an input
        object has no value. */
    method CheckValue(value: Value, t: Type) returns (ending: Ending)
      requires t in types && Closed(symbols, types)
      modifies `diagnostics, types`isListType, types`isNonNullList
      ensures old(diagnostics) <= diagnostics
      ensures ending.Returned? ==> Now() == old(Now())
      ensures ending.Returned? && diagnostics == old(diagnostics) <==> Passes(symbols, old(Now()), value, t)
      ensures ending.FollowedNull? ==> !Complete(value)
      ensures value.NoValue? || StartsWithHole(symbols, old(t.Info()), value) ==> ending.FollowedNull?
      decreases value, 1
    {
      match value
      case NoValue =>
        ending := FollowedNull;
      case NullValue =>
        ending := Returned;
        if !t.Info().TakesNull() {
          AddDiagnostic(ValueNotAssignable);
        }
      case ListValue(values) =>
        NullIsMissing(value);
        if !t.isListType {
          ending := RejectValue(value);
        } else {
          ending := CheckElements(values, t);
        }
      case ObjectValue(fields) =>
        NullIsMissing(value);
        if t.base != TObject || t.isListType {
          ending := RejectValue(value);
        } else {
          ending := CheckInputObject(fields, t);
        }
      case BooleanValue(_) =>
        ending := CheckLeaf(value, t);
      case IntValue(_) =>
        ending := CheckLeaf(value, t);
      case FloatValue(_) =>
        ending := CheckLeaf(value, t);
      case EnumValue(_) =>
        ending := CheckLeaf(value, t);
      case StringValue(_) =>
        ending := CheckLeaf(value, t);
    }

    method CheckLeaf(value: Value, t: Type) returns (ending: Ending)
      requires value.BooleanValue? || value.IntValue? || value.FloatValue? || value.EnumValue? || value.StringValue?
      modifies `diagnostics
      ensures ending.Returned?
      ensures diagnostics ==
                if LeafFits(value, t.Info()) then old(diagnostics) else old(diagnostics) + [ValueNotAssignable]
    {
      ending := Returned;
      if !LeafFits(value, t.Info()) {
        ending := RejectValue(value);
      }
    }

    lemma FlagsNow(t: Type)
      requires t in types
      ensures Now()[t].isListType == t.isListType && Now()[t].isNonNullList == t.isNonNullList
    {
    }

    method SetListFlags(t: Type, isListType: bool, isNonNullList: bool)
      requires t in types
      modifies t`isListType, t`isNonNullList
      ensures Now() == old(Now())[t := old(Now())[t].(isListType := isListType, isNonNullList := isNonNullList)]
    {
      t.isListType := isListType;
      t.isNonNullList := isNonNullList;
    }

    // The list flags are cleared while the elements are checked against the same annotation.
    method CheckElements(values: seq<Value>, t: Type) returns (ending: Ending)
      requires t in types && t.isListType && Closed(symbols, types)
      modifies `diagnostics, types`isListType, types`isNonNullList
      ensures old(diagnostics) <= diagnostics
      ensures ending.Returned? ==> Now() == old(Now())
      ensures ending.Returned? && diagnostics == old(diagnostics) <==>
                var inside := old(Now())[t := old(Now())[t].Element()];
                forall k | 0 <= k < |values| :: Passes(symbols, inside, values[k], t)
      ensures ending.FollowedNull? ==> !Complete(ListValue(values))
      decreases values, 0
    {
      hide Snapshot, Passes, Closed;
      ghost var before := Now();
      var isNonNullList := t.isNonNullList;
      FlagsNow(t);
      SetListFlags(t, false, false);
      ghost var inside := before[t := before[t].Element()];
      for i := 0 to |values|
        invariant old(diagnostics) <= diagnostics
        invariant Now() == inside
        invariant diagnostics == old(diagnostics) <==>
                  forall k | 0 <= k < i :: Passes(symbols, inside, values[k], t)
      {
        ending := CheckValue(values[i], t);
        if !ending.Returned? {
          return;
        }
      }
      SetListFlags(t, true, isNonNullList);
      ending := Returned;
    }

    // A duplicate has already been reported where the field stands.
    predicate HasDuplicateReport(field: ObjectField)
      reads `diagnostics
    {
      exists d | d in diagnostics :: d.DuplicateField? && d.start == field.start && d.end == field.end
    }

    method ReportDuplicate(field: ObjectField, first: ObjectField)
      modifies `diagnostics
      ensures old(diagnostics) < diagnostics
    {
      AddDiagnostic(DuplicateField(field.name, field.start, field.end));
      if !HasDuplicateReport(first) {
        AddDiagnostic(DuplicateField(field.name, first.start, first.end));
      }
    }

    method CheckInputObject(fields: seq<ObjectField>, t: Type) returns (ending: Ending)
      requires t in types && t.base == TObject && !t.isListType && Closed(symbols, types)
      modifies `diagnostics, types`isListType, types`isNonNullList
      ensures old(diagnostics) <= diagnostics
      ensures ending.Returned? ==> Now() == old(Now())
      ensures ending.Returned? && diagnostics == old(diagnostics) <==>
                Passes(symbols, old(Now()), ObjectValue(fields), t)
      ensures ending.FollowedNull? ==> !Complete(ObjectValue(fields))
      ensures StartsWithHole(symbols, old(t.Info()), ObjectValue(fields)) ==> ending.FollowedNull?
      decreases fields, 2
    {
      ending := Returned;
      if t.name !in symbols {
        AddDiagnostic(TypeNotDefined(t.name));
        return;
      }
      if !symbols[t.name].InputObjectType? {
        return;
      }
      ending := CheckDeclaredFields(fields, symbols[t.name].inputFields);
    }

    // The fields that are there, and then, if there are fewer than declared, the missing ones.
    method CheckDeclaredFields(fields: seq<ObjectField>, declared: map<string, InputField>) returns (ending: Ending)
      requires Closed(symbols, types) && forall f | f in declared :: declared[f].annotation in types
      modifies `diagnostics, types`isListType, types`isNonNullList
      ensures old(diagnostics) <= diagnostics
      ensures ending.Returned? ==> Now() == old(Now())
      ensures ending.Returned? && diagnostics == old(diagnostics) <==>
                && NamesFit(fields, declared, old(Now()))
                && forall k | 0 <= k < |fields| ::
                     fields[k].name in declared &&
                     Passes(symbols, old(Now()), fields[k].value, declared[fields[k].name].annotation)
      ensures ending.FollowedNull? ==> !Complete(ObjectValue(fields))
      ensures fields != [] && fields[0].name in declared && fields[0].value.NoValue? ==> ending.FollowedNull?
      decreases fields, 1
    {
      hide Passes, Closed, Complete;
      var checked: map<string, ObjectField>;
      ending, checked := CheckFields(fields, declared);
      if !ending.Returned? {
        return;
      }
      ghost var clean := diagnostics == old(diagnostics);
      if |checked| < |declared| {
        ReportMissingFields(declared, checked);
      } else if clean {
        AllFieldsPresent(fields, declared, checked);
      }
    }

    // The fields that are there: each one declared, none twice, every value checked.
    method CheckFields(fields: seq<ObjectField>, declared: map<string, InputField>)
      returns (ending: Ending, checked: map<string, ObjectField>)
      requires Closed(symbols, types) && forall f | f in declared :: declared[f].annotation in types
      modifies `diagnostics, types`isListType, types`isNonNullList
      ensures old(diagnostics) <= diagnostics
      ensures ending.Returned? ==> Now() == old(Now()) && checked.Keys <= declared.Keys
      ensures ending.Returned? && diagnostics == old(diagnostics) <==>
                && DistinctNames(fields)
                && forall k | 0 <= k < |fields| ::
                     fields[k].name in declared &&
                     Passes(symbols, old(Now()), fields[k].value, declared[fields[k].name].annotation)
      ensures ending.Returned? && diagnostics == old(diagnostics) ==>
                checked.Keys == set k | 0 <= k < |fields| :: fields[k].name
      ensures ending.FollowedNull? ==> !Complete(ObjectValue(fields))
      ensures fields != [] && fields[0].name in declared && fields[0].value.NoValue? ==> ending.FollowedNull?
      decreases fields, 0
    {
      hide Snapshot, Closed;
      ghost var before := Now();
      checked := map[];
      for i := 0 to |fields|
        invariant old(diagnostics) <= diagnostics
        invariant Now() == before && checked.Keys <= declared.Keys
        invariant diagnostics == old(diagnostics) <==>
                  && DistinctNames(fields[..i])
                  && forall k | 0 <= k < i ::
                       fields[k].name in declared &&
                       Passes(symbols, before, fields[k].value, declared[fields[k].name].annotation)
        invariant i > 0 ==> !(fields[0].name in declared && fields[0].value.NoValue?)
        invariant i == 0 ==> checked == map[]
        invariant diagnostics == old(diagnostics) ==> checked.Keys == set k | 0 <= k < i :: fields[k].name
      {
        var field := fields[i];
        assert fields[..i + 1] == fields[..i] + [field];
        if field.name !in declared {
          AddDiagnostic(FieldDoesNotExist(field.name));
        } else if field.name in checked {
          ReportDuplicate(field, checked[field.name]);
        } else {
          checked := checked[field.name := field];
          ending := CheckValue(field.value, declared[field.name].annotation);
          if !ending.Returned? {
            return;
          }
        }
      }
      assert fields[..|fields|] == fields;
      ending := Returned;
    }

    method ReportMissingFields(declared: map<string, InputField>, checked: map<string, ObjectField>)
      requires forall f | f in declared :: declared[f].annotation in types
      modifies `diagnostics
      ensures old(diagnostics) <= diagnostics
      ensures diagnostics == old(diagnostics) <==>
                forall f | f in declared && declared[f].annotation.Info().IsRequired() :: f in checked
    {
      var names := declared.Keys;
      while names != {}
        invariant names <= declared.Keys && old(diagnostics) <= diagnostics
        invariant diagnostics == old(diagnostics) <==>
                  forall f | f in declared.Keys - names && declared[f].annotation.Info().IsRequired() :: f in checked
        decreases |names|
      {
        var name :| name in names;
        names := names - {name};
        if declared[name].annotation.Info().IsRequired() && name !in checked {
          AddDiagnostic(MissingRequiredField(name));
        }
      }
    }

    lemma NamesNow()
      ensures forall t | t in types :: Now()[t].name == t.name
    {
    }

    /** Resolves the annotations that go by a name: no diagnostic exactly when every name is that of
        a type for its place. Those of enums get enum kind, all others stay as they are. */
    method CheckForwardReferences(references: seq<ForwardReference>)
      requires forall r | r in references :: r.annotation in types
      modifies `diagnostics, types`base
      ensures old(diagnostics) <= diagnostics
      ensures diagnostics == old(diagnostics) <==> AllPlacedRight(symbols, old(Now()), references)
      ensures Now() == Resolved(symbols, old(Now()), references)
    {
      hide PlacedRight, AsResolved, Snapshot;
      ghost var before := Now();
      NamesNow();
      for i := 0 to |references|
        invariant old(diagnostics) <= diagnostics
        invariant diagnostics == old(diagnostics) <==> AllPlacedRight(symbols, before, references[..i])
        invariant Now() == Resolved(symbols, before, references[..i])
      {
        assert references[..i + 1] == references[..i] + [references[i]];
        OneMoreResolved(symbols, before, references[..i], references[i]);
        CheckForwardReference(references[i]);
      }
      assert references[..|references|] == references;
    }

    method CheckForwardReference(reference: ForwardReference)
      requires reference.annotation in types
      modifies `diagnostics, reference.annotation`base
      ensures old(diagnostics) <= diagnostics
      ensures diagnostics == old(diagnostics) <==>
                PlacedRight(symbols, reference.annotation.name, reference.inInput)
      ensures var t := reference.annotation; Now() == old(Now())[t := AsResolved(symbols, old(Now())[t])]
    {
      var name := reference.annotation.name;
      if name !in symbols {
        AddDiagnostic(TypeNotDefined(name));
      } else if symbols[name].EnumType? {
        reference.annotation.base := TEnum;
      } else if symbols[name].InputObjectType? {
        if !reference.inInput {
          AddDiagnostic(InputInOutputLocation(name));
        }
      } else if reference.inInput {
        AddDiagnostic(OutputInInputLocation(name));
      }
    }

    /** Checks that objects implement their interfaces: no diagnostic exactly when each interface
        an object names is defined and the object has all its fields, with the same types. */
    method CheckObjectImplementations(objects: seq<Declaration>, interfaces: map<string, Declaration>)
      requires forall d | d in objects :: d.ObjectType? && FieldsClosed(d, types)
      requires forall i | i in interfaces :: interfaces[i].InterfaceType? && FieldsClosed(interfaces[i], types)
      modifies `diagnostics
      ensures old(diagnostics) <= diagnostics
      ensures diagnostics == old(diagnostics) <==> forall d | d in objects :: ImplementsAll(Now(), d, interfaces)
    {
      for i := 0 to |objects|
        invariant old(diagnostics) <= diagnostics
        invariant diagnostics == old(diagnostics) <==>
                    forall d | d in objects[..i] :: ImplementsAll(Now(), d, interfaces)
      {
        assert objects[..i + 1] == objects[..i] + [objects[i]];
        CheckImplementations(objects[i], interfaces);
      }
      assert objects[..|objects|] == objects;
    }

    method CheckImplementations(object': Declaration, interfaces: map<string, Declaration>)
      requires object'.ObjectType? && FieldsClosed(object', types)
      requires forall i | i in interfaces :: interfaces[i].InterfaceType? && FieldsClosed(interfaces[i], types)
      modifies `diagnostics
      ensures old(diagnostics) <= diagnostics
      ensures diagnostics == old(diagnostics) <==> ImplementsAll(Now(), object', interfaces)
    {
      hide ImplementsNamed, Snapshot, FieldsClosed;
      var names := object'.implementations;
      ghost var done := {};
      while names != {}
        invariant names + done == object'.implementations && old(diagnostics) <= diagnostics
        invariant diagnostics == old(diagnostics) <==>
                  forall i | i in done :: ImplementsNamed(Now(), object', interfaces, i)
        decreases |names|
      {
        var name :| name in names;
        names := names - {name};
        done := done + {name};
        CheckImplementation(object', interfaces, name);
      }
    }

    method CheckImplementation(object': Declaration, interfaces: map<string, Declaration>, name: string)
      requires object'.ObjectType? && FieldsClosed(object', types)
      requires forall i | i in interfaces :: interfaces[i].InterfaceType? && FieldsClosed(interfaces[i], types)
      modifies `diagnostics
      ensures old(diagnostics) <= diagnostics
      ensures diagnostics == old(diagnostics) <==> ImplementsNamed(Now(), object', interfaces, name)
    {
      hide Implements, Snapshot, FieldsClosed;
      if name !in interfaces {
        AddDiagnostic(InterfaceNotDefined(name));
      } else {
        CheckInterfaceFields(object', interfaces[name]);
      }
    }

    // A mismatch ends the check of this interface.
    method CheckInterfaceFields(object': Declaration, interface': Declaration)
      requires object'.ObjectType? && FieldsClosed(object', types)
      requires interface'.InterfaceType? && FieldsClosed(interface', types)
      modifies `diagnostics
      ensures old(diagnostics) <= diagnostics
      ensures diagnostics == old(diagnostics) <==> Implements(Now(), object', interface')
    {
      hide FieldImplemented, Snapshot;
      var names := interface'.fields.Keys;
      while names != {}
        invariant names <= interface'.fields.Keys && old(diagnostics) <= diagnostics
        invariant diagnostics == old(diagnostics) <==>
                  forall f | f in interface'.fields.Keys - names :: FieldImplemented(Now(), object', interface', f)
        decreases |names|
      {
        var name :| name in names;
        assert interface'.fields.Keys - (names - {name}) == interface'.fields.Keys - names + {name};
        names := names - {name};
        var mismatch := CheckInterfaceField(object', interface', name);
        if mismatch {
          break;
        }
      }
    }

    method CheckInterfaceField(object': Declaration, interface': Declaration, name: string) returns (mismatch: bool)
      requires object'.ObjectType? && FieldsClosed(object', types)
      requires interface'.InterfaceType? && FieldsClosed(interface', types) && name in interface'.fields
      modifies `diagnostics
      ensures old(diagnostics) <= diagnostics && (mismatch ==> diagnostics != old(diagnostics))
      ensures diagnostics == old(diagnostics) <==> FieldImplemented(Now(), object', interface', name)
    {
      mismatch := false;
      if name !in object'.fields {
        AddDiagnostic(NotImplemented(name, interface'.name));
      } else if !SameType(object'.fields[name].annotation.Info(), interface'.fields[name].annotation.Info()) {
        AddDiagnostic(TypeMismatch(name, interface'.name));
        mismatch := true;
      }
    }

    /** Looks for a directive in an input type and everything below it. On input types without
        cycles the search ends, and it reports something exactly when the directive is there. */
    method CheckRecursiveDirectives(directive: string, name: string, ghost rank: map<string, nat>)
      requires Acyclic(symbols, Now(), rank) && name in rank && Closed(symbols, types)
      modifies `diagnostics
      ensures old(diagnostics) <= diagnostics
      ensures diagnostics == old(diagnostics) <==> !DirectiveReachable(symbols, Now(), name, directive)
      decreases rank[name], 2
    {
      hide DirectiveReachable;
      ReachableStep(symbols, Now(), name, directive);
      var declaration := symbols[name];
      if directive in declaration.directives {
        AddDiagnostic(RecursiveDirective(directive));
      }
      if declaration.InputObjectType? {
        CheckFieldDirectives(directive, name, rank);
      } else {
        CheckValueDirectives(directive, declaration.values);
      }
    }

    method CheckFieldDirectives(directive: string, name: string, ghost rank: map<string, nat>)
      requires Acyclic(symbols, Now(), rank) && name in rank && Closed(symbols, types) && symbols[name].InputObjectType?
      modifies `diagnostics
      ensures old(diagnostics) <= diagnostics
      ensures diagnostics == old(diagnostics) <==>
                forall f | f in symbols[name].inputFields ::
                  FieldFree(symbols, Now(), symbols[name].inputFields[f], directive)
      decreases rank[name], 1
    {
      hide DirectiveReachable, FieldFree;
      var declared := symbols[name].inputFields;
      var names := declared.Keys;
      while names != {}
        invariant names <= declared.Keys && old(diagnostics) <= diagnostics
        invariant diagnostics == old(diagnostics) <==>
                  forall f | f in declared.Keys - names :: FieldFree(symbols, Now(), declared[f], directive)
        decreases |names|
      {
        var f :| f in names;
        assert declared.Keys - (names - {f}) == declared.Keys - names + {f};
        names := names - {f};
        assert FieldDescends(symbols, Now(), rank, name, f);
        CheckFieldDirective(directive, declared[f], rank, rank[name]);
      }
    }

    method CheckFieldDirective(directive: string, field: InputField, ghost rank: map<string, nat>, ghost above: nat)
      requires Acyclic(symbols, Now(), rank) && Closed(symbols, types) && field.annotation in types
      requires field.annotation.base == TObject ==> field.annotation.name in rank && rank[field.annotation.name] < above
      modifies `diagnostics
      ensures old(diagnostics) <= diagnostics
      ensures diagnostics == old(diagnostics) <==> FieldFree(symbols, Now(), field, directive)
      decreases above, 0
    {
      hide DirectiveReachable;
      if directive in field.directives {
        AddDiagnostic(RecursiveDirective(directive));
      }
      if field.annotation.base == TObject {
        CheckRecursiveDirectives(directive, field.annotation.name, rank);
      }
    }

    method CheckValueDirectives(directive: string, values: map<string, set<string>>)
      modifies `diagnostics
      ensures old(diagnostics) <= diagnostics
      ensures diagnostics == old(diagnostics) <==> forall v | v in values :: directive !in values[v]
    {
      var names := values.Keys;
      while names != {}
        invariant names <= values.Keys && old(diagnostics) <= diagnostics
        invariant diagnostics == old(diagnostics) <==> forall v | v in values.Keys - names :: directive !in values[v]
        decreases |names|
      {
        var v :| v in names;
        assert values.Keys - (names - {v}) == values.Keys - names + {v};
        names := names - {v};
        if directive in values[v] {
          AddDiagnostic(RecursiveDirective(directive));
        }
      }
    }
  }

  // Neither the field carries the directive nor anything below it.
  ghost predicate FieldFree(symbols: Symbols, annotations: Annotations, field: InputField, directive: string) {
    directive !in field.directives && !ReachableByField(symbols, annotations, field, directive)
  }

  // An object for an input type whose first field is declared but has no value.
  predicate StartsWithHole(symbols: Symbols, info: TypeInfo, value: Value) {
    && value.ObjectValue? && info.base == TObject && !info.isListType
    && info.name in symbols && symbols[info.name].InputObjectType?
    && value.fields != [] && value.fields[0].name in symbols[info.name].inputFields && value.fields[0].value.NoValue?
  }

  // A null pointer is met only where a part of the value is missing.
  lemma {:induction false} NullIsMissing(value: Value)
    ensures MeetsNull(value) ==> !Complete(value)
    decreases value
  {
    match value
    case ListValue(values) =>
      forall k | 0 <= k < |values| ensures MeetsNull(values[k]) ==> !Complete(values[k]) {
        NullIsMissing(values[k]);
      }
    case ObjectValue(fields) =>
      forall k | 0 <= k < |fields| ensures MeetsNull(fields[k].value) ==> !Complete(fields[k].value) {
        NullIsMissing(fields[k].value);
      }
    case _ =>
  }

  // As many distinct declared fields as there are declared ones: none can be missing.
  lemma AllFieldsPresent(fields: seq<ObjectField>, declared: map<string, InputField>, checked: map<string, ObjectField>)
    requires checked.Keys <= declared.Keys && |checked| >= |declared|
    requires checked.Keys == set k | 0 <= k < |fields| :: fields[k].name
    ensures forall f | f in declared :: HasField(fields, f)
  {
    assert checked.Keys == declared.Keys by {
      SubsetOfSameSize(checked.Keys, declared.Keys);
    }
  }

  lemma SubsetOfSameSize(a: set<string>, b: set<string>)
    requires a <= b && |a| >= |b|
    ensures a == b
  {
    if x :| x in b && x !in a {
      assert a <= b - {x};
      assert |a| <= |b - {x}| by { SubsetSize(a, b - {x}); }
    }
  }

  lemma {:induction false} SubsetSize(a: set<string>, b: set<string>)
    requires a <= b
    ensures |a| <= |b|
    decreases a
  {
    if x :| x in a {
      SubsetSize(a - {x}, b - {x});
    }
  }
}
