/**
 What a schema that has been read guarantees for the annotations in it: names refer to types that
 may stand where they are used, and required fields are on record.
 */
module SchemaReferences {
  import opened SourceText
  import opened GraphQlSyntax
  import opened ValueRules
  import opened SharedAnnotations
  import opened Selections
  import opened QueryArguments

  // An annotation that goes by a name, and whether it says what is put in.
  datatype ForwardReference = ForwardReference(annotation: Type, inInput: bool)

  // The name is that of a type for this place; enums are for both.
  predicate PlacedRight(symbols: Symbols, name: string, inInput: bool) {
    name in symbols && (symbols[name].EnumType? || (symbols[name].InputObjectType? <==> inInput))
  }

  ghost predicate AllPlacedRight(symbols: Symbols, annotations: Annotations, references: seq<ForwardReference>)
    requires forall r | r in references :: r.annotation in annotations
  {
    forall r | r in references :: PlacedRight(symbols, annotations[r.annotation].name, r.inInput)
  }

  // Once all symbols are known, the annotations that name enums are of enum kind.
  function AsResolved(symbols: Symbols, info: TypeInfo): TypeInfo {
    if info.name in symbols && symbols[info.name].EnumType? then info.(base := TEnum) else info
  }

  ghost function Resolved(symbols: Symbols, annotations: Annotations,
                          references: seq<ForwardReference>): (r: Annotations)
    ensures r.Keys == annotations.Keys
  {
    map t | t in annotations ::
      if exists r | r in references :: r.annotation == t then AsResolved(symbols, annotations[t]) else annotations[t]
  }

  lemma OneMoreResolved(symbols: Symbols, annotations: Annotations, references: seq<ForwardReference>,
                        reference: ForwardReference)
    requires reference.annotation in annotations
    ensures var before, t := Resolved(symbols, annotations, references), reference.annotation;
            Resolved(symbols, annotations, references + [reference]) == before[t := AsResolved(symbols, before[t])]
  {
    var before, t := Resolved(symbols, annotations, references), reference.annotation;
    var after := Resolved(symbols, annotations, references + [reference]);
    assert reference in references + [reference];
    forall u | u in annotations ensures after[u] == before[t := AsResolved(symbols, before[t])][u] {
      assert forall r | r in references :: r in references + [reference];
    }
  }

  // A field of an input object as it is declared.
  datatype DeclaredField = DeclaredField(name: string, field: InputField)

  // Of several fields of one name the first one is kept.
  function FieldsKept(declared: seq<DeclaredField>): map<string, InputField> {
    if declared == [] then map[]
    else
      var last := |declared| - 1;
      var fields := FieldsKept(declared[..last]);
      if declared[last].name in fields then fields else fields[declared[last].name := declared[last].field]
  }

  // The names of the required ones, each time one is declared.
  ghost function RequiredNames(annotations: Annotations, declared: seq<DeclaredField>): seq<string>
    requires forall k | 0 <= k < |declared| :: declared[k].field.annotation in annotations
  {
    if declared == [] then []
    else
      var last := |declared| - 1;
      RequiredNames(annotations, declared[..last]) +
      if annotations[declared[last].field.annotation].IsRequired() then [declared[last].name] else []
  }

  /** The list of required fields holds just the names for which one of the fields declared with
      them is required, whether it was the one that is kept or not. */
  lemma {:induction false} RequiredNamesExactly(annotations: Annotations, declared: seq<DeclaredField>, name: string)
    requires forall k | 0 <= k < |declared| :: declared[k].field.annotation in annotations
    ensures name in RequiredNames(annotations, declared) <==>
              exists k :: 0 <= k < |declared| && declared[k].name == name &&
                          annotations[declared[k].field.annotation].IsRequired()
    ensures name in FieldsKept(declared) ==>
              exists k :: 0 <= k < |declared| && declared[k].name == name &&
                          declared[k].field == FieldsKept(declared)[name]
    decreases |declared|
  {
    if declared != [] {
      var last := |declared| - 1;
      RequiredNamesExactly(annotations, declared[..last], name);
      assert forall k | 0 <= k < last :: declared[..last][k] == declared[k];
      if declared[last].name == name {
        assert declared[last].name == name;
      }
    }
  }

  ghost predicate DeclaredBy(annotations: Annotations, declaration: Declaration, declared: seq<DeclaredField>)
    requires declaration.InputObjectType?
  {
    && (forall k | 0 <= k < |declared| :: declared[k].field.annotation in annotations)
    && declaration.inputFields == FieldsKept(declared)
    && declaration.requiredFields == RequiredNames(annotations, declared)
  }

  // Every input object has been put together from its fields like this.
  ghost predicate PutTogether(symbols: Symbols, annotations: Annotations, declared: map<string, seq<DeclaredField>>) {
    forall n | n in symbols && symbols[n].InputObjectType? ::
      n in declared && DeclaredBy(annotations, symbols[n], declared[n])
  }

  // The annotation is that of an argument, of a field or of a directive.
  ghost predicate IsArgumentOf(declaration: Declaration, t: Type) {
    (declaration.ObjectType? || declaration.InterfaceType?) &&
    exists f, a :: f in declaration.fields && a in declaration.fields[f].arguments &&
                   declaration.fields[f].arguments[a] == t
  }

  ghost predicate IsArgument(schema: Schema, t: Type) {
    || (exists d, a :: d in schema.directives && a in schema.directives[d].arguments &&
                       schema.directives[d].arguments[a] == t)
    || (exists n | n in schema.symbols :: IsArgumentOf(schema.symbols[n], t))
    || IsArgumentOf(schema.query, t)
    || (schema.mutation.Some? && IsArgumentOf(schema.mutation.value, t))
    || (schema.subscription.Some? && IsArgumentOf(schema.subscription.value, t))
  }

  ghost predicate IsInputField(symbols: Symbols, t: Type) {
    exists n, f :: n in symbols && symbols[n].InputObjectType? && f in symbols[n].inputFields &&
                   symbols[n].inputFields[f].annotation == t
  }

  // What says what is put in is noted down as such, if it goes by a name.
  ghost predicate InputsNoted(schema: Schema, annotations: Annotations, references: seq<ForwardReference>) {
    forall t | t in annotations && (IsArgument(schema, t) || IsInputField(schema.symbols, t)) ::
      annotations[t].base == TObject ==> ForwardReference(t, true) in references
  }

  lemma AllRecorded(symbols: Symbols, annotations: Annotations, declared: map<string, seq<DeclaredField>>,
                    references: seq<ForwardReference>)
    requires Closed(symbols, annotations.Keys) && PutTogether(symbols, annotations, declared)
    ensures RequiredRecorded(symbols, Resolved(symbols, annotations, references))
  {
    var now := Resolved(symbols, annotations, references);
    forall n, f | n in symbols && symbols[n].InputObjectType? && f in symbols[n].inputFields &&
                  now[symbols[n].inputFields[f].annotation].IsRequired()
      ensures f in symbols[n].requiredFields
    {
      RequiredNamesExactly(annotations, declared[n], f);
    }
  }

  // Where something is put in, a name that draws no diagnostic is that of an enum, which becomes the
  // kind of the annotation, or of an input object.
  lemma InputNamed(schema: Schema, annotations: Annotations, references: seq<ForwardReference>, t: Type)
    requires forall r | r in references :: r.annotation in annotations
    requires InputsNoted(schema, annotations, references) && AllPlacedRight(schema.symbols, annotations, references)
    requires t in annotations && (IsArgument(schema, t) || IsInputField(schema.symbols, t))
    ensures NamesInput(schema.symbols, Resolved(schema.symbols, annotations, references)[t])
  {
    hide IsArgument, IsInputField;
    if annotations[t].base == TObject {
      assert ForwardReference(t, true) in references;
      assert PlacedRight(schema.symbols, annotations[t].name, true);
    }
  }

  lemma InputFieldsNamed(schema: Schema, annotations: Annotations, references: seq<ForwardReference>)
    requires Closed(schema.symbols, annotations.Keys)
    requires forall r | r in references :: r.annotation in annotations
    requires InputsNoted(schema, annotations, references) && AllPlacedRight(schema.symbols, annotations, references)
    ensures InputsOnly(schema.symbols, Resolved(schema.symbols, annotations, references))
  {
    hide InputsNoted, AllPlacedRight, NamesInput, Resolved;
    var symbols := schema.symbols;
    forall n, f | n in symbols && symbols[n].InputObjectType? && f in symbols[n].inputFields
      ensures NamesInput(symbols, Resolved(symbols, annotations, references)[symbols[n].inputFields[f].annotation])
    {
      assert IsInputField(symbols, symbols[n].inputFields[f].annotation);
      InputNamed(schema, annotations, references, symbols[n].inputFields[f].annotation);
    }
  }

  // All arguments of a declaration are harmless exactly if they have no lists that hold themselves.
  lemma DeclarationHarmless(schema: Schema, now: Annotations, declaration: Declaration)
    requires SchemaClosed(schema, now.Keys) && FieldsClosed(declaration, now.Keys) && InputsOnly(schema.symbols, now)
    requires forall t | t in now && IsArgumentOf(declaration, t) :: NamesInput(schema.symbols, now[t])
    ensures ArgumentsHarmless(schema, now, declaration) <==>
            forall t | t in now && IsArgumentOf(declaration, t) :: NoListHoldsItself(schema.symbols, now, t)
  {
    hide NoListHoldsItself, NamesInput, SchemaClosed, InputsOnly;
    if declaration.ObjectType? || declaration.InterfaceType? {
      forall f, a | f in declaration.fields && a in declaration.fields[f].arguments
        ensures var t := declaration.fields[f].arguments[a]; t in now && IsArgumentOf(declaration, t)
      {
        assert ArgumentsClosed(declaration.fields[f].arguments, now.Keys);
      }
    }
  }

  lemma ArgumentsMustBeHarmless(schema: Schema, now: Annotations)
    requires SchemaClosed(schema, now.Keys) && InputsOnly(schema.symbols, now) && RequiredRecorded(schema.symbols, now)
    requires forall t | t in now && IsArgument(schema, t) :: NamesInput(schema.symbols, now[t])
    ensures SchemaHarmless(schema, now) <==>
            forall t | t in now && IsArgument(schema, t) :: NoListHoldsItself(schema.symbols, now, t)
  {
    hide NoListHoldsItself, NamesInput, InputsOnly, RequiredRecorded, IsArgumentOf, ArgumentsHarmless, Closed;
    forall n | n in schema.symbols
      ensures ArgumentsHarmless(schema, now, schema.symbols[n]) <==>
              forall t | t in now && IsArgumentOf(schema.symbols[n], t) :: NoListHoldsItself(schema.symbols, now, t)
    {
      DeclarationHarmless(schema, now, schema.symbols[n]);
    }
    DeclarationHarmless(schema, now, schema.query);
    if schema.mutation.Some? {
      DeclarationHarmless(schema, now, schema.mutation.value);
    }
    if schema.subscription.Some? {
      DeclarationHarmless(schema, now, schema.subscription.value);
    }
    forall d, a | d in schema.directives && a in schema.directives[d].arguments
      ensures var t := schema.directives[d].arguments[a]; t in now && IsArgument(schema, t)
    {
      assert ArgumentsClosed(schema.directives[d].arguments, now.Keys);
    }
  }

  /** In a schema whose references draw no diagnostic, all that is asked of it for its arguments to be
      coerced is that no list below an argument is met again inside itself. */
  lemma CheckedSchemaHarmless(schema: Schema, annotations: Annotations, declared: map<string, seq<DeclaredField>>,
                              references: seq<ForwardReference>)
    requires SchemaClosed(schema, annotations.Keys) && PutTogether(schema.symbols, annotations, declared)
    requires forall r | r in references :: r.annotation in annotations
    requires InputsNoted(schema, annotations, references) && AllPlacedRight(schema.symbols, annotations, references)
    ensures var now := Resolved(schema.symbols, annotations, references);
            SchemaHarmless(schema, now) <==>
            forall t | t in now && IsArgument(schema, t) :: NoListHoldsItself(schema.symbols, now, t)
  {
    hide IsArgument, NamesInput, PutTogether, InputsNoted, AllPlacedRight, Resolved, NoListHoldsItself, SchemaHarmless;
    var now := Resolved(schema.symbols, annotations, references);
    AllRecorded(schema.symbols, annotations, declared, references);
    InputFieldsNamed(schema, annotations, references);
    forall t | t in now && IsArgument(schema, t) ensures NamesInput(schema.symbols, now[t]) {
      InputNamed(schema, annotations, references, t);
    }
    ArgumentsMustBeHarmless(schema, now);
  }

  // What can be put out: GraphQL specification, section 3.4.2.
  predicate NamesOutput(symbols: Symbols, info: TypeInfo) {
    info.base == TObject ==>
      info.name in symbols &&
      (symbols[info.name].ObjectType? || symbols[info.name].InterfaceType? || symbols[info.name].UnionType?)
  }

  /** A name draws no diagnostic exactly if its annotation, once resolved, names what can be put in where
      something is put in, and what can be put out where something is put out. */
  lemma PlacedRightExactly(symbols: Symbols, annotations: Annotations, references: seq<ForwardReference>,
                           r: ForwardReference)
    requires r in references && r.annotation in annotations && annotations[r.annotation].base == TObject
    ensures var now := Resolved(symbols, annotations, references)[r.annotation];
            PlacedRight(symbols, annotations[r.annotation].name, r.inInput) <==>
            if r.inInput then NamesInput(symbols, now) else NamesOutput(symbols, now)
  {
  }

  ghost predicate IsFieldOf(declaration: Declaration, t: Type) {
    (declaration.ObjectType? || declaration.InterfaceType?) &&
    exists f :: f in declaration.fields && declaration.fields[f].annotation == t
  }

  // One of the schema's own declarations.
  ghost predicate Declared(schema: Schema, declaration: Declaration) {
    || (exists n | n in schema.symbols :: schema.symbols[n] == declaration)
    || declaration == schema.query
    || schema.mutation == Some(declaration)
    || schema.subscription == Some(declaration)
  }

  ghost predicate IsOutput(schema: Schema, t: Type) {
    || (exists n | n in schema.symbols :: IsFieldOf(schema.symbols[n], t))
    || IsFieldOf(schema.query, t)
    || (schema.mutation.Some? && IsFieldOf(schema.mutation.value, t))
    || (schema.subscription.Some? && IsFieldOf(schema.subscription.value, t))
  }

  // The fields that are put out are noted down as such, if their type goes by a name.
  ghost predicate OutputsNoted(schema: Schema, annotations: Annotations, references: seq<ForwardReference>) {
    forall t | t in annotations && IsOutput(schema, t) ::
      annotations[t].base == TObject ==> ForwardReference(t, false) in references
  }

  /** In a schema whose references draw no diagnostic, what is selected inside a field is selected on an
      object, an interface or a union, and never on an input object. */
  lemma SelectedOnOutputs(schema: Schema, annotations: Annotations, references: seq<ForwardReference>,
                          scope: Declaration, key: string)
    requires SchemaClosed(schema, annotations.Keys) && FieldsClosed(scope, annotations.Keys) && Declared(schema, scope)
    requires forall r | r in references :: r.annotation in annotations
    requires OutputsNoted(schema, annotations, references) && AllPlacedRight(schema.symbols, annotations, references)
    ensures var inner := FieldType(schema, Resolved(schema.symbols, annotations, references), scope, key);
            inner.Some? ==>
              && Declared(schema, inner.value)
              && (inner.value.ObjectType? || inner.value.InterfaceType? || inner.value.UnionType?)
  {
    hide SchemaClosed;
    if (scope.ObjectType? || scope.InterfaceType?) && key in scope.fields {
      var t := scope.fields[key].annotation;
      assert IsFieldOf(scope, t) && IsOutput(schema, t);
      if annotations[t].base == TObject {
        assert ForwardReference(t, false) in references;
        PlacedRightExactly(schema.symbols, annotations, references, ForwardReference(t, false));
      }
    }
  }
}
