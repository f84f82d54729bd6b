/** What a query that drew no diagnostic guarantees, together with a schema that drew none. */
module QueryGuarantees {
  import opened SourceText
  import opened GraphQlSyntax
  import opened ValueRules
  import opened DeclarationRules
  import opened Selections
  import opened ValuePrinting

  function Interfaces(symbols: Symbols): map<string, Declaration> {
    map n | n in symbols && symbols[n].InterfaceType? :: symbols[n]
  }

  // The schema's check of implementations drew no diagnostic.
  ghost predicate AllImplemented(schema: Schema, annotations: Annotations)
    requires SchemaClosed(schema, annotations.Keys)
  {
    forall n | n in schema.symbols && schema.symbols[n].ObjectType? ::
      ImplementsAll(annotations, schema.symbols[n], Interfaces(schema.symbols))
  }

  // Enums are of enum kind, and no symbol is called like a scalar.
  predicate NamedProperly(symbols: Symbols, info: TypeInfo) {
    info.base in {TObject, TEnum} ==>
      && info.name !in {"Int", "Float", "String", "Boolean", "ID"}
      && (info.base == TEnum <==> info.name in symbols && symbols[info.name].EnumType?)
  }

  /** Once enums have been told from objects, annotations are of the same type exactly if they are printed
      the same but for brackets and exclamation marks. */
  lemma SameTypeByName(symbols: Symbols, a: TypeInfo, b: TypeInfo)
    requires NamedProperly(symbols, a) && NamedProperly(symbols, b)
    ensures SameType(a, b) <==>
            TypeName(TypeInfo(a.base, a.name, false, false, false)) ==
            TypeName(TypeInfo(b.base, b.name, false, false, false))
  {
    BareTypeName(a.base, a.name);
    BareTypeName(b.base, b.name);
  }

  lemma BareTypeName(base: BaseType, name: string)
    ensures TypeName(TypeInfo(base, name, false, false, false)) ==
            BaseName(TypeInfo(base, name, false, false, false))
  {
  }

  // The object has the field an interface is asked for, with the same type.
  ghost predicate FieldEverywhere(schema: Schema, annotations: Annotations, scope: Declaration, f: string)
    requires SchemaClosed(schema, annotations.Keys) && FieldsClosed(scope, annotations.Keys)
    requires scope.InterfaceType? && f in scope.fields
  {
    forall n | n in PossibleTypes(schema.symbols, scope) :: FieldImplemented(annotations, schema.symbols[n], scope, f)
  }

  /** Whatever is selected on an interface, at any depth, exists with the same type on every
      object that can stand for it. */
  ghost predicate SelectedEverywhere(schema: Schema, annotations: Annotations, scope: Declaration, s: Selection)
    requires SchemaClosed(schema, annotations.Keys) && FieldsClosed(scope, annotations.Keys)
    decreases s
  {
    match s
    case Field(_, _, _, _, selectionSet) =>
      && (scope.InterfaceType? ==> s.Key() in scope.fields && FieldEverywhere(schema, annotations, scope, s.Key()))
      && (selectionSet.Braces? && (scope.InterfaceType? || scope.ObjectType?) && s.Key() in scope.fields ==>
            var info := annotations[scope.fields[s.Key()].annotation];
            info.name in schema.symbols ==>
              forall k | 0 <= k < |selectionSet.selections| ::
                SelectedEverywhere(schema, annotations, schema.symbols[info.name], selectionSet.selections[k]))
    case InlineFragment(typeName, _, selections) =>
      typeName in schema.symbols ==>
        forall k | 0 <= k < |selections| ::
          SelectedEverywhere(schema, annotations, schema.symbols[typeName], selections[k])
    case FragmentSpread(_, _) => true
  }

  lemma {:induction false} SelectedOnInterface(schema: Schema, annotations: Annotations, rule: SpreadRule,
                                               scope: Declaration, s: Selection)
    requires SchemaClosed(schema, annotations.Keys) && FieldsClosed(scope, annotations.Keys)
    requires AllImplemented(schema, annotations)
    requires scope.InterfaceType? ==> scope.name in schema.symbols && schema.symbols[scope.name] == scope
    requires SelectionSound(schema, annotations, rule, scope, s)
    ensures SelectedEverywhere(schema, annotations, scope, s)
    decreases s
  {
    match s
    case Field(_, _, _, _, selectionSet) =>
      if scope.InterfaceType? {
        forall n | n in PossibleTypes(schema.symbols, scope)
          ensures FieldImplemented(annotations, schema.symbols[n], scope, s.Key())
        {
          assert ImplementsAll(annotations, schema.symbols[n], Interfaces(schema.symbols));
          assert ImplementsNamed(annotations, schema.symbols[n], Interfaces(schema.symbols), scope.name);
          assert Implements(annotations, schema.symbols[n], scope);
        }
      }
      if selectionSet.Braces? {
        var info := annotations[scope.fields[s.Key()].annotation];
        forall k | 0 <= k < |selectionSet.selections|
          ensures SelectedEverywhere(schema, annotations, schema.symbols[info.name], selectionSet.selections[k])
        {
          SelectedOnInterface(schema, annotations, rule, schema.symbols[info.name], selectionSet.selections[k]);
        }
      }
    case InlineFragment(typeName, _, selections) =>
      forall k | 0 <= k < |selections|
        ensures SelectedEverywhere(schema, annotations, schema.symbols[typeName], selections[k])
      {
        SelectedOnInterface(schema, annotations, rule, schema.symbols[typeName], selections[k]);
      }
    case FragmentSpread(_, _) =>
  }

  // Where a field has an alias, its own name is declared as well, and leads to the same type.
  ghost predicate AliasesHarmless(schema: Schema, annotations: Annotations, scope: Declaration, s: Selection)
    requires SchemaClosed(schema, annotations.Keys) && FieldsClosed(scope, annotations.Keys)
    decreases s
  {
    match s
    case Field(alias, name, _, _, selectionSet) =>
      (scope.ObjectType? || scope.InterfaceType?) && s.Key() in scope.fields ==>
        var info := annotations[scope.fields[s.Key()].annotation];
        && (alias.Some? ==>
              && name in scope.fields
              && (selectionSet.Braces? ==> SameType(annotations[scope.fields[name].annotation], info)))
        && (selectionSet.Braces? && info.base == TObject && info.name in schema.symbols ==>
              forall k | 0 <= k < |selectionSet.selections| ::
                AliasesHarmless(schema, annotations, schema.symbols[info.name], selectionSet.selections[k]))
    case InlineFragment(typeName, _, selections) =>
      typeName in schema.symbols ==>
        forall k | 0 <= k < |selections| ::
          AliasesHarmless(schema, annotations, schema.symbols[typeName], selections[k])
    case FragmentSpread(_, _) => true
  }

  // Every field's own name is declared on the type it is selected on: section 5.3.1.
  ghost predicate FieldsDefined(schema: Schema, annotations: Annotations, scope: Declaration, s: Selection)
    requires SchemaClosed(schema, annotations.Keys) && FieldsClosed(scope, annotations.Keys)
    decreases s
  {
    match s
    case Field(_, name, _, _, selectionSet) =>
      && (scope.ObjectType? || scope.InterfaceType?) && name in scope.fields
      && (selectionSet.Braces? ==>
            var info := annotations[scope.fields[name].annotation];
            && info.base == TObject && info.name in schema.symbols
            && forall k | 0 <= k < |selectionSet.selections| ::
                 FieldsDefined(schema, annotations, schema.symbols[info.name], selectionSet.selections[k]))
    case InlineFragment(typeName, _, selections) =>
      && typeName in schema.symbols
      && forall k | 0 <= k < |selections| :: FieldsDefined(schema, annotations, schema.symbols[typeName], selections[k])
    case FragmentSpread(_, _) => true
  }

  /** A query that fits the schema selects defined fields only, if its aliases do no harm; a query
      without aliases has none that could. */
  lemma {:induction false} HarmlessAliasesFieldsDefined(schema: Schema, annotations: Annotations, rule: SpreadRule,
                                                        scope: Declaration, s: Selection)
    requires SchemaClosed(schema, annotations.Keys) && FieldsClosed(scope, annotations.Keys)
    requires SelectionSound(schema, annotations, rule, scope, s) && AliasesHarmless(schema, annotations, scope, s)
    ensures FieldsDefined(schema, annotations, scope, s)
    decreases s
  {
    match s
    case Field(_, name, _, _, selectionSet) =>
      if selectionSet.Braces? {
        var info := annotations[scope.fields[s.Key()].annotation];
        forall k | 0 <= k < |selectionSet.selections|
          ensures FieldsDefined(schema, annotations, schema.symbols[info.name], selectionSet.selections[k])
        {
          HarmlessAliasesFieldsDefined(schema, annotations, rule, schema.symbols[info.name],
                                       selectionSet.selections[k]);
        }
      }
    case InlineFragment(typeName, _, selections) =>
      forall k | 0 <= k < |selections|
        ensures FieldsDefined(schema, annotations, schema.symbols[typeName], selections[k])
      {
        HarmlessAliasesFieldsDefined(schema, annotations, rule, schema.symbols[typeName], selections[k]);
      }
    case FragmentSpread(_, _) =>
  }

  // The names that can be selected on a type.
  function FieldNames(scope: Declaration): set<string> {
    if scope.ObjectType? || scope.InterfaceType? then scope.fields.Keys else {}
  }

  // The type reached from another one by selecting inside fields.
  function Walk(schema: Schema, annotations: Annotations, scope: Declaration, path: seq<string>): Option<Declaration>
    requires SchemaClosed(schema, annotations.Keys) && FieldsClosed(scope, annotations.Keys)
    decreases |path|
  {
    if path == [] then Some(scope)
    else
      var inner := FieldType(schema, annotations, scope, path[0]);
      if inner.Some? then Walk(schema, annotations, inner.value, path[1..]) else None
  }

  // Along this path the second type has all that can be selected on the first one.
  ghost predicate CoveredAt(schema: Schema, annotations: Annotations, a: Declaration, x: Declaration, path: seq<string>)
    requires SchemaClosed(schema, annotations.Keys)
    requires FieldsClosed(a, annotations.Keys) && FieldsClosed(x, annotations.Keys)
  {
    var onA, onX := Walk(schema, annotations, a, path), Walk(schema, annotations, x, path);
    onA.Some? ==> onX.Some? && FieldNames(onA.value) <= FieldNames(onX.value)
  }

  ghost predicate Covered(schema: Schema, annotations: Annotations, a: Declaration, x: Declaration)
    requires SchemaClosed(schema, annotations.Keys)
    requires FieldsClosed(a, annotations.Keys) && FieldsClosed(x, annotations.Keys)
  {
    forall path: seq<string> :: CoveredAt(schema, annotations, a, x, path)
  }

  // Covering goes on inside every field.
  lemma CoveredInside(schema: Schema, annotations: Annotations, a: Declaration, x: Declaration, f: string)
    requires SchemaClosed(schema, annotations.Keys)
    requires FieldsClosed(a, annotations.Keys) && FieldsClosed(x, annotations.Keys)
    requires Covered(schema, annotations, a, x) && FieldType(schema, annotations, a, f).Some?
    ensures var onA, onX := FieldType(schema, annotations, a, f), FieldType(schema, annotations, x, f);
            onX.Some? && Covered(schema, annotations, onA.value, onX.value)
  {
    assert CoveredAt(schema, annotations, a, x, [f]);
    var onA, onX := FieldType(schema, annotations, a, f), FieldType(schema, annotations, x, f);
    assert Walk(schema, annotations, onA.value, []).Some?;
    assert [f][1..] == [];
    forall path: seq<string> ensures CoveredAt(schema, annotations, onA.value, onX.value, path) {
      assert ([f] + path)[1..] == path;
      assert CoveredAt(schema, annotations, a, x, [f] + path);
    }
  }

  // No field in the selection has an alias.
  predicate AliasFree(s: Selection) {
    match s
    case Field(alias, _, _, _, selectionSet) =>
      alias.None? && (selectionSet.Braces? ==> AllAliasFree(selectionSet.selections))
    case InlineFragment(_, _, selections) => AllAliasFree(selections)
    case FragmentSpread(_, _) => true
  }

  predicate AllAliasFree(selections: seq<Selection>) {
    forall k | 0 <= k < |selections| :: AliasFree(selections[k])
  }

  ghost predicate AllDefined(schema: Schema, annotations: Annotations, scope: Declaration, selections: seq<Selection>)
    requires SchemaClosed(schema, annotations.Keys) && FieldsClosed(scope, annotations.Keys)
  {
    forall k | 0 <= k < |selections| :: FieldsDefined(schema, annotations, scope, selections[k])
  }

  // Aliases that are not there do no harm.
  lemma {:induction false} AliasFreeIsHarmless(schema: Schema, annotations: Annotations, scope: Declaration,
                                               s: Selection)
    requires SchemaClosed(schema, annotations.Keys) && FieldsClosed(scope, annotations.Keys) && AliasFree(s)
    ensures AliasesHarmless(schema, annotations, scope, s)
    decreases s
  {
    match s
    case Field(_, _, _, _, selectionSet) =>
      var inner := FieldType(schema, annotations, scope, s.Key());
      if selectionSet.Braces? && inner.Some? {
        forall k | 0 <= k < |selectionSet.selections|
          ensures AliasesHarmless(schema, annotations, inner.value, selectionSet.selections[k])
        {
          AliasFreeIsHarmless(schema, annotations, inner.value, selectionSet.selections[k]);
        }
      }
    case InlineFragment(typeName, _, selections) =>
      if typeName in schema.symbols {
        forall k | 0 <= k < |selections|
          ensures AliasesHarmless(schema, annotations, schema.symbols[typeName], selections[k])
        {
          AliasFreeIsHarmless(schema, annotations, schema.symbols[typeName], selections[k]);
        }
      }
    case FragmentSpread(_, _) =>
  }

  // What fits one type is defined on any that covers it.
  lemma {:induction false} CoveredIsDefined(schema: Schema, annotations: Annotations, rule: SpreadRule,
                                            a: Declaration, x: Declaration, s: Selection)
    requires SchemaClosed(schema, annotations.Keys)
    requires FieldsClosed(a, annotations.Keys) && FieldsClosed(x, annotations.Keys)
    requires Covered(schema, annotations, a, x) && AliasFree(s) && SelectionSound(schema, annotations, rule, a, s)
    ensures FieldsDefined(schema, annotations, x, s)
    decreases s
  {
    match s
    case Field(_, name, _, _, selectionSet) =>
      assert CoveredAt(schema, annotations, a, x, []);
      if selectionSet.Braces? {
        CoveredInside(schema, annotations, a, x, name);
        var onA := FieldType(schema, annotations, a, name).value;
        var onX := FieldType(schema, annotations, x, name).value;
        forall k | 0 <= k < |selectionSet.selections|
          ensures FieldsDefined(schema, annotations, onX, selectionSet.selections[k])
        {
          CoveredIsDefined(schema, annotations, rule, onA, onX, selectionSet.selections[k]);
        }
      }
    case InlineFragment(_, _, _) =>
      AliasFreeIsHarmless(schema, annotations, a, s);
      HarmlessAliasesFieldsDefined(schema, annotations, rule, a, s);
    case FragmentSpread(_, _) =>
  }

  // A field selected at the end of a path, or just the path where there is none.
  function Along(path: seq<string>, last: Option<string>): seq<Selection> {
    if path == [] then
      if last.Some? then [Field(None, last.value, NoParentheses, [], NoBraces)] else []
    else [Field(None, path[0], NoParentheses, [], Braces(Along(path[1..], last)))]
  }

  // Such a selection fits if the path can be walked, and is defined only where it can be.
  lemma {:induction false} AlongFits(schema: Schema, annotations: Annotations, rule: SpreadRule, a: Declaration,
                                     path: seq<string>, last: Option<string>)
    requires SchemaClosed(schema, annotations.Keys) && FieldsClosed(a, annotations.Keys)
    requires var end := Walk(schema, annotations, a, path);
             end.Some? && (last.Some? ==> last.value in FieldNames(end.value))
    ensures SelectionsSound(schema, annotations, rule, a, Along(path, last)) && AllAliasFree(Along(path, last))
    decreases |path|
  {
    if path != [] {
      AlongFits(schema, annotations, rule, FieldType(schema, annotations, a, path[0]).value, path[1..], last);
    }
  }

  lemma {:induction false} AlongDefined(schema: Schema, annotations: Annotations, x: Declaration, path: seq<string>,
                                        last: Option<string>)
    requires SchemaClosed(schema, annotations.Keys) && FieldsClosed(x, annotations.Keys)
    requires AllDefined(schema, annotations, x, Along(path, last))
    ensures var end := Walk(schema, annotations, x, path);
            end.Some? && (last.Some? ==> last.value in FieldNames(end.value))
    decreases |path|
  {
    assert Along(path, last) != [] ==> FieldsDefined(schema, annotations, x, Along(path, last)[0]);
    if path != [] {
      AlongDefined(schema, annotations, FieldType(schema, annotations, x, path[0]).value, path[1..], last);
    }
  }

  /** When what is selected on one type can be taken for a selection on another: all selections
      without aliases that fit `a` are defined on `x` if and only if every path of fields that can be
      walked from `a` can be walked from `x`, and leads to a type with at least the same fields. */
  lemma CoveredExactly(schema: Schema, annotations: Annotations, rule: SpreadRule, a: Declaration, x: Declaration)
    requires SchemaClosed(schema, annotations.Keys)
    requires FieldsClosed(a, annotations.Keys) && FieldsClosed(x, annotations.Keys)
    ensures Covered(schema, annotations, a, x) <==>
            forall selections: seq<Selection> |
              AllAliasFree(selections) && SelectionsSound(schema, annotations, rule, a, selections) ::
              AllDefined(schema, annotations, x, selections)
  {
    if Covered(schema, annotations, a, x) {
      forall selections: seq<Selection> |
        AllAliasFree(selections) && SelectionsSound(schema, annotations, rule, a, selections)
        ensures AllDefined(schema, annotations, x, selections)
      {
        forall k | 0 <= k < |selections| ensures FieldsDefined(schema, annotations, x, selections[k]) {
          CoveredIsDefined(schema, annotations, rule, a, x, selections[k]);
        }
      }
    } else {
      var selections := Uncovered(schema, annotations, rule, a, x);
    }
  }

  // Where the second type does not cover the first, some selection shows it.
  lemma Uncovered(schema: Schema, annotations: Annotations, rule: SpreadRule, a: Declaration, x: Declaration)
    returns (selections: seq<Selection>)
    requires SchemaClosed(schema, annotations.Keys)
    requires FieldsClosed(a, annotations.Keys) && FieldsClosed(x, annotations.Keys)
    requires !Covered(schema, annotations, a, x)
    ensures AllAliasFree(selections) && SelectionsSound(schema, annotations, rule, a, selections)
    ensures !AllDefined(schema, annotations, x, selections)
  {
    var path: seq<string> :| !CoveredAt(schema, annotations, a, x, path);
    var onA, onX := Walk(schema, annotations, a, path).value, Walk(schema, annotations, x, path);
    var last := None;
    if onX.Some? {
      var f :| f in FieldNames(onA) && f !in FieldNames(onX.value);
      last := Some(f);
    }
    selections := Along(path, last);
    AlongFits(schema, annotations, rule, a, path, last);
    if AllDefined(schema, annotations, x, selections) {
      AlongDefined(schema, annotations, x, path, last);
    }
  }

  // All that can be selected on the alias can be selected on the name.
  ghost predicate AliasCovered(schema: Schema, annotations: Annotations, scope: Declaration, alias: string,
                               name: string)
    requires SchemaClosed(schema, annotations.Keys) && FieldsClosed(scope, annotations.Keys)
  {
    alias in FieldNames(scope) ==>
      && name in FieldNames(scope)
      && var onAlias := FieldType(schema, annotations, scope, alias);
         var onName := FieldType(schema, annotations, scope, name);
         (onAlias.Some? ==> onName.Some? && Covered(schema, annotations, onAlias.value, onName.value))
  }

  // The field has this alias and this name, and no aliases inside it.
  predicate Renames(s: Selection, alias: string, name: string) {
    && s.Field? && s.alias == Some(alias) && s.name == name
    && (s.selectionSet.Braces? ==> AllAliasFree(s.selectionSet.selections))
  }

  /** The parser looks up the alias of a field instead of its name, and judges all that is selected
      inside by the alias's type. This never lets a field through that is not defined, whatever
      arguments, directives and selections a query `alias: name` has, if and only if what can be
      selected on the alias can be selected on the name. */
  lemma AliasHarmlessExactly(schema: Schema, annotations: Annotations, rule: SpreadRule, scope: Declaration,
                             alias: string, name: string)
    requires SchemaClosed(schema, annotations.Keys) && FieldsClosed(scope, annotations.Keys)
    ensures AliasCovered(schema, annotations, scope, alias, name) <==>
            forall s: Selection | Renames(s, alias, name) && SelectionSound(schema, annotations, rule, scope, s) ::
              FieldsDefined(schema, annotations, scope, s)
  {
    if AliasCovered(schema, annotations, scope, alias, name) {
      forall s: Selection | Renames(s, alias, name) && SelectionSound(schema, annotations, rule, scope, s)
        ensures FieldsDefined(schema, annotations, scope, s)
      {
        CoveredAliasDefined(schema, annotations, rule, scope, s);
      }
    } else {
      var s := HarmfulAlias(schema, annotations, rule, scope, alias, name);
    }
  }

  lemma CoveredAliasDefined(schema: Schema, annotations: Annotations, rule: SpreadRule, scope: Declaration,
                            s: Selection)
    requires SchemaClosed(schema, annotations.Keys) && FieldsClosed(scope, annotations.Keys)
    requires s.Field? && s.alias.Some? && Renames(s, s.alias.value, s.name)
    requires AliasCovered(schema, annotations, scope, s.alias.value, s.name)
    requires SelectionSound(schema, annotations, rule, scope, s)
    ensures FieldsDefined(schema, annotations, scope, s)
  {
    if s.selectionSet.Braces? {
      var onAlias := FieldType(schema, annotations, scope, s.alias.value).value;
      var onName := FieldType(schema, annotations, scope, s.name).value;
      CoveredExactly(schema, annotations, rule, onAlias, onName);
      assert SelectionsSound(schema, annotations, rule, onAlias, s.selectionSet.selections);
      assert AllDefined(schema, annotations, onName, s.selectionSet.selections);
    }
  }

  lemma HarmfulAlias(schema: Schema, annotations: Annotations, rule: SpreadRule, scope: Declaration, alias: string,
                     name: string)
    returns (s: Selection)
    requires SchemaClosed(schema, annotations.Keys) && FieldsClosed(scope, annotations.Keys)
    requires !AliasCovered(schema, annotations, scope, alias, name)
    ensures Renames(s, alias, name) && SelectionSound(schema, annotations, rule, scope, s)
    ensures !FieldsDefined(schema, annotations, scope, s)
  {
    if name !in FieldNames(scope) {
      s := Field(Some(alias), name, NoParentheses, [], NoBraces);
    } else {
      var onAlias := FieldType(schema, annotations, scope, alias).value;
      var onName := FieldType(schema, annotations, scope, name);
      var inside := [];
      if onName.Some? {
        inside := Uncovered(schema, annotations, rule, onAlias, onName.value);
      }
      s := Field(Some(alias), name, NoParentheses, [], Braces(inside));
      if FieldsDefined(schema, annotations, scope, s) {
        assert AllDefined(schema, annotations, onName.value, inside);
      }
    }
  }
}
