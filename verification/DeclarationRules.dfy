/** When objects implement their interfaces, and where a directive can be reached. */
module DeclarationRules {
  import opened SourceText
  import opened GraphQlSyntax

  // Two annotations of the same base, and of the same name where the base takes one. List and
  // non-null flags are not compared.
  predicate SameType(a: TypeInfo, b: TypeInfo) {
    a.base == b.base && (a.base in {TEnum, TObject} ==> a.name == b.name)
  }

  ghost predicate FieldImplemented(annotations: Annotations, object': Declaration, interface': Declaration, f: string)
    requires object'.ObjectType? && interface'.InterfaceType? && f in interface'.fields
    requires interface'.fields[f].annotation in annotations
    requires f in object'.fields ==> object'.fields[f].annotation in annotations
  {
    && f in object'.fields
    && SameType(annotations[object'.fields[f].annotation], annotations[interface'.fields[f].annotation])
  }

  // The object has every field of the interface, with the same type.
  ghost predicate Implements(annotations: Annotations, object': Declaration, interface': Declaration)
    requires object'.ObjectType? && interface'.InterfaceType?
    requires FieldsClosed(object', annotations.Keys) && FieldsClosed(interface', annotations.Keys)
  {
    forall f | f in interface'.fields :: FieldImplemented(annotations, object', interface', f)
  }

  // The named interface is defined, and implemented.
  ghost predicate ImplementsNamed(annotations: Annotations, object': Declaration, interfaces: map<string, Declaration>,
                                  name: string)
    requires object'.ObjectType? && FieldsClosed(object', annotations.Keys)
    requires forall i | i in interfaces :: interfaces[i].InterfaceType? && FieldsClosed(interfaces[i], annotations.Keys)
  {
    name in interfaces && Implements(annotations, object', interfaces[name])
  }

  // Every interface the object names is.
  ghost predicate ImplementsAll(annotations: Annotations, object': Declaration, interfaces: map<string, Declaration>)
    requires object'.ObjectType? && FieldsClosed(object', annotations.Keys)
    requires forall i | i in interfaces :: interfaces[i].InterfaceType? && FieldsClosed(interfaces[i], annotations.Keys)
  {
    forall i | i in object'.implementations :: ImplementsNamed(annotations, object', interfaces, i)
  }

  // The declaration itself carries the directive, or one of its fields or values does.
  predicate Carries(declaration: Declaration, directive: string) {
    match declaration
    case InputObjectType(_, inputFields, _, directives) =>
      directive in directives || exists f | f in inputFields :: directive in inputFields[f].directives
    case EnumType(_, values, directives) =>
      directive in directives || exists v | v in values :: directive in values[v]
    case _ => false
  }

  // The input object or enum found by following fields whose annotation is of object kind.
  function Descend(symbols: Symbols, annotations: Annotations, name: string, path: seq<string>): Option<string>
    decreases |path|
  {
    if path == [] then Some(name)
    else if name in symbols && symbols[name].InputObjectType? && path[0] in symbols[name].inputFields then
      var t := symbols[name].inputFields[path[0]].annotation;
      if t in annotations && annotations[t].base == TObject
      then Descend(symbols, annotations, annotations[t].name, path[1..]) else None
    else None
  }

  /** Some input object or enum reachable from the named one carries the directive. */
  ghost predicate DirectiveReachable(symbols: Symbols, annotations: Annotations, name: string, directive: string) {
    exists path: seq<string> :: CarriedAt(symbols, annotations, name, directive, path)
  }

  ghost predicate CarriedAt(symbols: Symbols, annotations: Annotations, name: string, directive: string,
                            path: seq<string>) {
    var end := Descend(symbols, annotations, name, path);
    end.Some? && end.value in symbols && Carries(symbols[end.value], directive)
  }

  // Every field of object kind leads to an input object or an enum of lower rank: the graph of
  // input types has no cycle, and all of it is defined.
  ghost predicate Acyclic(symbols: Symbols, annotations: Annotations, rank: map<string, nat>) {
    forall name | name in rank ::
      && name in symbols && (symbols[name].InputObjectType? || symbols[name].EnumType?)
      && (symbols[name].InputObjectType? ==>
            forall f | f in symbols[name].inputFields :: FieldDescends(symbols, annotations, rank, name, f))
  }

  ghost predicate FieldDescends(symbols: Symbols, annotations: Annotations, rank: map<string, nat>, name: string,
                                f: string)
    requires name in rank && name in symbols && symbols[name].InputObjectType? && f in symbols[name].inputFields
  {
    var t := symbols[name].inputFields[f].annotation;
    && t in annotations
    && (annotations[t].base == TObject ==> annotations[t].name in rank && rank[annotations[t].name] < rank[name])
  }

  // A directive is reachable from an input object exactly when the object carries it, or it is
  // reachable from a field.
  lemma ReachableStep(symbols: Symbols, annotations: Annotations, name: string, directive: string)
    requires name in symbols
    ensures DirectiveReachable(symbols, annotations, name, directive) <==>
            || Carries(symbols[name], directive)
            || (symbols[name].InputObjectType? && exists f | f in symbols[name].inputFields ::
                  ReachableByField(symbols, annotations, symbols[name].inputFields[f], directive))
  {
    assert Carries(symbols[name], directive) ==> CarriedAt(symbols, annotations, name, directive, []);
    if symbols[name].InputObjectType? {
      forall f |
        && f in symbols[name].inputFields
        && ReachableByField(symbols, annotations, symbols[name].inputFields[f], directive)
        ensures DirectiveReachable(symbols, annotations, name, directive)
      {
        var below := annotations[symbols[name].inputFields[f].annotation].name;
        var path: seq<string> :| CarriedAt(symbols, annotations, below, directive, path);
        assert ([f] + path)[1..] == path;
        assert CarriedAt(symbols, annotations, name, directive, [f] + path);
      }
    }
    if DirectiveReachable(symbols, annotations, name, directive) && !Carries(symbols[name], directive) {
      var path: seq<string> :| CarriedAt(symbols, annotations, name, directive, path);
      var t := symbols[name].inputFields[path[0]].annotation;
      assert CarriedAt(symbols, annotations, annotations[t].name, directive, path[1..]);
      assert ReachableByField(symbols, annotations, symbols[name].inputFields[path[0]], directive);
    }
  }

  ghost predicate ReachableByField(symbols: Symbols, annotations: Annotations, field: InputField, directive: string) {
    && field.annotation in annotations && annotations[field.annotation].base == TObject
    && DirectiveReachable(symbols, annotations, annotations[field.annotation].name, directive)
  }
}
