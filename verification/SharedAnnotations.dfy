/**
 Clearing the flags of shared annotations: it judges values by the declared types exactly
 as long as no list annotation can be met again inside its own elements.
 */
module SharedAnnotations {
  import opened SourceText
  import opened GraphQlSyntax
  import opened ValueRules

  // The fields of the input object an annotation names.
  function FieldsOf(symbols: Symbols, info: TypeInfo): map<string, InputField> {
    if info.base == TObject && info.name in symbols && symbols[info.name].InputObjectType?
    then symbols[info.name].inputFields else map[]
  }

  // Some value conforms to the annotation.
  ghost predicate Fillable(symbols: Symbols, annotations: Annotations, t: Type)
    requires Closed(symbols, annotations.Keys) && t in annotations
  {
    exists v :: Conforms(symbols, annotations, v, annotations[t])
  }

  // There are object values of the input object an annotation names: every required field has a
  // value. An input object that needs itself has none.
  ghost predicate Inhabited(symbols: Symbols, annotations: Annotations, t: Type)
    requires Closed(symbols, annotations.Keys) && t in annotations
  {
    var fields := FieldsOf(symbols, annotations[t]);
    forall f | f in fields && annotations[fields[f].annotation].IsRequired() ::
      Fillable(symbols, annotations, fields[f].annotation)
  }

  // The annotation reached from `t` by following fields of values there are.
  ghost function Follow(symbols: Symbols, annotations: Annotations, t: Type, path: seq<string>): Option<Type>
    requires Closed(symbols, annotations.Keys)
  {
    if path == [] then Some(t)
    else if t !in annotations || !Inhabited(symbols, annotations, t) then None
    else
      var fields := FieldsOf(symbols, annotations[t]);
      if path[0] in fields then Follow(symbols, annotations, fields[path[0]].annotation, path[1..]) else None
  }

  ghost function Reached(symbols: Symbols, annotations: Annotations, t: Type): set<Type>
    requires Closed(symbols, annotations.Keys)
  {
    set u | u in annotations && exists path: seq<string> :: Follow(symbols, annotations, t, path) == Some(u)
  }

  // An annotation of object kind names an input object.
  predicate NamesInput(symbols: Symbols, info: TypeInfo) {
    info.base == TObject ==> info.name in symbols && symbols[info.name].InputObjectType?
  }

  // The fields of input objects have input types. Nothing is asked of any other annotation.
  ghost predicate InputsOnly(symbols: Symbols, annotations: Annotations)
    requires Closed(symbols, annotations.Keys)
  {
    forall name | name in symbols && symbols[name].InputObjectType? ::
      forall f | f in symbols[name].inputFields ::
        NamesInput(symbols, annotations[symbols[name].inputFields[f].annotation])
  }

  ghost predicate HoldsItself(symbols: Symbols, annotations: Annotations, t: Type)
    requires Closed(symbols, annotations.Keys) && t in annotations
  {
    annotations[t].isListType &&
    exists path: seq<string> :: path != [] && Follow(symbols, annotations, t, path) == Some(t)
  }

  // No list below `t` can be met again inside itself.
  ghost predicate NoListHoldsItself(symbols: Symbols, annotations: Annotations, t: Type)
    requires Closed(symbols, annotations.Keys)
  {
    forall u | u in Reached(symbols, annotations, t) :: !HoldsItself(symbols, annotations, u)
  }

  // What is asked of an annotation: fields of input objects name input types that exist, so does the
  // annotation, and no list below it is met again inside itself. That a schema read without a
  // diagnostic has the first two is not proved here.
  ghost predicate Harmless(symbols: Symbols, annotations: Annotations, t: Type)
    requires Closed(symbols, annotations.Keys)
  {
    && t in annotations && InputsOnly(symbols, annotations) && NamesInput(symbols, annotations[t])
    && NoListHoldsItself(symbols, annotations, t)
  }

  lemma SelfReached(symbols: Symbols, annotations: Annotations, t: Type)
    requires Closed(symbols, annotations.Keys) && t in annotations
    ensures t in Reached(symbols, annotations, t)
  {
    assert Follow(symbols, annotations, t, []) == Some(t);
  }

  // A field reaches no more than its object does, and less if the object sits in a list.
  lemma FieldReachesLess(symbols: Symbols, annotations: Annotations, t: Type, f: string)
    requires Closed(symbols, annotations.Keys) && t in annotations && Inhabited(symbols, annotations, t)
    requires f in FieldsOf(symbols, annotations[t])
    ensures var u := FieldsOf(symbols, annotations[t])[f].annotation;
            && Reached(symbols, annotations, u) <= Reached(symbols, annotations, t)
            && (annotations[t].isListType && NoListHoldsItself(symbols, annotations, t) ==>
                  t !in Reached(symbols, annotations, u))
  {
    var u := FieldsOf(symbols, annotations[t])[f].annotation;
    forall w, path: seq<string> | Follow(symbols, annotations, u, path) == Some(w)
      ensures Follow(symbols, annotations, t, [f] + path) == Some(w)
    {
      assert ([f] + path)[1..] == path;
    }
    SelfReached(symbols, annotations, t);
  }

  // Some flags are cleared, of list annotations only.
  ghost predicate Cleared(declared: Annotations, now: Annotations) {
    && now.Keys == declared.Keys
    && forall u | u in declared ::
         now[u] == declared[u] || (declared[u].isListType && now[u] == declared[u].Element())
  }

  // Below `t` no flag is cleared, except that a checker may stand inside the list `t` itself.
  ghost predicate Agree(symbols: Symbols, declared: Annotations, now: Annotations, t: Type)
    requires Closed(symbols, declared.Keys) && t in declared && Cleared(declared, now)
  {
    forall u | u in Reached(symbols, declared, t) :: now[u] == declared[u] || u == t
  }

  // Below an object the checker sees the declared annotations.
  lemma AgreeBelow(symbols: Symbols, declared: Annotations, now: Annotations, t: Type, f: string)
    requires Closed(symbols, declared.Keys) && t in declared && Cleared(declared, now)
    requires NoListHoldsItself(symbols, declared, t) && Agree(symbols, declared, now, t)
    requires Inhabited(symbols, declared, t) && f in FieldsOf(symbols, declared[t])
    ensures var u := FieldsOf(symbols, declared[t])[f].annotation;
            && Agree(symbols, declared, now, u) && now[u] == declared[u]
            && NoListHoldsItself(symbols, declared, u)
  {
    var u := FieldsOf(symbols, declared[t])[f].annotation;
    FieldReachesLess(symbols, declared, t, f);
    SelfReached(symbols, declared, u);
  }

  // Conforming fields with the given names, some of them with given values.
  lemma {:induction false} BuildFields(symbols: Symbols, annotations: Annotations, declared: map<string, InputField>,
                                       names: set<string>, given: map<string, Value>) returns (fields: seq<ObjectField>)
    requires Closed(symbols, annotations.Keys) && forall g | g in declared :: declared[g].annotation in annotations
    requires names <= declared.Keys && forall g | g in names ::
               if g in given then Conforms(symbols, annotations, given[g], annotations[declared[g].annotation])
               else Fillable(symbols, annotations, declared[g].annotation)
    ensures DistinctNames(fields) && (forall g :: g in names <==> HasField(fields, g))
    ensures forall k | 0 <= k < |fields| ::
              && fields[k].name in names && (fields[k].name in given ==> fields[k].value == given[fields[k].name])
              && Conforms(symbols, annotations, fields[k].value, annotations[declared[fields[k].name].annotation])
    decreases names
  {
    if names == {} {
      return [];
    }
    var g :| g in names;
    var before := BuildFields(symbols, annotations, declared, names - {g}, given);
    var w: Value;
    if g in given {
      w := given[g];
    } else {
      w :| Conforms(symbols, annotations, w, annotations[declared[g].annotation]);
    }
    fields := before + [ObjectField(g, w, 0, 0)];
    assert fields[|before|].name == g;
    forall n ensures n in names <==> HasField(fields, n) {
      if n in names - {g} {
        var k :| 0 <= k < |before| && before[k].name == n;
        assert fields[k].name == n;
      }
    }
  }

  // An object value, with any conforming value in one of its fields.
  lemma Holder(symbols: Symbols, annotations: Annotations, t: Type, f: string, v: Value) returns (holder: Value)
    requires Closed(symbols, annotations.Keys) && t in annotations && Inhabited(symbols, annotations, t)
    requires f in FieldsOf(symbols, annotations[t])
    requires Conforms(symbols, annotations, v, annotations[FieldsOf(symbols, annotations[t])[f].annotation])
    ensures Conforms(symbols, annotations, holder, annotations[t].Element())
    ensures holder.ObjectValue? && exists k ::
              0 <= k < |holder.fields| && holder.fields[k].name == f && holder.fields[k].value == v
  {
    var declared := FieldsOf(symbols, annotations[t]);
    var required := set g | g in declared && annotations[declared[g].annotation].IsRequired();
    var fields := BuildFields(symbols, annotations, declared, required + {f}, map[f := v]);
    holder := ObjectValue(fields);
    assert HasField(fields, f);
  }

  // There is an object value if all required fields have values.
  lemma SomeObject(symbols: Symbols, annotations: Annotations, t: Type)
    requires Closed(symbols, annotations.Keys) && t in annotations && Inhabited(symbols, annotations, t)
    requires annotations[t].base == TObject && NamesInput(symbols, annotations[t])
    ensures exists v: Value :: v.ObjectValue? && Conforms(symbols, annotations, v, annotations[t].Element())
  {
    var declared := FieldsOf(symbols, annotations[t]);
    var required := set g | g in declared && annotations[declared[g].annotation].IsRequired();
    var fields := BuildFields(symbols, annotations, declared, required, map[]);
    assert Conforms(symbols, annotations, ObjectValue(fields), annotations[t].Element());
  }

  lemma ListFillable(symbols: Symbols, annotations: Annotations, t: Type)
    requires Closed(symbols, annotations.Keys) && t in annotations && annotations[t].isListType
    ensures Fillable(symbols, annotations, t)
  {
    assert Conforms(symbols, annotations, ListValue([]), annotations[t]);
  }

  // A value that passes while some flags are cleared shows that there are values of the declared type.
  lemma {:induction false} PassingFills(symbols: Symbols, declared: Annotations, now: Annotations, v: Value, t: Type)
    requires Closed(symbols, declared.Keys) && InputsOnly(symbols, declared) && Cleared(declared, now)
    requires t in declared && NamesInput(symbols, declared[t]) && Passes(symbols, now, v, t)
    ensures Fillable(symbols, declared, t)
    decreases v, 1
  {
    if declared[t].isListType {
      ListFillable(symbols, declared, t);
    } else if v.ObjectValue? {
      PassingInhabits(symbols, declared, now, v, t);
      SomeObject(symbols, declared, t);
      var w: Value :| w.ObjectValue? && Conforms(symbols, declared, w, declared[t].Element());
      assert Conforms(symbols, declared, w, declared[t]);
    } else {
      assert Conforms(symbols, declared, v, declared[t]);
    }
  }

  lemma {:induction false} PassingInhabits(symbols: Symbols, declared: Annotations, now: Annotations, v: Value, t: Type)
    requires Closed(symbols, declared.Keys) && InputsOnly(symbols, declared) && Cleared(declared, now)
    requires t in declared && NamesInput(symbols, declared[t]) && v.ObjectValue? && Passes(symbols, now, v, t)
    ensures Inhabited(symbols, declared, t)
    decreases v, 0
  {
    var fields := FieldsOf(symbols, declared[t]);
    forall f | f in fields && declared[fields[f].annotation].IsRequired()
      ensures Fillable(symbols, declared, fields[f].annotation)
    {
      var u := fields[f].annotation;
      if declared[u].isListType {
        ListFillable(symbols, declared, u);
      } else {
        var k :| 0 <= k < |v.fields| && v.fields[k].name == f;
        PassingFills(symbols, declared, now, v.fields[k].value, u);
      }
    }
  }

  // An object value, passing or conforming, shows that there are values to follow fields of.
  lemma ConformingInhabits(symbols: Symbols, declared: Annotations, v: Value, t: Type, info: TypeInfo)
    requires Closed(symbols, declared.Keys) && t in declared && v.ObjectValue? && Conforms(symbols, declared, v, info)
    requires info.base == declared[t].base && info.name == declared[t].name
    ensures Inhabited(symbols, declared, t)
  {
    var fields := FieldsOf(symbols, declared[t]);
    forall f | f in fields && declared[fields[f].annotation].IsRequired()
      ensures Fillable(symbols, declared, fields[f].annotation)
    {
      var k :| 0 <= k < |v.fields| && v.fields[k].name == f;
      assert Conforms(symbols, declared, v.fields[k].value, declared[fields[f].annotation]);
    }
  }

  lemma {:induction false} PassesIffConforms(symbols: Symbols, declared: Annotations, now: Annotations, v: Value,
                                             t: Type)
    requires Closed(symbols, declared.Keys) && InputsOnly(symbols, declared) && Cleared(declared, now)
    requires t in declared && NamesInput(symbols, declared[t])
    requires NoListHoldsItself(symbols, declared, t) && Agree(symbols, declared, now, t)
    ensures Passes(symbols, now, v, t) <==> Conforms(symbols, declared, v, now[t])
    decreases v, 1
  {
    SelfReached(symbols, declared, t);
    match v
    case ListValue(values) =>
      if now[t].isListType {
        var inside := now[t := now[t].Element()];
        forall k | 0 <= k < |values|
          ensures Passes(symbols, inside, values[k], t) <==> Conforms(symbols, declared, values[k], now[t].Element())
        {
          PassesIffConforms(symbols, declared, inside, values[k], t);
        }
      }
    case ObjectValue(fields) =>
      if now[t].base == TObject && !now[t].isListType {
        if Passes(symbols, now, v, t) {
          PassingInhabits(symbols, declared, now, v, t);
        } else if Conforms(symbols, declared, v, now[t]) {
          ConformingInhabits(symbols, declared, v, t, now[t]);
        }
        if Inhabited(symbols, declared, t) {
          ObjectPassesIffConforms(symbols, declared, now, v, t);
        }
      }
    case _ =>
  }

  lemma {:induction false} ObjectPassesIffConforms(symbols: Symbols, declared: Annotations, now: Annotations, v: Value,
                                                   t: Type)
    requires Closed(symbols, declared.Keys) && InputsOnly(symbols, declared) && Cleared(declared, now)
    requires t in declared && NamesInput(symbols, declared[t]) && Inhabited(symbols, declared, t)
    requires NoListHoldsItself(symbols, declared, t) && Agree(symbols, declared, now, t)
    requires v.ObjectValue? && now[t].base == TObject && !now[t].isListType
    ensures Passes(symbols, now, v, t) <==> Conforms(symbols, declared, v, now[t])
    decreases v, 0
  {
    var inputFields := FieldsOf(symbols, declared[t]);
    forall f | f in inputFields
      ensures now[inputFields[f].annotation] == declared[inputFields[f].annotation]
    {
      AgreeBelow(symbols, declared, now, t, f);
    }
    forall k | 0 <= k < |v.fields| && v.fields[k].name in inputFields
      ensures var u := inputFields[v.fields[k].name].annotation;
              Passes(symbols, now, v.fields[k].value, u) <==>
                Conforms(symbols, declared, v.fields[k].value, declared[u])
    {
      AgreeBelow(symbols, declared, now, t, v.fields[k].name);
      PassesIffConforms(symbols, declared, now, v.fields[k].value, inputFields[v.fields[k].name].annotation);
    }
  }

  /** If no list below the annotation is met again inside itself, a value passes the checker
      exactly when it conforms to the declared type. */
  lemma SharedFlagsAreHarmless(symbols: Symbols, annotations: Annotations, v: Value, t: Type)
    requires Closed(symbols, annotations.Keys) && Harmless(symbols, annotations, t)
    ensures Passes(symbols, annotations, v, t) <==> Conforms(symbols, annotations, v, annotations[t])
  {
    PassesIffConforms(symbols, annotations, annotations, v, t);
  }

  // The value follows a path down and ends in an empty list.
  ghost predicate Probes(symbols: Symbols, annotations: Annotations, t: Type, path: seq<string>, v: Value)
    requires Closed(symbols, annotations.Keys)
    decreases |path|
  {
    if path == [] then v == ListValue([])
    else
      && t in annotations && path[0] in FieldsOf(symbols, annotations[t])
      && (annotations[t].isListType ==> v.ListValue? && |v.values| == 1)
      && var holder := if annotations[t].isListType then v.values[0] else v;
         && holder.ObjectValue?
         && exists k :: 0 <= k < |holder.fields| && holder.fields[k].name == path[0] &&
              Probes(symbols, annotations, FieldsOf(symbols, annotations[t])[path[0]].annotation, path[1..],
                     holder.fields[k].value)
  }

  // Along every path to a list there is a conforming value.
  lemma {:induction false} ProbeConforms(symbols: Symbols, annotations: Annotations, t: Type, path: seq<string>)
    returns (v: Value)
    requires Closed(symbols, annotations.Keys) && t in annotations
    requires var end := Follow(symbols, annotations, t, path);
             end.Some? && end.value in annotations && annotations[end.value].isListType
    ensures Probes(symbols, annotations, t, path, v) && Conforms(symbols, annotations, v, annotations[t])
    decreases |path|
  {
    if path == [] {
      return ListValue([]);
    }
    var u := FieldsOf(symbols, annotations[t])[path[0]].annotation;
    var below := ProbeConforms(symbols, annotations, u, path[1..]);
    var holder := Holder(symbols, annotations, t, path[0], below);
    if annotations[t].isListType {
      v := ListValue([holder]);
    } else {
      v := holder;
      assert Conforms(symbols, annotations, v, annotations[t]);
    }
  }

  // The same types, whatever their flags.
  ghost predicate SameNames(declared: Annotations, now: Annotations) {
    now.Keys == declared.Keys && forall u | u in declared ::
      now[u].name == declared[u].name && now[u].base == declared[u].base
  }

  // One step down the path: the annotations a checker sees there, and the value it checks.
  lemma ProbeStep(symbols: Symbols, declared: Annotations, now: Annotations, t: Type, path: seq<string>, v: Value)
    returns (inside: Annotations, w: Value)
    requires Closed(symbols, declared.Keys) && SameNames(declared, now) && t in declared
    requires path != [] && Probes(symbols, declared, t, path, v)
    ensures SameNames(declared, inside) && inside == if declared[t].isListType then now[t := now[t].Element()] else now
    ensures var u := FieldsOf(symbols, declared[t])[path[0]].annotation;
            Probes(symbols, declared, u, path[1..], w) && (Passes(symbols, now, v, t) ==> Passes(symbols, inside, w, u))
  {
    var u := FieldsOf(symbols, declared[t])[path[0]].annotation;
    inside := if declared[t].isListType then now[t := now[t].Element()] else now;
    var holder := if declared[t].isListType then v.values[0] else v;
    var k :| 0 <= k < |holder.fields| && holder.fields[k].name == path[0] &&
      Probes(symbols, declared, u, path[1..], holder.fields[k].value);
    w := holder.fields[k].value;
    assert Passes(symbols, now, v, t) ==> Passes(symbols, inside, holder, t);
  }

  // It fails if the checker has cleared the flag of the list it ends in.
  lemma {:induction false} ProbeFails(symbols: Symbols, declared: Annotations, now: Annotations, t: Type,
                                      path: seq<string>, v: Value)
    requires Closed(symbols, declared.Keys) && SameNames(declared, now) && t in declared
    requires Probes(symbols, declared, t, path, v)
    requires var end := Follow(symbols, declared, t, path);
             end.Some? && end.value in declared && !now[end.value].isListType
    ensures !Passes(symbols, now, v, t)
    decreases |path|
  {
    if path != [] {
      var inside, w := ProbeStep(symbols, declared, now, t, path, v);
      ProbeFails(symbols, declared, inside, FieldsOf(symbols, declared[t])[path[0]].annotation, path[1..], w);
    }
  }

  // It fails as well if it passes through a list and comes back to it.
  lemma {:induction false} ProbeComesBack(symbols: Symbols, declared: Annotations, now: Annotations, t: Type,
                                          first: seq<string>, cycle: seq<string>, v: Value)
    requires Closed(symbols, declared.Keys) && SameNames(declared, now) && t in declared
    requires var u := Follow(symbols, declared, t, first);
             && u.Some? && u.value in declared && declared[u.value].isListType
             && cycle != [] && Follow(symbols, declared, u.value, cycle) == u
    requires Probes(symbols, declared, t, first + cycle, v)
    ensures !Passes(symbols, now, v, t)
    decreases |first|
  {
    hide Passes, Probes, Inhabited;
    var inside, w := ProbeStep(symbols, declared, now, t, first + cycle, v);
    var u := FieldsOf(symbols, declared[t])[(first + cycle)[0]].annotation;
    if first == [] {
      assert first + cycle == cycle;
      ProbeFails(symbols, declared, inside, u, cycle[1..], w);
    } else {
      assert (first + cycle)[1..] == first[1..] + cycle;
      ProbeComesBack(symbols, declared, inside, u, first[1..], cycle, w);
    }
  }

  // One path after another.
  lemma {:induction false} FollowOn(symbols: Symbols, annotations: Annotations, t: Type, first: seq<string>,
                                    second: seq<string>)
    requires Closed(symbols, annotations.Keys) && Follow(symbols, annotations, t, first).Some?
    ensures Follow(symbols, annotations, t, first + second) ==
            Follow(symbols, annotations, Follow(symbols, annotations, t, first).value, second)
    decreases |first|
  {
    if first == [] {
      assert first + second == second;
    } else {
      assert (first + second)[1..] == first[1..] + second;
      FollowOn(symbols, annotations, FieldsOf(symbols, annotations[t])[first[0]].annotation, first[1..], second);
    }
  }

  /** The condition is exact for every single annotation: the checker judges all values by the
      declared type if and only if no list below the annotation is met again inside itself. */
  lemma SharedFlagsExactly(symbols: Symbols, annotations: Annotations, t: Type)
    requires Closed(symbols, annotations.Keys) && InputsOnly(symbols, annotations)
    requires t in annotations && NamesInput(symbols, annotations[t])
    ensures NoListHoldsItself(symbols, annotations, t) <==>
            forall v :: Passes(symbols, annotations, v, t) <==> Conforms(symbols, annotations, v, annotations[t])
  {
    if NoListHoldsItself(symbols, annotations, t) {
      forall v ensures Passes(symbols, annotations, v, t) <==> Conforms(symbols, annotations, v, annotations[t]) {
        SharedFlagsAreHarmless(symbols, annotations, v, t);
      }
    } else {
      var u :| u in Reached(symbols, annotations, t) && HoldsItself(symbols, annotations, u);
      var first: seq<string> :| Follow(symbols, annotations, t, first) == Some(u);
      var cycle: seq<string> :| cycle != [] && Follow(symbols, annotations, u, cycle) == Some(u);
      FollowOn(symbols, annotations, t, first, cycle);
      var v := ProbeConforms(symbols, annotations, t, first + cycle);
      ProbeComesBack(symbols, annotations, annotations, t, first, cycle, v);
    }
  }
}
