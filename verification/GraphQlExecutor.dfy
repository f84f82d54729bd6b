/** The query parser, which checks a query against the schema while it reads it. */
module GraphQlExecuting {
  import opened SourceText
  import opened GraphQlTokens
  import opened GraphQlLexer
  import opened GraphQlScanning
  import opened GraphQlSyntax
  import opened ValueRules
  import opened Diagnostics
  import opened Selections
  import TS = TypeSyntax
  import VD = VariableSyntax
  import VS = ValueSyntax
  import SR = ScannerRules
  import QS = QuerySyntax
  import opened QueryFitness

  // The tokens spell the rest of a list whose elements the rules all accept.
  ghost predicate ListAccepted(symbols: Symbols, annotations: Annotations, spelled: VS.Parse, t: Type)
    requires Closed(symbols, annotations.Keys) && t in annotations && (spelled.Parsed? ==> spelled.value.ListValue?)
  {
    spelled.Parsed? && forall k | 0 <= k < |spelled.value.values| ::
      Accepts(symbols, annotations, spelled.value.values[k], t)
  }

  // A list is accepted when its elements are, with the list flag cleared; setting the flag
  // again brings the annotations back.
  lemma ListAcceptedInside(symbols: Symbols, before: Annotations, inside: Annotations, spelled: VS.Parse, t: Type)
    requires Closed(symbols, before.Keys) && t in before && inside == before[t := before[t].(isListType := false)]
    requires spelled.Parsed? ==> spelled.value.ListValue?
    ensures ListAccepted(symbols, inside, spelled, t) && before[t].isListType <==>
            spelled.Parsed? && Accepts(symbols, before, spelled.value, t)
    ensures before[t].isListType ==> inside[t := inside[t].(isListType := true)] == before
  {
  }

  lemma ElementsAccepted(symbols: Symbols, annotations: Annotations, values: seq<Value>, rest: seq<Lexeme>, t: Type)
    requires Closed(symbols, annotations.Keys) && t in annotations
    requires forall k | 0 <= k < |values| :: Accepts(symbols, annotations, values[k], t)
    ensures ListAccepted(symbols, annotations, VS.Parsed(ListValue(values), rest), t)
  {
  }

  // If the rest of a list is accepted, so is its next element.
  lemma NextElementAccepted(symbols: Symbols, annotations: Annotations, lexemes: seq<Lexeme>, values: seq<Value>,
                            t: Type)
    requires Closed(symbols, annotations.Keys) && t in annotations
    requires ListAccepted(symbols, annotations, VS.ParseElements(lexemes, values, false), t)
    ensures var next := VS.ParseValue(lexemes, false);
            next.Parsed? && Accepts(symbols, annotations, next.value, t)
  {
    var r, next := VS.ParseElements(lexemes, values, false), VS.ParseValue(lexemes, false);
    if !next.value.NoValue? {
      VS.ElementsKept(next.rest, values + [next.value], false);
      assert r.value.values[|values|] == next.value;
    }
  }

  // The tokens spell the rest of an object whose fields are declared, all different, and have
  // values the rules accept.
  ghost predicate FieldsAccepted(symbols: Symbols, annotations: Annotations, spelled: VS.Parse,
                                 declared: map<string, InputField>)
    requires Closed(symbols, annotations.Keys) && (spelled.Parsed? ==> spelled.value.ObjectValue?)
    requires forall f | f in declared :: declared[f].annotation in annotations
  {
    spelled.Parsed? && DistinctNames(spelled.value.fields) && forall k | 0 <= k < |spelled.value.fields| ::
      FieldAccepted(symbols, annotations, spelled.value.fields[k], declared)
  }

  ghost predicate FieldAccepted(symbols: Symbols, annotations: Annotations, field: ObjectField,
                                declared: map<string, InputField>)
    requires Closed(symbols, annotations.Keys) && forall f | f in declared :: declared[f].annotation in annotations
  {
    field.name in declared && Accepts(symbols, annotations, field.value, declared[field.name].annotation)
  }

  lemma ObjectAccepted(symbols: Symbols, annotations: Annotations, spelled: VS.Parse, t: Type)
    requires Closed(symbols, annotations.Keys) && t in annotations
    requires spelled.Parsed? ==> spelled.value.ObjectValue?
    ensures var info := annotations[t];
            spelled.Parsed? && Accepts(symbols, annotations, spelled.value, t) <==>
            && info.base == TObject && !info.isListType
            && info.name in symbols && symbols[info.name].InputObjectType?
            && FieldsAccepted(symbols, annotations, spelled, symbols[info.name].inputFields)
            && NamesAccepted(spelled.value.fields, symbols[info.name].inputFields, symbols[info.name].requiredFields)
  {
  }

  // Where an object ends.
  lemma ParseFieldsEnd(lexemes: seq<Lexeme>, fields: seq<ObjectField>)
    ensures lexemes == [] ==> VS.ParseFields(lexemes, fields, false) == VS.Parsed(ObjectValue(fields), [])
    ensures lexemes != [] && lexemes[0].token == CloseBrace ==>
              VS.ParseFields(lexemes, fields, false) == VS.Parsed(ObjectValue(fields), lexemes[1..])
  {
  }

  // One step of reading fields.
  lemma ParseFieldsStep(lexemes: seq<Lexeme>, fields: seq<ObjectField>)
    ensures |lexemes| >= 2 && lexemes[0].token == GName && lexemes[1].token == Colon ==>
              && lexemes[1..][1..] == lexemes[2..]
              && var r := VS.ParseValue(lexemes[2..], false);
                 (r.Parsed? ==> VS.ParseFields(lexemes, fields, false) ==
                                  VS.ParseFields(r.rest, fields + [NextField(lexemes)], false))
  {
  }

  // What holds of the fields read so far, where `first` are the duplicates known at the start.
  ghost predicate FieldsRead(symbols: Symbols, annotations: Annotations, declared: map<string, InputField>,
                             fields: seq<ObjectField>, parsedFields: seq<string>, first: set<string>,
                             duplicates: set<string>)
    requires Closed(symbols, annotations.Keys) && forall f | f in declared :: declared[f].annotation in annotations
  {
    && (forall k | 0 <= k < |fields| :: FieldAccepted(symbols, annotations, fields[k], declared))
    && (forall name :: name in parsedFields <==> HasField(fields, name))
    && (DistinctNames(fields) ==> duplicates == first)
    && (!DistinctNames(fields) ==> exists name | name in duplicates :: HasField(fields, name))
  }

  lemma NoFieldsRead(symbols: Symbols, annotations: Annotations, declared: map<string, InputField>, first: set<string>)
    requires Closed(symbols, annotations.Keys) && forall f | f in declared :: declared[f].annotation in annotations
    ensures FieldsRead(symbols, annotations, declared, [], [], first, first)
  {
  }

  lemma FieldsReadGrow(symbols: Symbols, annotations: Annotations, declared: map<string, InputField>,
                       fields: seq<ObjectField>, parsedFields: seq<string>, first: set<string>, duplicates: set<string>,
                       name: string)
    requires Closed(symbols, annotations.Keys) && forall f | f in declared :: declared[f].annotation in annotations
    requires FieldsRead(symbols, annotations, declared, fields, parsedFields, first, duplicates)
    ensures forall field: ObjectField | field.name == name && DistinctNames(fields + [field]) ::
              name !in parsedFields && duplicates == first
    ensures forall field: ObjectField | field.name == name && FieldAccepted(symbols, annotations, field, declared) ::
              FieldsRead(symbols, annotations, declared, fields + [field], parsedFields + [name], first,
                         if name in parsedFields then duplicates + {name} else duplicates)
  {
    FieldNamesGrow(fields, name);
  }

  // If the rest of an object is accepted, so is its next field, and it repeats none before it.
  lemma NextFieldAccepted(symbols: Symbols, annotations: Annotations, lexemes: seq<Lexeme>, fields: seq<ObjectField>,
                          declared: map<string, InputField>)
    requires Closed(symbols, annotations.Keys) && forall f | f in declared :: declared[f].annotation in annotations
    requires FieldsAccepted(symbols, annotations, VS.ParseFields(lexemes, fields, false), declared)
    ensures DistinctNames(fields)
    ensures lexemes != [] && lexemes[0].token != CloseBrace ==>
            && |lexemes| >= 2 && lexemes[0].token == GName && lexemes[1].token == Colon
            && VS.ParseValue(lexemes[2..], false).Parsed?
            && FieldAccepted(symbols, annotations, NextField(lexemes), declared)
            && DistinctNames(fields + [NextField(lexemes)])
  {
    var r := VS.ParseFields(lexemes, fields, false);
    VS.FieldsKept(lexemes, fields, false);
    if lexemes != [] && lexemes[0].token != CloseBrace {
      var field := NextField(lexemes);
      VS.FieldsKept(VS.ParseValue(lexemes[2..], false).rest, fields + [field], false);
      assert r.value.fields[|fields|] == field;
    }
  }

  // If the rest of an object is accepted, it ends or goes on with a declared name.
  lemma NextNameDeclared(symbols: Symbols, annotations: Annotations, lexemes: seq<Lexeme>, fields: seq<ObjectField>,
                         declared: map<string, InputField>)
    requires Closed(symbols, annotations.Keys) && forall f | f in declared :: declared[f].annotation in annotations
    ensures FieldsAccepted(symbols, annotations, VS.ParseFields(lexemes, fields, false), declared) ==>
              lexemes == [] || lexemes[0].token == CloseBrace ||
              (lexemes[0].token == GName && lexemes[0].text in declared)
  {
    hide FieldsAccepted, VS.ParseFields, VS.ParseValue, DistinctNames;
    if FieldsAccepted(symbols, annotations, VS.ParseFields(lexemes, fields, false), declared) {
      NextFieldAccepted(symbols, annotations, lexemes, fields, declared);
    }
  }

  lemma FieldNamesGrow(fields: seq<ObjectField>, name: string)
    ensures forall field: ObjectField | field.name == name ::
              && (DistinctNames(fields + [field]) <==> DistinctNames(fields) && !HasField(fields, name))
              && (forall n :: HasField(fields + [field], n) <==> HasField(fields, n) || n == name)
    ensures DistinctNames([]) && forall n :: !HasField([], n)
  {
    forall field: ObjectField | field.name == name
      ensures DistinctNames(fields + [field]) <==> DistinctNames(fields) && !HasField(fields, name)
      ensures forall n :: HasField(fields + [field], n) <==> HasField(fields, n) || n == name
    {
      var grown := fields + [field];
      assert forall k | 0 <= k < |fields| :: grown[k] == fields[k];
      assert grown[|fields|] == field;
    }
  }

  // One more field has been read, its name taken from `lexemes`.
  lemma NamedFieldTaken(symbols: Symbols, annotations: Annotations, declared: map<string, InputField>,
                        fields: seq<ObjectField>, parsedFields: seq<string>, first: set<string>,
                        duplicates: set<string>, lexemes: seq<Lexeme>, value: Value, rest: seq<Lexeme>)
    requires Closed(symbols, annotations.Keys) && forall f | f in declared :: declared[f].annotation in annotations
    requires FieldsRead(symbols, annotations, declared, fields, parsedFields, first, duplicates)
    requires lexemes != [] && lexemes[0].token == GName && lexemes[0].text in declared
    requires lexemes[1..] != [] && lexemes[1..][0].token == Colon
    requires VS.ParseValue(lexemes[1..][1..], false) == VS.Parsed(value, rest)
    requires Accepts(symbols, annotations, value, declared[lexemes[0].text].annotation)
    ensures var name := lexemes[0];
            var grown := fields + [ObjectField(name.text, value, name.start, name.end)];
            && VS.ParseFields(lexemes, fields, false) == VS.ParseFields(rest, grown, false)
            && FieldsRead(symbols, annotations, declared, grown, parsedFields + [name.text], first,
                          if name.text in parsedFields then duplicates + {name.text} else duplicates)
  {
    hide Accepts, DistinctNames, FieldsRead, VS.ParseFields, VS.ParseValue;
    ParseFieldsStep(lexemes, fields);
    FieldsReadGrow(symbols, annotations, declared, fields, parsedFields, first, duplicates, lexemes[0].text);
    assert FieldAccepted(symbols, annotations, NextField(lexemes), declared);
  }

  // What must come next, after a name, if the rest of the object is accepted.
  lemma NamedFieldExpected(symbols: Symbols, annotations: Annotations, declared: map<string, InputField>,
                           fields: seq<ObjectField>, parsedFields: seq<string>, first: set<string>,
                           duplicates: set<string>, lexemes: seq<Lexeme>)
    requires Closed(symbols, annotations.Keys) && forall f | f in declared :: declared[f].annotation in annotations
    requires FieldsRead(symbols, annotations, declared, fields, parsedFields, first, duplicates)
    requires lexemes != [] && lexemes[0].token == GName && lexemes[0].text in declared
    ensures FieldsAccepted(symbols, annotations, VS.ParseFields(lexemes, fields, false), declared) ==>
              && lexemes[0].text !in parsedFields && duplicates == first
              && lexemes[1..] != [] && lexemes[1..][0].token == Colon
              && var r := VS.ParseValue(lexemes[1..][1..], false);
                 r.Parsed? && Accepts(symbols, annotations, r.value, declared[lexemes[0].text].annotation)
  {
    hide Accepts, DistinctNames, FieldsRead, FieldsAccepted, VS.ParseFields, VS.ParseValue;
    FieldsReadGrow(symbols, annotations, declared, fields, parsedFields, first, duplicates, lexemes[0].text);
    if FieldsAccepted(symbols, annotations, VS.ParseFields(lexemes, fields, false), declared) {
      NextFieldAccepted(symbols, annotations, lexemes, fields, declared);
      assert lexemes[1..][1..] == lexemes[2..];
    }
  }

  function NextField(lexemes: seq<Lexeme>): ObjectField
    requires |lexemes| >= 2 && VS.ParseValue(lexemes[2..], false).Parsed?
  {
    ObjectField(lexemes[0].text, VS.ParseValue(lexemes[2..], false).value, lexemes[0].start, lexemes[0].end)
  }

  ghost function Part(annotations: Annotations, types: set<Type>): Annotations
    requires types <= annotations.Keys
  {
    map t | t in types :: annotations[t]
  }

  // What some annotations contain tells what fewer of them do.
  lemma SnapshotPart(types: set<Type>, t: Type)
    ensures Snapshot(types) == Part(Snapshot(types + {t}), types)
    ensures Snapshot(types + {t})[t] == t.Info()
  {
  }

  // With one annotation more and no symbols the schema is still closed.
  lemma StillClosed(schema: Schema, types: set<Type>, t: Type)
    requires SchemaClosed(schema, types)
    ensures SchemaClosed(schema.(symbols := map[]), types + {t})
  {
  }

  class GraphQlExecutor {
    const scanner: GraphQlScanner
    const schema: Schema
    ghost const types: set<Type>
    var diagnostics: seq<Diagnostic>
    var currentValueToken: Token
    var duplicateFields: set<string>

    var currentObjectTypes: seq<Declaration>
    var forwardFragmentReferences: seq<Reference>
    var fragmentNames: set<string>

    constructor (scanner: GraphQlScanner, schema: Schema, ghost types: set<Type>)
      requires scanner.Valid() && SchemaClosed(schema, types)
      ensures this.scanner == scanner && this.schema == schema && this.types == types
      ensures Valid() && diagnostics == [] && duplicateFields == {}
      ensures currentObjectTypes == [] && forwardFragmentReferences == [] && fragmentNames == {}
    {
      this.scanner, this.schema, this.types := scanner, schema, types;
      diagnostics, currentValueToken, duplicateFields := [], Unknown, {};
      currentObjectTypes, forwardFragmentReferences, fragmentNames := [], [], {};
    }

    ghost predicate Valid()
      reads scanner
    {
      scanner.Valid() && Closed(schema.symbols, types) && SchemaClosed(schema, types)
    }

    // What the annotations contain at this moment.
    ghost function Now(): (annotations: Annotations)
      reads types
      ensures annotations.Keys == types
    {
      Snapshot(types)
    }

    // Nothing is taken back: neither tokens nor diagnostics.
    twostate predicate Onward()
      reads scanner, `diagnostics
    {
      Valid() && old(scanner.position) <= scanner.position && old(diagnostics) <= diagnostics
    }

    // All annotations contain what they did, and no duplicate field has turned up.
    twostate predicate Undisturbed()
      reads `duplicateFields, types
    {
      Now() == old(Now()) && duplicateFields == old(duplicateFields)
    }

    method AddDiagnostic(diagnostic: Diagnostic)
      modifies `diagnostics
      ensures diagnostics == old(diagnostics) + [diagnostic]
    {
      diagnostics := diagnostics + [diagnostic];
    }

    method ScanExpected(expected: Token) returns (found: bool)
      requires Valid() && expected !in {EndOfDocument, WhiteSpace}
      modifies `diagnostics, scanner
      ensures Valid() && old(scanner.position) <= scanner.position
      ensures found <==> old(scanner.Rest()) != [] && old(scanner.Rest())[0].token == expected
      ensures found ==> scanner.Rest() == old(scanner.Rest())[1..] && diagnostics == old(diagnostics)
      ensures found ==> scanner.GetValue() == old(scanner.Rest())[0].text
      ensures !found ==> old(diagnostics) < diagnostics
    {
      hide SR.SavedInside, SR.Taken, SR.Tried, SR.SkippedTo, SR.BlockSkipped, GraphQlScanner.State, SchemaClosed,
        Lexemes;
      var token := scanner.TakeLexeme(false);
      found := token == expected;
      if !found {
        AddDiagnostic(Expected(expected));
      }
    }

    /** Reads a value and checks it against an annotation on the way. Without a diagnostic it is
        the value the tokens spell, the rules accept it, just its tokens are gone and every
        annotation is as before. A value the rules accept draws no diagnostic, unless a
        duplicate field has been found before: the parser never forgets one. */
    method ParseValue(t: Type) returns (value: Value)
      requires Valid() && t in types
      modifies `diagnostics, `currentValueToken, `duplicateFields, scanner, types`isListType
      ensures Onward()
      ensures !value.NoValue? ==> old(scanner.position) < scanner.position
      ensures diagnostics == old(diagnostics) ==>
                && VS.ParseValue(old(scanner.Rest()), false) == VS.Parsed(value, scanner.Rest())
                && Accepts(schema.symbols, old(Now()), value, t)
                && Undisturbed()
                && (value.NoValue? ==> currentValueToken == CloseBracket)
      ensures diagnostics != old(diagnostics) && old(duplicateFields) == {} ==>
                var r := VS.ParseValue(old(scanner.Rest()), false);
                !(r.Parsed? && Accepts(schema.symbols, old(Now()), r.value, t))
      decreases |scanner.source| + 1 - scanner.position, 1
    {
      hide SR.SavedInside, SR.Taken, SR.Tried, SR.SkippedTo, SR.BlockSkipped, GraphQlScanner.State, SchemaClosed,
        Lexemes, GraphQlScanner.Rest, GraphQlScanner.LinesSound, GraphQlScanner.HistorySound, Accepts, VS.ParseElements,
        VS.ParseFields, Snapshot, NoBreak, Next, VS.ParseValue, VS.LeafValue, Closed, GraphQlExecutor.Now, TextBetween;
      ghost var rest := scanner.Rest();
      currentValueToken := scanner.TakeLexeme(false);
      value := ParseAfterToken(t, rest);
    }

    // A value whose first token has been taken from `rest`.
    method ParseAfterToken(t: Type, ghost rest: seq<Lexeme>) returns (value: Value)
      requires Valid() && t in types
      requires if rest == [] then currentValueToken == EndOfDocument
               else
                 && currentValueToken == rest[0].token && scanner.Rest() == rest[1..]
                 && scanner.GetValue() == rest[0].text
      modifies `diagnostics, `currentValueToken, `duplicateFields, scanner, types`isListType
      ensures Onward() && (rest == [] ==> value.NoValue?)
      ensures diagnostics == old(diagnostics) ==>
                && VS.ParseValue(rest, false) == VS.Parsed(value, scanner.Rest())
                && Accepts(schema.symbols, old(Now()), value, t)
                && Undisturbed()
                && (value.NoValue? ==> currentValueToken == CloseBracket)
      ensures diagnostics != old(diagnostics) && old(duplicateFields) == {} ==>
                var r := VS.ParseValue(rest, false);
                !(r.Parsed? && Accepts(schema.symbols, old(Now()), r.value, t))
      decreases |scanner.source| + 1 - scanner.position, if rest == [] then 0 else 5
    {
      hide SR.SavedInside, SR.Taken, SR.Tried, SR.SkippedTo, SR.BlockSkipped, GraphQlScanner.State, SchemaClosed,
        Lexemes, GraphQlScanner.Rest, GraphQlScanner.LinesSound, GraphQlScanner.HistorySound, Accepts, VS.ParseElements,
        VS.ParseFields, Snapshot, NoBreak, Next, VS.ParseValue, VS.LeafValue, Closed, GraphQlExecutor.Now, TextBetween;
      VS.ParseValueStep(rest, false);
      if currentValueToken == OpenBracket {
        value := ParseElements(t);
      } else if currentValueToken == OpenBrace {
        value := ParseObject(t);
      } else {
        value := ParseLeaf(t);
      }
    }

    // A value of one token, or none at all.
    method ParseLeaf(t: Type) returns (value: Value)
      requires Valid() && t in types
      modifies `diagnostics, scanner
      ensures Onward()
      ensures currentValueToken == CloseBracket || VS.IsLeaf(currentValueToken) ==>
                && value ==
                     (if VS.IsLeaf(currentValueToken) then VS.LeafValue(currentValueToken, old(scanner.GetValue()))
                      else NoValue)
                && scanner.Rest() == old(scanner.Rest())
                && (diagnostics == old(diagnostics) <==> Accepts(schema.symbols, Now(), value, t))
      ensures currentValueToken != CloseBracket && !VS.IsLeaf(currentValueToken) ==>
                value.NoValue? && diagnostics != old(diagnostics)
    {
      hide SR.SavedInside, SR.Taken, SR.Tried, SR.SkippedTo, SR.BlockSkipped, GraphQlScanner.State, SchemaClosed,
        Lexemes, GraphQlScanner.Rest, GraphQlScanner.LinesSound, GraphQlScanner.HistorySound;
      value := NoValue;
      if VS.IsLeaf(currentValueToken) {
        value := VS.LeafValue(currentValueToken, scanner.GetValue());
        CheckLeaf(value, t);
      } else if currentValueToken != CloseBracket {
        AddDiagnostic(ExpectedValue);
        var _ := scanner.SkipTo({GName, CloseParen});
      }
    }

    lemma FlagNow(t: Type)
      requires t in types
      ensures t.Info() == Now()[t]
    {
    }

    method SetListFlag(t: Type, flag: bool)
      requires t in types
      modifies t`isListType
      ensures Now() == old(Now())[t := old(Now())[t].(isListType := flag)]
    {
      t.isListType := flag;
    }

    // The list flag is cleared while the elements are read against the same annotation.
    method ParseElements(t: Type) returns (value: Value)
      requires Valid() && t in types
      modifies `diagnostics, `currentValueToken, `duplicateFields, scanner, types`isListType
      ensures Valid() && old(scanner.position) <= scanner.position
      ensures old(diagnostics) <= diagnostics && value.ListValue?
      ensures diagnostics == old(diagnostics) ==>
                && VS.ParseElements(old(scanner.Rest()), [], false) == VS.Parsed(value, scanner.Rest())
                && Accepts(schema.symbols, old(Now()), value, t)
                && Undisturbed()
      ensures diagnostics != old(diagnostics) && old(duplicateFields) == {} ==>
                var r := VS.ParseElements(old(scanner.Rest()), [], false);
                !(r.Parsed? && Accepts(schema.symbols, old(Now()), r.value, t))
      decreases |scanner.source| + 1 - scanner.position, 3
    {
      hide Snapshot, SR.SavedInside, SR.Taken, SR.Tried, SR.SkippedTo, SR.BlockSkipped, GraphQlScanner.State,
        SchemaClosed, Lexemes, GraphQlScanner.Rest, GraphQlScanner.LinesSound, GraphQlScanner.HistorySound,
        VS.ParseElements, Accepts, ListAccepted;
      ghost var before := Now();
      assert t.isListType == before[t].isListType by { FlagNow(t); }
      if !t.isListType {
        AddDiagnostic(ValueNotAssignable);
      }
      SetListFlag(t, false);
      ghost var inside := Now();
      ghost var spelled := VS.ParseElements(scanner.Rest(), [], false);
      var values := ParseListItems(t);
      if currentValueToken != CloseBracket {
        AddDiagnostic(Expected(CloseBracket));
      }
      SetListFlag(t, true);
      value := ListValue(values);
      ListAcceptedInside(schema.symbols, before, inside, spelled, t);
    }

    method ParseListItems(t: Type) returns (values: seq<Value>)
      requires Valid() && t in types
      modifies `diagnostics, `currentValueToken, `duplicateFields, scanner, types`isListType
      ensures Onward()
      ensures diagnostics == old(diagnostics) ==>
                && VS.ParseElements(old(scanner.Rest()), [], false) == VS.Parsed(ListValue(values), scanner.Rest())
                && ListAccepted(schema.symbols, old(Now()), VS.Parsed(ListValue(values), scanner.Rest()), t)
                && Undisturbed()
                && currentValueToken == CloseBracket
      ensures diagnostics != old(diagnostics) && old(duplicateFields) == {} ==>
                !ListAccepted(schema.symbols, old(Now()), VS.ParseElements(old(scanner.Rest()), [], false), t)
      decreases |scanner.source| + 1 - scanner.position, 2
    {
      hide Snapshot, SR.SavedInside, SR.Taken, SR.Tried, SR.SkippedTo, SR.BlockSkipped, GraphQlScanner.State,
        SchemaClosed, Lexemes, GraphQlScanner.Rest, GraphQlScanner.LinesSound, GraphQlScanner.HistorySound,
        ListAccepted;
      ghost var before, all := Now(), scanner.Rest();
      values := [];
      var element := ParseValue(t);
      ghost var spelled := VS.ParseElements(all, [], false);
      if ListAccepted(schema.symbols, before, spelled, t) {
        NextElementAccepted(schema.symbols, before, all, [], t);
      }
      while !element.NoValue?
        invariant Valid() && old(scanner.position) <= scanner.position
        invariant old(diagnostics) <= diagnostics
        invariant diagnostics == old(diagnostics) ==>
                    && Now() == before && duplicateFields == old(duplicateFields)
                    && (forall k | 0 <= k < |values| :: Accepts(schema.symbols, before, values[k], t))
                    && Accepts(schema.symbols, before, element, t)
                    && (element.NoValue? ==> currentValueToken == CloseBracket)
                    && spelled == if element.NoValue? then VS.Parsed(ListValue(values), scanner.Rest())
                                  else VS.ParseElements(scanner.Rest(), values + [element], false)
        invariant diagnostics != old(diagnostics) && old(duplicateFields) == {} ==>
                    !ListAccepted(schema.symbols, before, spelled, t)
        decreases |scanner.source| + 1 - scanner.position, if element.NoValue? then 0 else 1
      {
        values := values + [element];
        ghost var rest, clean := scanner.Rest(), diagnostics == old(diagnostics);
        element := ParseValue(t);
        if clean && ListAccepted(schema.symbols, before, spelled, t) {
          NextElementAccepted(schema.symbols, before, rest, values, t);
        }
      }
      if diagnostics == old(diagnostics) {
        ElementsAccepted(schema.symbols, before, values, scanner.Rest(), t);
      }
    }

    method ParseObject(t: Type) returns (value: Value)
      requires Valid() && t in types
      modifies `diagnostics, `currentValueToken, `duplicateFields, scanner, types`isListType
      ensures Onward()
      ensures diagnostics == old(diagnostics) ==>
                && VS.ParseFields(old(scanner.Rest()), [], false) == VS.Parsed(value, scanner.Rest())
                && Accepts(schema.symbols, old(Now()), value, t)
                && Undisturbed()
      ensures diagnostics != old(diagnostics) && old(duplicateFields) == {} ==>
                var r := VS.ParseFields(old(scanner.Rest()), [], false);
                !(r.Parsed? && Accepts(schema.symbols, old(Now()), r.value, t))
      decreases |scanner.source| + 1 - scanner.position, 4
    {
      hide SR.SavedInside, SR.Taken, SR.Tried, SR.SkippedTo, SR.BlockSkipped, GraphQlScanner.State, SchemaClosed,
        Lexemes, GraphQlScanner.Rest, GraphQlScanner.LinesSound, GraphQlScanner.HistorySound, VS.ParseFields, Snapshot,
        Accepts, FieldsAccepted, NamesAccepted;
      FlagNow(t);
      ObjectAccepted(schema.symbols, Now(), VS.ParseFields(scanner.Rest(), [], false), t);
      if t.base != TObject || t.isListType {
        scanner.SkipBlock();
        AddDiagnostic(ValueNotAssignable);
        return NoValue;
      }
      if t.name !in schema.symbols {
        AddDiagnostic(UndefinedBehaviour);
        return NoValue;
      }
      if !schema.symbols[t.name].InputObjectType? {
        AddDiagnostic(NotAnObject(t.name));
        return NoValue;
      }
      value := ParseDeclaredFields(schema.symbols[t.name].inputFields, schema.symbols[t.name].requiredFields);
    }

    // The fields that are there; then duplicates are reported, and required fields not there.
    method ParseDeclaredFields(declared: map<string, InputField>, required: seq<string>) returns (value: Value)
      requires Valid() && forall f | f in declared :: declared[f].annotation in types
      modifies `diagnostics, `currentValueToken, `duplicateFields, scanner, types`isListType
      ensures Onward()
      ensures diagnostics == old(diagnostics) ==>
                && Undisturbed()
                && var r := VS.ParseFields(old(scanner.Rest()), [], false);
                   && r == VS.Parsed(value, scanner.Rest())
                   && FieldsAccepted(schema.symbols, old(Now()), r, declared)
                   && NamesAccepted(value.fields, declared, required)
      ensures diagnostics != old(diagnostics) && old(duplicateFields) == {} ==>
                var r := VS.ParseFields(old(scanner.Rest()), [], false);
                !(FieldsAccepted(schema.symbols, old(Now()), r, declared) &&
                  NamesAccepted(r.value.fields, declared, required))
      decreases |scanner.source| + 1 - scanner.position, 3
    {
      hide Snapshot, SR.SavedInside, SR.Taken, SR.Tried, SR.SkippedTo, SR.BlockSkipped, GraphQlScanner.State,
        SchemaClosed, Lexemes, GraphQlScanner.Rest, GraphQlScanner.LinesSound, GraphQlScanner.HistorySound,
        VS.ParseFields;
      var finished, fields, parsedFields := ParseFields(declared);
      if !finished {
        return NoValue;
      }
      value := ObjectValue(fields);
      ReportDuplicates(fields);
      ReportMissingFields(required, parsedFields);
    }

    method ReportDuplicates(fields: seq<ObjectField>)
      modifies `diagnostics
      ensures old(diagnostics) <= diagnostics
      ensures diagnostics == old(diagnostics) <==> forall name | name in duplicateFields :: !HasField(fields, name)
    {
      var names := duplicateFields;
      while names != {}
        invariant old(diagnostics) <= diagnostics && names <= duplicateFields
        invariant diagnostics == old(diagnostics) <==>
                  forall name | name in duplicateFields - names :: !HasField(fields, name)
        decreases |names|
      {
        var name :| name in names;
        assert duplicateFields - (names - {name}) == duplicateFields - names + {name};
        names := names - {name};
        ghost var clean := diagnostics == old(diagnostics);
        for i := 0 to |fields|
          invariant old(diagnostics) <= diagnostics
          invariant diagnostics == old(diagnostics) <==> clean && forall k | 0 <= k < i :: fields[k].name != name
        {
          if fields[i].name == name {
            AddDiagnostic(DuplicateField(name, fields[i].start, fields[i].end));
          }
        }
      }
    }

    method ReportMissingFields(required: seq<string>, parsedFields: seq<string>)
      modifies `diagnostics
      ensures old(diagnostics) <= diagnostics
      ensures diagnostics == old(diagnostics) <==> forall f | f in required :: f in parsedFields
    {
      for i := 0 to |required|
        invariant old(diagnostics) <= diagnostics
        invariant diagnostics == old(diagnostics) <==> forall f | f in required[..i] :: f in parsedFields
      {
        if required[i] !in parsedFields {
          AddDiagnostic(MissingRequiredField(required[i]));
        }
        assert required[..i + 1] == required[..i] + [required[i]];
      }
      assert required[..|required|] == required;
    }

    // A token that is no field name, or a field that is not declared: skips to a name or to the
    // end of the object.
    method SkipToFieldName(diagnostic: Diagnostic) returns (again: bool)
      requires scanner.Valid()
      modifies `diagnostics, scanner
      ensures scanner.Valid() && old(scanner.position) <= scanner.position
      ensures diagnostics == old(diagnostics) + [diagnostic]
    {
      hide SR.SavedInside, SR.Taken, SR.Tried, SR.SkippedTo, SR.BlockSkipped, GraphQlScanner.State, SchemaClosed,
        Lexemes;
      AddDiagnostic(diagnostic);
      var token := scanner.SkipTo({CloseBrace, GName});
      again := token == GName;
    }

    // The colon and the value of a field.
    method ParseFieldValue(t: Type) returns (found: bool, value: Value)
      requires Valid() && t in types
      modifies `diagnostics, `currentValueToken, `duplicateFields, scanner, types`isListType
      ensures Onward()
      ensures diagnostics == old(diagnostics) ==>
                && found && old(scanner.Rest()) != [] && old(scanner.Rest())[0].token == Colon
                && VS.ParseValue(old(scanner.Rest())[1..], false) == VS.Parsed(value, scanner.Rest())
                && Accepts(schema.symbols, old(Now()), value, t)
                && Undisturbed()
      ensures diagnostics != old(diagnostics) && old(duplicateFields) == {} ==>
                && (old(scanner.Rest()) != [] && old(scanner.Rest())[0].token == Colon ==>
                      var r := VS.ParseValue(old(scanner.Rest())[1..], false);
                      !(r.Parsed? && Accepts(schema.symbols, old(Now()), r.value, t)))
      decreases |scanner.source| + 1 - scanner.position, 2
    {
      hide SR.SavedInside, SR.Taken, SR.Tried, SR.SkippedTo, SR.BlockSkipped, GraphQlScanner.State, SchemaClosed,
        Lexemes, GraphQlScanner.Rest, GraphQlScanner.LinesSound, GraphQlScanner.HistorySound, Accepts, VS.ParseValue;
      value := NoValue;
      found := ScanExpected(Colon);
      if found {
        value := ParseValue(t);
      }
    }

    method ParseFields(declared: map<string, InputField>)
      returns (finished: bool, fields: seq<ObjectField>, parsedFields: seq<string>)
      requires Valid() && forall f | f in declared :: declared[f].annotation in types
      modifies `diagnostics, `currentValueToken, `duplicateFields, scanner, types`isListType
      ensures Onward()
      ensures diagnostics == old(diagnostics) ==>
                && finished && Now() == old(Now())
                && VS.ParseFields(old(scanner.Rest()), [], false) == VS.Parsed(ObjectValue(fields), scanner.Rest())
                && FieldsRead(schema.symbols, old(Now()), declared, fields, parsedFields, old(duplicateFields),
                              duplicateFields)
      ensures diagnostics != old(diagnostics) && old(duplicateFields) == {} ==>
                !FieldsAccepted(schema.symbols, old(Now()), VS.ParseFields(old(scanner.Rest()), [], false), declared)
      decreases |scanner.source| + 1 - scanner.position, 2
    {
      hide Snapshot, SR.SavedInside, SR.Taken, SR.Tried, SR.SkippedTo, SR.BlockSkipped, GraphQlScanner.State,
        SchemaClosed, Lexemes, GraphQlScanner.Rest, GraphQlScanner.LinesSound, GraphQlScanner.HistorySound,
        FieldsAccepted, FieldsRead, VS.ParseFields;
      ghost var before := Now();
      ghost var spelled := VS.ParseFields(scanner.Rest(), [], false);
      NoFieldsRead(schema.symbols, before, declared, duplicateFields);
      fields, parsedFields, finished := [], [], false;
      var more := true;
      while more
        invariant Valid() && old(scanner.position) <= scanner.position
        invariant old(diagnostics) <= diagnostics && (!more ==> finished)
        invariant diagnostics == old(diagnostics) ==>
                    && spelled == (if more then VS.ParseFields(scanner.Rest(), fields, false)
                                   else VS.Parsed(ObjectValue(fields), scanner.Rest()))
                    && Now() == before
                    && FieldsRead(schema.symbols, before, declared, fields, parsedFields, old(duplicateFields),
                                  duplicateFields)
        invariant diagnostics != old(diagnostics) && old(duplicateFields) == {} ==>
                    !FieldsAccepted(schema.symbols, before, spelled, declared)
        decreases |scanner.source| + 1 - scanner.position, if more then 1 else 0
      {
        var aborted;
        ghost var clean := diagnostics == old(diagnostics);
        more, aborted, fields, parsedFields :=
          ParseObjectField(declared, fields, parsedFields, old(duplicateFields), clean);
        if aborted {
          return;
        }
        finished := !more;
      }
    }

    // One round of the loop over the fields of an object; `clean` when no diagnostic was drawn.
    method ParseObjectField(declared: map<string, InputField>, fields: seq<ObjectField>, parsedFields: seq<string>,
                      ghost first: set<string>, ghost clean: bool)
      returns (more: bool, aborted: bool, fields': seq<ObjectField>, parsedFields': seq<string>)
      requires Valid() && forall f | f in declared :: declared[f].annotation in types
      requires clean ==> FieldsRead(schema.symbols, Now(), declared, fields, parsedFields, first, duplicateFields)
      modifies `diagnostics, `currentValueToken, `duplicateFields, scanner, types`isListType
      ensures Onward()
      ensures more ==> old(scanner.position) < scanner.position
      ensures clean && diagnostics == old(diagnostics) ==>
                && !aborted && Now() == old(Now())
                && VS.ParseFields(old(scanner.Rest()), fields, false) ==
                     (if more then VS.ParseFields(scanner.Rest(), fields', false)
                      else VS.Parsed(ObjectValue(fields'), scanner.Rest()))
                && FieldsRead(schema.symbols, old(Now()), declared, fields', parsedFields', first, duplicateFields)
      ensures clean && diagnostics != old(diagnostics) && first == {} ==>
                !FieldsAccepted(schema.symbols, old(Now()), VS.ParseFields(old(scanner.Rest()), fields, false),
                                declared)
      decreases |scanner.source| + 1 - scanner.position, 1
    {
      hide Snapshot, SR.SavedInside, SR.Taken, SR.Tried, SR.SkippedTo, SR.BlockSkipped, GraphQlScanner.State,
        SchemaClosed, Lexemes, NoBreak, GraphQlScanner.Rest, GraphQlScanner.LinesSound, GraphQlScanner.HistorySound,
        FieldsAccepted, Accepts, DistinctNames, HasField, FieldsRead, VS.ParseValue, VS.ParseFields;
      ghost var rest := scanner.Rest();
      ParseFieldsEnd(rest, fields);
      NextNameDeclared(schema.symbols, Now(), rest, fields, declared);
      more, aborted, fields', parsedFields' := false, false, fields, parsedFields;
      var token := scanner.TakeLexeme(false);
      if token == CloseBrace || token == EndOfDocument {
        return;
      }
      var name, start, end := scanner.GetValue(), scanner.startPosition, scanner.position;
      if token != GName || name !in declared {
        more := SkipToFieldName(if token != GName then ExpectedObjectFieldName else FieldDoesNotExist(name));
        more := more || token == GName;
      } else {
        more, fields', parsedFields' :=
          ParseNamedField(name, start, end, declared, fields, parsedFields, rest, first, clean);
        aborted := !more;
      }
    }

    // The rest of a field whose name has been taken from `rest`.
    method ParseNamedField(name: string, start: nat, end: nat, declared: map<string, InputField>,
                           fields: seq<ObjectField>, parsedFields: seq<string>,
                           ghost rest: seq<Lexeme>, ghost first: set<string>, ghost clean: bool)
      returns (found: bool, fields': seq<ObjectField>, parsedFields': seq<string>)
      requires Valid() && name in declared && forall f | f in declared :: declared[f].annotation in types
      requires rest != [] && rest[0] == Lexeme(GName, name, start, end) && scanner.Rest() == rest[1..]
      requires clean ==> FieldsRead(schema.symbols, Now(), declared, fields, parsedFields, first, duplicateFields)
      modifies `diagnostics, `currentValueToken, `duplicateFields, scanner, types`isListType
      ensures Onward()
      ensures clean && diagnostics == old(diagnostics) ==>
                && found && Now() == old(Now())
                && VS.ParseFields(rest, fields, false) == VS.ParseFields(scanner.Rest(), fields', false)
                && FieldsRead(schema.symbols, old(Now()), declared, fields', parsedFields', first, duplicateFields)
      ensures clean && diagnostics != old(diagnostics) && first == {} ==>
                !FieldsAccepted(schema.symbols, old(Now()), VS.ParseFields(rest, fields, false), declared)
      decreases |scanner.source| + 1 - scanner.position, 3
    {
      hide Snapshot, SR.SavedInside, SR.Taken, SR.Tried, SR.SkippedTo, SR.BlockSkipped, GraphQlScanner.State,
        SchemaClosed, Lexemes, NoBreak, GraphQlScanner.Rest, GraphQlScanner.LinesSound, GraphQlScanner.HistorySound,
        FieldsAccepted, Accepts, DistinctNames, HasField, FieldsRead, VS.ParseValue, VS.ParseFields, Closed,
        GraphQlScanner.Valid;
      ghost var before, duplicates := Now(), duplicateFields;
      if clean {
        NamedFieldExpected(schema.symbols, before, declared, fields, parsedFields, first, duplicates, rest);
      }
      if name in parsedFields {
        duplicateFields := duplicateFields + {name};
      }
      parsedFields' := parsedFields + [name];
      var fieldValue;
      found, fieldValue := ParseFieldValue(declared[name].annotation);
      fields' := if found then fields + [ObjectField(name, fieldValue, start, end)] else fields;
      if clean && diagnostics == old(diagnostics) {
        NamedFieldTaken(schema.symbols, before, declared, fields, parsedFields, first, duplicates, rest, fieldValue,
                        scanner.Rest());
      }
    }

    method CheckLeaf(value: Value, t: Type)
      requires !value.NoValue? && !value.ListValue? && !value.ObjectValue?
      requires t in types && SchemaClosed(schema, types)
      modifies `diagnostics
      ensures old(diagnostics) <= diagnostics
      ensures diagnostics == old(diagnostics) <==> Accepts(schema.symbols, Now(), value, t)
    {
      if value.NullValue? {
        if t.isNonNull || t.isNonNullList {
          AddDiagnostic(ValueNotAssignable);
        }
      } else {
        if !LeafFits(value, t.Info()) {
          AddDiagnostic(ValueNotAssignable);
        }
        if value.EnumValue? && !IsEnumMember(schema.symbols, t.Info(), value.name) {
          AddDiagnostic(UndefinedEnumValue(value.name));
        }
      }
    }

    // Takes the next token if it is the expected one.
    method ScanOptional(expected: Token, keywordAsName: bool) returns (found: bool)
      requires scanner.Valid() && expected !in {EndOfDocument, WhiteSpace}
      modifies scanner
      ensures scanner.Valid()
      ensures if found then old(scanner.position) < scanner.position else scanner.position == old(scanner.position)
      ensures found <==> old(scanner.Rest()) != [] && old(scanner.Rest())[0].token.InMode(keywordAsName) == expected
      ensures scanner.Rest() == if found then old(scanner.Rest())[1..] else old(scanner.Rest())
      ensures found ==>
                scanner.position == old(scanner.Rest())[0].end && scanner.GetValue() == old(scanner.Rest())[0].text
    {
      hide SR.SavedInside, SR.Taken, SR.Tried, SR.SkippedTo, SR.BlockSkipped, GraphQlScanner.State, Next, NoBreak,
        GraphQlScanner.LinesSound, GraphQlScanner.HistorySound;
      var token := scanner.TryScan(expected, keywordAsName, true);
      found := token == expected;
    }

    // Takes a name if it comes next with no white space before it.
    method TakeAdjacentName() returns (found: bool)
      requires scanner.Valid()
      modifies scanner
      ensures scanner.Valid() && old(scanner.position) <= scanner.position
      ensures var rest := old(scanner.Rest());
              && (found <==> rest != [] && QS.IsName(rest[0]) && rest[0].start == old(scanner.position))
              && (found ==>
                    && old(scanner.position) < scanner.position
                    && scanner.Rest() == rest[1..] && scanner.GetValue() == rest[0].text)
    {
      hide SR.SavedInside, Next, NoBreak, GraphQlScanner.LinesSound, GraphQlScanner.HistorySound, SR.Taken;
      NameWithoutSpace(scanner.source, scanner.position);
      var token := scanner.TakeNextToken(true, false);
      found := token == GName;
    }

    method SkipToNextPrimaryToken()
      requires scanner.Valid()
      modifies scanner
      ensures scanner.Valid() && old(scanner.position) <= scanner.position
    {
      hide Next, Lexemes;
      var _ := scanner.SkipTo({QueryKeyword, MutationKeyword, SubscriptionKeyword, FragmentKeyword});
    }

    /** Reads arguments up to anything that is no name. No diagnostic is drawn exactly when the tokens
        spell arguments of which each is declared and has an acceptable value, and none that must
        be given is missing; and then it is just these. */
    method ParseArguments(declared: map<string, Type>) returns (arguments: Option<seq<Argument>>)
      requires Valid() && ArgumentsClosed(declared, types)
      modifies `diagnostics, `currentValueToken, `duplicateFields, scanner, types`isListType
      ensures Onward()
      ensures diagnostics == old(diagnostics) ==>
                && arguments.Some? && Undisturbed()
                && ArgumentsSound(schema, old(Now()), declared, arguments.value)
                && QS.ReadArguments(old(scanner.Rest()), []) == QS.Read(arguments.value, scanner.Rest())
      ensures diagnostics != old(diagnostics) && old(duplicateFields) == {} ==>
                !ArgumentsFit(schema, old(Now()), declared, QS.ReadArguments(old(scanner.Rest()), []))
      decreases |scanner.source| + 1 - scanner.position, 1
    {
      hide SR.SavedInside, SR.Taken, SR.Tried, SR.SkippedTo, SR.BlockSkipped, GraphQlScanner.State, GraphQlScanner.Rest,
        Lexemes, Next, NoBreak, SchemaClosed, ArgumentSound, QS.ReadArguments;
      var read := [];
      var more := true;
      while more
        invariant Valid() && old(scanner.position) <= scanner.position
        invariant old(diagnostics) <= diagnostics
        invariant diagnostics == old(diagnostics) ==>
                    && Undisturbed()
                    && (forall k | 0 <= k < |read| :: ArgumentSound(schema, old(Now()), declared, read[k]))
                    && QS.ReadArguments(old(scanner.Rest()), []) ==
                         (if more then QS.ReadArguments(scanner.Rest(), read) else QS.Read(read, scanner.Rest()))
        invariant diagnostics != old(diagnostics) && old(duplicateFields) == {} ==>
                    !ArgumentsFit(schema, old(Now()), declared, QS.ReadArguments(old(scanner.Rest()), []))
        decreases |scanner.source| + 1 - scanner.position, if more then 1 else 0
      {
        var argument, aborted;
        argument, aborted := ParseArgument(declared, read);
        if aborted {
          return None;
        }
        more := argument.Some?;
        if more {
          read := read + [argument.value];
        }
      }
      ReportMissingArguments(declared, read);
      arguments := Some(read);
    }

    // One argument behind those in `read`, or none where the next token is no name.
    method ParseArgument(declared: map<string, Type>, ghost read: seq<Argument>)
      returns (argument: Option<Argument>, aborted: bool)
      requires Valid() && ArgumentsClosed(declared, types)
      modifies `diagnostics, `currentValueToken, `duplicateFields, scanner, types`isListType
      ensures Onward()
      ensures argument.Some? ==> old(scanner.position) < scanner.position
      ensures aborted ==> diagnostics != old(diagnostics)
      ensures diagnostics == old(diagnostics) ==>
                && Undisturbed()
                && (argument.Some? ==> ArgumentSound(schema, old(Now()), declared, argument.value))
                && QS.ReadArguments(old(scanner.Rest()), read) ==
                     if argument.Some? then QS.ReadArguments(scanner.Rest(), read + [argument.value])
                     else QS.Read(read, scanner.Rest())
      ensures diagnostics != old(diagnostics) && old(duplicateFields) == {} ==>
                !ArgumentsFit(schema, old(Now()), declared, QS.ReadArguments(old(scanner.Rest()), read))
      decreases |scanner.source| + 1 - scanner.position, 0
    {
      hide SR.SavedInside, SR.Taken, SR.Tried, SR.SkippedTo, SR.BlockSkipped, GraphQlScanner.State, GraphQlScanner.Rest,
        Lexemes, Next, NoBreak, Snapshot, SchemaClosed, Accepts, VS.ParseValue, GraphQlExecutor.Now, QS.ReadArguments,
        QS.ReadDirectives, DirectivesFit, ArgumentSound, ArgumentsFit, ArgumentsClosed, Closed, FieldsClosed,
        TextBetween;
      argument, aborted := None, false;
      ghost var rest := scanner.Rest();
      QS.ArgumentsStep(rest, read);
      if rest != [] && QS.IsName(rest[0]) {
        NextArgument(schema, Now(), declared, rest, read);
      }
      var token := scanner.TakeLexeme(true);
      if token == GName {
        argument := ParseNamedArgument(scanner.GetValue(), declared);
        aborted := argument.None?;
      }
    }

    // An argument after its name.
    method ParseNamedArgument(name: string, declared: map<string, Type>) returns (argument: Option<Argument>)
      requires Valid() && ArgumentsClosed(declared, types)
      modifies `diagnostics, `currentValueToken, `duplicateFields, scanner, types`isListType
      ensures Onward()
      ensures argument.None? ==> diagnostics != old(diagnostics)
      ensures diagnostics == old(diagnostics) ==>
                && Undisturbed()
                && argument.value.name == name && ArgumentSound(schema, old(Now()), declared, argument.value)
                && Starts(old(scanner.Rest()), Colon)
                && var r := VS.ParseValue(old(scanner.Rest())[1..], false);
                   && r.Parsed? && r.value == argument.value.value
                   && QS.ReadDirectives(r.rest, []) == QS.Read(argument.value.directives, scanner.Rest())
      ensures diagnostics != old(diagnostics) && old(duplicateFields) == {} ==>
                !(name in declared && Starts(old(scanner.Rest()), Colon) &&
                  var r := VS.ParseValue(old(scanner.Rest())[1..], false);
                  && r.Parsed? && Accepts(schema.symbols, old(Now()), r.value, declared[name])
                  && DirectivesFit(schema, old(Now()), OnArgumentDefinition, QS.ReadDirectives(r.rest, [])))
      decreases |scanner.source| + 1 - scanner.position, 4
    {
      hide SR.SavedInside, SR.Taken, SR.Tried, SR.SkippedTo, SR.BlockSkipped, GraphQlScanner.State, GraphQlScanner.Rest,
        Lexemes, Next, NoBreak, Snapshot, SchemaClosed, Accepts, VS.ParseValue, QS.ReadDirectives, DirectivesSound,
        DirectivesFit, Closed, TextBetween;
      if name !in declared {
        AddDiagnostic(UnknownArgument(name));
      }
      var found := ScanExpected(Colon);
      if !found {
        var _ := scanner.SkipTo({CloseBrace});
        return None;
      }
      var value, directives := ParseArgumentValue(name, declared);
      argument := Some(Argument(name, value, directives));
    }

    // The value of an argument after its colon, or a way past it, and the directives behind it.
    method ParseArgumentValue(name: string, declared: map<string, Type>)
      returns (value: Value, directives: seq<Directive>)
      requires Valid() && ArgumentsClosed(declared, types)
      modifies `diagnostics, `currentValueToken, `duplicateFields, scanner, types`isListType
      ensures Onward()
      ensures diagnostics == old(diagnostics) ==>
                && Undisturbed()
                && DirectivesSound(schema, old(Now()), directives, OnArgumentDefinition)
                && (name in declared ==>
                      && Accepts(schema.symbols, old(Now()), value, declared[name])
                      && var r := VS.ParseValue(old(scanner.Rest()), false);
                         r.Parsed? && r.value == value &&
                         QS.ReadDirectives(r.rest, []) == QS.Read(directives, scanner.Rest()))
      ensures diagnostics != old(diagnostics) && old(duplicateFields) == {} && name in declared ==>
                var r := VS.ParseValue(old(scanner.Rest()), false);
                !(&& r.Parsed? && Accepts(schema.symbols, old(Now()), r.value, declared[name])
                  && DirectivesFit(schema, old(Now()), OnArgumentDefinition, QS.ReadDirectives(r.rest, [])))
      decreases |scanner.source| + 1 - scanner.position, 3
    {
      hide SR.SavedInside, SR.Taken, SR.Tried, SR.SkippedTo, SR.BlockSkipped, GraphQlScanner.State, GraphQlScanner.Rest,
        Lexemes, Next, NoBreak, Snapshot, SchemaClosed, Accepts, VS.ParseValue, QS.ReadDirectives, DirectivesSound;
      value := NoValue;
      if name in declared {
        value := ParseValue(declared[name]);
      } else {
        var _ := scanner.SkipTo({GName, CloseParen});
      }
      directives := ParseDirectives(OnArgumentDefinition);
    }

    method ReportMissingArguments(declared: map<string, Type>, arguments: seq<Argument>)
      requires ArgumentsClosed(declared, types)
      modifies `diagnostics
      ensures old(diagnostics) <= diagnostics
      ensures diagnostics == old(diagnostics) <==>
                forall a | a in declared && !declared[a].Info().TakesNull() :: HasArgument(arguments, a)
    {
      var names := declared.Keys;
      while names != {}
        invariant names <= declared.Keys && old(diagnostics) <= diagnostics
        invariant diagnostics == old(diagnostics) <==>
                  forall a | a in declared.Keys - names && !declared[a].Info().TakesNull() :: HasArgument(arguments, a)
        decreases |names|
      {
        var name :| name in names;
        names := names - {name};
        if !declared[name].Info().TakesNull() && !HasArgument(arguments, name) {
          AddDiagnostic(MissingRequiredArgument(name));
        }
      }
    }

    /** Reads the directives that stand here. No diagnostic is drawn exactly when the tokens spell
        directives of which each is defined, allowed at this location, given once and has
        arguments that fit; and then it is just these. */
    method ParseDirectives(location: DirectiveLocation) returns (directives: seq<Directive>)
      requires Valid()
      modifies `diagnostics, `currentValueToken, `duplicateFields, scanner, types`isListType
      ensures Onward()
      ensures diagnostics == old(diagnostics) ==>
                && Undisturbed()
                && DirectivesSound(schema, old(Now()), directives, location)
                && QS.ReadDirectives(old(scanner.Rest()), []) == QS.Read(directives, scanner.Rest())
      ensures diagnostics != old(diagnostics) && old(duplicateFields) == {} ==>
                !DirectivesFit(schema, old(Now()), location, QS.ReadDirectives(old(scanner.Rest()), []))
      decreases |scanner.source| + 1 - scanner.position, 2
    {
      hide SR.SavedInside, SR.Taken, SR.Tried, SR.SkippedTo, SR.BlockSkipped, GraphQlScanner.State, GraphQlScanner.Rest,
        Lexemes, Next, NoBreak, Snapshot, SchemaClosed, QS.ReadDirectives, DirectivesSound, DirectivesFit;
      directives := [];
      var more := true;
      NoDirectivesSound(schema, Now(), location);
      while more
        invariant Valid() && old(scanner.position) <= scanner.position
        invariant old(diagnostics) <= diagnostics
        invariant diagnostics == old(diagnostics) ==>
                    && Undisturbed()
                    && DirectivesSound(schema, old(Now()), directives, location)
                    && QS.ReadDirectives(old(scanner.Rest()), []) ==
                         if more then QS.ReadDirectives(scanner.Rest(), directives)
                         else QS.Read(directives, scanner.Rest())
        invariant diagnostics != old(diagnostics) && old(duplicateFields) == {} ==>
                    !DirectivesFit(schema, old(Now()), location, QS.ReadDirectives(old(scanner.Rest()), []))
        decreases |scanner.source| + 1 - scanner.position, if more then 1 else 0
      {
        ghost var rest := scanner.Rest();
        QS.DirectivesEnd(rest, directives);
        more := ScanOptional(At, false);
        if more {
          more, directives := ParseDirective(location, directives, rest);
        }
      }
    }

    // A directive after its at sign, with no white space between the two; `rest` starts with the sign.
    method ParseDirective(location: DirectiveLocation, directives: seq<Directive>, ghost rest: seq<Lexeme>)
      returns (more: bool, directives': seq<Directive>)
      requires Valid()
      requires Starts(rest, At) && scanner.Rest() == rest[1..] && scanner.position == rest[0].end
      modifies `diagnostics, `currentValueToken, `duplicateFields, scanner, types`isListType
      ensures Onward()
      ensures diagnostics == old(diagnostics) ==>
                && more && Undisturbed()
                && (DirectivesSound(schema, old(Now()), directives, location) ==>
                      DirectivesSound(schema, old(Now()), directives', location))
                && QS.ReadDirectives(rest, directives) == QS.ReadDirectives(scanner.Rest(), directives')
      ensures diagnostics != old(diagnostics) && old(duplicateFields) == {} ==>
                !DirectivesFit(schema, old(Now()), location, QS.ReadDirectives(rest, directives))
      decreases |scanner.source| + 1 - scanner.position, 1
    {
      hide SR.SavedInside, SR.Taken, SR.Tried, SR.SkippedTo, SR.BlockSkipped, GraphQlScanner.State, GraphQlScanner.Rest,
        Lexemes, Next, NoBreak, Snapshot, QS.ReadOptionalArguments, DirectivesSound, DirectivesFit, OptionalFits,
        QS.ReadDirectives, Closed, FieldsClosed;
      more, directives' := false, directives;
      NextDirective(schema, Now(), location, rest, directives);
      QS.DirectivesStep(rest, directives);
      var found := TakeAdjacentName();
      if !found {
        AddDiagnostic(ExpectedName);
        SkipToNextPrimaryToken();
        return;
      }
      var name := scanner.GetValue();
      if name !in schema.directives {
        AddDiagnostic(UndefinedDirective(name));
        var _ := scanner.SkipTo({CloseParen});
        return;
      }
      more, directives' := ParseKnownDirective(name, location, directives);
    }

    // A defined directive after its name, with arguments if a parenthesis follows.
    method ParseKnownDirective(name: string, location: DirectiveLocation, directives: seq<Directive>)
      returns (more: bool, directives': seq<Directive>)
      requires Valid() && name in schema.directives
      modifies `diagnostics, `currentValueToken, `duplicateFields, scanner, types`isListType
      ensures Onward()
      ensures diagnostics == old(diagnostics) ==>
                && more && Undisturbed()
                && (DirectivesSound(schema, old(Now()), directives, location) ==>
                      DirectivesSound(schema, old(Now()), directives', location))
                && var read := QS.ReadOptionalArguments(old(scanner.Rest()));
                   read.Read? && read.rest == scanner.Rest() &&
                   directives' == directives + [Directive(name, read.value)]
      ensures diagnostics != old(diagnostics) && old(duplicateFields) == {} ==>
                !(&& location in schema.directives[name].locations
                  && (forall k | 0 <= k < |directives| :: directives[k].name != name)
                  && OptionalFits(schema, old(Now()), schema.directives[name].arguments,
                                  QS.ReadOptionalArguments(old(scanner.Rest()))))
      decreases |scanner.source| + 1 - scanner.position, 1
    {
      hide SR.SavedInside, SR.Taken, SR.Tried, SR.SkippedTo, SR.BlockSkipped, GraphQlScanner.State, GraphQlScanner.Rest,
        Lexemes, Next, NoBreak, Snapshot, Closed, FieldsClosed, QS.ReadOptionalArguments, OptionalFits, DirectivesSound,
        ArgumentsSound;
      more, directives' := false, directives;
      if location !in schema.directives[name].locations {
        AddDiagnostic(DirectiveLocationNotSupported(name));
      }
      var arguments := ParseOptionalArguments(schema.directives[name].arguments);
      if arguments.None? {
        return;
      }
      more := true;
      directives' := directives + [Directive(name, arguments.value)];
      if exists k | 0 <= k < |directives| :: directives[k].name == name {
        AddDiagnostic(DuplicateDirective(name));
      } else if diagnostics == old(diagnostics) {
        OneMoreDirective(schema, old(Now()), location, directives, Directive(name, arguments.value));
      }
    }

    // Arguments if a parenthesis follows; no result if they could not be read to their end.
    method ParseOptionalArguments(declared: map<string, Type>) returns (arguments: Option<ArgumentList>)
      requires Valid() && ArgumentsClosed(declared, types)
      modifies `diagnostics, `currentValueToken, `duplicateFields, scanner, types`isListType
      ensures Onward()
      ensures diagnostics == old(diagnostics) ==>
                && arguments.Some? && Undisturbed()
                && (arguments.value.Parentheses? ==>
                      ArgumentsSound(schema, old(Now()), declared, arguments.value.arguments))
                && QS.ReadOptionalArguments(old(scanner.Rest())) == QS.Read(arguments.value, scanner.Rest())
      ensures diagnostics != old(diagnostics) && old(duplicateFields) == {} ==>
                !OptionalFits(schema, old(Now()), declared, QS.ReadOptionalArguments(old(scanner.Rest())))
      decreases |scanner.source| + 1 - scanner.position, 0
    {
      hide SR.SavedInside, SR.Taken, SR.Tried, SR.SkippedTo, SR.BlockSkipped, GraphQlScanner.State, GraphQlScanner.Rest,
        Lexemes, Next, NoBreak, Snapshot, SchemaClosed, ArgumentsSound, QS.ReadArguments;
      var parenthesis := ScanOptional(OpenParen, false);
      if !parenthesis {
        return Some(NoParentheses);
      }
      var read := ParseArguments(declared);
      arguments := if read.Some? then Some(Parentheses(read.value)) else None;
    }

    // The types on the stack are those of the schema.
    ghost predicate StackClosed()
      reads `currentObjectTypes
    {
      forall d | d in currentObjectTypes :: FieldsClosed(d, types)
    }

    function Scope(): Declaration
      requires currentObjectTypes != []
      reads `currentObjectTypes
    {
      currentObjectTypes[|currentObjectTypes| - 1]
    }

    lemma ScopeClosed()
      requires StackClosed() && currentObjectTypes != []
      ensures FieldsClosed(Scope(), types)
    {
    }

    method PushType(declaration: Declaration)
      requires StackClosed() && FieldsClosed(declaration, types)
      modifies `currentObjectTypes
      ensures StackClosed() && currentObjectTypes == old(currentObjectTypes) + [declaration]
    {
      currentObjectTypes := currentObjectTypes + [declaration];
    }

    method PopType()
      requires StackClosed() && currentObjectTypes != []
      modifies `currentObjectTypes
      ensures StackClosed() && currentObjectTypes == old(currentObjectTypes)[..|old(currentObjectTypes)| - 1]
    {
      currentObjectTypes := currentObjectTypes[..|currentObjectTypes| - 1];
    }

    /** Reports a fragment on an object type that no value of the type in scope can have. */
    method CheckFragmentAssignment(name: string, typeName: string, scope: Declaration)
      requires typeName in schema.symbols && schema.symbols[typeName].ObjectType? && SchemaClosed(schema, types)
      modifies `diagnostics
      ensures old(diagnostics) <= diagnostics
      ensures diagnostics == old(diagnostics) <==> typeName in PossibleTypes(schema.symbols, scope)
    {
      var object' := schema.symbols[typeName];
      if scope.InterfaceType? {
        if scope.name !in object'.implementations {
          AddDiagnostic(FragmentDoesNotFit(name));
        }
      } else if scope.ObjectType? {
        if scope.name != object'.name {
          AddDiagnostic(FragmentDoesNotFit(name));
        }
      } else if scope.UnionType? {
        if object'.name !in scope.members {
          AddDiagnostic(FragmentDoesNotFit(name));
        }
      } else {
        AddDiagnostic(FragmentDoesNotFit(name));
      }
    }

    // A selection that fits the type in scope has been read, and its spreads noted down.
    twostate predicate SelectionTaken(selection: Selection)
      requires Valid() && old(Valid() && currentObjectTypes != [] && StackClosed())
      reads this, scanner, types
    {
      && Undisturbed() && currentObjectTypes == old(currentObjectTypes)
      && SelectionSound(schema, old(Now()), Any, old(Scope()), selection)
      && forwardFragmentReferences ==
           old(forwardFragmentReferences) + Spreads(schema, old(Now()), old(Scope()), selection)
    }

    // The same of selections, whatever the stack is now.
    twostate predicate SelectionsTaken(selections: seq<Selection>)
      requires Valid() && old(Valid() && currentObjectTypes != [] && StackClosed())
      reads this, scanner, types
    {
      && Undisturbed() && SelectionsSound(schema, old(Now()), Any, old(Scope()), selections)
      && forwardFragmentReferences ==
           old(forwardFragmentReferences) + AllSpreads(schema, old(Now()), old(Scope()), selections)
    }

    // Directives, and selections in braces after them.
    method ParseBody(location: DirectiveLocation)
      returns (directives: seq<Directive>, selections: Option<seq<Selection>>)
      requires Valid() && currentObjectTypes != [] && StackClosed()
      modifies this, scanner, types`isListType
      ensures Onward() && StackClosed() && fragmentNames == old(fragmentNames)
      ensures old(currentObjectTypes)[..|old(currentObjectTypes)| - 1] <= currentObjectTypes
      ensures diagnostics == old(diagnostics) ==>
                && selections.Some? && SelectionsTaken(selections.value)
                && currentObjectTypes == old(currentObjectTypes)[..|old(currentObjectTypes)| - 1]
                && DirectivesSound(schema, old(Now()), directives, location)
                && var read := QS.ReadDirectives(old(scanner.Rest()), []);
                   read.Read? && read.value == directives &&
                   QS.ReadBraces(read.rest) == QS.Read(selections.value, scanner.Rest())
      ensures diagnostics != old(diagnostics) && old(duplicateFields) == {} ==>
                var read := QS.ReadDirectives(old(scanner.Rest()), []);
                !(&& DirectivesFit(schema, old(Now()), location, read)
                  && SelectionsFit(schema, old(Now()), old(Scope()), QS.ReadBraces(read.rest)))
      decreases |scanner.source| + 1 - scanner.position, 4
    {
      hide SR.SavedInside, SR.Taken, SR.Tried, SR.SkippedTo, SR.BlockSkipped, GraphQlScanner.State, GraphQlScanner.Rest,
        Lexemes, Next, NoBreak, Snapshot, Closed, SchemaClosed, SelectionsSound, AllSpreads, DirectivesSound,
        FieldsClosed, QS.ReadDirectives, QS.ReadBraces;
      directives := ParseDirectives(location);
      selections := ParseSelectionSet();
    }

    method ParseSelectionSet() returns (selections: Option<seq<Selection>>)
      requires Valid() && currentObjectTypes != [] && StackClosed()
      modifies this, scanner, types`isListType
      ensures Onward() && StackClosed() && fragmentNames == old(fragmentNames)
      ensures old(currentObjectTypes)[..|old(currentObjectTypes)| - 1] <= currentObjectTypes
      ensures diagnostics == old(diagnostics) ==>
                && selections.Some? && SelectionsTaken(selections.value)
                && currentObjectTypes == old(currentObjectTypes)[..|old(currentObjectTypes)| - 1]
                && QS.ReadBraces(old(scanner.Rest())) == QS.Read(selections.value, scanner.Rest())
      ensures diagnostics != old(diagnostics) && old(duplicateFields) == {} ==>
                !SelectionsFit(schema, old(Now()), old(Scope()), QS.ReadBraces(old(scanner.Rest())))
      decreases |scanner.source| + 1 - scanner.position, 3
    {
      hide SR.SavedInside, SR.Taken, SR.Tried, SR.SkippedTo, SR.BlockSkipped, GraphQlScanner.State, GraphQlScanner.Rest,
        Lexemes, Next, NoBreak, Snapshot, SchemaClosed, SelectionsSound, AllSpreads, QS.ReadSelections;
      var found := ScanExpected(OpenBrace);
      if !found {
        return None;
      }
      selections := ParseSelectionSetAfterOpenBrace();
    }

    /** Reads selections up to the closing brace. No diagnostic is drawn exactly when the tokens spell
        selections that fit the type on top of the stack; they are just these then, their spreads
        have been noted down, that type is gone, and the stack is otherwise as before. */
    method ParseSelectionSetAfterOpenBrace() returns (selections: Option<seq<Selection>>)
      requires Valid() && currentObjectTypes != [] && StackClosed()
      modifies this, scanner, types`isListType
      ensures Onward() && StackClosed() && fragmentNames == old(fragmentNames)
      ensures old(currentObjectTypes)[..|old(currentObjectTypes)| - 1] <= currentObjectTypes
      ensures diagnostics == old(diagnostics) ==>
                && selections.Some? && SelectionsTaken(selections.value)
                && currentObjectTypes == old(currentObjectTypes)[..|old(currentObjectTypes)| - 1]
                && QS.ReadSelections(old(scanner.Rest()), []) == QS.Read(selections.value, scanner.Rest())
      ensures diagnostics != old(diagnostics) && old(duplicateFields) == {} ==>
                !SelectionsFit(schema, old(Now()), old(Scope()), QS.ReadSelections(old(scanner.Rest()), []))
      decreases |scanner.source| + 1 - scanner.position, 2
    {
      hide SR.SavedInside, SR.Taken, SR.Tried, SR.SkippedTo, SR.BlockSkipped, GraphQlScanner.State, GraphQlScanner.Rest,
        Lexemes, Next, NoBreak, Snapshot, Closed, SchemaClosed, SelectionsSound, AllSpreads, StackClosed,
        QS.ReadSelections, FieldsClosed;
      var token, read, aborted := ParseSelections();
      if aborted {
        return None;
      }
      selections := EndSelections(token, read);
    }

    // The selections before the token that ends them, which is taken as well.
    method ParseSelections() returns (token: Token, read: seq<Selection>, aborted: bool)
      requires Valid() && currentObjectTypes != [] && StackClosed()
      modifies this, scanner, types`isListType
      ensures Onward() && StackClosed() && fragmentNames == old(fragmentNames)
      ensures old(currentObjectTypes) <= currentObjectTypes
      ensures aborted ==> diagnostics != old(diagnostics)
      ensures diagnostics == old(diagnostics) ==>
                && SelectionsTaken(read) && currentObjectTypes == old(currentObjectTypes)
                && QS.ReadSelections(old(scanner.Rest()), []) ==
                     if token == CloseBrace then QS.Read(read, scanner.Rest()) else QS.Unread
      ensures diagnostics != old(diagnostics) && old(duplicateFields) == {} ==>
                !SelectionsFit(schema, old(Now()), old(Scope()), QS.ReadSelections(old(scanner.Rest()), []))
      decreases |scanner.source| + 1 - scanner.position, 1
    {
      hide SR.SavedInside, SR.Taken, SR.Tried, SR.SkippedTo, SR.BlockSkipped, GraphQlScanner.State, GraphQlScanner.Rest,
        Lexemes, Next, NoBreak, Snapshot, Closed, SchemaClosed, SelectionsSound, SelectionSound, SelectionsFit,
        SelectionFits, AllSpreads, Spreads, StackClosed, GraphQlExecutor.Now, QS.ReadSelection, QS.ReadSelections,
        GraphQlExecutor.Scope, GraphQlScanner.LinesSound, GraphQlScanner.HistorySound, TextBetween;
      ghost var scope, before := Scope(), Now();
      ScopeClosed();
      aborted, read := false, [];
      NoSelections(schema, before, scope);
      while true
        invariant Valid() && StackClosed() && old(scanner.position) <= scanner.position
        invariant old(diagnostics) <= diagnostics && fragmentNames == old(fragmentNames)
        invariant old(currentObjectTypes) <= currentObjectTypes && !aborted
        invariant diagnostics == old(diagnostics) ==>
                    && Now() == before && duplicateFields == old(duplicateFields)
                    && currentObjectTypes == old(currentObjectTypes)
                    && SelectionsSound(schema, before, Any, scope, read)
                    && forwardFragmentReferences ==
                         old(forwardFragmentReferences) + AllSpreads(schema, before, scope, read)
                    && QS.ReadSelections(old(scanner.Rest()), []) == QS.ReadSelections(scanner.Rest(), read)
        invariant diagnostics != old(diagnostics) && old(duplicateFields) == {} ==>
                    !SelectionsFit(schema, before, scope, QS.ReadSelections(old(scanner.Rest()), []))
        decreases |scanner.source| + 1 - scanner.position
      {
        token, read, aborted := ParseNextSelection(read, old(forwardFragmentReferences));
        if aborted || (token != GName && token != Ellipses) {
          return;
        }
      }
    }

    // What ends a selection set: the closing brace, or something that should not be there.
    method EndSelections(token: Token, read: seq<Selection>) returns (selections: Option<seq<Selection>>)
      requires StackClosed() && currentObjectTypes != []
      modifies `diagnostics, `currentObjectTypes
      ensures StackClosed() && old(diagnostics) <= diagnostics
      ensures old(currentObjectTypes)[..|old(currentObjectTypes)| - 1] <= currentObjectTypes
      ensures diagnostics == old(diagnostics) <==> token == CloseBrace
      ensures token == CloseBrace ==>
                selections == Some(read) &&
                currentObjectTypes == old(currentObjectTypes)[..|old(currentObjectTypes)| - 1]
    {
      if token == CloseBrace {
        PopType();
        selections := Some(read);
      } else if token == EndOfDocument {
        AddDiagnostic(if read == [] then ExpectedSelection else Expected(CloseBrace));
        selections := None;
      } else {
        AddDiagnostic(ExpectedSelection);
        selections := Some(read);
      }
    }

    // The next token, and the selection it starts, if it is a name or dots.
    method ParseNextSelection(read: seq<Selection>, ghost noted: seq<Reference>)
      returns (token: Token, grown: seq<Selection>, aborted: bool)
      requires Valid() && currentObjectTypes != [] && StackClosed()
      modifies this, scanner, types`isListType
      ensures Onward() && StackClosed() && fragmentNames == old(fragmentNames)
      ensures old(currentObjectTypes) <= currentObjectTypes
      ensures aborted ==> diagnostics != old(diagnostics)
      ensures token == GName || token == Ellipses ==> old(scanner.position) < scanner.position
      ensures diagnostics == old(diagnostics) ==>
                && Undisturbed()
                && currentObjectTypes == old(currentObjectTypes)
                && (SelectionsSound(schema, old(Now()), Any, old(Scope()), read) ==>
                      SelectionsSound(schema, old(Now()), Any, old(Scope()), grown))
                && (old(forwardFragmentReferences) == noted + AllSpreads(schema, old(Now()), old(Scope()), read) ==>
                      forwardFragmentReferences == noted + AllSpreads(schema, old(Now()), old(Scope()), grown))
                && QS.ReadSelections(old(scanner.Rest()), read) ==
                     if token == GName || token == Ellipses then QS.ReadSelections(scanner.Rest(), grown)
                     else if token == CloseBrace then QS.Read(grown, scanner.Rest())
                     else QS.Unread
      ensures diagnostics != old(diagnostics) && old(duplicateFields) == {} ==>
                !SelectionsFit(schema, old(Now()), old(Scope()), QS.ReadSelections(old(scanner.Rest()), read))
      decreases |scanner.source| + 1 - scanner.position, 0
    {
      hide SR.SavedInside, SR.Taken, SR.Tried, SR.SkippedTo, SR.BlockSkipped, GraphQlScanner.State, GraphQlScanner.Rest,
        Lexemes, Next, NoBreak, Snapshot, Closed, SchemaClosed, SelectionsSound, SelectionSound, SelectionFits,
        SelectionsFit, AllSpreads, Spreads, StackClosed, QS.ReadSelection, QS.ReadSelections, GraphQlScanner.LinesSound,
        GraphQlScanner.HistorySound;
      ghost var scope, before, rest := Scope(), Now(), scanner.Rest();
      ScopeClosed();
      QS.SelectionsEnd(rest, read);
      NextSelection(schema, before, scope, rest, read);
      grown, aborted := read, false;
      token := scanner.TakeLexeme(true);
      if token != GName && token != Ellipses {
        return;
      }
      grown, aborted := ParseOneMore(token == GName, read, rest, noted);
    }

    // One more selection, whose first token has been taken from `rest`.
    method ParseOneMore(isField: bool, read: seq<Selection>, ghost rest: seq<Lexeme>, ghost noted: seq<Reference>)
      returns (grown: seq<Selection>, aborted: bool)
      requires Valid() && currentObjectTypes != [] && StackClosed()
      requires rest != [] && scanner.Rest() == rest[1..] && isField == QS.IsName(rest[0])
      requires if isField then scanner.GetValue() == rest[0].text else rest[0].token == Ellipses
      modifies this, scanner, types`isListType
      ensures Onward() && StackClosed() && fragmentNames == old(fragmentNames)
      ensures old(currentObjectTypes) <= currentObjectTypes
      ensures aborted ==> diagnostics != old(diagnostics)
      ensures diagnostics == old(diagnostics) ==>
                && Undisturbed()
                && currentObjectTypes == old(currentObjectTypes)
                && (SelectionsSound(schema, old(Now()), Any, old(Scope()), read) ==>
                      SelectionsSound(schema, old(Now()), Any, old(Scope()), grown))
                && (old(forwardFragmentReferences) == noted + AllSpreads(schema, old(Now()), old(Scope()), read) ==>
                      forwardFragmentReferences == noted + AllSpreads(schema, old(Now()), old(Scope()), grown))
                && QS.ReadSelections(rest, read) == QS.ReadSelections(scanner.Rest(), grown)
      ensures diagnostics != old(diagnostics) && old(duplicateFields) == {} ==>
                !SelectionFits(schema, old(Now()), old(Scope()), QS.ReadSelection(rest))
      decreases |scanner.source| + 1 - scanner.position, 9
    {
      hide SR.SavedInside, SR.Taken, SR.Tried, SR.SkippedTo, SR.BlockSkipped, GraphQlScanner.State, GraphQlScanner.Rest,
        Lexemes, Next, NoBreak, Snapshot, Closed, SchemaClosed, SelectionsSound, SelectionSound, SelectionFits,
        AllSpreads, Spreads, StackClosed, QS.ReadSelection, QS.ReadSelections;
      ghost var scope, before := Scope(), Now();
      ScopeClosed();
      var selection;
      selection, aborted := ParseSelection(isField, rest);
      grown := if selection.Some? then read + [selection.value] else read;
      if diagnostics == old(diagnostics) {
        SelectionsGrow(schema, before, scope, read, selection.value);
        QS.SelectionsStep(rest, read);
      }
    }

    // A field whose key has been taken, or a fragment whose dots have been taken.
    method ParseSelection(isField: bool, ghost rest: seq<Lexeme>) returns (selection: Option<Selection>, aborted: bool)
      requires Valid() && currentObjectTypes != [] && StackClosed()
      requires rest != [] && scanner.Rest() == rest[1..] && isField == QS.IsName(rest[0])
      requires if isField then scanner.GetValue() == rest[0].text else rest[0].token == Ellipses
      modifies this, scanner, types`isListType
      ensures Onward() && StackClosed() && fragmentNames == old(fragmentNames)
      ensures old(currentObjectTypes) <= currentObjectTypes
      ensures diagnostics == old(diagnostics) ==>
                && !aborted && selection.Some? && SelectionTaken(selection.value)
                && QS.ReadSelection(rest) == QS.Read(selection.value, scanner.Rest())
      ensures diagnostics != old(diagnostics) && old(duplicateFields) == {} ==>
                !SelectionFits(schema, old(Now()), old(Scope()), QS.ReadSelection(rest))
      ensures aborted ==> diagnostics != old(diagnostics)
      decreases |scanner.source| + 1 - scanner.position, 8
    {
      hide SR.SavedInside, SR.Taken, SR.Tried, SR.SkippedTo, SR.BlockSkipped, GraphQlScanner.State, GraphQlScanner.Rest,
        Lexemes, Next, NoBreak, Snapshot, SchemaClosed, SelectionSound, SelectionFits, Spreads, QS.ReadField,
        QS.ReadFragment;
      if isField {
        selection, aborted := ParseField(scanner.GetValue());
      } else {
        selection, aborted := ParseFragment();
      }
    }

    // An inline fragment or a spread, after its dots.
    method ParseFragment() returns (selection: Option<Selection>, aborted: bool)
      requires Valid() && currentObjectTypes != [] && StackClosed()
      modifies this, scanner, types`isListType
      ensures Onward() && StackClosed() && fragmentNames == old(fragmentNames)
      ensures old(currentObjectTypes) <= currentObjectTypes
      ensures diagnostics == old(diagnostics) ==>
                && !aborted && selection.Some? && SelectionTaken(selection.value)
                && QS.ReadFragment(old(scanner.Rest())) == QS.Read(selection.value, scanner.Rest())
      ensures diagnostics != old(diagnostics) && old(duplicateFields) == {} ==>
                !SelectionFits(schema, old(Now()), old(Scope()), QS.ReadFragment(old(scanner.Rest())))
      ensures aborted ==> diagnostics != old(diagnostics)
      decreases |scanner.source| + 1 - scanner.position, 7
    {
      hide SR.SavedInside, SR.Taken, SR.Tried, SR.SkippedTo, SR.BlockSkipped, GraphQlScanner.State, GraphQlScanner.Rest,
        Lexemes, Next, NoBreak, Snapshot, SchemaClosed, SelectionSound, SelectionFits, DirectivesFit, Spreads,
        FieldsClosed, QS.ReadInlineFragment, QS.ReadDirectives;
      selection, aborted := None, false;
      SpreadFits(schema, Now(), Scope(), scanner.Rest());
      var token := scanner.TakeLexeme(false);
      if token == OnKeyword {
        selection, aborted := ParseInlineFragment();
      } else if token == GName {
        var spread := ParseFragmentSpread(scanner.GetValue());
        selection := Some(spread);
      } else {
        AddDiagnostic(ExpectedSelection);
        scanner.SkipBlock();
      }
    }

    // A spread after its name, which is noted down together with the type in scope.
    method ParseFragmentSpread(name: string) returns (selection: Selection)
      requires Valid() && currentObjectTypes != [] && StackClosed()
      modifies this, scanner, types`isListType
      ensures Onward() && StackClosed() && fragmentNames == old(fragmentNames)
      ensures currentObjectTypes == old(currentObjectTypes)
      ensures diagnostics == old(diagnostics) ==>
                && SelectionTaken(selection)
                && selection.FragmentSpread? && selection.spread == name
                && QS.ReadDirectives(old(scanner.Rest()), []) == QS.Read(selection.directives, scanner.Rest())
      ensures diagnostics != old(diagnostics) && old(duplicateFields) == {} ==>
                !DirectivesFit(schema, old(Now()), OnFragmentSpread, QS.ReadDirectives(old(scanner.Rest()), []))
      decreases |scanner.source| + 1 - scanner.position, 3
    {
      hide SR.SavedInside, SR.Taken, SR.Tried, SR.SkippedTo, SR.BlockSkipped, GraphQlScanner.State, GraphQlScanner.Rest,
        Lexemes, Next, NoBreak, Snapshot, Closed, SchemaClosed, SelectionsSound, FieldsClosed, DirectivesSound,
        DirectivesFit, PossibleTypes, QS.ReadDirectives;
      forwardFragmentReferences := forwardFragmentReferences + [Reference(name, Scope())];
      var directives := ParseDirectives(OnFragmentSpread);
      selection := FragmentSpread(name, directives);
    }

    method ParseInlineFragment() returns (selection: Option<Selection>, aborted: bool)
      requires Valid() && currentObjectTypes != [] && StackClosed()
      modifies this, scanner, types`isListType
      ensures Onward() && StackClosed() && fragmentNames == old(fragmentNames)
      ensures old(currentObjectTypes) <= currentObjectTypes
      ensures aborted ==> diagnostics != old(diagnostics)
      ensures diagnostics == old(diagnostics) ==>
                && !aborted && selection.Some? && SelectionTaken(selection.value)
                && Starts(old(scanner.Rest()), GName)
                && QS.ReadInlineFragment(old(scanner.Rest())[0].text, old(scanner.Rest())[1..]) ==
                     QS.Read(selection.value, scanner.Rest())
      ensures diagnostics != old(diagnostics) && old(duplicateFields) == {} ==>
                var rest := old(scanner.Rest());
                !(&& Starts(rest, GName)
                  && SelectionFits(schema, old(Now()), old(Scope()), QS.ReadInlineFragment(rest[0].text, rest[1..])))
      decreases |scanner.source| + 1 - scanner.position, 6
    {
      hide SR.SavedInside, SR.Taken, SR.Tried, SR.SkippedTo, SR.BlockSkipped, GraphQlScanner.State, GraphQlScanner.Rest,
        Lexemes, Next, NoBreak, Snapshot, Closed, SchemaClosed, SelectionSound, SelectionFits, Spreads, FieldsClosed,
        QS.ReadInlineFragment;
      selection, aborted := None, false;
      ghost var rest := scanner.Rest();
      if Starts(rest, GName) {
        InlineFragmentFits(schema, Now(), Scope(), rest[0].text, rest[1..]);
      }
      var found := ScanExpected(GName);
      if !found {
        AddDiagnostic(ExpectedName);
        scanner.SkipBlock();
        return None, true;
      }
      var typeName := scanner.GetValue();
      var isObject := CheckObjectType(typeName);
      if !isObject {
        scanner.SkipBlock();
        return;
      }
      var parsed := ParseInlineFragmentOn(typeName);
      selection := Some(parsed);
    }

    // The rest of an inline fragment on a defined object type.
    method ParseInlineFragmentOn(typeName: string) returns (selection: Selection)
      requires Valid() && currentObjectTypes != [] && StackClosed()
      requires typeName in schema.symbols && schema.symbols[typeName].ObjectType?
      modifies this, scanner, types`isListType
      ensures Onward() && StackClosed() && fragmentNames == old(fragmentNames)
      ensures old(currentObjectTypes) <= currentObjectTypes
      ensures diagnostics == old(diagnostics) ==>
                && SelectionTaken(selection)
                && QS.ReadInlineFragment(typeName, old(scanner.Rest())) == QS.Read(selection, scanner.Rest())
      ensures diagnostics != old(diagnostics) && old(duplicateFields) == {} ==>
                !SelectionFits(schema, old(Now()), old(Scope()), QS.ReadInlineFragment(typeName, old(scanner.Rest())))
      decreases |scanner.source| + 1 - scanner.position, 5
    {
      hide SR.SavedInside, SR.Taken, SR.Tried, SR.SkippedTo, SR.BlockSkipped, GraphQlScanner.State, GraphQlScanner.Rest,
        Lexemes, Next, NoBreak, Snapshot, Closed, SchemaClosed, SelectionsSound, AllSpreads, FieldsClosed,
        DirectivesSound, PossibleTypes, QS.ReadDirectives, QS.ReadBraces;
      SymbolClosed(schema, types, typeName);
      CheckFragmentAssignment(typeName, typeName, Scope());
      PushType(schema.symbols[typeName]);
      var directives, selections := ParseBody(OnInlineFragment);
      selection := InlineFragment(typeName, directives, selections.GetOr([]));
    }

    // The type a fragment is on must be a defined object type.
    method CheckObjectType(typeName: string) returns (isObject: bool)
      modifies `diagnostics
      ensures isObject <==> typeName in schema.symbols && schema.symbols[typeName].ObjectType?
      ensures if isObject then diagnostics == old(diagnostics) else old(diagnostics) < diagnostics
    {
      isObject := typeName in schema.symbols && schema.symbols[typeName].ObjectType?;
      if typeName !in schema.symbols {
        AddDiagnostic(TypeNotDefined(typeName));
      } else if !isObject {
        AddDiagnostic(NotAnObject(typeName));
      }
    }

    // A field, after the name it is looked up by.
    method ParseField(key: string) returns (selection: Option<Selection>, aborted: bool)
      requires Valid() && currentObjectTypes != [] && StackClosed()
      modifies this, scanner, types`isListType
      ensures Onward() && StackClosed() && fragmentNames == old(fragmentNames)
      ensures old(currentObjectTypes) <= currentObjectTypes
      ensures diagnostics == old(diagnostics) ==>
                && !aborted && selection.Some? && SelectionTaken(selection.value)
                && QS.ReadField(key, old(scanner.Rest())) == QS.Read(selection.value, scanner.Rest())
      ensures diagnostics != old(diagnostics) && old(duplicateFields) == {} ==>
                !SelectionFits(schema, old(Now()), old(Scope()), QS.ReadField(key, old(scanner.Rest())))
      ensures aborted ==> diagnostics != old(diagnostics)
      decreases |scanner.source| + 1 - scanner.position, 5
    {
      hide SR.SavedInside, SR.Taken, SR.Tried, SR.SkippedTo, SR.BlockSkipped, GraphQlScanner.State, GraphQlScanner.Rest,
        Lexemes, Next, NoBreak, SchemaClosed, SelectionsSound, AllSpreads, DirectivesSound, ArgumentsSound,
        QS.ReadAlias, QS.ReadOptionalArguments, QS.ReadDirectives, QS.ReadOptionalBraces, PossibleTypes, SpreadAllowed,
        TextBetween;
      selection, aborted := None, false;
      var scope := Scope();
      FieldKey(key, scanner.Rest());
      if !scope.ObjectType? && !scope.InterfaceType? {
        AddDiagnostic(UndefinedBehaviour);
        return;
      }
      if key !in scope.fields {
        AddDiagnostic(FieldDoesNotExist(key));
        var _ := scanner.SkipTo({GName, CloseBrace, Ellipses});
        return;
      }
      assert scope in currentObjectTypes;
      assert FieldsClosed(scope, types);
      selection, aborted := ParseDeclaredField(key, scope.fields[key]);
    }

    // The rest of a field that is declared.
    method ParseDeclaredField(key: string, field: FieldDefinition) returns (selection: Option<Selection>, aborted: bool)
      requires Valid() && currentObjectTypes != [] && StackClosed()
      requires (Scope().ObjectType? || Scope().InterfaceType?) && key in Scope().fields && Scope().fields[key] == field
      modifies this, scanner, types`isListType
      ensures Onward() && StackClosed() && fragmentNames == old(fragmentNames)
      ensures old(currentObjectTypes) <= currentObjectTypes
      ensures diagnostics == old(diagnostics) ==>
                && !aborted && selection.Some? && SelectionTaken(selection.value)
                && QS.ReadField(key, old(scanner.Rest())) == QS.Read(selection.value, scanner.Rest())
      ensures diagnostics != old(diagnostics) && old(duplicateFields) == {} ==>
                !SelectionFits(schema, old(Now()), old(Scope()), QS.ReadField(key, old(scanner.Rest())))
      ensures aborted ==> diagnostics != old(diagnostics)
      decreases |scanner.source| + 1 - scanner.position, 4
    {
      hide SR.SavedInside, SR.Taken, SR.Tried, SR.SkippedTo, SR.BlockSkipped, GraphQlScanner.State, GraphQlScanner.Rest,
        Lexemes, Next, NoBreak, SchemaClosed, SelectionSound, SelectionsSound, Spreads, AllSpreads, DirectivesSound,
        ArgumentsSound, QS.ReadAlias, QS.ReadOptionalArguments, QS.ReadDirectives, QS.ReadOptionalBraces, QS.ReadField,
        PossibleTypes, SpreadAllowed, TextBetween, Closed, Snapshot, FieldsClosed;
      ghost var scope, before, rest := Scope(), Now(), scanner.Rest();
      ScopeClosed();
      FieldClosed(scope, types, key);
      FlagNow(field.annotation);
      QS.FieldPartsRead(key, rest);
      ReadFieldFits(schema, before, scope, key, rest);
      var alias, name := ParseAlias(key);
      var arguments, directives := ParseFieldDetails(field.arguments);
      var selectionSet;
      selectionSet, aborted := ParseFieldSelections(field.annotation);
      selection := Some(Field(alias, name, arguments, directives, selectionSet));
      FieldFits(schema, before, scope, alias, name, arguments, directives, selectionSet);
    }

    // The arguments, if a parenthesis follows, and the directives of a field.
    method ParseFieldDetails(declared: map<string, Type>) returns (arguments: ArgumentList, directives: seq<Directive>)
      requires Valid() && ArgumentsClosed(declared, types)
      modifies `diagnostics, `currentValueToken, `duplicateFields, scanner, types`isListType
      ensures Onward()
      ensures diagnostics == old(diagnostics) ==>
                && Undisturbed()
                && DirectivesSound(schema, old(Now()), directives, OnField)
                && (arguments.Parentheses? ==> ArgumentsSound(schema, old(Now()), declared, arguments.arguments))
                && var read := QS.ReadOptionalArguments(old(scanner.Rest()));
                   read.Read? && read.value == arguments &&
                   QS.ReadDirectives(read.rest, []) == QS.Read(directives, scanner.Rest())
      ensures diagnostics != old(diagnostics) && old(duplicateFields) == {} ==>
                var read := QS.ReadOptionalArguments(old(scanner.Rest()));
                !(&& OptionalFits(schema, old(Now()), declared, read)
                  && DirectivesFit(schema, old(Now()), OnField, QS.ReadDirectives(read.rest, [])))
      decreases |scanner.source| + 1 - scanner.position, 3
    {
      hide SR.SavedInside, SR.Taken, SR.Tried, SR.SkippedTo, SR.BlockSkipped, GraphQlScanner.State, GraphQlScanner.Rest,
        Lexemes, Next, NoBreak, Snapshot, SchemaClosed, DirectivesSound, ArgumentsSound, QS.ReadOptionalArguments,
        QS.ReadDirectives;
      var read := ParseOptionalArguments(declared);
      arguments := read.GetOr(NoParentheses);
      directives := ParseDirectives(OnField);
    }

    // The name after an alias, if the key was one.
    method ParseAlias(key: string) returns (alias: Option<string>, name: string)
      requires Valid()
      modifies `diagnostics, scanner
      ensures Onward()
      ensures if alias.None? then name == key else alias.value == key
      ensures diagnostics == old(diagnostics) ==>
                QS.ReadAlias(key, old(scanner.Rest())) == QS.Read((alias, name), scanner.Rest())
      ensures diagnostics != old(diagnostics) ==> QS.ReadAlias(key, old(scanner.Rest())).Unread?
    {
      hide SR.SavedInside, SR.Taken, SR.Tried, SR.SkippedTo, SR.BlockSkipped, GraphQlScanner.State, GraphQlScanner.Rest,
        Lexemes, Next, NoBreak, Snapshot, SchemaClosed;
      alias, name := None, key;
      var colon := ScanOptional(Colon, false);
      if colon {
        alias := Some(key);
        var found := ScanExpected(GName);
        name := if found then scanner.GetValue() else "";
      }
    }

    // The selections inside a field, if a brace follows.
    method ParseFieldSelections(annotation: Type) returns (selectionSet: SelectionSet, aborted: bool)
      requires Valid() && currentObjectTypes != [] && StackClosed() && annotation in types
      modifies this, scanner, types`isListType
      ensures Onward() && StackClosed() && fragmentNames == old(fragmentNames)
      ensures old(currentObjectTypes) <= currentObjectTypes
      ensures aborted ==> diagnostics != old(diagnostics)
      ensures diagnostics == old(diagnostics) ==>
                && Undisturbed()
                && currentObjectTypes == old(currentObjectTypes)
                && (if selectionSet.Braces? then
                      && annotation.base == TObject && annotation.name in schema.symbols
                      && var inner := schema.symbols[annotation.name];
                         && SelectionsSound(schema, old(Now()), Any, inner, selectionSet.selections)
                         && forwardFragmentReferences ==
                              old(forwardFragmentReferences) +
                                AllSpreads(schema, old(Now()), inner, selectionSet.selections)
                    else forwardFragmentReferences == old(forwardFragmentReferences))
                && QS.ReadOptionalBraces(old(scanner.Rest())) == QS.Read(selectionSet, scanner.Rest())
      ensures diagnostics != old(diagnostics) && old(duplicateFields) == {} ==>
                var read := QS.ReadOptionalBraces(old(scanner.Rest()));
                !(&& read.Read?
                  && (read.value.Braces? ==>
                        && annotation.base == TObject && annotation.name in schema.symbols
                        && SelectionsSound(schema, old(Now()), Any, schema.symbols[annotation.name],
                                           read.value.selections)))
      decreases |scanner.source| + 1 - scanner.position, 3
    {
      hide SR.SavedInside, SR.Taken, SR.Tried, SR.SkippedTo, SR.BlockSkipped, GraphQlScanner.State, GraphQlScanner.Rest,
        Lexemes, Next, NoBreak, Snapshot, SelectionsSound, AllSpreads, FieldsClosed, QS.ReadSelections;
      selectionSet, aborted := NoBraces, false;
      var brace := ScanOptional(OpenBrace, false);
      if !brace {
        return;
      }
      if annotation.base != TObject {
        AddDiagnostic(CannotSelectOnScalar);
        SkipToNextPrimaryToken();
        return NoBraces, true;
      }
      if annotation.name !in schema.symbols {
        AddDiagnostic(UndefinedBehaviour);
        return;
      }
      PushType(schema.symbols[annotation.name]);
      var selections := ParseSelectionSetAfterOpenBrace();
      selectionSet := if selections.Some? then Braces(selections.value) else NoBraces;
    }

    /** Reads a whole document. No diagnostic is drawn exactly when the tokens spell a document that
        fits the schema: every definition fits, every fragment that is spread exists, is on a type
        possible where it is spread and has a name of its own. It is just that document then, and
        the type stack and all annotations are as before. */
    method Execute() returns (document: Document)
      requires Valid() && StackClosed() && diagnostics == []
      requires forwardFragmentReferences == [] && fragmentNames == {} && duplicateFields == {}
      modifies this, scanner, types`isListType
      ensures Valid() && StackClosed()
      ensures diagnostics == [] <==>
                var read := QS.ReadDocument(old(scanner.Rest()), [], []);
                read.Some? && DocumentSound(schema, old(Now()), read.value)
      ensures diagnostics == [] ==>
                && QS.ReadDocument(old(scanner.Rest()), [], []) == Some(document)
                && Now() == old(Now()) && currentObjectTypes == old(currentObjectTypes)
    {
      hide SR.SavedInside, SR.Taken, SR.Tried, SR.SkippedTo, SR.BlockSkipped, GraphQlScanner.State, GraphQlScanner.Rest,
        Lexemes, Next, NoBreak, Snapshot, SchemaClosed, DefinitionSound, DefinitionSpreads, DocumentSound,
        QS.ReadDocument, QS.ReadDefinition, DefinitionsFit;
      ghost var before, all := Now(), scanner.Rest();
      var operations: seq<Definition>, fragments: seq<Definition> := [], [];
      ghost var rest := scanner.Rest();
      NoDefinitions(schema, before);
      var token := scanner.TakeLexeme(false);
      while token != EndOfDocument
        invariant Valid() && StackClosed()
        invariant if rest == [] then token == EndOfDocument
                  else token == rest[0].token && token != EndOfDocument && scanner.Rest() == rest[1..]
        invariant diagnostics == [] ==>
                    && Now() == before && currentObjectTypes == old(currentObjectTypes) && duplicateFields == {}
                    && DefinitionsFit(schema, before, operations, fragments, forwardFragmentReferences, fragmentNames)
                    && QS.ReadDocument(all, [], []) == QS.ReadDocument(rest, operations, fragments)
        invariant diagnostics != [] ==> !DocumentFits(schema, before, QS.ReadDocument(all, [], []))
        decreases |scanner.source| + 1 - scanner.position, if token == EndOfDocument then 0 else 1
      {
        ghost var references, names := forwardFragmentReferences, fragmentNames;
        if diagnostics == [] {
          NextDefinition(schema, before, rest, operations, fragments, references, names);
        }
        ReadDocumentStep(rest, operations, fragments);
        var definition := ParsePrimaryToken(token, rest);
        if diagnostics == [] {
          OneMoreDefinition(schema, before, operations, fragments, references, names, definition.value);
          assert names + {} == names;
        }
        if definition.Some? {
          if definition.value.FragmentDefinition? {
            fragments := fragments + [definition.value];
          } else {
            operations := operations + [definition.value];
          }
        }
        rest := scanner.Rest();
        token := scanner.TakeLexeme(false);
      }
      document := Document(operations, fragments);
      ReadDocumentStep([], operations, fragments);
      ghost var clean := diagnostics == [];
      CheckForwardFragmentReferences(fragments);
      if clean {
        AllDefinitions(schema, before, operations, fragments, forwardFragmentReferences, fragmentNames);
      }
    }

    /** The deferred check of spreads: no diagnostic exactly when each one noted down names a
        fragment whose type fits where it was spread. */
    method CheckForwardFragmentReferences(fragments: seq<Definition>)
      requires SchemaClosed(schema, types)
      modifies `diagnostics
      ensures old(diagnostics) <= diagnostics
      ensures diagnostics == old(diagnostics) <==>
                forall r | r in forwardFragmentReferences :: SpreadAllowed(schema, Resolved(fragments), r)
    {
      for i := 0 to |forwardFragmentReferences|
        invariant old(diagnostics) <= diagnostics
        invariant diagnostics == old(diagnostics) <==>
                  forall r | r in forwardFragmentReferences[..i] :: SpreadAllowed(schema, Resolved(fragments), r)
      {
        var reference := forwardFragmentReferences[i];
        assert forwardFragmentReferences[..i + 1] == forwardFragmentReferences[..i] + [reference];
        CheckReference(fragments, reference);
      }
      assert forwardFragmentReferences[..|forwardFragmentReferences|] == forwardFragmentReferences;
    }

    method CheckReference(fragments: seq<Definition>, reference: Reference)
      requires SchemaClosed(schema, types)
      modifies `diagnostics
      ensures old(diagnostics) <= diagnostics
      ensures diagnostics == old(diagnostics) <==> SpreadAllowed(schema, Resolved(fragments), reference)
    {
      var fragment := FindFragment(fragments, reference.name);
      if fragment.None? {
        AddDiagnostic(FragmentNotDefined(reference.name));
        return;
      }
      var typeName := fragment.value.typeName;
      if typeName in schema.symbols && schema.symbols[typeName].ObjectType? {
        CheckFragmentAssignment(reference.name, typeName, reference.scope);
      } else {
        AddDiagnostic(UndefinedBehaviour);
      }
    }

    method FindFragment(fragments: seq<Definition>, name: string) returns (r: Option<Definition>)
      ensures r == FirstFragment(fragments, name)
    {
      for i := 0 to |fragments|
        invariant FirstFragment(fragments, name) == FirstFragment(fragments[i..], name)
      {
        assert fragments[i..][1..] == fragments[i + 1..];
        if fragments[i].FragmentDefinition? && fragments[i].name == name {
          return Some(fragments[i]);
        }
      }
      r := None;
    }

    // A definition that fits has been read, and its spreads noted down.
    twostate predicate DefinitionTaken(definition: Definition)
      requires Valid() && old(Valid())
      reads this, scanner, types
    {
      && Undisturbed() && currentObjectTypes == old(currentObjectTypes)
      && DefinitionSound(schema, old(Now()), Any, definition)
      && forwardFragmentReferences ==
           old(forwardFragmentReferences) + DefinitionSpreads(schema, old(Now()), definition)
    }

    // One definition, its first token taken.
    method ParsePrimaryToken(token: Token, ghost rest: seq<Lexeme>) returns (definition: Option<Definition>)
      requires Valid() && StackClosed()
      requires Starts(rest, token) && scanner.Rest() == rest[1..]
      modifies this, scanner, types`isListType
      ensures Onward() && StackClosed()
      ensures diagnostics == old(diagnostics) ==>
                && definition.Some? && DefinitionTaken(definition.value)
                && QS.ReadDefinition(rest) == QS.Read(definition.value, scanner.Rest())
                && (definition.value.FragmentDefinition? ==> definition.value.name !in old(fragmentNames))
                && fragmentNames == old(fragmentNames) +
                     (if definition.value.FragmentDefinition? then {definition.value.name} else {})
      ensures diagnostics != old(diagnostics) && old(duplicateFields) == {} ==>
                var read := QS.ReadDefinition(rest);
                !(DefinitionFits(schema, old(Now()), read) &&
                  (read.value.FragmentDefinition? ==> read.value.name !in old(fragmentNames)))
    {
      hide SR.SavedInside, SR.Taken, SR.Tried, SR.SkippedTo, SR.BlockSkipped, GraphQlScanner.State, GraphQlScanner.Rest,
        Lexemes, Next, NoBreak, Snapshot, SchemaClosed, DefinitionSound, DefinitionSpreads, QS.ReadOperation,
        QS.ReadFragmentDefinition, QS.ReadSelections;
      definition := None;
      if token == QueryKeyword {
        definition := ParseOperation(Query);
      } else if token == MutationKeyword {
        definition := ParseOperation(Mutation);
      } else if token == SubscriptionKeyword {
        definition := ParseOperation(Subscription);
      } else if token == OpenBrace {
        definition := ParseAnonymousQuery();
      } else if token == FragmentKeyword {
        definition := ParseFragmentDefinition();
      } else {
        AddDiagnostic(ExpectedDefinition);
      }
    }

    // The name of an operation and its variables, if it has them.
    method ParseHeader() returns (name: Option<string>)
      requires Valid()
      modifies `diagnostics, scanner, types`isListType
      ensures Onward()
      ensures diagnostics == old(diagnostics) ==>
                QS.ReadHeader(old(scanner.Rest())) == QS.Read(name, scanner.Rest()) && Now() == old(Now())
      ensures diagnostics != old(diagnostics) ==> QS.ReadHeader(old(scanner.Rest())).Unread?
    {
      hide SR.SavedInside, SR.Taken, SR.Tried, SR.SkippedTo, SR.BlockSkipped, GraphQlScanner.State;
      hide GraphQlScanner.Rest, Lexemes, Next, NoBreak, VD.ReadVariables, Snapshot, SchemaClosed, Closed;
      name := None;
      var named := ScanOptional(GName, true);
      if named {
        name := Some(scanner.GetValue());
        var parenthesis := ScanOptional(OpenParen, false);
        if parenthesis {
          ParseVariableDefinitions();
          var _ := ScanExpected(CloseParen);
        }
      }
    }

    /** Reads the first variable, which is not kept, or any one token that is no name. No diagnostic is
        drawn exactly when the tokens spell a variable whose default value, if it has one, fits its
        type, or do not start with a name. */
    method ParseVariableDefinitions()
      requires Valid()
      modifies `diagnostics, scanner, types`isListType
      ensures Onward()
      ensures diagnostics == old(diagnostics) ==>
                VD.ReadVariables(old(scanner.Rest())) == Some(scanner.Rest()) && Now() == old(Now())
      ensures diagnostics != old(diagnostics) ==> VD.ReadVariables(old(scanner.Rest())).None?
    {
      hide SR.SavedInside, SR.Taken, SR.Tried, SR.SkippedTo, SR.BlockSkipped, GraphQlScanner.State;
      hide GraphQlScanner.Rest, GraphQlScanner.Valid, Lexemes, Next, NoBreak, VD.ReadType, VD.DefaultFits,
        VS.ParseValue, Snapshot, SchemaClosed, Closed;
      var token := scanner.TakeLexeme(false);
      if token != GName {
        return;
      }
      var _ := ScanExpected(Colon);
      var info := ParseType();
      var hasDefault := ScanOptional(Equal, false);
      if hasDefault {
        var _ := ParseDefaultValue(info);
      }
    }

    // Any token is taken for the name of a type, and only the built-in scalars are told apart.
    method ParseType() returns (info: TypeInfo)
      requires Valid()
      modifies `diagnostics, scanner
      ensures Onward()
      ensures diagnostics == old(diagnostics) ==> VD.ReadType(old(scanner.Rest())) == TS.Parsed(info, scanner.Rest())
      ensures diagnostics != old(diagnostics) ==> VD.ReadType(old(scanner.Rest())).Failed?
    {
      hide SR.SavedInside, SR.Taken, SR.Tried, SR.SkippedTo, SR.BlockSkipped, GraphQlScanner.State;
      hide GraphQlScanner.Rest, Lexemes, Next, NoBreak, SchemaClosed, Closed;
      var isListType := ScanOptional(OpenBracket, false);
      var token := scanner.TakeLexeme(false);
      var base := VD.BaseOf(token);
      var isNonNull := ScanOptional(Exclamation, false);
      var isNonNullList := false;
      if isListType {
        var _ := ScanExpected(CloseBracket);
        isNonNullList := ScanOptional(Exclamation, false);
      }
      info := TypeInfo(base, "", isNonNull, isListType, isNonNullList);
    }

    // A default value is read for a new annotation, which nothing else refers to and which has no
    // name to look anything up by.
    method ParseDefaultValue(info: TypeInfo) returns (value: Value)
      requires Valid()
      modifies `diagnostics, scanner, types`isListType
      ensures Onward()
      ensures diagnostics == old(diagnostics) ==>
                && VS.ParseValue(old(scanner.Rest()), false) == VS.Parsed(value, scanner.Rest())
                && VD.DefaultFits(value, info) && Now() == old(Now())
      ensures diagnostics != old(diagnostics) ==>
                var read := VS.ParseValue(old(scanner.Rest()), false);
                !(read.Parsed? && VD.DefaultFits(read.value, info))
    {
      hide SR.SavedInside, SR.Taken, SR.Tried, SR.SkippedTo, SR.BlockSkipped, GraphQlScanner.State;
      hide GraphQlScanner.Rest, Lexemes, Next, NoBreak, VD.DefaultFits, VS.ParseValue, Accepts, Snapshot, SchemaClosed,
        Closed, TextBetween;
      var t := new Type(info);
      StillClosed(schema, types, t);
      var reader := new GraphQlExecutor(scanner, schema.(symbols := map[]), types + {t});
      ghost var annotations := reader.Now();
      SnapshotPart(types, t);
      value := reader.ParseValue(t);
      diagnostics := diagnostics + reader.diagnostics;
      ghost var read := VS.ParseValue(old(scanner.Rest()), false);
      if read.Parsed? {
        VD.DefaultsAccepted(annotations, read.value, t);
      }
      SnapshotPart(types, t);
    }

    method ParseOperation(operationType: OperationType) returns (definition: Option<Definition>)
      requires Valid() && StackClosed()
      modifies this, scanner, types`isListType
      ensures Onward() && StackClosed()
      ensures diagnostics == old(diagnostics) ==>
                && definition.Some? && DefinitionTaken(definition.value)
                && QS.ReadOperation(operationType, old(scanner.Rest())) == QS.Read(definition.value, scanner.Rest())
                && definition.value.OperationDefinition? && fragmentNames == old(fragmentNames)
      ensures diagnostics != old(diagnostics) && old(duplicateFields) == {} ==>
                !DefinitionFits(schema, old(Now()), QS.ReadOperation(operationType, old(scanner.Rest())))
    {
      hide SR.SavedInside, SR.Taken, SR.Tried, SR.SkippedTo, SR.BlockSkipped, GraphQlScanner.State, GraphQlScanner.Rest,
        Lexemes, Next, NoBreak, Snapshot, SchemaClosed, DefinitionSound, DefinitionFits, DefinitionSpreads,
        QS.ReadOperation;
      definition := None;
      OperationFits(schema, Now(), operationType, scanner.Rest());
      var root := RootType(schema, operationType);
      if root.None? {
        AddDiagnostic(OperationNotSupported);
        SkipToNextPrimaryToken();
        return;
      }
      definition := ParseOperationOn(operationType, root.value);
    }

    // An operation on a type that the schema has for it.
    method ParseOperationOn(operationType: OperationType, root: Declaration) returns (definition: Option<Definition>)
      requires Valid() && StackClosed()
      requires RootType(schema, operationType) == Some(root)
      modifies this, scanner, types`isListType
      ensures Onward() && StackClosed()
      ensures diagnostics == old(diagnostics) ==>
                && definition.Some? && DefinitionTaken(definition.value)
                && QS.ReadOperation(operationType, old(scanner.Rest())) == QS.Read(definition.value, scanner.Rest())
                && definition.value.OperationDefinition? && fragmentNames == old(fragmentNames)
      ensures diagnostics != old(diagnostics) && old(duplicateFields) == {} ==>
                !DefinitionFits(schema, old(Now()), QS.ReadOperation(operationType, old(scanner.Rest())))
    {
      hide SR.SavedInside, SR.Taken, SR.Tried, SR.SkippedTo, SR.BlockSkipped, GraphQlScanner.State, GraphQlScanner.Rest,
        Lexemes, Next, NoBreak, Snapshot, SchemaClosed, SelectionsSound, AllSpreads, DirectivesSound, FieldsClosed,
        QS.ReadDirectives, QS.ReadBraces;
      definition := None;
      RootClosed(schema, types, operationType);
      PushType(root);
      var name := ParseHeader();
      var directives, selections := ParseBody(OperationLocation(operationType));
      if selections.Some? {
        definition := Some(OperationDefinition(operationType, name, directives, selections.value));
      }
    }

    method ParseAnonymousQuery() returns (definition: Option<Definition>)
      requires Valid() && StackClosed()
      modifies this, scanner, types`isListType
      ensures Onward() && StackClosed()
      ensures diagnostics == old(diagnostics) ==>
                && definition.Some? && DefinitionTaken(definition.value)
                && fragmentNames == old(fragmentNames)
                && var read := QS.ReadSelections(old(scanner.Rest()), []);
                   read.Read? && definition.value == OperationDefinition(Query, None, [], read.value) &&
                   read.rest == scanner.Rest()
      ensures diagnostics != old(diagnostics) && old(duplicateFields) == {} ==>
                var read := QS.ReadSelections(old(scanner.Rest()), []);
                !(read.Read? &&
                  DefinitionSound(schema, old(Now()), Any, OperationDefinition(Query, None, [], read.value)))
    {
      hide SR.SavedInside, SR.Taken, SR.Tried, SR.SkippedTo, SR.BlockSkipped, GraphQlScanner.State, GraphQlScanner.Rest,
        Lexemes, Next, NoBreak, Snapshot, SchemaClosed, SelectionsSound, AllSpreads, QS.ReadSelections;
      definition := None;
      RootClosed(schema, types, Query);
      PushType(schema.query);
      var selections := ParseSelectionSetAfterOpenBrace();
      if selections.Some? {
        definition := Some(OperationDefinition(Query, None, [], selections.value));
      }
    }

    method ParseFragmentDefinition() returns (definition: Option<Definition>)
      requires Valid() && StackClosed()
      modifies this, scanner, types`isListType
      ensures Onward() && StackClosed()
      ensures diagnostics == old(diagnostics) ==>
                && definition.Some? && DefinitionTaken(definition.value)
                && QS.ReadFragmentDefinition(old(scanner.Rest())) == QS.Read(definition.value, scanner.Rest())
                && definition.value.FragmentDefinition? && definition.value.name !in old(fragmentNames)
                && fragmentNames == old(fragmentNames) + {definition.value.name}
      ensures diagnostics != old(diagnostics) && old(duplicateFields) == {} ==>
                var read := QS.ReadFragmentDefinition(old(scanner.Rest()));
                !(DefinitionFits(schema, old(Now()), read) &&
                  (read.value.FragmentDefinition? ==> read.value.name !in old(fragmentNames)))
    {
      hide SR.SavedInside, SR.Taken, SR.Tried, SR.SkippedTo, SR.BlockSkipped, GraphQlScanner.State, GraphQlScanner.Rest,
        Lexemes, Next, NoBreak, Snapshot, Closed, SchemaClosed, DefinitionSound, DefinitionFits, DefinitionSpreads,
        QS.ReadFragmentDefinition, QS.ReadFragmentOn, TextBetween, FieldsClosed;
      definition := None;
      FragmentHeader(schema, Now(), scanner.Rest());
      var name, typeName := ParseFragmentHeader();
      if typeName.Some? && typeName.value in schema.symbols {
        definition := ParseFragmentOn(name, typeName.value);
      }
    }

    // The rest of a fragment on a defined type.
    method ParseFragmentOn(name: string, typeName: string) returns (definition: Option<Definition>)
      requires Valid() && StackClosed() && typeName in schema.symbols
      modifies this, scanner, types`isListType
      ensures Onward() && StackClosed() && fragmentNames == old(fragmentNames)
      ensures diagnostics == old(diagnostics) ==>
                && definition.Some?
                && Undisturbed()
                && currentObjectTypes == old(currentObjectTypes)
                && (schema.symbols[typeName].ObjectType? ==>
                      DefinitionSound(schema, old(Now()), Any, definition.value))
                && forwardFragmentReferences ==
                     old(forwardFragmentReferences) + DefinitionSpreads(schema, old(Now()), definition.value)
                && definition.value.FragmentDefinition? && definition.value.name == name
                && QS.ReadFragmentOn(name, typeName, old(scanner.Rest())) == QS.Read(definition.value, scanner.Rest())
      ensures diagnostics != old(diagnostics) && old(duplicateFields) == {} ==>
                !DefinitionFits(schema, old(Now()), QS.ReadFragmentOn(name, typeName, old(scanner.Rest())))
    {
      hide SR.SavedInside, SR.Taken, SR.Tried, SR.SkippedTo, SR.BlockSkipped, GraphQlScanner.State, GraphQlScanner.Rest,
        Lexemes, Next, NoBreak, Snapshot, Closed, SchemaClosed, SelectionsSound, AllSpreads, DirectivesSound,
        FieldsClosed, QS.ReadDirectives, QS.ReadBraces;
      definition := None;
      SymbolClosed(schema, types, typeName);
      PushType(schema.symbols[typeName]);
      var directives, selections := ParseBody(OnFragmentDefinition);
      if selections.None? {
        scanner.SkipBlock();
        return;
      }
      definition := Some(FragmentDefinition(name, typeName, directives, selections.value));
    }

    // The name of a fragment and of the type it is on.
    method ParseFragmentHeader() returns (name: string, typeName: Option<string>)
      requires Valid()
      modifies `diagnostics, `fragmentNames, scanner
      ensures Onward()
      ensures diagnostics == old(diagnostics) <==>
                && HeaderRead(old(scanner.Rest())) && old(scanner.Rest())[0].text !in old(fragmentNames)
                && var typeName := old(scanner.Rest())[1..][1..][0].text;
                   typeName in schema.symbols && schema.symbols[typeName].ObjectType?
      ensures diagnostics == old(diagnostics) ==>
                && var rest := old(scanner.Rest());
                   && rest[0].text == name && typeName == Some(rest[1..][1..][0].text)
                   && scanner.Rest() == rest[1..][1..][1..]
                   && fragmentNames == old(fragmentNames) + {name}
    {
      hide SR.SavedInside, SR.Taken, SR.Tried, SR.SkippedTo, SR.BlockSkipped, GraphQlScanner.State, GraphQlScanner.Rest,
        Lexemes, Next, NoBreak, SchemaClosed;
      name, typeName := "", None;
      var found := ScanExpected(GName);
      if !found {
        return;
      }
      name := scanner.GetValue();
      if name in fragmentNames {
        AddDiagnostic(DuplicateFragment(name));
      }
      fragmentNames := fragmentNames + {name};
      found := ScanExpected(OnKeyword);
      if !found {
        return;
      }
      found := ScanExpected(GName);
      if !found {
        return;
      }
      typeName := Some(scanner.GetValue());
      var _ := CheckObjectType(typeName.value);
    }
  }

  // The tokens start with the name of a fragment and of the type it is on.
  predicate HeaderRead(lexemes: seq<Lexeme>) {
    Starts(lexemes, GName) && Starts(lexemes[1..], OnKeyword) && Starts(lexemes[1..][1..], GName)
  }

  // A name is recognised without skipping white space exactly if it starts where the scanner stands.
  lemma NameWithoutSpace(s: string, p: nat)
    requires p <= |s| + 1
    ensures var apart, adjacent := Next(s, p, 0, true), Next(s, p, 0, false);
            && (adjacent.token.InMode(true) == GName <==> apart.token.InMode(true) == GName && apart.start == p)
            && (adjacent.token.InMode(true) == GName ==> apart == adjacent)
  {
    hide TokenFrom;
    if p < |s| && s[p] == '#' {
      CommentEndsLine(s, p + 1);
      var q := CommentEnd(s, p + 1);
      assert Next(s, p, 0, false) == Next(s, q, 0, false);
      assert Next(s, q, 0, false).token in {WhiteSpace, EndOfDocument};
    }
  }

  lemma {:induction false} CommentEndsLine(s: string, p: nat)
    requires p <= |s|
    ensures var end := CommentEnd(s, p); end < |s| ==> IsLineBreakChar(s[end])
    decreases |s| - p
  {
    if p < |s| && !IsLineBreakChar(s[p]) {
      CommentEndsLine(s, p + 1);
    }
  }

  lemma NoDirectivesSound(schema: Schema, annotations: Annotations, location: DirectiveLocation)
    requires SchemaClosed(schema, annotations.Keys)
    ensures DirectivesSound(schema, annotations, [], location)
  {
  }

  lemma OneMoreDirective(schema: Schema, annotations: Annotations, location: DirectiveLocation,
                         directives: seq<Directive>, next: Directive)
    requires SchemaClosed(schema, annotations.Keys) && DirectiveSound(schema, annotations, next, location)
    requires forall k | 0 <= k < |directives| :: directives[k].name != next.name
    ensures DirectivesSound(schema, annotations, directives, location) ==>
              DirectivesSound(schema, annotations, directives + [next], location)
  {
    hide DirectiveSound;
  }

  lemma RootClosed(schema: Schema, types: set<Type>, operationType: OperationType)
    requires SchemaClosed(schema, types)
    ensures RootType(schema, operationType).Some? ==> FieldsClosed(RootType(schema, operationType).value, types)
  {
  }

  lemma SymbolClosed(schema: Schema, types: set<Type>, name: string)
    requires SchemaClosed(schema, types) && name in schema.symbols
    ensures FieldsClosed(schema.symbols[name], types)
  {
  }

  lemma NoSelections(schema: Schema, annotations: Annotations, scope: Declaration)
    requires SchemaClosed(schema, annotations.Keys) && FieldsClosed(scope, annotations.Keys)
    ensures SelectionsSound(schema, annotations, Any, scope, []) && AllSpreads(schema, annotations, scope, []) == []
  {
  }

  lemma SelectionsGrow(schema: Schema, annotations: Annotations, scope: Declaration, read: seq<Selection>,
                       selection: Selection)
    requires SchemaClosed(schema, annotations.Keys) && FieldsClosed(scope, annotations.Keys)
    ensures SelectionsSound(schema, annotations, Any, scope, read) &&
            SelectionSound(schema, annotations, Any, scope, selection) ==>
              SelectionsSound(schema, annotations, Any, scope, read + [selection])
    ensures AllSpreads(schema, annotations, scope, read + [selection]) ==
            AllSpreads(schema, annotations, scope, read) + Spreads(schema, annotations, scope, selection)
  {
    hide SelectionSound, Spreads;
    assert (read + [selection])[..|read|] == read;
  }

  // An inline fragment fits only on an object type.
  lemma InlineFragmentFits(schema: Schema, annotations: Annotations, scope: Declaration, typeName: string,
                           lexemes: seq<Lexeme>)
    requires SchemaClosed(schema, annotations.Keys) && FieldsClosed(scope, annotations.Keys)
    ensures SelectionFits(schema, annotations, scope, QS.ReadInlineFragment(typeName, lexemes)) ==>
              typeName in schema.symbols && schema.symbols[typeName].ObjectType?
  {
  }

  // The key that a field has been read with is the one it is looked up by.
  lemma FieldKey(key: string, lexemes: seq<Lexeme>)
    ensures var read := QS.ReadField(key, lexemes); read.Read? ==> read.value.Field? && read.value.Key() == key
  {
    hide QS.ReadDirectives, QS.ReadOptionalArguments, QS.ReadOptionalBraces;
  }

  // A field that is declared fits if its parts do.
  ghost predicate PartsFit(schema: Schema, annotations: Annotations, field: FieldDefinition, arguments: ArgumentList,
                           directives: seq<Directive>, selectionSet: SelectionSet)
    requires SchemaClosed(schema, annotations.Keys) && ArgumentsClosed(field.arguments, annotations.Keys)
    requires field.annotation in annotations
  {
    && (arguments.Parentheses? ==> ArgumentsSound(schema, annotations, field.arguments, arguments.arguments))
    && DirectivesSound(schema, annotations, directives, OnField)
    && (selectionSet.Braces? ==>
          var info := annotations[field.annotation];
          && info.base == TObject && info.name in schema.symbols
          && SelectionsSound(schema, annotations, Any, schema.symbols[info.name], selectionSet.selections))
  }

  lemma FieldFits(schema: Schema, annotations: Annotations, scope: Declaration, alias: Option<string>, name: string,
                  arguments: ArgumentList, directives: seq<Directive>, selectionSet: SelectionSet)
    requires SchemaClosed(schema, annotations.Keys) && FieldsClosed(scope, annotations.Keys)
    requires (scope.ObjectType? || scope.InterfaceType?) && alias.GetOr(name) in scope.fields
    ensures var s, field := Field(alias, name, arguments, directives, selectionSet), scope.fields[alias.GetOr(name)];
            && (SelectionSound(schema, annotations, Any, scope, s) <==>
                PartsFit(schema, annotations, field, arguments, directives, selectionSet))
            && var info := annotations[field.annotation];
               Spreads(schema, annotations, scope, s) ==
                 if selectionSet.Braces? && info.base == TObject && info.name in schema.symbols
                 then AllSpreads(schema, annotations, schema.symbols[info.name], selectionSet.selections) else []
  {
    hide ArgumentsSound, DirectivesSound, SelectionsSound, AllSpreads, SchemaClosed;
  }

  lemma FieldClosed(scope: Declaration, types: set<Type>, key: string)
    requires FieldsClosed(scope, types) && (scope.ObjectType? || scope.InterfaceType?) && key in scope.fields
    ensures scope.fields[key].annotation in types && ArgumentsClosed(scope.fields[key].arguments, types)
  {
  }

  // What has been read fits only if its parts do.
  lemma ReadFieldFits(schema: Schema, annotations: Annotations, scope: Declaration, key: string, lexemes: seq<Lexeme>)
    requires SchemaClosed(schema, annotations.Keys) && FieldsClosed(scope, annotations.Keys)
    requires (scope.ObjectType? || scope.InterfaceType?) && key in scope.fields
    ensures SelectionFits(schema, annotations, scope, QS.ReadField(key, lexemes)) ==>
              && QS.ReadField(key, lexemes).value.Field?
              && var s := QS.ReadField(key, lexemes).value;
                 PartsFit(schema, annotations, scope.fields[key], s.arguments, s.directives, s.selectionSet)
  {
    hide QS.ReadField, PartsFit, SelectionSound;
    FieldKey(key, lexemes);
    var read := QS.ReadField(key, lexemes);
    if read.Read? {
      var s := read.value;
      FieldFits(schema, annotations, scope, s.alias, s.name, s.arguments, s.directives, s.selectionSet);
    }
  }

  // An operation fits only if the schema has a type for it.
  lemma OperationFits(schema: Schema, annotations: Annotations, operationType: OperationType, lexemes: seq<Lexeme>)
    requires SchemaClosed(schema, annotations.Keys)
    ensures DefinitionFits(schema, annotations, QS.ReadOperation(operationType, lexemes)) ==>
              RootType(schema, operationType).Some?
  {
  }

  // A fragment definition is read with its header, and fits only on an object type.
  lemma FragmentHeader(schema: Schema, annotations: Annotations, lexemes: seq<Lexeme>)
    requires SchemaClosed(schema, annotations.Keys)
    ensures HeaderRead(lexemes) ==>
              QS.ReadFragmentDefinition(lexemes) ==
              QS.ReadFragmentOn(lexemes[0].text, lexemes[1..][1..][0].text, lexemes[1..][1..][1..])
    ensures DefinitionFits(schema, annotations, QS.ReadFragmentDefinition(lexemes)) ==>
              && HeaderRead(lexemes)
              && var d, typeName := QS.ReadFragmentDefinition(lexemes).value, lexemes[1..][1..][0].text;
                 && d.FragmentDefinition? && d.name == lexemes[0].text
                 && typeName in schema.symbols && schema.symbols[typeName].ObjectType?
  {
  }

  // A spread fits with its directives; nothing but a spread and an inline fragment follows dots.
  lemma SpreadFits(schema: Schema, annotations: Annotations, scope: Declaration, lexemes: seq<Lexeme>)
    requires SchemaClosed(schema, annotations.Keys) && FieldsClosed(scope, annotations.Keys)
    ensures SelectionFits(schema, annotations, scope, QS.ReadFragment(lexemes)) ==>
              && (Starts(lexemes, OnKeyword) || Starts(lexemes, GName))
              && (Starts(lexemes, OnKeyword) ==>
                    && Starts(lexemes[1..], GName)
                    && QS.ReadFragment(lexemes) == QS.ReadInlineFragment(lexemes[1..][0].text, lexemes[1..][1..]))
              && (Starts(lexemes, GName) ==>
                    DirectivesFit(schema, annotations, OnFragmentSpread, QS.ReadDirectives(lexemes[1..], [])))
  {
    hide QS.ReadDirectives, QS.ReadInlineFragment;
  }

  ghost predicate DocumentFits(schema: Schema, annotations: Annotations, read: Option<Document>)
    requires SchemaClosed(schema, annotations.Keys)
  {
    read.Some? && DocumentSound(schema, annotations, read.value)
  }

  // What holds of the definitions read so far, the spreads noted down and the names of fragments.
  ghost predicate DefinitionsFit(schema: Schema, annotations: Annotations, operations: seq<Definition>,
                                 fragments: seq<Definition>, references: seq<Reference>, names: set<string>)
    requires SchemaClosed(schema, annotations.Keys)
  {
    && (forall d | d in operations + fragments :: DefinitionSound(schema, annotations, Any, d))
    && (forall d | d in fragments :: d.FragmentDefinition?)
    && (forall r | r in references ::
          exists d | d in operations + fragments :: r in DefinitionSpreads(schema, annotations, d))
    && (forall d | d in operations + fragments ::
          forall r | r in DefinitionSpreads(schema, annotations, d) :: r in references)
    && (forall name :: name in names <==> exists d | d in fragments :: d.FragmentDefinition? && d.name == name)
    && DistinctFragments(fragments)
  }

  lemma NoDefinitions(schema: Schema, annotations: Annotations)
    requires SchemaClosed(schema, annotations.Keys)
    ensures DefinitionsFit(schema, annotations, [], [], [], {})
  {
  }

  lemma OneMoreDefinition(schema: Schema, annotations: Annotations, operations: seq<Definition>,
                          fragments: seq<Definition>, references: seq<Reference>, names: set<string>, d: Definition)
    requires SchemaClosed(schema, annotations.Keys)
    requires DefinitionsFit(schema, annotations, operations, fragments, references, names)
    requires DefinitionSound(schema, annotations, Any, d) && (d.FragmentDefinition? ==> d.name !in names)
    ensures var more := references + DefinitionSpreads(schema, annotations, d);
            if d.FragmentDefinition? then
              DefinitionsFit(schema, annotations, operations, fragments + [d], more, names + {d.name})
            else DefinitionsFit(schema, annotations, operations + [d], fragments, more, names)
  {
    hide DefinitionSound, DefinitionSpreads;
  }

  // The end of the document, or one more definition.
  lemma ReadDocumentStep(lexemes: seq<Lexeme>, operations: seq<Definition>, fragments: seq<Definition>)
    ensures lexemes == [] ==> QS.ReadDocument(lexemes, operations, fragments) == Some(Document(operations, fragments))
    ensures lexemes != [] && QS.ReadDefinition(lexemes).Read? ==>
              var d := QS.ReadDefinition(lexemes);
              QS.ReadDocument(lexemes, operations, fragments) ==
                if d.value.FragmentDefinition? then QS.ReadDocument(d.rest, operations, fragments + [d.value])
                else QS.ReadDocument(d.rest, operations + [d.value], fragments)
  {
    hide QS.ReadDefinition;
  }

  lemma {:induction false} DefinitionsKept(lexemes: seq<Lexeme>, operations: seq<Definition>,
                                           fragments: seq<Definition>)
    ensures var read := QS.ReadDocument(lexemes, operations, fragments);
            read.Some? ==> operations <= read.value.operations && fragments <= read.value.fragments
    decreases |lexemes|
  {
    hide QS.ReadDefinition;
    if lexemes != [] && QS.ReadDefinition(lexemes).Read? {
      var d := QS.ReadDefinition(lexemes);
      if d.value.FragmentDefinition? {
        DefinitionsKept(d.rest, operations, fragments + [d.value]);
      } else {
        DefinitionsKept(d.rest, operations + [d.value], fragments);
      }
    }
  }

  // If a document fits, then so does its next definition, and no fragment before it has its name.
  lemma NextDefinition(schema: Schema, annotations: Annotations, lexemes: seq<Lexeme>, operations: seq<Definition>,
                       fragments: seq<Definition>, references: seq<Reference>, names: set<string>)
    requires SchemaClosed(schema, annotations.Keys) && lexemes != []
    requires DefinitionsFit(schema, annotations, operations, fragments, references, names)
    ensures DocumentFits(schema, annotations, QS.ReadDocument(lexemes, operations, fragments)) ==>
              var read := QS.ReadDefinition(lexemes);
              && DefinitionFits(schema, annotations, read)
              && (read.value.FragmentDefinition? ==> read.value.name !in names)
  {
    hide QS.ReadDefinition, DefinitionSound;
    var all := QS.ReadDocument(lexemes, operations, fragments);
    if DocumentFits(schema, annotations, all) {
      var read := QS.ReadDefinition(lexemes);
      var d := read.value;
      if d.FragmentDefinition? {
        DefinitionsKept(read.rest, operations, fragments + [d]);
        assert all.value.fragments[|fragments|] == (fragments + [d])[|fragments|] == d;
        forall e | e in fragments && e.FragmentDefinition? ensures e.name != d.name {
          var k :| 0 <= k < |fragments| && fragments[k] == e;
          assert all.value.fragments[k] == (fragments + [d])[k] == e;
        }
      } else {
        DefinitionsKept(read.rest, operations + [d], fragments);
        assert all.value.operations[|operations|] == (operations + [d])[|operations|] == d;
      }
      assert d in all.value.operations + all.value.fragments;
      DefinitionApart(schema, annotations, Resolved(all.value.fragments), d);
    }
  }

  // All definitions fit: the document fits exactly when all the spreads in it are allowed.
  lemma AllDefinitions(schema: Schema, annotations: Annotations, operations: seq<Definition>,
                       fragments: seq<Definition>, references: seq<Reference>, names: set<string>)
    requires SchemaClosed(schema, annotations.Keys)
    requires DefinitionsFit(schema, annotations, operations, fragments, references, names)
    ensures DocumentSound(schema, annotations, Document(operations, fragments)) <==>
            forall r | r in references :: SpreadAllowed(schema, Resolved(fragments), r)
  {
    hide DefinitionSound, DefinitionSpreads, SpreadAllowed;
    forall d | d in operations + fragments
      ensures DefinitionSound(schema, annotations, Resolved(fragments), d) <==>
              SpreadsAllowed(schema, Resolved(fragments), DefinitionSpreads(schema, annotations, d))
    {
      DefinitionApart(schema, annotations, Resolved(fragments), d);
    }
  }
}
