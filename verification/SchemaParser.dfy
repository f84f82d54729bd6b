/** The schema's parser of values and type annotations, over the scanner. */
module SchemaParsing {
  import opened SourceText
  import opened GraphQlTokens
  import opened GraphQlLexer
  import opened GraphQlScanning
  import opened GraphQlSyntax
  import opened Diagnostics
  import opened LineIndex
  import opened SchemaReferences
  import VS = ValueSyntax
  import SR = ScannerRules
  import opened ScannerRuns
  import TS = TypeSyntax

  class SchemaParser {
    const scanner: GraphQlScanner
    var diagnostics: seq<Diagnostic>
    var currentValueToken: Token
    var forwardTypeReferences: seq<ForwardReference>

    constructor (scanner: GraphQlScanner)
      ensures this.scanner == scanner && diagnostics == []
    {
      this.scanner := scanner;
      diagnostics := [];
      currentValueToken := Unknown;
      forwardTypeReferences := [];
    }

    method AddDiagnostic(diagnostic: Diagnostic)
      modifies `diagnostics
      ensures diagnostics == old(diagnostics) + [diagnostic]
    {
      diagnostics := diagnostics + [diagnostic];
    }

    /** The location of the token taken last, from the running line and the column the token
        started in. If places were right `before` the token was taken, with white space skipped,
        this is the location the line index gives for its start, and the true one. */
    method GetTokenLocation(ghost before: SR.ScannerState) returns (location: Location, length: int)
      ensures length == scanner.position - scanner.startPosition
      ensures SR.PlacesIn(scanner.source, before) && before.cursor.position <= |scanner.source| + 1 &&
              scanner.State() == SR.Taken(scanner.source, before, true) && scanner.startPosition < |scanner.source| ==>
                && SR.Locate(scanner.source, scanner.State(), scanner.startPosition) == Found(location)
                && location == TrueLocation(scanner.source, scanner.startPosition)
    {
      hide SR.PlacesIn, SR.Taken, SR.Locate;
      location := Location(scanner.line, scanner.startColumn);
      length := scanner.position - scanner.startPosition;
      if SR.PlacesIn(scanner.source, before) && before.cursor.position <= |scanner.source| + 1 {
        TakenIsPlaced(scanner.source, before);
      }
    }

    /** Takes the expected token, or another one and reports it. */
    method ScanExpected(expected: Token) returns (found: bool)
      requires scanner.Valid() && expected !in {EndOfDocument, WhiteSpace}
      modifies `diagnostics, scanner
      ensures scanner.Valid() && old(scanner.position) <= scanner.position
      ensures found <==> old(scanner.Rest()) != [] && old(scanner.Rest())[0].token == expected
      ensures found ==> scanner.Rest() == old(scanner.Rest())[1..] && diagnostics == old(diagnostics)
      ensures !found ==> old(diagnostics) < diagnostics
    {
      hide SR.SavedInside, SR.Taken, SR.Tried, SR.SkippedTo, SR.BlockSkipped, GraphQlScanner.State, Lexemes,
        GraphQlScanner.Rest, GraphQlScanner.LinesSound, GraphQlScanner.HistorySound;
      var token := scanner.TakeLexeme(false);
      found := token == expected;
      if !found {
        AddDiagnostic(Expected(expected));
      }
    }

    /** Takes the expected token if it comes next. */
    method ScanOptional(expected: Token) returns (found: bool)
      requires scanner.Valid() && expected !in {EndOfDocument, WhiteSpace}
      modifies scanner
      ensures scanner.Valid() && old(scanner.position) <= scanner.position
      ensures found <==> Starts(old(scanner.Rest()), expected)
      ensures scanner.Rest() == TS.SkipOptional(old(scanner.Rest()), expected)
    {
      hide SR.SavedInside, SR.Taken, SR.Tried, SR.SkippedTo, SR.BlockSkipped, GraphQlScanner.State, Next,
        GraphQlScanner.LinesSound, GraphQlScanner.HistorySound;
      var token := scanner.TryScan(expected, false, true);
      found := token == expected;
    }

    // The token of a type's name, or another one and a diagnostic.
    method ParseTypeName() returns (token: Token, name: string)
      requires scanner.Valid()
      modifies `diagnostics, scanner
      ensures scanner.Valid() && old(scanner.position) <= scanner.position
      ensures var rest := old(scanner.Rest());
              if rest != [] && TS.NamesType(rest[0].token) then
                && token == rest[0].token && name == (if token == GName then rest[0].text else "")
                && scanner.Rest() == rest[1..] && diagnostics == old(diagnostics)
              else !TS.NamesType(token) && diagnostics == old(diagnostics) + [ExpectedTypeAnnotation]
    {
      hide SR.SavedInside, SR.Taken, SR.Tried, SR.SkippedTo, SR.BlockSkipped, GraphQlScanner.State, Lexemes,
        GraphQlScanner.Rest, GraphQlScanner.LinesSound, GraphQlScanner.HistorySound;
      token := scanner.TakeLexeme(false);
      name := if token == GName then scanner.GetValue() else "";
      if !TS.NamesType(token) {
        AddDiagnostic(ExpectedTypeAnnotation);
      }
    }

    /** Reads a type annotation: without a diagnostic exactly when the tokens spell one, and then
        it is a new annotation with just these flags and just its tokens are gone. One that goes
        by a name is remembered, with its place, until all symbols are known. */
    method ParseTypeAnnotation(inInput: bool) returns (annotation: Type?)
      requires scanner.Valid()
      modifies this, scanner
      ensures scanner.Valid() && old(scanner.position) <= scanner.position
      ensures annotation == null <==> TS.ParseType(old(scanner.Rest())).Failed?
      ensures if annotation == null then
                old(diagnostics) < diagnostics && old(forwardTypeReferences) <= forwardTypeReferences
              else
                && fresh(annotation) && diagnostics == old(diagnostics)
                && TS.ParseType(old(scanner.Rest())) == TS.Parsed(annotation.Info(), scanner.Rest())
                && forwardTypeReferences ==
                     old(forwardTypeReferences) +
                       if annotation.base == TObject then [ForwardReference(annotation, inInput)] else []
    {
      hide SR.SavedInside, SR.Taken, SR.Tried, SR.SkippedTo, SR.BlockSkipped, GraphQlScanner.State, Lexemes,
        GraphQlScanner.Rest, GraphQlScanner.LinesSound, GraphQlScanner.HistorySound, TS.ParseAfterName;
      annotation := null;
      var isListType := ScanOptional(OpenBracket);
      var token, name := ParseTypeName();
      if TS.NamesType(token) {
        annotation := ParseAfterTypeName(TS.BaseOf(token), name, isListType, inInput);
      }
    }

    // The end of a list, and the mark behind it.
    method ParseListEnd() returns (found: bool, isNonNullList: bool)
      requires scanner.Valid()
      modifies `diagnostics, scanner
      ensures scanner.Valid() && old(scanner.position) <= scanner.position
      ensures found <==> Starts(old(scanner.Rest()), CloseBracket)
      ensures if found then
                && diagnostics == old(diagnostics)
                && isNonNullList == Starts(old(scanner.Rest())[1..], Exclamation)
                && scanner.Rest() == TS.SkipOptional(old(scanner.Rest())[1..], Exclamation)
              else old(diagnostics) < diagnostics
    {
      hide SR.SavedInside, SR.Taken, SR.Tried, SR.SkippedTo, SR.BlockSkipped, GraphQlScanner.State, Lexemes,
        GraphQlScanner.Rest, GraphQlScanner.LinesSound, GraphQlScanner.HistorySound, NoBreak, Next;
      isNonNullList := false;
      found := ScanExpected(CloseBracket);
      if found {
        isNonNullList := ScanOptional(Exclamation);
      }
    }

    // The rest of an annotation after its name.
    method ParseAfterTypeName(base: BaseType, name: string, isListType: bool, inInput: bool)
      returns (annotation: Type?)
      requires scanner.Valid()
      modifies this, scanner
      ensures scanner.Valid() && old(scanner.position) <= scanner.position
      ensures annotation == null <==> TS.ParseAfterName(old(scanner.Rest()), base, name, isListType).Failed?
      ensures if annotation == null then
                old(diagnostics) < diagnostics && old(forwardTypeReferences) <= forwardTypeReferences
              else
                && fresh(annotation) && diagnostics == old(diagnostics)
                && TS.ParseAfterName(old(scanner.Rest()), base, name, isListType) ==
                     TS.Parsed(annotation.Info(), scanner.Rest())
                && forwardTypeReferences ==
                     old(forwardTypeReferences) +
                       if annotation.base == TObject then [ForwardReference(annotation, inInput)] else []
    {
      hide SR.SavedInside, SR.Taken, SR.Tried, SR.SkippedTo, SR.BlockSkipped, GraphQlScanner.State, Lexemes,
        GraphQlScanner.Rest, GraphQlScanner.LinesSound, GraphQlScanner.HistorySound, NoBreak, Next, TS.SkipOptional;
      annotation := null;
      var isNonNull := ScanOptional(Exclamation);
      var parsed := new Type(TypeInfo(base, name, isNonNull, isListType, false));
      if base == TObject {
        forwardTypeReferences := forwardTypeReferences + [ForwardReference(parsed, inInput)];
      }
      if isListType {
        var found, isNonNullList := ParseListEnd();
        if !found {
          return;
        }
        parsed.isNonNullList := isNonNullList;
      }
      annotation := parsed;
    }

    /** Reads a value: without a diagnostic exactly when the tokens spell one, and then it is
        that value and just its tokens are gone. */
    method ParseValue() returns (value: Value)
      requires scanner.Valid()
      modifies this, scanner
      ensures scanner.Valid() && old(scanner.position) <= scanner.position
      ensures !value.NoValue? ==> old(scanner.position) < scanner.position
      ensures old(diagnostics) <= diagnostics
      ensures diagnostics == old(diagnostics) <==> VS.ParseValue(old(scanner.Rest()), true).Parsed?
      ensures diagnostics == old(diagnostics) ==>
                && VS.ParseValue(old(scanner.Rest()), true) == VS.Parsed(value, scanner.Rest())
                && (value.NoValue? ==> currentValueToken == CloseBracket)
      decreases |scanner.source| + 1 - scanner.position, 1
    {
      hide SR.SavedInside, SR.Taken, SR.Tried, SR.SkippedTo, SR.BlockSkipped, GraphQlScanner.State, Lexemes,
        GraphQlScanner.Rest, GraphQlScanner.LinesSound, GraphQlScanner.HistorySound, NoBreak, Next, VS.ParseValue,
        VS.ParseElements, VS.ParseFields, VS.LeafValue;
      VS.ParseValueStep(scanner.Rest(), true);
      currentValueToken := scanner.TakeLexeme(false);
      if currentValueToken == OpenBracket {
        value := ParseElements();
      } else if currentValueToken == OpenBrace {
        value := ParseFields();
      } else if currentValueToken == CloseBracket {
        value := NoValue;
      } else if VS.IsLeaf(currentValueToken) {
        value := VS.LeafValue(currentValueToken, scanner.GetValue());
      } else {
        AddDiagnostic(ExpectedValue);
        var _ := scanner.SkipTo({GName, CloseParen});
        value := NoValue;
      }
    }

    method ParseElements() returns (value: Value)
      requires scanner.Valid()
      modifies this, scanner
      ensures scanner.Valid() && old(scanner.position) <= scanner.position
      ensures old(diagnostics) <= diagnostics && value.ListValue?
      ensures diagnostics == old(diagnostics) <==> VS.ParseElements(old(scanner.Rest()), [], true).Parsed?
      ensures diagnostics == old(diagnostics) ==>
                VS.ParseElements(old(scanner.Rest()), [], true) == VS.Parsed(value, scanner.Rest())
      decreases |scanner.source| + 1 - scanner.position, 2
    {
      hide SR.SavedInside, SR.Taken, SR.Tried, SR.SkippedTo, SR.BlockSkipped, GraphQlScanner.State, Lexemes,
        GraphQlScanner.Rest, GraphQlScanner.LinesSound, GraphQlScanner.HistorySound;
      var values := [];
      var element := ParseValue();
      while !element.NoValue?
        invariant scanner.Valid() && old(scanner.position) <= scanner.position
        invariant old(diagnostics) <= diagnostics
        invariant diagnostics != old(diagnostics) ==> VS.ParseElements(old(scanner.Rest()), [], true).Failed?
        invariant diagnostics == old(diagnostics) ==>
                    VS.ParseElements(old(scanner.Rest()), [], true) ==
                      if element.NoValue? then VS.Parsed(ListValue(values), scanner.Rest())
                      else VS.ParseElements(scanner.Rest(), values + [element], true)
        invariant diagnostics == old(diagnostics) && element.NoValue? ==> currentValueToken == CloseBracket
        decreases |scanner.source| + 1 - scanner.position, if element.NoValue? then 0 else 1
      {
        values := values + [element];
        element := ParseValue();
      }
      if currentValueToken != CloseBracket {
        AddDiagnostic(Expected(CloseBracket));
      }
      value := ListValue(values);
    }

    // Reports a token that is no field name and skips to a name, if one comes before the brace.
    method SkipToFieldName() returns (again: bool)
      requires scanner.Valid()
      modifies `diagnostics, scanner
      ensures scanner.Valid() && old(scanner.position) <= scanner.position
      ensures diagnostics == old(diagnostics) + [ExpectedObjectFieldName]
    {
      hide SR.SavedInside, SR.Taken, SR.Tried, SR.SkippedTo, SR.BlockSkipped, GraphQlScanner.State, Lexemes;
      AddDiagnostic(ExpectedObjectFieldName);
      var token := scanner.SkipTo({CloseBrace, GName});
      again := token == GName;
    }

    // The colon and the value of a field.
    method ParseFieldValue() returns (found: bool, value: Value)
      requires scanner.Valid()
      modifies this, scanner
      ensures scanner.Valid() && old(scanner.position) <= scanner.position
      ensures old(diagnostics) <= diagnostics
      ensures found <==> Starts(old(scanner.Rest()), Colon)
      ensures diagnostics == old(diagnostics) <==> found && VS.ParseValue(old(scanner.Rest())[1..], true).Parsed?
      ensures diagnostics == old(diagnostics) ==>
                VS.ParseValue(old(scanner.Rest())[1..], true) == VS.Parsed(value, scanner.Rest())
      decreases |scanner.source| + 1 - scanner.position, 2
    {
      hide SR.SavedInside, SR.Taken, SR.Tried, SR.SkippedTo, SR.BlockSkipped, GraphQlScanner.State, Lexemes,
        GraphQlScanner.Rest, GraphQlScanner.LinesSound, GraphQlScanner.HistorySound, NoBreak, VS.ParseValue;
      value := NoValue;
      found := ScanExpected(Colon);
      if found {
        value := ParseValue();
      }
    }

    method ParseFields() returns (value: Value)
      requires scanner.Valid()
      modifies this, scanner
      ensures scanner.Valid() && old(scanner.position) <= scanner.position
      ensures old(diagnostics) <= diagnostics
      ensures diagnostics == old(diagnostics) <==> VS.ParseFields(old(scanner.Rest()), [], true).Parsed?
      ensures diagnostics == old(diagnostics) ==>
                VS.ParseFields(old(scanner.Rest()), [], true) == VS.Parsed(value, scanner.Rest())
      decreases |scanner.source| + 1 - scanner.position, 2
    {
      hide SR.SavedInside, SR.Taken, SR.Tried, SR.SkippedTo, SR.BlockSkipped, GraphQlScanner.State, Lexemes,
        GraphQlScanner.Rest, GraphQlScanner.Valid, GraphQlScanner.LinesSound, GraphQlScanner.HistorySound, NoBreak,
        VS.ParseValue;
      var fields := [];
      while true
        invariant scanner.Valid() && old(scanner.position) <= scanner.position
        invariant old(diagnostics) <= diagnostics
        invariant diagnostics != old(diagnostics) ==> VS.ParseFields(old(scanner.Rest()), [], true).Failed?
        invariant diagnostics == old(diagnostics) ==>
                    VS.ParseFields(old(scanner.Rest()), [], true) == VS.ParseFields(scanner.Rest(), fields, true)
        decreases |scanner.source| + 1 - scanner.position
      {
        var token := scanner.TakeLexeme(true);
        if token == CloseBrace || token == EndOfDocument {
          break;
        }
        if token != GName {
          var again := SkipToFieldName();
          if again {
            continue;
          }
          break;
        }
        var name, start, end := scanner.GetValue(), scanner.startPosition, scanner.position;
        var found, fieldValue := ParseFieldValue();
        if !found {
          return NoValue;
        }
        fields := fields + [ObjectField(name, fieldValue, start, end)];
      }
      value := ObjectValue(fields);
    }
  }
}
