/** Executing the text of a document. */
module DocumentRoundTrip {
  import opened SourceText
  import opened GraphQlLexer
  import opened GraphQlScanning
  import opened GraphQlSyntax
  import opened Selections
  import opened DocumentTokens
  import opened DocumentText
  import opened DocumentPlaces
  import opened DocumentReading
  import opened DocumentRules
  import DocumentValidity
  import opened GraphQlExecuting
  import opened WrittenDocuments
  import opened WrittenValues
  import QS = QuerySyntax

  function DefinitionsText(definitions: seq<Definition>, manners: seq<Manner>): string
    requires |manners| == |definitions|
  {
    TextOf(DefinitionsTokens(definitions, manners))
  }

  /** The text of every well-spelled document, its definitions in any order, is read back as just that
      document, up to the places of names in its values, if and only if the default values of all
      variables fit. */
  lemma TextReadsBack(definitions: seq<Definition>, manners: seq<Manner>) returns (es: seq<Definition>)
    requires SpelledDefinitions(definitions, manners) && MannersReadable(definitions, manners)
    ensures QS.ReadDocument(Lexemes(DefinitionsText(definitions, manners), 0), [], []) ==
            if MannersFit(definitions, manners) then Some(DocumentOf(es)) else None
    ensures BareDefinitions(es) == BareDefinitions(definitions)
  {
    hide Lexemes, DefinitionsTokens, TextOf, SpelledDefinition, DefinitionReadable, OperationsOf, FragmentsOf,
      QS.ReadDocument, AllSpelled, MannersFit, MannersReadable;
    var s := DefinitionsText(definitions, manners);
    assert s[0..] == s;
    DefinitionsSpelled(definitions, manners);
    TextLexed(s, 0, DefinitionsTokens(definitions, manners));
    es := DefinitionsRead(Lexemes(s, 0), definitions, manners, [], []);
    assert [] + OperationsOf(es) == OperationsOf(es) && [] + FragmentsOf(es) == FragmentsOf(es);
  }

  /** Whatever text is read as a document, its tokens stand for the definitions of that document, each put in
      some manner, with default values that fit. */
  lemma TextIsDocument(s: string) returns (definitions: seq<Definition>, manners: seq<Manner>)
    requires QS.ReadDocument(Lexemes(s, 0), [], []).Some?
    ensures |manners| == |definitions| && StandForAll(Lexemes(s, 0), definitions, manners)
    ensures QS.ReadDocument(Lexemes(s, 0), [], []) == Some(DocumentOf(definitions))
  {
    hide Lexemes, StandForAll, QS.ReadDocument, OperationsOf, FragmentsOf, FromScanner;
    LexemesFromScanner(s, 0);
    definitions, manners := DocumentWritten(Lexemes(s, 0), [], []);
    assert [] + OperationsOf(definitions) == OperationsOf(definitions);
    assert [] + FragmentsOf(definitions) == FragmentsOf(definitions);
  }

  // Definitions alike but for places make up documents that fit together.
  lemma SameFits(schema: Schema, annotations: Annotations, first: seq<Definition>, second: seq<Definition>)
    requires SchemaClosed(schema, annotations.Keys) && BareDefinitions(first) == BareDefinitions(second)
    ensures DocumentSound(schema, annotations, DocumentOf(first)) <==>
              DocumentSound(schema, annotations, DocumentOf(second))
  {
    hide DocumentSound, BareDefinitions, OperationsOf, FragmentsOf, SchemaClosed;
    BareParts(first);
    BareParts(second);
    SameDocument(schema, annotations, DocumentOf(first));
    SameDocument(schema, annotations, DocumentOf(second));
  }

  /** Executing the text of a well-spelled document draws no diagnostic if and only if the document
      obeys all rules for the schema and the default values of all variables fit, and it is that document
      that comes back, up to the places of names in its values: operations of all three kinds, with their
      fields, aliases, arguments, directives, inline fragments and spreads, and fragments. All annotations
      are as before. */
  method ExecuteText(definitions: seq<Definition>, manners: seq<Manner>, schema: Schema, ghost types: set<Type>)
    returns (clean: bool, document: Document)
    requires SpelledDefinitions(definitions, manners) && MannersReadable(definitions, manners)
    requires SchemaClosed(schema, types)
    modifies types`isListType
    ensures clean <==>
            && MannersFit(definitions, manners)
            && RulesObeyed(schema, old(Snapshot(types)), DocumentOf(definitions))
    ensures clean ==>
              && BareDefinitions(document.operations) == BareDefinitions(OperationsOf(definitions))
              && BareDefinitions(document.fragments) == BareDefinitions(FragmentsOf(definitions))
              && Snapshot(types) == old(Snapshot(types))
  {
    hide DocumentSound, BareDefinitions, OperationsOf, FragmentsOf, QS.ReadDocument, Lexemes, TextOf, DefinitionsTokens,
      SpelledDefinition, SpelledManner, Snapshot, RulesObeyed, MannersFit, MannersReadable;
    ghost var es := TextReadsBack(definitions, manners);
    SameFits(schema, Snapshot(types), es, definitions);
    DocumentValidity.FitsByRules(schema, Snapshot(types), DocumentOf(definitions));
    BareParts(es);
    BareParts(definitions);
    var scanner := new GraphQlScanner(DefinitionsText(definitions, manners));
    var executor := new GraphQlExecutor(scanner, schema, types);
    document := executor.Execute();
    clean := executor.diagnostics == [];
  }
}
