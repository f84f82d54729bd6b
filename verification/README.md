# A verified model of the Flashpoint front ends

Flashpoint is a GraphQL and HTTP server written in C++. This Dafny project models its
hand-written front ends and the two pieces of plumbing they stand on, in the form the program
has them — classes whose methods move a cursor, push and pop stacks, flip flags in shared
objects and fill buffers — and proves them against specifications stated as functions on values.

Check it with `dafny verify dfyconfig.toml` (Dafny 4.11).

## What is here

**Scanner.** `SourceText` says what lines and columns are; `GraphQlTokens` and `GraphQlLexer` say
what one call of the scanner recognises and which tokens (`Lexemes`) are left at an offset.
`ScannerRules` says what every call does to the cursor, the stack of saved cursors and the line
index, and `GraphQlScanner` is the scanner itself, refined to it. A revert rewinds the cursor but not
the index, so after lookahead the index holds repeated entries out of order; `LineIndex` proves that
the binary search over it still finds every true location, and `ScannerRuns` that it does so in every
run of calls, that lookahead leaves no trace, and that the cheap location made of the running line and
column is the true one in every such run. `LexerFacts` says which tokens can break the bookkeeping.
`TokenLanguages` gives the texts of every kind of token, after the GraphQL specification and with nothing
from the lexer, and `TokenTexts` proves that these and no others are scanned as that kind, behind ignored text
and nothing else. `DirectiveNames` says which names of directive locations are told apart, and
`DirectiveScans` what the scan for one tells, by the text that it starts in front of.

**Values.** `ValueSyntax` is the grammar of values over tokens. `ValueRules` has three predicates:
`Conforms` (the rules the checkers share, on values alone), `Passes` (a checker that clears the list
flags of shared annotations on its way down) and `Accepts` (the stricter check fused into the query
parser). `InputCoercion` states what the GraphQL specification asks of a value and how far the
checkers' rules are from it. `SchemaParser` and `SchemaChecker` are the two passes of the schema,
proved to end without a diagnostic exactly on the texts of the grammar and exactly on the values
that pass, and `SchemaReferences` says what a schema that has been resolved without a diagnostic
guarantees for its annotations; `GraphQlExecutor.ParseValue` is the one-pass version. `SharedAnnotations` shows on which
types clearing shared flags does no harm, `AcceptedValues` exactly what the one-pass check refuses, and
`ValueAgreement` compares the two ways. `ValueTokens` prints every value as tokens and proves that these are
read as that value, and `WrittenValues` that nothing else is (`WrittenTypes` for type annotations).

**Queries.** `Selections` says when a query fits a schema (GraphQL specification, June 2018, sections
5.3.1, 5.4.1, 5.5.2.1, 5.5.2.3, 5.7.1 and 5.7.2), and `QuerySyntax` which document a sequence of
tokens spells, whatever the schema (`VariableSyntax` for the variables of an operation).
`GraphQlExecutor.Execute` parses a whole document in one pass, with its stack of types and its deferred
fragment spreads; it is proved to draw no diagnostic exactly when the text spells a document that fits the
schema, and then to return just that document (`QueryFitness` has the steps).

Both halves of this have a second form that owes nothing to the parser. `DocumentTokens` and `DocumentText`
print documents, after sections 2.2 to 2.12 of the GraphQL specification, with keywords and punctuators of their own.
`DocumentReading` and `VariableReading` prove that every document comes back from its tokens and
`WrittenDocuments` that whatever is read was written that way. `DocumentRules` states the validation rules (section 5) one
by one over all places of a document at once, and `DocumentValidity` proves that a document fits exactly if it
obeys all of them everywhere. `DocumentRoundTrip` puts it all together: the text of a document is executed
without a diagnostic if and only if the document obeys every rule, and it is that document that comes back.
`DocumentPlaces` shows that the places of names in values, which a text of its own gives them, do not matter.

`QueryArguments` goes on to section 5.6: when all argument values of a document that fits can be coerced to
their types. `QueryGuarantees` adds what follows together with the schema's check of implementations.

**Printing.** `TextWriter` is the writer with nested placeholders, `WriterRuns` all its calls on one text
that is never cut and what nested placeholders leave alone, `PlaceholderFills` the order in which
placeholders may be filled, `ValuePrinter` the printing of values and types, `TokensInText` the step from
printed text to tokens. `ValueRoundTrip` and `TypeRoundTrip` prove when printed text is read back.

**Memory.** `PoolRules` is the block allocator as a state machine with a theorem over every run,
`MemoryPool` the allocator itself, refined to it.

**HTTP.** `RequestLines` is the grammar of the request line and its round trip, `HttpWriter` the writer
with its fixed buffer, `HttpScanner` the scanner and parser, `HttpRoundTrip` both together.

## What the proofs found

These follow the code where it and its documentation, or the specifications it implements,
disagree.

- The carriage-return branch of the scanner looks two characters ahead instead of one. Locations
  are claimed for texts in which every carriage return stands alone (`LoneCarriageReturns`, which
  holds of all texts without carriage returns); `CarriageReturnBranch` gives the condition at one place.
- Line ends inside string tokens are not recorded. `TakeNextToken` keeps the line bookkeeping if and
  only if the token it took spans no line end, and `OnlyStringsSpanLines` shows that only string
  tokens and unclosed block strings can. Lookahead over such a token does no harm. After it has been
  taken for good, the next line break that is recorded gets a wrong entry (`WrongEntry`), and no later
  call, reverts included, ever repairs the index (`NeverRepaired`).
- A minus sign alone is scanned as an integer, and so is a number that starts with a zero (`IsInteger`,
  `TokenLanguage`).
- After a first digit, a second digit 0 ends a number. So printed numbers are read back if and only
  if they are negative, below 100, or have another second digit (`PrintingReadsBack`).
- Printing throws on objects and on empty lists, and a check that meets one it has to reject throws
  with it, leaving list flags cleared (`CheckValue`, `GetValueString`).
- Where a list is met again inside itself through the fields of an input object, its own cleared flag
  makes the checker reject good values. `SharedFlagsExactly` shows for every single type that this is
  the only way the flags do harm; paths through input objects that have no values at all do not count.
- The query parser overlooks a field whose value is a closing bracket, as in `{a: ]}`
  (`HoleIsOverlooked`); apart from that its check is never looser than the schema's. The schema's
  check follows a null pointer on that value (`CheckValue`).
- Against the specification, the checkers refuse an integer where a float is wanted, a single item
  where a list is wanted, and an input object that leaves out a nullable list of non-null items; the
  schema's check lets unknown enum values pass, and no check looks at the range of integers
  (`CoercionGap` says that this is all).
- A field with an alias is looked up by the alias, and what is selected inside it is judged by the
  alias's type. For a pair of fields of a type this never lets anything undefined through if and only if
  every path of fields that can be walked from the alias's type can be walked from the name's and leads
  to at least the same fields (`AliasHarmlessExactly`), which can be checked before any query comes.
- In the names of the directive locations `SCHEMA` and `SCALAR` the second letter is not looked at
  (`NameTold`). A name is told only if nothing but white space and commas was passed over in front of it: a pipe,
  a comment or any other character stays in the value, which then names no location (`ScanTells`).
- Behind the values that conform, the query parser's check also keeps out every null where either non-null flag
  is set and every enum value that is not a member (`AcceptedExactly`). A name on an input object's list of required
  ones that belongs to no required field makes it stricter still (`AcceptedWhereRecorded`).
- Any token that is no name closes the arguments of a field or a directive, and the end of the text closes an
  object value (`DocumentWritten`, `ValueWritten`).
- Padding is worked out from the offset in a block, but moves the address: where the pool itself does not start at
  a multiple of the alignment, an offset that is one gets no padding (`PaddingExactly`).
- Of the variables of an operation one without a dollar sign is read, or any one token that is no name;
  none is kept, and a comma never comes, so there is no second one (`ReadVariables`). A default value is
  refused where it holds null and only the list, or only its items, are non-null (`DefaultsConform`).
- An input object may declare a field twice. The first one is kept, but a later one that is required makes
  the name required (`RequiredNamesExactly`).
- A returned memory ticket gives back only the block it stands in; all blocks it overflowed before
  are lost for good (`ReturnGivesBackAll`, `RetiredForever`). A request that fails, as every one larger
  than a block does, has used up every free block (`MemoryPool.Allocate`).
- Offsets of placeholders are not moved along. All contents end up at their own places, whatever they
  are, if and only if the offsets never ascend in the order of filling (`OrderOfFills`).

## Model

| member | source | states |
|---|---|---|
| LineIndex.SearchForLine | src/program/graphql/graphql_scanner.cpp:607-639 | the recursive binary search, with reading past the list and unsigned wrap-around made visible as `OutOfRange` |
| LineIndex.SearchFindsTrueLocation | src/program/graphql/graphql_scanner.cpp:607-639 | on a list that may repeat and descend, the search between two entries that enclose the offset ends with its true line and column, without reading out of range |
| LineIndex.WholeSearch | src/program/graphql/graphql_scanner.cpp:599-605 | the search over the whole index finds the true location of every offset up to the cursor, and nothing past the text |
| LineIndex.OneLineBetween | src/program/graphql/graphql_scanner.cpp:607-639 | between two neighbouring entries that ascend there is just one line, so the lower one locates every offset between them |
| LineIndex.RecordLine | src/program/graphql/graphql_scanner.cpp:46-70 | recording a line start keeps the index sound also when it has been recorded before, and the index then reaches every offset up to the new cursor |
| LexerFacts.OnlyStringsSpanLines | src/program/graphql/graphql_scanner.cpp:698-738 | no token but a string, an invalid string or an unknown one spans a line end |
| LexerFacts.CarriageReturnBranch | src/program/graphql/graphql_scanner.cpp:46-58 | the branch records a true line start and keeps the token start in step exactly if no line feed stands one or two places behind the carriage return |
| GraphQlScanning.GraphQlScanner.constructor | src/program/graphql/graphql_scanner.h:161 | the initial index makes the line bookkeeping right |
| GraphQlScanning.GraphQlScanner.TakeNextToken | src/program/graphql/graphql_scanner.cpp:29-136 | takes the token that `Next` says, whose text and kind `TokenTexts.NextTokenLanguage` gives; ends or strictly advances; keeps the line bookkeeping exactly when the token spans no line end; the running start column is the true one |
| TokenTexts.TokenLanguage | src/program/graphql/graphql_scanner.cpp:29-211 | in front of a character no token goes on with, a text is scanned as one token of a kind if and only if it is in the language of that kind: literals for punctuators and keywords, names, integers and floats with the zero quirk, one-line and block strings with their escapes, and invalid strings |
| TokenTexts.IgnoredSkipped | src/program/graphql/graphql_scanner.cpp:38-70 | the next token starts at an offset if and only if what stands before it is white space, commas, line breaks and closed comments, and the character there is none of these |
| TokenTexts.NextTokenLanguage | src/program/graphql/graphql_scanner.cpp:29-136 | both together: the next token has a text and a kind if and only if ignored text comes first and the text is in the language of the kind |
| GraphQlScanning.GraphQlScanner.TakeLexeme | src/program/graphql/graphql_scanner.cpp:29-136 | the same call as one step through the tokens that are left |
| GraphQlScanning.GraphQlScanner.ScanNumber | src/program/graphql/graphql_scanner.cpp:138-211 | loops over digits, fraction and exponent end where the grammar of the code ends, moving column and position together |
| GraphQlScanning.GraphQlScanner.ScanStringLiteral | src/program/graphql/graphql_scanner.cpp:698-738 | the one-line string loop with its escapes and its memory of a line break |
| GraphQlScanning.GraphQlScanner.ScanStringBlockAfterDoubleQuotes | src/program/graphql/graphql_scanner.cpp:652-680 | the block string loop, which gives up at a quote too close to the end |
| GraphQlScanning.GraphQlScanner.Save | src/program/graphql/graphql_scanner.cpp:857-868 | pushes the cursor and keeps the line bookkeeping |
| GraphQlScanning.GraphQlScanner.Revert | src/program/graphql/graphql_scanner.cpp:870-881 | restores the cursor saved last and leaves the index; if the history is sound, as it is while every recorded line break was counted right, the line bookkeeping is right again; lines and columns stay right if they and those of all saves were |
| GraphQlScanning.GraphQlScanner.PeekNextToken | src/program/graphql/graphql_scanner.cpp:848-855 | tells the next token; cursor and save stack are as before, and locations, lines and columns stay right |
| GraphQlScanning.GraphQlScanner.TryScan | src/program/graphql/graphql_scanner.cpp:895-905 | takes the expected token and leaves one stale save, or leaves no trace but a longer index |
| GraphQlScanning.GraphQlScanner.SkipTo | src/program/graphql/graphql_scanner.cpp:246-260 | skips exactly the tokens before the first wanted one, or all; keeps the line bookkeeping, and that of lines and columns together, exactly if the skipped tokens stand on one line each, whatever the wanted one does |
| GraphQlScanning.GraphQlScanner.SkipBlock | src/program/graphql/graphql_scanner.cpp:219-244 | skips exactly the shortest run of tokens that has seen a brace and has depth at most zero, or all; keeps the line bookkeeping, and that of lines and columns together, exactly if these tokens stand on one line each |
| ScannerRuns.RunLocates | src/program/graphql/graphql_scanner.cpp:29-136 | in every run of scanner calls in which each token taken for good stands on one line, the search finds the true line and column of every offset up to the cursor |
| ScannerRuns.LookaheadIsInvisible | src/program/graphql/graphql_scanner.cpp:848-905 | a peek, a failed try or a skip to the very next token changes no later cursor, no saved cursor and no location, whatever is called afterwards |
| ScannerRuns.StepKeepsLines | src/program/graphql/graphql_scanner.cpp:219-260 | every single call keeps the line bookkeeping exactly if all the tokens it takes for good stand on one line each; lookahead may meet any token |
| ScannerRuns.StepKeepsPlaces | src/program/graphql/graphql_scanner.cpp:219-260 | the same, as an if and only if for every call, for lines, columns and those of all saved cursors together |
| ScannerRuns.RunLocatesTokens | src/program/graphql/graphql_parser_impl.h:52-61 | in every run of calls, reverts and error recovery included, whose tokens taken for good hold no line end, the running line and the start column of the next token, strings included, are its true location and the one the index gives |
| ScannerRuns.WrongEntry | src/program/graphql/graphql_scanner.cpp:46-70 | a line break is recorded with a true entry exactly if the line number was right |
| ScannerRuns.NeverRepaired | src/program/graphql/graphql_scanner.cpp:870-881 | a wrong entry stays in the index, and the bookkeeping wrong, through every run of calls |
| GraphQlScanning.GraphQlScanner.ScanDirectiveLocation | src/program/graphql/graphql_scanner.cpp:416-461 | finds the first name over anything that cannot start one; if only white space and commas come before it, the value is just that name and each location is told exactly for its own name, or for one that misses it in the letter that is not looked at; if anything else was passed over, no location is told; without a name, the end is; keeps lines and columns right |
| DirectiveScans.ScanTells | src/program/graphql/graphql_scanner.cpp:416-461 | where the value starts and what is told of it, for every text in front of the name |
| DirectiveNames.NameTold | src/program/graphql/graphql_scanner.cpp:463-592 | a name is told as a location exactly if it is spelled like it, or is one of `SCHEMA` and `SCALAR` but for the second letter |
| GraphQlScanning.GraphQlScanner.GetTokenLocation | src/program/graphql/graphql_scanner.cpp:599-605 | while the bookkeeping is right, gives the true location of any offset up to the cursor |
| SchemaParsing.SchemaParser.GetTokenLocation | src/program/graphql/graphql_parser_impl.h:52-61 | the cheap location from the running line and column of a token taken from where places were right, strings that span lines included, is the true one and the one the index gives |
| ValueSyntax.KeywordNamesOnlyAdd | src/program/graphql/graphql_schema.cpp:1130-1228 | what the query parser reads as a value, the schema's parser reads as the same value with the same tokens left |
| ValueTokens.TokensReadBack | src/program/graphql/graphql_schema.cpp:1130-1228 | every complete value, objects included, is read back from its own tokens with nothing left over: always in the schema, and in a query if and only if no field at any depth is named like a keyword |
| WrittenValues.ValueWritten | src/program/graphql/graphql_schema.cpp:1130-1228 | whatever is read as a value are the tokens of that value, up to other ways to put a number and to braces missing at the end of the text; a query has no field named like a keyword in it |
| SchemaParsing.SchemaParser.ParseValue | src/program/graphql/graphql_schema.cpp:1130-1228 | draws no diagnostic exactly when the tokens spell a value, and then returns that value and takes just its tokens |
| SchemaParsing.SchemaParser.ParseTypeAnnotation | src/program/graphql/graphql_schema.cpp:689-734 | returns an annotation exactly when the tokens spell one, new, with just these flags; one that goes by a name is remembered with its place |
| WrittenTypes.AnnotationWritten | src/program/graphql/graphql_schema.cpp:689-734 | whatever is read as an annotation are just the tokens of that annotation printed |
| SchemaChecking.SchemaChecker.CheckForwardReferences | src/program/graphql/graphql_schema.cpp:798-827 | no diagnostic exactly when every name is that of a type for its place; annotations that name enums get enum kind and no other changes |
| SchemaReferences.RequiredNamesExactly | src/program/graphql/graphql_schema.cpp:446-495 | a name is on the list of required fields exactly if one of the fields declared with it is required, and the field kept is one of these |
| SchemaReferences.CheckedSchemaHarmless | src/program/graphql/graphql_schema.cpp:798-827 | in a schema whose references draw no diagnostic, all that coercion of arguments asks of it is that no list below an argument is met again inside itself |
| SchemaReferences.PlacedRightExactly | src/program/graphql/graphql_schema.cpp:798-827 | a name draws no diagnostic exactly if, once resolved, it names an enum or an input object where something is put in, and an enum, object, interface or union where something is put out |
| SchemaReferences.SelectedOnOutputs | src/program/graphql/graphql_schema.cpp:798-827 | in a schema whose references draw no diagnostic, nothing inside a field is ever selected on an input object |
| SchemaChecking.SchemaChecker.CheckValue | src/program/graphql/graphql_schema.cpp:886-978 | returns without diagnostic exactly when the value passes; if it returns, every shared annotation is as it was, on all type graphs; it follows a null pointer only if a part of the value is missing, and does so on `{a: ]}` |
| SchemaChecking.SchemaChecker.CheckElements | src/program/graphql/graphql_schema.cpp:893-915 | the flags cleared around the elements of a list are set back to what they were |
| SchemaChecking.SchemaChecker.CheckInputObject | src/program/graphql/graphql_schema.cpp:980-1038 | no diagnostic exactly when all fields are declared, different, of passing values and no required one is missing |
| SchemaChecking.AllFieldsPresent | src/program/graphql/graphql_schema.cpp:1020-1036 | the shortcut on the number of checked fields never hides a missing one |
| SharedAnnotations.SharedFlagsAreHarmless | src/program/graphql/graphql_schema.cpp:886-1038 | if no list below a type is met again inside itself, a value passes the flag-clearing check for it exactly when it conforms |
| SharedAnnotations.PassesIffConforms | src/program/graphql/graphql_schema.cpp:886-1038 | the same in the middle of a check, with some flags cleared |
| SharedAnnotations.SharedFlagsExactly | src/program/graphql/graphql_schema.cpp:893-915 | for every single type, with required fields or without: passing and conforming agree on all values if and only if no list below the type is met again inside itself |
| InputCoercion.CoercionGap | src/program/graphql/graphql_schema.cpp:886-1038 | of the values that conform, the specification refuses exactly those with an unknown enum value or an integer out of range; of those it coerces, the checkers refuse exactly those with an integer for a float, an item for a list or a nullable list of non-null items left out |
| InputCoercion.AcceptedCoerces | src/program/graphql/graphql_executor.cpp:459-669 | a value the query parser accepts can be coerced exactly if no part is missing and its integers fit |
| ValueRules.QueryCheckIsStricter | src/program/graphql/graphql_executor.cpp:459-669 | a value the one-pass check accepts passes the two-pass check exactly when no part of it is missing, on all type graphs |
| AcceptedValues.AcceptsBeyondPasses | src/program/graphql/graphql_executor.cpp:459-669 | on all type graphs, a complete value is accepted if and only if it passes, its enum values are members, no null stands where either non-null flag is set and no name on a list of required ones is missing |
| AcceptedValues.AcceptedExactly | src/program/graphql/graphql_executor.cpp:459-669 | the same with conforming for passing, on types whose flags do no harm |
| AcceptedValues.AcceptedWhereRecorded | src/program/graphql/graphql_executor.cpp:459-669 | where exactly the required fields are on record, what the check refuses of the values that conform are unknown enum values and nulls under either non-null flag, at every depth, and nothing else |
| ValueAgreement.QueryValuesAreSchemaValues | src/program/graphql/graphql_executor.cpp:459-669 | for any tokens: accepted in one pass means read as the same value in two passes and passed there, unless a part is missing; for types whose flags do no harm such a value conforms |
| ValueAgreement.HoleIsOverlooked | src/program/graphql/graphql_executor.cpp:493-560 | the tokens of `{a: ]}` are accepted by the one-pass check and not by the other |
| GraphQlExecuting.GraphQlExecutor.ParseValue | src/program/graphql/graphql_executor.cpp:459-669 | without a diagnostic the tokens spell the value, it is accepted, and every annotation is as before; with one, the tokens spell no accepted value |
| GraphQlExecuting.GraphQlExecutor.ParseArguments | src/program/graphql/graphql_executor.cpp:385-433 | no diagnostic exactly when the tokens spell arguments of which each is declared and of an accepted value, and none that must be given is missing; it returns just these |
| GraphQlExecuting.GraphQlExecutor.ParseDirectives | src/program/graphql/graphql_executor.cpp:685-739 | no diagnostic exactly when the tokens spell directives of which each is defined, allowed here, given once and has arguments that fit; it returns just these |
| GraphQlExecuting.GraphQlExecutor.ParseSelectionSetAfterOpenBrace | src/program/graphql/graphql_executor.cpp:223-342 | no diagnostic exactly when the tokens spell selections that fit the type on top of the stack; it returns just these, their spreads are noted down in order, and just that type is gone from the stack |
| GraphQlExecuting.GraphQlExecutor.CheckFragmentAssignment | src/program/graphql/graphql_executor.cpp:344-383 | no diagnostic exactly when the fragment's type is among the possible types of the type in scope (section 5.5.2.3) |
| GraphQlExecuting.GraphQlExecutor.CheckForwardFragmentReferences | src/program/graphql/graphql_executor.cpp:52-76 | no diagnostic exactly when each deferred spread names a fragment on an object type that fits where it was spread |
| GraphQlExecuting.GraphQlExecutor.Execute | src/program/graphql/graphql_executor.cpp:14-38 | no diagnostic exactly when the tokens of the text spell a document that fits the schema: fields declared, fragments on possible object types, spreads resolved, arguments and directives right, fragment names different; it returns just that document, with type stack and annotations as they began |
| GraphQlExecuting.GraphQlExecutor.ParseVariableDefinitions | src/program/graphql/graphql_executor.cpp:436-456 | no diagnostic exactly when the tokens start with one that is no name, or spell one variable whose default value, if it has one, fits its type; just these are taken, and all annotations are as before |
| GraphQlExecuting.GraphQlExecutor.ParseType | src/program/graphql/graphql_executor.cpp:751-781 | any token is taken for the name of a type, with brackets and marks as they come; a diagnostic exactly for a bracket that is not closed |
| VariableSyntax.DefaultsConform | src/program/graphql/graphql_executor.cpp:448-450 | a default value that is taken and complete is one that conforms, without nulls if any non-null flag is set, and the other way round |
| DocumentReading.DefinitionsRead | src/program/graphql/graphql_executor.cpp:84-342 | every document is read back from its tokens, whatever the order of its definitions and however each is put, if and only if the default values of its variables fit |
| VariableReading.VariablesRead | src/program/graphql/graphql_executor.cpp:436-456 | the parser goes on behind the tokens of variables if and only if the default value fits the type and no field in it is named like a keyword |
| WrittenDocuments.DocumentWritten | src/program/graphql/graphql_executor.cpp:84-342 | whatever is read as a document, its tokens stand for the definitions of that document one after the other, arguments closed by any token that is no name, with default values that fit |
| DocumentValidity.FitsByRules | src/program/graphql/graphql_executor.cpp:223-433 | a document fits a schema if and only if it obeys the rules of section 5 of the GraphQL specification, each stated on its own, at every one of its places |
| DocumentRoundTrip.TextReadsBack | src/program/graphql/graphql_executor.cpp:14-38 | the text of every well-spelled document is scanned and read back as just that document, up to places, if and only if its default values fit |
| DocumentRoundTrip.TextIsDocument | src/program/graphql/graphql_executor.cpp:14-38 | whatever text is read as a document, its tokens stand for the definitions of that document |
| DocumentRoundTrip.ExecuteText | src/program/graphql/graphql_executor.cpp:14-38 | executing the text of a document, with operations of all three kinds, variables, aliases, arguments, directives, inline fragments and spreads, draws no diagnostic if and only if the document obeys every rule at every place and its default values fit; it is that document that comes back, and all annotations are as before |
| Selections.SpreadsApart | src/program/graphql/graphql_executor.cpp:52-76 | a selection fits with its spreads resolved exactly if it fits without them and each spread, noted with the type in scope, is allowed afterwards |
| QueryArguments.ArgumentsCoerce | src/program/graphql/graphql_executor.cpp:385-433 | in a document that fits, all arguments of fields and directives at all depths can be coerced to their types (section 5.6) exactly if none has a part missing and all integers fit |
| QueryGuarantees.SelectedOnInterface | src/program/graphql/graphql_executor.cpp:277-290 | across both passes: whatever is selected on an interface, at any depth, exists with the same type on every object that can stand for it |
| QueryGuarantees.HarmlessAliasesFieldsDefined | src/program/graphql/graphql_executor.cpp:277-299 | a query that fits selects defined fields only, at every depth, if it has no aliases or only ones whose names are declared, with the same types where something is selected inside |
| QueryGuarantees.CoveredExactly | src/program/graphql/graphql_executor.cpp:278-323 | all that fits one type without aliases is defined on another if and only if every path of fields from the first can be walked from the second and leads to at least the same fields |
| QueryGuarantees.AliasHarmlessExactly | src/program/graphql/graphql_executor.cpp:278-323 | for any alias and name on any type: no query that renames the one to the other draws no diagnostic and selects something undefined, if and only if what can be selected on the alias can be selected on the name |
| SchemaChecking.SchemaChecker.CheckObjectImplementations | src/program/graphql/graphql_schema.cpp:829-884 | no diagnostic exactly when every object has every field of its interfaces, with the same base type and name |
| QueryGuarantees.SameTypeByName | src/program/graphql/graphql_schema.cpp:829-884 | types count as the same exactly if they are printed the same but for brackets and exclamation marks |
| SchemaChecking.SchemaChecker.CheckRecursiveDirectives | src/program/graphql/graphql_schema.cpp:1078-1128 | on acyclic input types, ends, and reports exactly if some reachable input object, enum, field or enum value carries the directive |
| DeclarationRules.ReachableStep | src/program/graphql/graphql_schema.cpp:1078-1128 | what the recursion over fields computes is reachability along paths of fields |
| TextWriting.TextWriter.Write | src/lib/text_writer.cpp:90-99 | inserts into the whole text at the cursor, with indentation at the start of a line |
| TextWriting.TextWriter.BeginWriteOnPlaceholder | src/lib/text_writer.cpp:125-143 | moves the cursor to the stored offset and leaves the whole text as it is; says exactly when it throws |
| TextWriting.TextWriter.EndWriteOnPlaceholder | src/lib/text_writer.cpp:145-163 | joins the innermost end on again, leaves the whole text as it is, and puts the cursor back behind what was inserted |
| TextWriting.TextWriter.AddPlaceholder | src/lib/text_writer.cpp:217-230 | remembers the cursor; says exactly when it throws |
| WriterRuns.Perform | src/lib/text_writer.cpp:125-163 | each call of the writer is a step of an editor on one text that is never cut, and throws exactly where that has no next step |
| WriterRuns.RunRenders | src/lib/text_writer.cpp:84-99 | outside of placeholders, every run of calls adds just the lines written, each behind the indentation in force when it is first written on |
| WriterRuns.RunKeepsBehind | src/lib/text_writer.cpp:125-163 | in every run, on however many placeholders inside one another, the text behind the place to go back to stays as it is while a placeholder is open |
| WriterRuns.NestedPair | src/lib/text_writer.cpp:125-163 | after a placeholder has been begun and ended, with any run between that ends what it begins, the cursor is in front of the very same text, moved on by all that has been written, with column and indentation as before |
| TextWriting.TextWriter.Restore | src/lib/text_writer.cpp:177-187 | goes back to the text saved last, or throws if there is none |
| PlaceholderFills.OrderOfFills | src/lib/text_writer.cpp:125-163 | filling placeholders in a given order puts all contents, whatever they are, at their own offsets if and only if the offsets never ascend in that order |
| PlaceholderFills.FillPlaceholders | src/lib/text_writer.cpp:125-163 | a run of the writer that fills named placeholders one after the other gives the text with all contents inserted in that order, and each at its own place if they are named from back to front |
| ValuePrinting.GetValueString | src/program/graphql/graphql_parser_impl.h:115-168 | returns the text of the value, separators between elements only, or throws exactly if an object or an empty list comes first, or follows a null pointer exactly if a missing part does |
| ValuePrinting.GetTypeName | src/program/graphql/graphql_parser_impl.h:63-106 | the name with brackets and exclamation marks as the flags say |
| TokensInText.TokenInContext | src/program/graphql/graphql_scanner.cpp:29-136 | a text that spells one token is that token wherever it stands before a character that does not go on with it |
| ValueRoundTrip.ParsePrinted | src/program/graphql/graphql_parser_impl.h:115-168 | wherever a printed value stands in a text, it is read back, or else its text makes more tokens than the value has |
| ValueRoundTrip.ParseTakesSize | src/program/graphql/graphql_schema.cpp:1130-1228 | a parsed value has used up exactly the tokens it is made of |
| ValueRoundTrip.PrintingReadsBack | src/program/graphql/graphql_parser_impl.h:115-168 | printing, scanning and parsing gives the value back with nothing left over if and only if no number of three digits or more has a zero as its second one; for nested lists of all printable values, numbers included |
| ValueRoundTrip.DecimalTokens | src/program/graphql/graphql_scanner.cpp:183-211 | a printed number is one token exactly under that condition |
| ValueRoundTrip.OneHundredIsReadAsTen | src/program/graphql/graphql_scanner.cpp:190-197 | `100` is read as 10, with a 0 left over |
| TypeRoundTrip.AnnotationReadsBack | src/program/graphql/graphql_parser_impl.h:63-106 | printing, scanning and parsing an annotation gives it back with nothing left over if and only if its name is no keyword and only a list is a non-null list |
| TypeRoundTrip.PrintedTokens | src/program/graphql/graphql_parser_impl.h:63-106 | the tokens of a printed annotation |
| MemoryPools.MemoryPool.constructor | src/lib/memory_pool.cpp:8-14 | all blocks of the pool are free, in order |
| MemoryPools.MemoryPool.TakeTicket | src/lib/memory_pool.cpp:23-29 | refines `Taken`: the block on top of the stack, allocation starting behind the ticket |
| MemoryPools.MemoryPool.Allocate | src/lib/memory_pool.cpp:35-61 | refines `Allocated`, including the move to another block and running out of blocks; returns the address of the allocation it records; when it fails no block is free |
| MemoryPools.MemoryPool.ReturnTicket | src/lib/memory_pool.cpp:31-33 | refines `Returned`: only the block in use is free again |
| PoolRules.AllocationReserves | src/lib/memory_pool.cpp:35-61 | where it fits, an allocation reserves as many bytes as asked for from the address moved up to the alignment, stays in its block, and hands out the address before the padding |
| PoolRules.PaddingExactly | src/lib/memory_pool.cpp:35-47 | an offset that is a multiple of the alignment gets no padding; any other is moved up to the least address above its own that is a multiple |
| PoolRules.RunSound | src/lib/memory_pool.cpp:16-61 | every call keeps the bookkeeping of blocks, tickets and allocations |
| PoolRules.AllocationsAreSafe | src/lib/memory_pool.cpp:16-61 | in every run, allocations of live tickets never overlap, lie inside one block their ticket was given and that is not free, and touch no ticket if a ticket fits into a block |
| PoolRules.AllocationSucceeds | src/lib/memory_pool.cpp:35-61 | an allocation succeeds exactly if it fits where it is or fits into a block and one is free; it then moves on at most once |
| PoolRules.BlocksAddUp | src/lib/memory_pool.cpp:16-61 | in every run, free blocks, one current block for every live ticket and retired blocks are different and add up to all blocks |
| PoolRules.RetiredForever | src/lib/memory_pool.cpp:16-61 | no call brings a retired block back |
| PoolRules.ReturnGivesBackAll | src/lib/memory_pool.cpp:31-33 | a return gives back everything exactly if the ticket never moved on; all it left behind is retired |
| HttpWriting.HttpWriter.Write | src/program/http_response.cpp:57-66 | appends the text to what has been written; only full buffers are sent |
| HttpWriting.HttpWriter.FlushBuffer | src/program/http_response.cpp:78-101 | sends what is in the buffer, and nothing if it is empty; what has been written stays the same |
| HttpWriting.HttpWriter.WriteRequest | src/program/http_response.cpp:36-55 | appends method, target and version, in whatever state the buffer is |
| HttpWriting.HttpWriter.End | src/program/http_response.cpp:113-116 | the chunks sent make up all that has been written |
| HttpScanning.HttpScanner.ScanMethod | src/program/http_scanner.cpp:24-74 | tells the method by its first letters, skips its length, and throws at the end of the text |
| HttpScanning.HttpScanner.IsPchar | src/program/http_scanner.cpp:248-274 | tells path characters; takes all but the last character of a percent triple on the way, and throws at a broken one |
| HttpScanning.HttpScanner.ScanAbsolutePath | src/program/http_scanner.cpp:87-97 | takes a slash and the path characters after it |
| HttpScanning.HttpScanner.ScanQuery | src/program/http_scanner.cpp:99-110 | takes a question mark and the query characters after it, or nothing |
| HttpScanning.HttpParser.ParseRequestLine | src/program/http_parser.cpp:57-71 | returns exactly the request line that stands at the cursor and takes just its characters, or throws if there is none |
| RequestLines.EveryMethodTold | src/program/http_scanner.cpp:24-74 | each of the nine methods of RFC 7231 and RFC 5789 is told by its name, whatever follows, and just the name is skipped |
| RequestLines.EveryRequestLineRead | src/program/http_parser.cpp:57-71 | the request line of every method, path and query of RFC 7230 is parsed and used up if and only if a space, an `H`, any seven characters and the end of the line come behind it |
| RequestLines.CharactersRead | src/program/http_scanner.cpp:248-309 | path characters of RFC 3986 are read to their end |
| RequestLines.ReadCharacters | src/program/http_scanner.cpp:248-309 | nothing but path characters of RFC 3986 is read |
| RequestLines.RequestLineReadsBack | src/program/http_parser.cpp:57-71 | for every absolute path and query and any text behind, the written line is read back and used up exactly if the method is one the writer knows |
| RequestLines.OnlyTargetsAreReadBack | src/program/http_parser.cpp:57-71 | if a written line is read back as a whole, its target was an absolute path with a query, and these are the ones read |
| HttpRoundTrip.WriteAndParse | src/program/http_response.cpp:36-116 | a request line written through the buffer, sent in chunks, joined and parsed comes back and is used up exactly if the method is known, for every path and query |

## Left out

- Reading past the end of a text: character lookup is total and gives NUL there, as `Glib::ustring` and a terminated buffer do; `position` may stand one past the end inside an unclosed string.
- Texts with a carriage return followed by a line feed one or two places on: scanning them is modelled, but no location is claimed (`LineIndex.WholeSearch` and the scanner's contracts assume `LoneCarriageReturns`).
- TokenTexts.NextTokenLanguage: like `IgnoredSkipped` it says nothing where a carriage return has a line feed two places behind it and so takes another character along (`NoneSwallowed`); what the scanner does there is what `CarriageReturnBranch` says. The same goes for what `ScanDirectiveLocation` says of the value.
- Locations after a string token that spans lines has been taken for good: nothing is claimed until a revert that comes before the next recorded line break, and after that break nothing at all.
- Keyword recognition is modelled as a table of names; the switch over lengths and letters that computes it is not part of this model.
- The errors the scanner collects, the decoded string value and the scanner's `name` field: nothing modelled here reads them.
- Parsing of schema declarations (types, interfaces, unions, enums, directive definitions) and filling of the symbol table: long, but each step is one push or one map update. The checks take the symbols as given.
- CheckForwardReferences: the search for recursive directives that it starts from arguments of directives is modelled on its own (`CheckRecursiveDirectives`).
- That the parser of declarations notes down every named annotation of arguments, fields and input fields, and puts input objects together from their fields, is taken as given (`InputsNoted`, `OutputsNoted`, `PutTogether`).
- The check of union members, and the unknown-argument branch for directives of the schema, which depends on an inverted test.
- CheckRecursiveDirectives: field annotations that have already been turned into enum kind are not descended into, as in the code, and cyclic input types, on which the code does not end, are excluded.
- Execute: an object, or a name, as the default value of a variable draws a diagnostic here; the code follows the null pointer that stands for the name of the type.
- Steps to which C++ gives no meaning — a plain field on a union, a missing symbol behind an annotation, a fragment on something that is no object — draw the diagnostic `UndefinedBehaviour` in the model, and a document that leads to one counts as one that does not fit.
- Arguments that must be given are checked only where there are parentheses, as in the code; of repeated arguments the first one counts there, and all are in the model's documents.
- ParseValue: the direction from a diagnostic to a value that is not accepted is stated for runs in which no duplicate field is pending from an earlier value, which is how every field starts.
- Variables of operations are read over, but not kept in the model's documents.
- Texts and locations of diagnostics, except for duplicate fields, whose offsets decide whether a duplicate is reported again. Iteration over maps is in arbitrary order.
- The one C++ class for the schema is split into `SchemaParser` and `SchemaChecker`, and a syntax tree node keeps only the offsets that are used.
- Integers are read by `atoi`; they are unbounded here, so overflow of 32 bits is not modelled. Floats keep their text in both parsers; the `double` made from it is left out.
- TextWriter: reopening an open placeholder that is not the innermost one, and restoring inside a placeholder, are excluded by preconditions, because both lose text. `write` with a replacement, `print` and `clear_tabs` are left out.
- Allocate: sizes and addresses are unbounded; the wrap-around of `std::size_t` for requests near its limit is not modelled. The address is claimed to be exclusive, not aligned: the code reserves padding but returns the address before it.
- MemoryPool.Reset after construction: it would push every block a second time.
- Tickets that are used after their return, or returned twice, end a run of the pool model.
- Writing to a socket is modelled as taking a copy of the buffer. Sockets, TLS and the event loop are not part of this model, so neither is a write that is still pending when the buffer is filled again.
- Request headers and bodies: the loop over header values is greedy and rejects one-letter words between spaces; the header table is plain data.
- Of C strings only the characters before the terminator are modelled; `isalnum` and `isxdigit` are those of the "C" locale.
