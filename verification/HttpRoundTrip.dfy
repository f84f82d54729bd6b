/** Writing a request line through the buffer, and parsing what arrives. */
module HttpRoundTrip {
  import opened SourceText
  import opened RequestLines
  import opened HttpWriting
  import opened HttpScanning

  /** A request line is written through the fixed buffer, the chunks that were sent are joined and
      parsed: for a path and a query that make a target, the same three things come back and the
      text is used up exactly if the method is one the writer knows. */
  method WriteAndParse(verb: HttpMethod, path: string, query: string) returns (line: Option<RequestLine>, usedUp: bool)
    ensures IsTarget(path, query) ==>
              (line == Some(RequestLine(verb, path, query)) && usedUp <==> verb in {Get, Post, Patch, Head})
    ensures verb in {Get, Post, Patch, Head} && line.Some? && usedUp ==>
              line.value.verb == verb && IsTarget(line.value.path, line.value.query) &&
              line.value.path + line.value.query == path + query
  {
    hide IsTarget, ParseLine, Joined, HttpWriter.Valid, RequestText;
    var writer := new HttpWriter();
    writer.WriteRequest(verb, path + query);
    writer.End();
    var text := Joined(writer.sent);
    assert text == RequestText(verb, path + query) && text + "" == text;
    var parser := new HttpParser(text);
    line := parser.ParseRequestLine();
    usedUp := parser.scanner.position == |text|;
    if IsTarget(path, query) {
      RequestLineReadsBack(verb, path, query, "");
    }
    if verb in {Get, Post, Patch, Head} {
      OnlyTargetsAreReadBack(verb, path + query, "");
    }
  }
}
