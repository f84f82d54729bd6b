/**
 The request line of an HTTP request (RFC 7230, section 3.1.1; RFC 3986, sections 3.3 and 3.4):
 what is written, what is read, and when the one undoes the other.
 */
module RequestLines {
  import opened SourceText

  datatype HttpMethod = NoMethod | Get | Post | Put | Delete | Patch | Head | Connect | Options | Trace

  datatype RequestLine = RequestLine(verb: HttpMethod, path: string, query: string)

  predicate IsAlphanumeric(c: char) {
    'a' <= c <= 'z' || 'A' <= c <= 'Z' || IsDigit(c)
  }

  predicate IsUnreserved(c: char) {
    IsAlphanumeric(c) || c in {'-', '.', '_', '~'}
  }

  predicate IsSubDelimiter(c: char) {
    c in {'!', '$', '&', '\'', '(', ')', '*', '+', ',', ';', '='}
  }

  // A path character that is no percent triple.
  predicate IsPlain(c: char) {
    IsUnreserved(c) || IsSubDelimiter(c) || c == ':' || c == '@'
  }

  // The characters by their numbers: RFC 3986, sections 2.2, 2.3 and 3.3.
  lemma PathCharacters(c: char)
    ensures IsPlain(c) <==>
            || 0x41 <= c as int <= 0x5A || 0x61 <= c as int <= 0x7A || 0x30 <= c as int <= 0x39
            || c as int in {0x2D, 0x2E, 0x5F, 0x7E}
            || c as int in {0x21, 0x24, 0x26, 0x27, 0x28, 0x29, 0x2A, 0x2B, 0x2C, 0x3B, 0x3D}
            || c as int in {0x3A, 0x40}
  {
  }

  // Questions are taken in a query only.
  predicate IsTaken(c: char, inQuery: bool) {
    IsPlain(c) || c == '/' || (inQuery && c == '?')
  }

  // Path characters as RFC 3986 defines them, with slashes, and in a query with question marks.
  predicate Characters(text: string, inQuery: bool)
    decreases |text|
  {
    text == []
    || (IsTaken(text[0], inQuery) && Characters(text[1..], inQuery))
    || (|text| >= 3 && text[0] == '%' && IsHexadecimal(text[1]) && IsHexadecimal(text[2]) &&
        Characters(text[3..], inQuery))
  }

  // An absolute path and a query, which holds its question mark or is empty.
  predicate IsTarget(path: string, query: string) {
    && path != [] && path[0] == '/' && Characters(path[1..], false)
    && (query != [] ==> query[0] == '?' && Characters(query[1..], true))
  }

  // The writer knows four methods and leaves out the others.
  function MethodText(verb: HttpMethod): string {
    match verb
    case Get => "GET "
    case Post => "POST "
    case Patch => "PATCH "
    case Head => "HEAD "
    case _ => ""
  }

  const Version: string := " HTTP/1.1\r\n"

  function RequestText(verb: HttpMethod, target: string): string {
    MethodText(verb) + target + Version
  }

  // The method is told by its first letters; the rest of it is skipped without a look.
  function MethodAt(s: string, p: nat): (r: (HttpMethod, nat))
    ensures p <= r.1
  {
    match CharAt(s, p)
    case 'C' => (Connect, p + 7)
    case 'D' => (Delete, p + 6)
    case 'G' => (Get, p + 3)
    case 'H' => (Head, p + 4)
    case 'O' => (Options, p + 7)
    case 'P' =>
      (match CharAt(s, p + 1)
       case 'A' => (Patch, p + 5)
       case 'O' => (Post, p + 4)
       case 'U' => (Put, p + 3)
       case _ => (NoMethod, p + 1))
    case 'T' => (Trace, p + 5)
    case _ => (NoMethod, p)
  }

  // Where the path characters at `p` end, or no result at a broken percent triple.
  function CharactersEnd(s: string, p: nat, inQuery: bool): (end: Option<nat>)
    ensures end.Some? ==> p <= end.value && (p <= |s| ==> end.value <= |s|)
    decreases |s| - p
  {
    if p >= |s| then Some(p)
    else if IsTaken(s[p], inQuery) then CharactersEnd(s, p + 1, inQuery)
    else if s[p] != '%' then Some(p)
    else if IsHexadecimal(CharAt(s, p + 1)) && IsHexadecimal(CharAt(s, p + 2)) then CharactersEnd(s, p + 3, inQuery)
    else None
  }

  function PathEnd(s: string, p: nat): (end: Option<nat>)
    ensures end.Some? ==> p < end.value <= |s|
  {
    if CharAt(s, p) == '/' then CharactersEnd(s, p + 1, false) else None
  }

  function QueryEnd(s: string, p: nat): (end: Option<nat>)
    ensures end.Some? ==> p <= end.value && (p <= |s| ==> end.value <= |s|)
  {
    if CharAt(s, p) == '?' then CharactersEnd(s, p + 1, true) else Some(p)
  }

  // From the `H` of the version: eight characters and the end of the line.
  predicate VersionAt(s: string, p: nat) {
    CharAt(s, p) == 'H' && CharAt(s, p + 8) == '\r' && CharAt(s, p + 9) == '\n'
  }

  /** The request line at `p` and the offset after it, or no result where the parser throws. */
  function ParseLine(s: string, p: nat): Option<(RequestLine, nat)> {
    var verb := MethodAt(s, p);
    if verb.1 >= |s| || s[verb.1] != ' ' then None else ParseTarget(s, verb.0, verb.1 + 1)
  }

  function ParseTarget(s: string, verb: HttpMethod, start: nat): Option<(RequestLine, nat)> {
    var pathEnd := PathEnd(s, start);
    if pathEnd.None? then None
    else
      var end := QueryEnd(s, pathEnd.value);
      if end.None? || CharAt(s, end.value) != ' ' || !VersionAt(s, end.value + 1) then None
      else Some((RequestLine(verb, s[start..pathEnd.value], s[pathEnd.value..end.value]), end.value + 11))
  }

  // The text is found at `p`, and after it a character that does not go on with it.
  predicate EndsAt(s: string, p: nat, text: string, inQuery: bool) {
    && p + |text| <= |s| && s[p..p + |text|] == text
    && !IsTaken(CharAt(s, p + |text|), inQuery) && CharAt(s, p + |text|) != '%'
  }

  // Path characters are read to their end.
  lemma {:induction false} CharactersRead(s: string, p: nat, text: string, inQuery: bool)
    requires EndsAt(s, p, text, inQuery) && Characters(text, inQuery)
    ensures CharactersEnd(s, p, inQuery) == Some(p + |text|)
    decreases |text|
  {
    if text != [] {
      var n := if IsTaken(text[0], inQuery) then 1 else 3;
      assert s[p..p + |text|][n..] == s[p + n..p + |text|] == text[n..];
      assert s[p] == text[0];
      if n == 3 {
        assert s[p + 1] == text[1] && s[p + 2] == text[2];
      }
      CharactersRead(s, p + n, text[n..], inQuery);
    }
  }

  // What is read are path characters.
  lemma {:induction false} ReadCharacters(s: string, p: nat, inQuery: bool)
    requires p <= |s| && CharactersEnd(s, p, inQuery).Some?
    ensures Characters(s[p..CharactersEnd(s, p, inQuery).value], inQuery)
    decreases |s| - p
  {
    var end := CharactersEnd(s, p, inQuery).value;
    if p < |s| && (IsTaken(s[p], inQuery) || s[p] == '%') {
      var n := if IsTaken(s[p], inQuery) then 1 else 3;
      assert CharactersEnd(s, p + n, inQuery) == Some(end);
      ReadCharacters(s, p + n, inQuery);
      assert s[p..end][n..] == s[p + n..end];
    }
  }

  /** A written request line is read back as the same method, path and query, and used up,
      exactly when the method is one the writer knows. */
  lemma RequestLineReadsBack(verb: HttpMethod, path: string, query: string, rest: string)
    requires IsTarget(path, query)
    ensures var text := RequestText(verb, path + query);
            ParseLine(text + rest, 0) == Some((RequestLine(verb, path, query), |text|)) <==>
            verb in {Get, Post, Patch, Head}
  {
    hide ParseLine, Characters;
    var s := RequestText(verb, path + query) + rest;
    var after := Version + rest;
    if verb in {Get, Post, Patch, Head} {
      assert s == MethodText(verb) + path + query + after;
      KnownMethodReadsBack(s, verb, path, query, after);
    } else {
      assert s == path + query + after;
      UnknownMethodFails(s, path, query + after);
    }
  }

  lemma UnknownMethodFails(s: string, path: string, after: string)
    requires path != [] && path[0] == '/' && s == path + after
    ensures ParseLine(s, 0).None?
  {
    assert s[0] == '/';
  }

  lemma Middle(s: string, before: string, text: string, after: string)
    requires s == before + text + after
    ensures s[|before|..|before + text|] == text && s[|before + text|..] == after
  {
  }

  lemma KnownMethodReadsBack(s: string, verb: HttpMethod, path: string, query: string, after: string)
    requires verb in {Get, Post, Patch, Head} && IsTarget(path, query)
    requires s == MethodText(verb) + path + query + after && Version <= after
    ensures ParseLine(s, 0) == Some((RequestLine(verb, path, query), |MethodText(verb) + path + query| + 11))
  {
    hide IsTarget, ParseTarget, MethodAt, MethodText;
    MethodRead(verb, path + query + after);
    assert s == MethodText(verb) + (path + query + after);
    TargetParsed(s, MethodText(verb), verb, path, query, after);
  }

  // A space, the `H` of the version, any seven characters and the end of the line.
  predicate VersionBehind(after: string) {
    |after| >= 11 && after[0] == ' ' && after[1] == 'H' && after[9] == '\r' && after[10] == '\n'
  }

  lemma TargetParsed(s: string, before: string, verb: HttpMethod, path: string, query: string, after: string)
    requires IsTarget(path, query) && s == before + path + query + after && (after == "" || after[0] == ' ')
    ensures ParseTarget(s, verb, |before|) ==
            if VersionBehind(after) then Some((RequestLine(verb, path, query), |before + path + query| + 11)) else None
  {
    hide IsTarget, PathEnd, QueryEnd, VersionAt, VersionBehind;
    assert s == before + path + (query + after);
    Middle(s, before, path, query + after);
    Middle(s, before + path, query, after);
    var end := |before + path + query|;
    VersionStands(s, end);
    TargetRead(s, |before|, path, query);
  }

  lemma VersionStands(s: string, p: nat)
    requires p <= |s|
    ensures CharAt(s, p) == ' ' && VersionAt(s, p + 1) <==> VersionBehind(s[p..])
  {
    assert forall k | 0 <= k < |s| - p :: s[p..][k] == s[p + k];
  }

  lemma MethodRead(verb: HttpMethod, rest: string)
    requires verb in {Get, Post, Patch, Head}
    ensures var s := MethodText(verb) + rest;
            MethodAt(s, 0) == (verb, |MethodText(verb)| - 1) && s[|MethodText(verb)| - 1] == ' '
  {
    hide MethodAt;
    WrittenAsNamed(verb);
    assert MethodText(verb) + rest == MethodName(verb) + ([' '] + rest);
    EveryMethodTold(verb, [' '] + rest);
  }

  // The methods by name: RFC 7231, section 4.1, and RFC 5789, section 2.
  function MethodName(verb: HttpMethod): string
    requires verb != NoMethod
  {
    match verb
    case Get => "GET"
    case Head => "HEAD"
    case Post => "POST"
    case Put => "PUT"
    case Delete => "DELETE"
    case Connect => "CONNECT"
    case Options => "OPTIONS"
    case Trace => "TRACE"
    case Patch => "PATCH"
  }

  /** Every method is told by its name, and just that name is skipped. */
  lemma EveryMethodTold(verb: HttpMethod, rest: string)
    requires verb != NoMethod
    ensures MethodAt(MethodName(verb) + rest, 0) == (verb, |MethodName(verb)|)
  {
    var s, name := MethodName(verb) + rest, MethodName(verb);
    assert s[0] == name[0] && s[1] == name[1];
  }

  // The four methods that are written are written by name.
  lemma WrittenAsNamed(verb: HttpMethod)
    requires verb != NoMethod
    ensures MethodText(verb) == if verb in {Get, Post, Patch, Head} then MethodName(verb) + " " else ""
  {
  }

  /** The request line of every method is read and used up (RFC 7230, section 3.1.1) if and only if what
      stands behind the target could be a version; all but its first letter is skipped without a look. */
  lemma EveryRequestLineRead(verb: HttpMethod, path: string, query: string, after: string)
    requires verb != NoMethod && IsTarget(path, query) && (after == "" || after[0] == ' ')
    ensures var line := MethodName(verb) + " " + path + query;
            ParseLine(line + after, 0) ==
              if VersionBehind(after) then Some((RequestLine(verb, path, query), |line| + 11)) else None
  {
    hide IsTarget, ParseTarget, MethodAt, MethodName, VersionBehind;
    var before := MethodName(verb) + " ";
    var s := before + path + query + after;
    assert s == MethodName(verb) + (" " + path + query + after);
    EveryMethodTold(verb, " " + path + query + after);
    assert before + path + query == MethodName(verb) + " " + path + query;
    TargetParsed(s, before, verb, path, query, after);
  }

  lemma TargetRead(s: string, start: nat, path: string, query: string)
    requires IsTarget(path, query)
    requires var pathEnd := start + |path|;
             var end := pathEnd + |query|;
             end <= |s| && s[start..pathEnd] == path && s[pathEnd..end] == query && CharAt(s, end) in {' ', '\0'}
    ensures PathEnd(s, start) == Some(start + |path|)
    ensures QueryEnd(s, start + |path|) == Some(start + |path| + |query|)
  {
    hide Characters, CharactersEnd;
    var pathEnd := start + |path|;
    assert query != [] ==> s[pathEnd] == query[0];
    TailRead(s, start, path, false);
    if query != [] {
      TailRead(s, pathEnd, query, true);
    }
  }

  // Everything but the first character, a slash or a question mark, is read to its end.
  lemma TailRead(s: string, p: nat, text: string, inQuery: bool)
    requires text != [] && Characters(text[1..], inQuery) && p + |text| <= |s| && s[p..p + |text|] == text
    requires CharAt(s, p + |text|) in if inQuery then {' ', '\0'} else {' ', '?', '\0'}
    ensures s[p] == text[0] && CharactersEnd(s, p + 1, inQuery) == Some(p + |text|)
  {
    hide Characters;
    assert s[p] == text[0];
    assert s[p + 1..p + |text|] == s[p..p + |text|][1..] == text[1..];
    CharactersRead(s, p + 1, text[1..], inQuery);
  }

  /** Nothing but an absolute path and a query can be written as a target and read back: if the
      line is used up, its target was one, and what is read are its path and its query. */
  lemma OnlyTargetsAreReadBack(verb: HttpMethod, target: string, rest: string)
    requires verb in {Get, Post, Patch, Head}
    ensures var text := RequestText(verb, target);
            var line := ParseLine(text + rest, 0);
            line.Some? && line.value.1 == |text| ==>
              && line.value.0.verb == verb
              && IsTarget(line.value.0.path, line.value.0.query)
              && line.value.0.path + line.value.0.query == target
  {
    hide ParseTarget, IsTarget, MethodAt, MethodText;
    var s := RequestText(verb, target) + rest;
    assert s == MethodText(verb) + (target + Version + rest);
    MethodRead(verb, target + Version + rest);
    assert s == MethodText(verb) + target + (Version + rest);
    Middle(s, MethodText(verb), target, Version + rest);
    WholeTarget(s, verb, |MethodText(verb)|, target);
  }

  lemma WholeTarget(s: string, verb: HttpMethod, start: nat, target: string)
    requires start + |target| <= |s| && s[start..start + |target|] == target
    ensures var line := ParseTarget(s, verb, start);
            line.Some? && line.value.1 == start + |target| + 11 ==>
              && line.value.0.verb == verb
              && IsTarget(line.value.0.path, line.value.0.query)
              && line.value.0.path + line.value.0.query == target
  {
    hide IsTarget, PathEnd, QueryEnd, VersionAt;
    var line := ParseTarget(s, verb, start);
    if line.Some? && line.value.1 == start + |target| + 11 {
      TargetOnly(s, start);
      var pathEnd := PathEnd(s, start).value;
      assert s[start..pathEnd] + s[pathEnd..start + |target|] == s[start..start + |target|];
    }
  }

  lemma TargetOnly(s: string, start: nat)
    requires PathEnd(s, start).Some? && QueryEnd(s, PathEnd(s, start).value).Some?
    ensures var pathEnd := PathEnd(s, start).value;
            var end := QueryEnd(s, pathEnd).value;
            IsTarget(s[start..pathEnd], s[pathEnd..end])
  {
    var pathEnd := PathEnd(s, start).value;
    var end := QueryEnd(s, pathEnd).value;
    ReadCharacters(s, start + 1, false);
    assert s[start..pathEnd][1..] == s[start + 1..pathEnd];
    if CharAt(s, pathEnd) == '?' {
      ReadCharacters(s, pathEnd + 1, true);
      assert s[pathEnd..end][1..] == s[pathEnd + 1..end];
    }
  }
}
