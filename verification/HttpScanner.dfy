/**
 The HTTP scanner's part of reading a request line, and the parser that puts it together. A
 result that says no stands for an exception of the C++ program.
 */
module HttpScanning {
  import opened SourceText
  import opened RequestLines

  datatype SavedTextCursor = SavedTextCursor(position: nat, startPosition: nat)

  class HttpScanner {
    const text: string
    var position: nat
    var startPosition: nat
    var savedTextCursors: seq<SavedTextCursor>

    constructor (text: string)
      ensures this.text == text && position == 0
    {
      this.text := text;
      position, startPosition := 0, 0;
      savedTextCursors := [];
    }

    method IncrementPosition() returns (ok: bool)
      modifies `position
      ensures ok <==> old(position) < |text|
      ensures position == if ok then old(position) + 1 else old(position)
    {
      if position >= |text| {
        return false;
      }
      position := position + 1;
      ok := true;
    }

    method ScanExpected(ch: char) returns (ok: bool)
      requires ch != '\0'
      modifies `position
      ensures ok <==> CharAt(text, old(position)) == ch
      ensures position == if ok then old(position) + 1 else old(position)
    {
      if CharAt(text, position) != ch {
        return false;
      }
      ok := IncrementPosition();
    }

    method Save()
      modifies `savedTextCursors
      ensures savedTextCursors == old(savedTextCursors) + [SavedTextCursor(position, startPosition)]
    {
      savedTextCursors := savedTextCursors + [SavedTextCursor(position, startPosition)];
    }

    method Revert()
      requires savedTextCursors != []
      modifies this
      ensures var last := |old(savedTextCursors)| - 1;
              && SavedTextCursor(position, startPosition) == old(savedTextCursors)[last]
              && savedTextCursors == old(savedTextCursors)[..last]
    {
      var last := |savedTextCursors| - 1;
      position, startPosition := savedTextCursors[last].position, savedTextCursors[last].startPosition;
      savedTextCursors := savedTextCursors[..last];
    }

    /** Takes a character if it comes next, and then leaves the save on the stack. */
    method ScanOptional(ch: char) returns (found: bool)
      requires ch != '\0'
      modifies this
      ensures found <==> CharAt(text, old(position)) == ch
      ensures position == if found then old(position) + 1 else old(position)
      ensures startPosition == old(startPosition)
      ensures savedTextCursors ==
              old(savedTextCursors) + if found then [SavedTextCursor(old(position), startPosition)] else []
    {
      Save();
      found := CharAt(text, position) == ch;
      if found {
        var _ := IncrementPosition();
      } else {
        Revert();
      }
    }

    method ScanMethod() returns (ok: bool, verb: HttpMethod)
      modifies `position
      ensures (verb, position) == MethodAt(text, old(position))
      ensures ok <==> position < |text|
    {
      verb := NoMethod;
      var ch := CharAt(text, position);
      if ch == 'C' {
        position, verb := position + 7, Connect;
      } else if ch == 'D' {
        position, verb := position + 6, Delete;
      } else if ch == 'G' {
        position, verb := position + 3, Get;
      } else if ch == 'H' {
        position, verb := position + 4, Head;
      } else if ch == 'O' {
        position, verb := position + 7, Options;
      } else if ch == 'P' {
        var _ := IncrementPosition();
        ch := CharAt(text, position);
        if ch == 'A' {
          position, verb := position + 4, Patch;
        } else if ch == 'O' {
          position, verb := position + 3, Post;
        } else if ch == 'U' {
          position, verb := position + 2, Put;
        }
      } else if ch == 'T' {
        position, verb := position + 5, Trace;
      }
      ok := position < |text|;
    }

    /** Whether a path character is at the cursor. Of a percent triple all but the last character
        are taken on the way, and a broken one is not `ok`. */
    method IsPchar(ch: char) returns (ok: bool, found: bool)
      requires position < |text| && ch == text[position]
      modifies `position
      ensures ok <==>
                ch == '%' ==>
                  IsHexadecimal(CharAt(text, old(position) + 1)) && IsHexadecimal(CharAt(text, old(position) + 2))
      ensures ok ==> found == (IsPlain(ch) || ch == '%')
      ensures ok ==> position == if ch == '%' then old(position) + 2 else old(position)
      ensures old(position) <= position <= |text|
    {
      if IsPlain(ch) {
        return true, true;
      }
      if ch != '%' {
        return true, false;
      }
      found := true;
      ok := IncrementPosition();
      if !IsHexadecimal(CharAt(text, position)) {
        return false, true;
      }
      ok := IncrementPosition();
      ok := IsHexadecimal(CharAt(text, position));
    }

    // The loop that both the path and the query are scanned by.
    method ScanCharacters(inQuery: bool) returns (ok: bool)
      modifies `position
      ensures ok <==> CharactersEnd(text, old(position), inQuery).Some?
      ensures ok ==> Some(position) == CharactersEnd(text, old(position), inQuery)
    {
      ok := true;
      while position < |text|
        invariant ok && CharactersEnd(text, position, inQuery) == CharactersEnd(text, old(position), inQuery)
        decreases |text| - position
      {
        var ch := text[position];
        var found;
        ok, found := IsPchar(ch);
        if !ok {
          return;
        }
        if !found && ch != '/' && !(inQuery && ch == '?') {
          return;
        }
        var _ := IncrementPosition();
      }
    }

    function GetTokenValue(): string
      requires startPosition <= position <= |text|
      reads this
    {
      text[startPosition..position]
    }

    method ScanAbsolutePath() returns (ok: bool, path: string)
      modifies `position, `startPosition
      ensures ok <==> PathEnd(text, old(position)).Some?
      ensures ok ==> Some(position) == PathEnd(text, old(position)) && path == text[old(position)..position]
    {
      path := "";
      startPosition := position;
      ok := ScanExpected('/');
      if !ok {
        return;
      }
      ok := ScanCharacters(false);
      if ok {
        path := GetTokenValue();
      }
    }

    method ScanQuery() returns (ok: bool, query: string)
      requires position <= |text|
      modifies this
      ensures ok <==> QueryEnd(text, old(position)).Some?
      ensures ok ==> Some(position) == QueryEnd(text, old(position)) && query == text[old(position)..position]
    {
      query := "";
      startPosition := position;
      var found := ScanOptional('?');
      ok := true;
      if found {
        ok := ScanCharacters(true);
      }
      if ok {
        query := GetTokenValue();
      }
    }

    // Of the version only the first letter is looked at.
    method ScanHttpVersion() returns (ok: bool)
      modifies `position
      ensures ok <==> CharAt(text, old(position)) == 'H'
      ensures ok ==> position == old(position) + 8
    {
      ok := ScanExpected('H');
      if ok {
        position := position + 7;
      }
    }
  }

  class HttpParser {
    const scanner: HttpScanner

    constructor (text: string)
      ensures fresh(scanner) && scanner.text == text && scanner.position == 0
    {
      scanner := new HttpScanner(text);
    }

    /** Reads a request line and takes just its characters, or throws. */
    method ParseRequestLine() returns (line: Option<RequestLine>)
      modifies scanner
      ensures line.Some? <==> ParseLine(scanner.text, old(scanner.position)).Some?
      ensures line.Some? ==> ParseLine(scanner.text, old(scanner.position)) == Some((line.value, scanner.position))
    {
      hide MethodAt, PathEnd, QueryEnd, CharactersEnd;
      line := None;
      var ok, verb := scanner.ScanMethod();
      if !ok {
        return;
      }
      ok := scanner.ScanExpected(' ');
      if !ok {
        return;
      }
      var path;
      ok, path := scanner.ScanAbsolutePath();
      if !ok {
        return;
      }
      var query;
      ok, query := scanner.ScanQuery();
      if !ok {
        return;
      }
      ok := scanner.ScanExpected(' ');
      if !ok {
        return;
      }
      ok := scanner.ScanHttpVersion();
      if !ok {
        return;
      }
      ok := scanner.ScanExpected('\r');
      if !ok {
        return;
      }
      ok := scanner.ScanExpected('\n');
      if !ok {
        return;
      }
      line := Some(RequestLine(verb, path, query));
    }
  }
}
