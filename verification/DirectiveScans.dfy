/** What the scan for a directive location tells, by the text that it starts in front of. */
module DirectiveScans {
  import opened SourceText
  import opened GraphQlLexer
  import opened TokenLanguages
  import opened TokenTexts
  import opened DirectiveNames
  import opened ScannerRules

  // A white space character or a comma, which the start of the token moves along over.
  predicate Blank(c: char) {
    Ignorable(c) && c != '#'
  }

  // How many other characters stand between two offsets.
  function Others(s: string, p: nat, n: nat): nat
    requires p <= n <= |s|
    decreases n - p
  {
    if p == n then 0 else (if Blank(s[p]) then 0 else 1) + Others(s, p + 1, n)
  }

  /** The first name from an offset on, with its end. */
  predicate NameStands(s: string, p: nat, n: nat, e: nat) {
    && p <= n < e <= |s| && (forall k | p <= k < n :: !Letter(s[k]))
    && IsName(s[n..e]) && (e < |s| ==> !Letter(s[e]) && !Digit(s[e]))
    && NoneSwallowed(s, p, n)
  }

  lemma {:induction false} NameStops(s: string, q: nat, e: nat)
    requires q <= e <= |s| && (forall k | q <= k < e :: Letter(s[k]) || Digit(s[k]))
    requires e < |s| ==> !Letter(s[e]) && !Digit(s[e])
    ensures NameEnd(s, q) == e
    decreases e - q
  {
    if q < e {
      NameStops(s, q + 1, e);
    }
  }

  /** The scan ends behind the first name, and the token starts as far in front of it as characters
      that are no white space have been passed over. */
  lemma {:induction false} ScanStops(s: string, st: ScannerState, n: nat, e: nat)
    requires st.cursor.startPosition <= st.cursor.position && NameStands(s, st.cursor.position, n, e)
    ensures var p, c := st.cursor.position, DirectiveScanned(s, st).cursor;
            && c.position == e
            && c.startPosition == n - (p - st.cursor.startPosition) - Others(s, p, n)
    decreases n - st.cursor.position
  {
    hide NameEnd;
    var p := st.cursor.position;
    if p == n {
      assert s[n..e][0] == s[n];
      forall k | n <= k < e ensures Letter(s[k]) || Digit(s[k]) {
        assert s[n..e][k - n] == s[k];
      }
      NameStops(s, n + 1, e);
    } else {
      assert CharAt(s, p) == s[p];
      var next := if IsLineBreakChar(s[p]) then BreakTaken(s, st, true)
                  else st.(cursor := DirectiveCharacterTaken(s, st.cursor));
      ScanStops(s, next, n, e);
    }
  }

  // Where the next directive location's name starts, or the end of the text.
  function DirectiveNameStart(s: string, p: nat): (start: nat)
    ensures p <= start && (p <= |s| ==> start <= |s|)
    decreases |s| - p
  {
    if p >= |s| || IsNameStart(s[p]) then p
    else if IsTrivia(s[p]) && s[p] != '#' then DirectiveNameStart(s, TriviaEnd(s, p))
    else DirectiveNameStart(s, p + 1)
  }

  predicate NoLetter(s: string, p: nat) {
    forall k | p <= k < |s| :: !Letter(s[k])
  }

  lemma {:induction false} NameStartAt(s: string, p: nat, n: nat, e: nat)
    requires NameStands(s, p, n, e)
    ensures DirectiveNameStart(s, p) == n
    decreases n - p
  {
    if p == n {
      assert s[n..e][0] == s[n];
    } else {
      assert CharAt(s, p) == s[p];
      NameStartAt(s, p + 1, n, e);
    }
  }

  lemma {:induction false} NoNameStart(s: string, p: nat)
    requires NoLetter(s, p)
    ensures DirectiveNameStart(s, p) >= |s|
    decreases |s| - p
  {
    if p < |s| {
      NoNameStart(s, if IsTrivia(s[p]) && s[p] != '#' then TriviaEnd(s, p) else p + 1);
    }
  }

  // The letters of a location make up the whole value.
  lemma OtherSizeUnknown(size: nat, value: string)
    requires size != |value|
    ensures NameOf(size, value) == UnknownLocation
  {
  }

  /** What is told of a name: the location it spells, but for the letter that is not looked at; nothing
      if anything but white space was passed over. */
  predicate Told(s: string, p: nat, n: nat, e: nat, value: string, location: LocationName)
    requires p <= n <= e <= |s|
  {
    if Others(s, p, n) == 0 then
      && value == s[n..e] && location != EndOfLocations
      && forall name | name !in {UnknownLocation, EndOfLocations} ::
           location == name <==> s[n..e] == Spelling(name) || Misspells(s[n..e], name)
    else |value| == e - n + Others(s, p, n) && location == UnknownLocation
  }

  lemma {:induction false} OthersFit(s: string, p: nat, n: nat)
    requires p <= n <= |s|
    ensures Others(s, p, n) <= n - p
    decreases n - p
  {
    if p < n {
      OthersFit(s, p + 1, n);
    }
  }

  lemma ScanTells(s: string, st: ScannerState, n: nat, e: nat)
    requires NameStands(s, st.cursor.position, n, e)
    ensures var p, c := st.cursor.position, DirectiveScanned(s, Started(st)).cursor;
            && c.position == e && DirectiveNameStart(s, p) == n
            && var value := TextBetween(s, c.startPosition, c.position);
               Told(s, p, n, e, value, NameOf(e - n, value))
  {
    hide NameOf, DirectiveScanned, Spelling, Misspells, DirectiveNameStart;
    var p := st.cursor.position;
    NameStartAt(s, p, n, e);
    ScanStops(s, Started(st), n, e);
    OthersFit(s, p, n);
    var value := TextBetween(s, n - Others(s, p, n), e);
    if Others(s, p, n) > 0 {
      OtherSizeUnknown(e - n, value);
    } else {
      NeverTheEnd(e - n, value);
      forall name | name !in {UnknownLocation, EndOfLocations}
        ensures NameOf(e - n, value) == name <==> value == Spelling(name) || Misspells(value, name)
      {
        NameTold(value, name);
      }
    }
  }

  lemma NeverTheEnd(size: nat, value: string)
    ensures NameOf(size, value) != EndOfLocations
  {
  }

  // The same of whatever name comes first.
  lemma NamesTold(s: string, st: ScannerState)
    ensures forall n: nat, e: nat | NameStands(s, st.cursor.position, n, e) ::
              var c := DirectiveScanned(s, Started(st)).cursor;
              && c.position == e && DirectiveNameStart(s, st.cursor.position) == n
              && var value := TextBetween(s, c.startPosition, c.position);
                 Told(s, st.cursor.position, n, e, value, NameOf(e - n, value))
    ensures NoLetter(s, st.cursor.position) ==> DirectiveNameStart(s, st.cursor.position) >= |s|
  {
    hide NameOf, DirectiveScanned, DirectiveNameStart, Told;
    forall n: nat, e: nat | NameStands(s, st.cursor.position, n, e)
      ensures var c := DirectiveScanned(s, Started(st)).cursor;
              && c.position == e && DirectiveNameStart(s, st.cursor.position) == n
              && var value := TextBetween(s, c.startPosition, c.position);
                 Told(s, st.cursor.position, n, e, value, NameOf(e - n, value))
    {
      ScanTells(s, st, n, e);
    }
    if NoLetter(s, st.cursor.position) {
      NoNameStart(s, st.cursor.position);
    }
  }
}
