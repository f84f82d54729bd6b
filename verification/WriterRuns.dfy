/** Runs of the text writer: one text with a cursor, and the places to go back to. */
module WriterRuns {
  import opened SourceText
  import opened TextWriting
  import opened PlaceholderFills

  // A placeholder that is being written on, and the cursor to go back to.
  datatype Bookmark = Bookmark(name: string, cursor: TextCursor)

  /** What the writer amounts to: the text as a whole is never cut. */
  datatype Editor = Editor(whole: string, cursor: TextCursor, placeholders: map<string, TextCursor>,
                           open: seq<Bookmark>)

  datatype Call =
    | Write(text: string) | Newline | Indent | Unindent
    | AddPlaceholder(name: string) | Begin(name: string) | End

  // How far the bookmarks lie ahead of the placeholders they were left for: that much of the text
  // lies behind the cursor.
  function Ahead(placeholders: map<string, TextCursor>, open: seq<Bookmark>): int {
    if open == [] then 0
    else
      var b := open[|open| - 1];
      Ahead(placeholders, open[..|open| - 1]) +
      if b.name in placeholders then b.cursor.position - placeholders[b.name].position else 0
  }

  predicate Sound(e: Editor) {
    && (forall k | 0 <= k < |e.open| :: LevelSound(e, k))
    && (forall j, k | 0 <= j < k < |e.open| :: e.open[j].name != e.open[k].name)
    && |e.whole| == e.cursor.position + Ahead(e.placeholders, e.open)
  }

  // A placeholder lies before the bookmark left for it, and before the cursor of its own level.
  predicate LevelSound(e: Editor, k: nat)
    requires k < |e.open|
  {
    && e.open[k].name in e.placeholders
    && var start := e.placeholders[e.open[k].name].position;
       && start <= e.open[k].cursor.position
       && start <= if k + 1 < |e.open| then e.open[k + 1].cursor.position else e.cursor.position
  }

  function Typed(e: Editor, written: string, column: nat): Editor
    requires e.cursor.position <= |e.whole|
  {
    e.(whole := Insert(e.whole, e.cursor.position, written),
       cursor := e.cursor.(position := e.cursor.position + |written|, column := column))
  }

  predicate IsOpen(e: Editor, name: string) {
    exists k :: 0 <= k < |e.open| && e.open[k].name == name
  }

  /** One call, if it does not throw. Beginning on a placeholder that is open already is left out. */
  function Step(e: Editor, call: Call): (r: Option<Editor>)
    requires Sound(e)
  {
    AheadGrows(e);
    match call
    case Write(text) =>
      var written := Written(e.cursor, text);
      Some(Typed(e, written, e.cursor.column + |written|))
    case Newline => Some(Typed(e, "\n", 0))
    case Indent => Some(e.(cursor := e.cursor.(indentation := (e.cursor.indentation + INDENTATION_STEP) % UINT_LIMIT)))
    case Unindent =>
      Some(e.(cursor := e.cursor.(indentation := (e.cursor.indentation + UINT_LIMIT - INDENTATION_STEP) % UINT_LIMIT)))
    case AddPlaceholder(name) =>
      if name in e.placeholders || e.open != [] then None
      else Some(e.(placeholders := e.placeholders[name := e.cursor]))
    case Begin(name) =>
      if name !in e.placeholders || IsOpen(e, name) || e.placeholders[name].position > e.cursor.position then None
      else Some(e.(cursor := e.placeholders[name], open := e.open + [Bookmark(name, e.cursor)]))
    case End =>
      if e.open == [] then None
      else
        var last := |e.open| - 1;
        var b := e.open[last];
        assert LevelSound(e, last);
        Some(Editor(e.whole,
                    b.cursor.(position := b.cursor.position + e.cursor.position - e.placeholders[b.name].position),
                    e.placeholders - {b.name}, e.open[..last]))
  }

  lemma {:induction false} AheadGrows(e: Editor)
    requires forall k | 0 <= k < |e.open| :: LevelSound(e, k)
    ensures forall n | 0 <= n <= |e.open| :: 0 <= Ahead(e.placeholders, e.open[..n]) <= Ahead(e.placeholders, e.open)
  {
    AheadUpTo(e, |e.open|);
    assert e.open[..|e.open|] == e.open;
  }

  lemma {:induction false} AheadUpTo(e: Editor, m: nat)
    requires forall k | 0 <= k < |e.open| :: LevelSound(e, k)
    requires m <= |e.open|
    ensures forall n | 0 <= n <= m :: 0 <= Ahead(e.placeholders, e.open[..n]) <= Ahead(e.placeholders, e.open[..m])
  {
    if m > 0 {
      AheadUpTo(e, m - 1);
      assert e.open[..m][..m - 1] == e.open[..m - 1];
      assert LevelSound(e, m - 1);
    }
  }

  // Only the placeholders that are open count.
  lemma {:induction false} AheadSame(first: map<string, TextCursor>, second: map<string, TextCursor>,
                                     open: seq<Bookmark>)
    requires forall k | 0 <= k < |open| ::
               && open[k].name in first && open[k].name in second
               && first[open[k].name] == second[open[k].name]
    ensures Ahead(first, open) == Ahead(second, open)
  {
    if open != [] {
      AheadSame(first, second, open[..|open| - 1]);
    }
  }

  // The end of the innermost placeholder closes just that one.
  lemma EndSound(e: Editor)
    requires Sound(e) && e.open != []
    ensures var r := Step(e, End).value; Sound(r) && Ahead(r.placeholders, r.open) == Ahead(e.placeholders, r.open)
  {
    AheadGrows(e);
    var r, last := Step(e, End).value, |e.open| - 1;
    assert LevelSound(e, last);
    forall k | 0 <= k < last
      ensures LevelSound(r, k)
      ensures e.open[k].name in e.placeholders && r.placeholders[e.open[k].name] == e.placeholders[e.open[k].name]
    {
      assert LevelSound(e, k);
    }
    AheadSame(e.placeholders, r.placeholders, r.open);
  }

  lemma BeginSound(e: Editor, name: string)
    requires Sound(e) && Step(e, Begin(name)).Some?
    ensures Sound(Step(e, Begin(name)).value)
  {
    var r := Step(e, Begin(name)).value;
    forall k | 0 <= k < |e.open| ensures LevelSound(r, k) {
      assert LevelSound(e, k);
    }
    assert LevelSound(r, |e.open|);
    assert r.open[..|e.open|] == e.open;
  }

  lemma StepSound(e: Editor, call: Call)
    requires Sound(e) && Step(e, call).Some?
    ensures Sound(Step(e, call).value)
  {
    if call.Begin? {
      BeginSound(e, call.name);
    } else if call.End? {
      EndSound(e);
    } else {
      AheadGrows(e);
      var r := Step(e, call).value;
      forall k | 0 <= k < |e.open| ensures LevelSound(r, k) {
        assert LevelSound(e, k);
      }
    }
  }

  function Run(e: Editor, calls: seq<Call>): (r: Option<Editor>)
    requires Sound(e)
    ensures r.Some? ==> Sound(r.value)
    decreases |calls|
  {
    if calls == [] then Some(e)
    else
      var next := Step(e, calls[0]);
      if next.None? then None
      else
        StepSound(e, calls[0]);
        Run(next.value, calls[1..])
  }

  // No call ends one of the first `n` placeholders that are open.
  predicate Keeps(e: Editor, calls: seq<Call>, n: nat)
    requires Sound(e) && Run(e, calls).Some?
    decreases |calls|
  {
    && n <= |e.open|
    && (calls != [] ==>
          var next := Step(e, calls[0]).value;
          StepSound(e, calls[0]);
          Keeps(next, calls[1..], n))
  }

  // The text behind the place to go back to when all but the first `n` open placeholders are ended.
  function Behind(e: Editor, n: nat): string
    requires Sound(e) && n <= |e.open|
  {
    AheadGrows(e);
    assert e.open[..|e.open|] == e.open;
    e.whole[|e.whole| - Ahead(e.placeholders, e.open[..n])..]
  }

  // The first levels are the same in both.
  predicate LevelsAlike(e: Editor, r: Editor, n: nat) {
    && n <= |e.open| && n <= |r.open| && r.open[..n] == e.open[..n]
    && forall k | 0 <= k < n ::
         && e.open[k].name in e.placeholders && e.open[k].name in r.placeholders
         && r.placeholders[e.open[k].name] == e.placeholders[e.open[k].name]
  }

  lemma StepKeepsLevels(e: Editor, call: Call, n: nat)
    requires Sound(e) && Step(e, call).Some? && n <= |e.open| && n <= |Step(e, call).value.open|
    ensures LevelsAlike(e, Step(e, call).value, n)
    ensures Ahead(Step(e, call).value.placeholders, e.open[..n]) == Ahead(e.placeholders, e.open[..n])
  {
    var r := Step(e, call).value;
    forall k | 0 <= k < n
      ensures e.open[k].name in e.placeholders && e.open[k].name in r.placeholders
      ensures r.placeholders[e.open[k].name] == e.placeholders[e.open[k].name]
    {
      assert LevelSound(e, k);
    }
    AheadSame(e.placeholders, r.placeholders, e.open[..n]);
  }

  lemma StepKeepsBehind(e: Editor, call: Call, n: nat)
    requires Sound(e) && Step(e, call).Some? && n <= |e.open| && n <= |Step(e, call).value.open|
    ensures Sound(Step(e, call).value) && LevelsAlike(e, Step(e, call).value, n)
    ensures Behind(Step(e, call).value, n) == Behind(e, n)
  {
    hide Sound, Ahead;
    StepSound(e, call);
    StepKeepsLevels(e, call, n);
    BehindCursor(e, n);
    var r := Step(e, call).value;
    if call.Write? || call.Newline? {
      var written := if call.Write? then Written(e.cursor, call.text) else "\n";
      InsertedBefore(e.whole, e.cursor.position, written, |Behind(e, n)|);
    }
  }

  lemma InsertedBefore(text: string, offset: nat, inserted: string, length: nat)
    requires offset <= |text| && length <= |text| - offset
    ensures var r := Insert(text, offset, inserted); r[|r| - length..] == text[|text| - length..]
  {
  }

  // What lies behind the cursor, and what of it lies behind the places to go back to.
  lemma BehindCursor(e: Editor, n: nat)
    requires Sound(e) && n <= |e.open|
    ensures |Behind(e, n)| == Ahead(e.placeholders, e.open[..n]) && e.cursor.position + |Behind(e, n)| <= |e.whole|
    ensures n == |e.open| ==> Behind(e, n) == e.whole[e.cursor.position..]
  {
    AheadGrows(e);
    assert e.open[..|e.open|] == e.open;
  }

  /** Whatever is written, on however many placeholders inside one another: as long as a placeholder
      stays open, the text behind the place to go back to stays as it is. */
  lemma {:induction false} RunKeepsBehind(e: Editor, calls: seq<Call>, n: nat)
    requires Sound(e) && Run(e, calls).Some? && Keeps(e, calls, n)
    ensures LevelsAlike(e, Run(e, calls).value, n) && Behind(Run(e, calls).value, n) == Behind(e, n)
    decreases |calls|
  {
    hide Sound, Step, Behind;
    if calls == [] {
      LevelsSame(e, n);
    } else {
      StepSound(e, calls[0]);
      StepKeepsBehind(e, calls[0], n);
      RunKeepsBehind(Step(e, calls[0]).value, calls[1..], n);
    }
  }

  lemma LevelsSame(e: Editor, n: nat)
    requires Sound(e) && n <= |e.open|
    ensures LevelsAlike(e, e, n)
  {
    forall k | 0 <= k < n ensures e.open[k].name in e.placeholders {
      assert LevelSound(e, k);
    }
  }

  lemma {:induction false} KeepsFewer(e: Editor, calls: seq<Call>, n: nat, m: nat)
    requires Sound(e) && Run(e, calls).Some? && Keeps(e, calls, n) && m <= n
    ensures Keeps(e, calls, m)
    decreases |calls|
  {
    if calls != [] {
      StepSound(e, calls[0]);
      KeepsFewer(Step(e, calls[0]).value, calls[1..], n, m);
    }
  }

  /** A placeholder is begun and ended, with any calls between that end only what they begin: the
      cursor is back in front of the very same text, moved on by all that has been written, with
      column and indentation as before, and what was open is open. */
  lemma NestedPair(e: Editor, name: string, calls: seq<Call>)
    requires Sound(e) && Step(e, Begin(name)).Some?
    requires var begun := Step(e, Begin(name)).value;
             && Sound(begun) && Run(begun, calls).Some? && Keeps(begun, calls, |begun.open|)
             && |Run(begun, calls).value.open| == |begun.open|
    ensures var before := Run(Step(e, Begin(name)).value, calls).value;
            && Step(before, End).Some?
            && var r := Step(before, End).value;
               && Sound(r) && r.open == e.open && name !in r.placeholders
               && r.cursor == e.cursor.(position := r.cursor.position)
               && r.cursor.position == e.cursor.position + |r.whole| - |e.whole|
               && Behind(r, |r.open|) == Behind(e, |e.open|)
  {
    hide Behind, Ahead, Keeps, Run;
    var n, begun := |e.open|, Step(e, Begin(name)).value;
    var before := Run(begun, calls).value;
    RunKeepsBehind(begun, calls, n + 1);
    assert before.open[..n + 1] == before.open && begun.open[..n + 1] == begun.open;
    KeepsFewer(begun, calls, n + 1, n);
    RunKeepsBehind(begun, calls, n);
    StepKeepsBehind(e, Begin(name), n);
    StepKeepsBehind(before, End, n);
    EndSound(before);
    BehindCursor(e, n);
    BehindCursor(Step(before, End).value, n);
  }

  function Bookmarks(open: seq<OpenPlaceholder>): (r: seq<Bookmark>)
    ensures |r| == |open|
  {
    seq(|open|, k requires 0 <= k < |open| => Bookmark(open[k].placeholder, open[k].cursor))
  }

  // What a writer amounts to at this moment.
  ghost function Editing(writer: TextWriter): Editor
    reads writer
  {
    Editor(writer.Whole(), writer.Cursor(), writer.placeholders, Bookmarks(writer.openPlaceholders))
  }

  // What has been cut off is just what lies behind the cursor.
  lemma {:induction false} EndsAhead(open: seq<OpenPlaceholder>, placeholders: map<string, TextCursor>)
    requires forall k | 0 <= k < |open| ::
               && open[k].placeholder in placeholders
               && placeholders[open[k].placeholder].position + |open[k].textEnd| == open[k].cursor.position
    ensures |TextEnds(open)| == Ahead(placeholders, Bookmarks(open))
  {
    if open != [] {
      var outer := open[..|open| - 1];
      assert Bookmarks(open)[..|open| - 1] == Bookmarks(outer);
      EndsAhead(outer, placeholders);
    }
  }

  lemma WriterSound(writer: TextWriter)
    requires writer.Valid()
    ensures Sound(Editing(writer))
  {
    var e, open := Editing(writer), writer.openPlaceholders;
    forall k | 0 <= k < |open|
      ensures LevelSound(e, k)
      ensures writer.placeholders[open[k].placeholder].position + |open[k].textEnd| == open[k].cursor.position
    {
      assert EndFits(open, writer.placeholders, |writer.text|, k);
    }
    EndsAhead(open, writer.placeholders);
    forall j, k | 0 <= j < k < |open| ensures e.open[j].name != e.open[k].name {
      assert writer.currentPlaceholders[j] != writer.currentPlaceholders[k];
    }
  }

  lemma OpenInBoth(writer: TextWriter, name: string)
    requires writer.Valid()
    ensures IsOpen(Editing(writer), name) <==> name in writer.currentPlaceholders
    ensures Editing(writer).open == [] <==> writer.currentPlaceholders == []
  {
    if name in writer.currentPlaceholders {
      var k :| 0 <= k < |writer.currentPlaceholders| && writer.currentPlaceholders[k] == name;
      assert Editing(writer).open[k].name == name;
    }
  }

  // The bookmarks of all but the innermost placeholder.
  lemma OuterBookmarks(open: seq<OpenPlaceholder>)
    requires open != []
    ensures var last := |open| - 1;
            Bookmarks(open) == Bookmarks(open[..last]) + [Bookmark(open[last].placeholder, open[last].cursor)]
  {
  }

  lemma NewInnermost(writer: TextWriter, name: string)
    requires writer.Valid() && writer.IsInnermost(name)
    ensures writer.openPlaceholders != []
    ensures var last := |writer.openPlaceholders| - 1;
            Bookmarks(writer.openPlaceholders) ==
              Bookmarks(writer.openPlaceholders[..last]) + [Bookmark(name, writer.openPlaceholders[last].cursor)]
  {
    OuterBookmarks(writer.openPlaceholders);
  }

  /** The writer does what the editor does, and throws where the editor has no next step. */
  method Perform(writer: TextWriter, call: Call) returns (thrown: bool)
    requires writer.Valid()
    requires call.Begin? && call.name in writer.currentPlaceholders ==> writer.IsInnermost(call.name)
    modifies writer
    ensures writer.Valid() && Sound(old(Editing(writer)))
    ensures thrown <==> Step(old(Editing(writer)), call).None?
    ensures Editing(writer) == if thrown then old(Editing(writer)) else Step(old(Editing(writer)), call).value
  {
    WriterSound(writer);
    thrown := false;
    match call
    case Write(text) => writer.Write(text);
    case Newline => writer.Newline();
    case Indent => writer.Indent();
    case Unindent => writer.Unindent();
    case AddPlaceholder(name) =>
      OpenInBoth(writer, name);
      thrown := writer.AddPlaceholder(name);
    case Begin(name) =>
      OpenInBoth(writer, name);
      assert writer.IsInnermost(name) ==> name in writer.currentPlaceholders;
      thrown := writer.BeginWriteOnPlaceholder(name);
      if !thrown {
        NewInnermost(writer, name);
      }
    case End =>
      if writer.openPlaceholders != [] {
        OuterBookmarks(writer.openPlaceholders);
      }
      thrown := writer.EndWriteOnPlaceholder();
  }

  // A run of the writer is a run of the editor.
  method PerformAll(writer: TextWriter, calls: seq<Call>)
    requires writer.Valid() && Sound(Editing(writer)) && Run(Editing(writer), calls).Some?
    modifies writer
    ensures writer.Valid() && Sound(old(Editing(writer))) && Some(Editing(writer)) == Run(old(Editing(writer)), calls)
  {
    hide TextWriter.Valid, Sound;
    assert calls[0..] == calls;
    for i := 0 to |calls|
      invariant writer.Valid() && Sound(Editing(writer))
      invariant Run(Editing(writer), calls[i..]) == Run(old(Editing(writer)), calls)
    {
      assert calls[i..][1..] == calls[i + 1..];
      if calls[i].Begin? {
        OpenInBoth(writer, calls[i].name);
      }
      StepSound(Editing(writer), calls[i]);
      var _ := Perform(writer, calls[i]);
    }
  }

  predicate LeavesPlaceholders(call: Call) {
    call.Write? || call.Newline? || call.Indent? || call.Unindent?
  }

  // The text of calls: the first write that adds something to a line comes behind the indentation.
  function Rendered(calls: seq<Call>, indentation: nat, newLine: bool): string {
    if calls == [] then ""
    else
      match calls[0]
      case Write(text) =>
        var written := (if newLine then Spaces(indentation) else "") + text;
        written + Rendered(calls[1..], indentation, newLine && written == "")
      case Newline => "\n" + Rendered(calls[1..], indentation, true)
      case Indent => Rendered(calls[1..], (indentation + 4) % 4294967296, newLine)
      case Unindent => Rendered(calls[1..], (indentation + 4294967292) % 4294967296, newLine)
      case _ => ""
  }

  // One call at the end of the text.
  lemma StepRenders(e: Editor, call: Call)
    requires Sound(e) && e.open == [] && LeavesPlaceholders(call)
    ensures var r := Step(e, call);
            && r.Some? && r.value.open == []
            && match call
               case Write(text) =>
                 var written := (if e.cursor.column == 0 then Spaces(e.cursor.indentation) else "") + text;
                 && r.value.whole == e.whole + written && r.value.cursor.indentation == e.cursor.indentation
                 && (r.value.cursor.column == 0 <==> e.cursor.column == 0 && written == "")
               case Newline =>
                 && r.value.whole == e.whole + "\n" && r.value.cursor.column == 0
                 && r.value.cursor.indentation == e.cursor.indentation
               case Indent =>
                 && r.value.whole == e.whole && r.value.cursor.column == e.cursor.column
                 && r.value.cursor.indentation == (e.cursor.indentation + 4) % 4294967296
               case _ =>
                 && r.value.whole == e.whole && r.value.cursor.column == e.cursor.column
                 && r.value.cursor.indentation == (e.cursor.indentation + 4294967292) % 4294967296
  {
    assert e.whole[..|e.whole|] == e.whole && e.whole[|e.whole|..] == "";
  }

  /** Outside of placeholders nothing is written but indented lines, at the end of the text. */
  lemma {:induction false} RunRenders(e: Editor, calls: seq<Call>)
    requires Sound(e) && e.open == [] && forall k | 0 <= k < |calls| :: LeavesPlaceholders(calls[k])
    ensures var r := Run(e, calls);
            r.Some? && r.value.whole == e.whole + Rendered(calls, e.cursor.indentation, e.cursor.column == 0)
    decreases |calls|
  {
    hide Sound, Step, LeavesPlaceholders, Spaces;
    if calls != [] {
      StepRenders(e, calls[0]);
      StepSound(e, calls[0]);
      var next := Step(e, calls[0]).value;
      RunRenders(next, calls[1..]) by {
        assert forall k | 0 < k < |calls| :: calls[k] == calls[1..][k - 1];
      }
      OneOfFour(calls[0]);
      var first := next.whole[|e.whole|..];
      var others := Rendered(calls[1..], next.cursor.indentation, next.cursor.column == 0);
      assert Rendered(calls, e.cursor.indentation, e.cursor.column == 0) == first + others;
      assert e.whole + (first + others) == e.whole + first + others;
    }
  }

  lemma OneOfFour(call: Call)
    requires LeavesPlaceholders(call)
    ensures call.Write? || call.Newline? || call.Indent? || call.Unindent?
  {
  }
}
