/** Filling the placeholders of a text writer one after the other, and in which orders every content
    ends up at its own place. */
module PlaceholderFills {
  import opened SourceText
  import opened TextWriting

  // What is written at which offset of the text that the placeholders were added to.
  datatype Fill = Fill(offset: nat, content: string)

  predicate Inside(text: string, fills: seq<Fill>) {
    forall k | 0 <= k < |fills| :: fills[k].offset <= |text|
  }

  // The placeholders filled one after the other. Their offsets are not moved along.
  function FillInOrder(text: string, fills: seq<Fill>): string
    requires Inside(text, fills)
    decreases |fills|
  {
    if fills == [] then text
    else FillInOrder(Insert(text, fills[0].offset, fills[0].content), fills[1..])
  }

  // All that belongs at one offset, what was written last first.
  function At(fills: seq<Fill>, offset: nat): string {
    if fills == [] then ""
    else At(fills[1..], offset) + if fills[0].offset == offset then fills[0].content else ""
  }

  // From an offset on, every content at its own offset of the original text.
  function Simultaneous(text: string, fills: seq<Fill>, offset: nat): string
    decreases |text| - offset
  {
    At(fills, offset) + if offset < |text| then [text[offset]] + Simultaneous(text, fills, offset + 1) else ""
  }

  predicate NeverAscends(offsets: seq<nat>) {
    forall j, k | 0 <= j < k < |offsets| :: offsets[k] <= offsets[j]
  }

  function Fills(offsets: seq<nat>, contents: seq<string>): seq<Fill>
    requires |contents| == |offsets|
  {
    seq(|offsets|, k requires 0 <= k < |offsets| => Fill(offsets[k], contents[k]))
  }

  function Offsets(fills: seq<Fill>): seq<nat> {
    seq(|fills|, k requires 0 <= k < |fills| => fills[k].offset)
  }

  lemma {:induction false} NothingAt(fills: seq<Fill>, offset: nat)
    requires forall k | 0 <= k < |fills| :: fills[k].offset != offset || fills[k].content == ""
    ensures At(fills, offset) == ""
    decreases |fills|
  {
    if fills != [] {
      NothingAt(fills[1..], offset);
    }
  }

  // Where nothing is filled in, the text stays as it is.
  lemma {:induction false} TextStays(text: string, fills: seq<Fill>, lo: nat, hi: nat)
    requires lo <= hi <= |text| && forall g | lo <= g < hi :: At(fills, g) == ""
    ensures Simultaneous(text, fills, lo) == text[lo..hi] + Simultaneous(text, fills, hi)
    decreases hi - lo
  {
    if lo < hi {
      TextStays(text, fills, lo + 1, hi);
      assert text[lo..hi] == [text[lo]] + text[lo + 1..hi];
    }
  }

  // Behind all offsets that is the rest of the text.
  lemma RestStays(text: string, fills: seq<Fill>, offset: nat)
    requires offset <= |text| && forall k | 0 <= k < |fills| :: fills[k].offset <= offset
    ensures Simultaneous(text, fills, offset) == At(fills, offset) + text[offset..]
  {
    if offset < |text| {
      forall g | offset < g <= |text| ensures At(fills, g) == "" {
        NothingAt(fills, g);
      }
      TextStays(text, fills, offset + 1, |text|);
      assert text[offset..] == [text[offset]] + text[offset + 1..|text|];
    }
  }

  // The first content can be put into the text if all the others belong no further on.
  lemma {:induction false} FirstPutIn(text: string, fills: seq<Fill>, offset: nat)
    requires fills != [] && Inside(text, fills) && offset <= fills[0].offset
    requires forall k | 0 < k < |fills| :: fills[k].offset <= fills[0].offset
    ensures Simultaneous(text, fills, offset) ==
            Simultaneous(Insert(text, fills[0].offset, fills[0].content), fills[1..], offset)
    decreases fills[0].offset - offset
  {
    var o, c, rest := fills[0].offset, fills[0].content, fills[1..];
    var inserted := Insert(text, o, c);
    if offset < o {
      hide At, Insert;
      FirstPutIn(text, fills, offset + 1);
      assert At(fills, offset) == At(rest, offset) by { NotHere(fills, offset); }
      assert inserted[offset] == text[offset] && offset < |inserted| by { InsertedBehind(text, o, c, offset); }
    } else {
      LastPutIn(text, fills);
    }
  }

  lemma NotHere(fills: seq<Fill>, offset: nat)
    requires fills != [] && fills[0].offset != offset
    ensures At(fills, offset) == At(fills[1..], offset)
  {
  }

  lemma InsertedBehind(text: string, offset: nat, inserted: string, k: nat)
    requires k < offset <= |text|
    ensures k < |Insert(text, offset, inserted)| && Insert(text, offset, inserted)[k] == text[k]
  {
  }

  lemma LastPutIn(text: string, fills: seq<Fill>)
    requires fills != [] && Inside(text, fills)
    requires forall k | 0 < k < |fills| :: fills[k].offset <= fills[0].offset
    ensures Simultaneous(text, fills, fills[0].offset) ==
            Simultaneous(Insert(text, fills[0].offset, fills[0].content), fills[1..], fills[0].offset)
  {
    hide Simultaneous;
    var o, c, rest := fills[0].offset, fills[0].content, fills[1..];
    var inserted := Insert(text, o, c);
    RestStays(text, fills, o);
    RestStays(inserted, rest, o);
    assert inserted[o..] == c + text[o..];
    assert At(rest, o) + c + text[o..] == At(rest, o) + (c + text[o..]);
  }

  // Filled from back to front, every content ends up at its own place.
  lemma {:induction false} BackToFront(text: string, fills: seq<Fill>)
    requires Inside(text, fills) && NeverAscends(Offsets(fills))
    ensures FillInOrder(text, fills) == Simultaneous(text, fills, 0)
    decreases |fills|
  {
    if fills == [] {
      RestStays(text, fills, 0);
    } else {
      var offsets := Offsets(fills);
      forall k | 0 < k < |fills| ensures fills[k].offset <= fills[0].offset {
        assert offsets[k] <= offsets[0];
      }
      assert NeverAscends(Offsets(fills[1..])) by {
        assert Offsets(fills[1..]) == offsets[1..];
      }
      BackToFront(Insert(text, fills[0].offset, fills[0].content), fills[1..]);
      FirstPutIn(text, fills, 0);
    }
  }

  // Empty contents change nothing.
  lemma {:induction false} EmptyFills(text: string, fills: seq<Fill>, lo: nat, hi: nat)
    requires lo <= hi <= |fills| && Inside(text, fills[lo..])
    requires forall k | lo <= k < hi :: fills[k].content == ""
    ensures Inside(text, fills[hi..]) && FillInOrder(text, fills[lo..]) == FillInOrder(text, fills[hi..])
    decreases hi - lo
  {
    if lo < hi {
      OneFill(text, fills, lo);
      assert Insert(text, fills[lo].offset, "") == text;
      EmptyFills(text, fills, lo + 1, hi);
    }
  }

  lemma OneFill(text: string, fills: seq<Fill>, k: nat)
    requires k < |fills| && Inside(text, fills[k..])
    ensures fills[k].offset <= |text| && Inside(Insert(text, fills[k].offset, fills[k].content), fills[k + 1..])
    ensures FillInOrder(text, fills[k..]) ==
              FillInOrder(Insert(text, fills[k].offset, fills[k].content), fills[k + 1..])
  {
    var tail := fills[k..];
    assert tail[0] == fills[k] && tail[1..] == fills[k + 1..];
  }

  // Only the placeholders `i` and `j` are given contents of one character.
  function Two(offsets: seq<nat>, i: nat, j: nat, c: char): (contents: seq<string>)
    requires i < j < |offsets|
    ensures |contents| == |offsets|
  {
    seq(|offsets|, k => if k == i then "x" else if k == j then [c] else "")
  }

  // In their order, the second content stands just where its offset says.
  lemma SecondInPlace(text: string, offsets: seq<nat>, i: nat, j: nat, c: char)
    requires i < j < |offsets| && offsets[i] < offsets[j]
    requires Inside(text, Fills(offsets, Two(offsets, i, j, c)))
    ensures var r := FillInOrder(text, Fills(offsets, Two(offsets, i, j, c)));
            offsets[j] < |r| && r[offsets[j]] == c
  {
    var fills := Fills(offsets, Two(offsets, i, j, c));
    hide Insert, FillInOrder, Two;
    TwoContents(offsets, i, j, c);
    assert fills[0..] == fills;
    EmptyFills(text, fills, 0, i);
    OneFill(text, fills, i);
    var once := Insert(text, offsets[i], "x");
    EmptyFills(once, fills, i + 1, j);
    OneFill(once, fills, j);
    var twice := Insert(once, offsets[j], [c]);
    EmptyFills(twice, fills, j + 1, |fills|);
    assert FillInOrder(twice, []) == twice && fills[|fills|..] == [] by { FilledUp(twice); }
    InsertedAt(once, offsets[j], c);
  }

  lemma TwoContents(offsets: seq<nat>, i: nat, j: nat, c: char)
    requires i < j < |offsets|
    ensures var fills := Fills(offsets, Two(offsets, i, j, c));
            && |fills| == |offsets| && (forall k | 0 <= k < |fills| :: fills[k].offset == offsets[k])
            && fills[i].content == "x" && fills[j].content == [c]
            && forall k | 0 <= k < |fills| && k != i && k != j :: fills[k].content == ""
  {
  }

  lemma FilledUp(text: string)
    ensures FillInOrder(text, []) == text
  {
  }

  lemma InsertedAt(text: string, offset: nat, c: char)
    requires offset <= |text|
    ensures offset < |Insert(text, offset, [c])| && Insert(text, offset, [c])[offset] == c
  {
  }

  lemma {:induction false} TwoAt(offsets: seq<nat>, i: nat, j: nat, c: char, k: nat, g: nat)
    requires i < j < |offsets| && offsets[i] < offsets[j] && k <= |offsets|
    ensures At(Fills(offsets, Two(offsets, i, j, c))[k..], g) ==
            (if g == offsets[i] && k <= i then "x" else if g == offsets[j] && k <= j then [c] else "")
    decreases |offsets| - k
  {
    var fills := Fills(offsets, Two(offsets, i, j, c));
    if k < |offsets| {
      assert fills[k..][1..] == fills[k + 1..];
      TwoAt(offsets, i, j, c, k + 1, g);
    }
  }

  // At their own places, the second content stands one further on.
  lemma FirstInFront(text: string, offsets: seq<nat>, i: nat, j: nat, c: char)
    requires i < j < |offsets| && offsets[i] < offsets[j] <= |text|
    ensures var r := Simultaneous(text, Fills(offsets, Two(offsets, i, j, c)), 0);
            offsets[j] < |r| && r[offsets[j]] == text[offsets[j] - 1]
  {
    hide Simultaneous, At, Two, Fills;
    var fills := Fills(offsets, Two(offsets, i, j, c));
    var a, b := offsets[i], offsets[j];
    forall g: nat ensures At(fills, g) == if g == a then "x" else if g == b then [c] else "" {
      assert fills[0..] == fills;
      TwoAt(offsets, i, j, c, 0, g);
    }
    TextStays(text, fills, 0, a);
    TextStays(text, fills, a + 1, b);
    OneOn(text, fills, a);
    var front := text[0..a] + ("x" + [text[a]] + text[a + 1..b]);
    assert Simultaneous(text, fills, 0) == front + Simultaneous(text, fills, b);
    assert |front| == b + 1 && front[b] == text[b - 1];
  }

  lemma OneOn(text: string, fills: seq<Fill>, offset: nat)
    requires offset < |text|
    ensures Simultaneous(text, fills, offset) ==
              At(fills, offset) + [text[offset]] + Simultaneous(text, fills, offset + 1)
  {
  }

  lemma FillsInside(text: string, offsets: seq<nat>, contents: seq<string>)
    requires |contents| == |offsets| && forall k | 0 <= k < |offsets| :: offsets[k] <= |text|
    ensures Inside(text, Fills(offsets, contents)) && Offsets(Fills(offsets, contents)) == offsets
  {
  }

  // All contents end up at their own places.
  ghost predicate InPlace(text: string, offsets: seq<nat>, contents: seq<string>)
    requires |contents| == |offsets| && forall k | 0 <= k < |offsets| :: offsets[k] <= |text|
  {
    FillsInside(text, offsets, contents);
    FillInOrder(text, Fills(offsets, contents)) == Simultaneous(text, Fills(offsets, contents), 0)
  }

  /** Filling placeholders in a given order puts all contents, whatever they are, at their own
      places if and only if the offsets never ascend in that order. */
  lemma OrderOfFills(text: string, offsets: seq<nat>)
    requires forall k | 0 <= k < |offsets| :: offsets[k] <= |text|
    ensures (forall contents: seq<string> | |contents| == |offsets| :: InPlace(text, offsets, contents))
            <==> NeverAscends(offsets)
  {
    hide InPlace;
    if NeverAscends(offsets) {
      forall contents: seq<string> | |contents| == |offsets| ensures InPlace(text, offsets, contents) {
        InPlaceBackToFront(text, offsets, contents);
      }
    } else {
      var i, j :| 0 <= i < j < |offsets| && offsets[i] < offsets[j];
      OutOfPlace(text, offsets, i, j);
    }
  }

  lemma InPlaceBackToFront(text: string, offsets: seq<nat>, contents: seq<string>)
    requires |contents| == |offsets| && forall k | 0 <= k < |offsets| :: offsets[k] <= |text|
    requires NeverAscends(offsets)
    ensures InPlace(text, offsets, contents)
  {
    hide FillInOrder, Simultaneous, Fills;
    FillsInside(text, offsets, contents);
    BackToFront(text, Fills(offsets, contents));
  }

  lemma OutOfPlace(text: string, offsets: seq<nat>, i: nat, j: nat)
    requires forall k | 0 <= k < |offsets| :: offsets[k] <= |text|
    requires i < j < |offsets| && offsets[i] < offsets[j]
    ensures exists contents: seq<string> :: |contents| == |offsets| && !InPlace(text, offsets, contents)
  {
    hide FillInOrder, Simultaneous, Fills;
    var c := if text[offsets[j] - 1] == 'y' then 'z' else 'y';
    var contents := Two(offsets, i, j, c);
    FillsInside(text, offsets, contents);
    SecondInPlace(text, offsets, i, j, c);
    FirstInFront(text, offsets, i, j, c);
    assert !InPlace(text, offsets, contents);
  }

  // What a write on a placeholder adds: at the start of a line also the indentation there.
  function Written(cursor: TextCursor, t: string): string {
    (if cursor.column == 0 then Spaces(cursor.indentation) else "") + t
  }

  // What filling the named placeholders comes to.
  function NamedFills(placeholders: map<string, TextCursor>, names: seq<string>, contents: seq<string>): seq<Fill>
    requires |contents| == |names| && forall k | 0 <= k < |names| :: names[k] in placeholders
  {
    seq(|names|, k requires 0 <= k < |names| =>
      Fill(placeholders[names[k]].position, Written(placeholders[names[k]], contents[k])))
  }

  lemma Outside(writer: TextWriter)
    requires writer.Valid() && writer.openPlaceholders == []
    ensures writer.Whole() == writer.text && writer.currentPlaceholders == [] && writer.position == |writer.text|
  {
  }

  lemma Inner(writer: TextWriter, name: string)
    requires writer.Valid() && |writer.openPlaceholders| == 1 && writer.currentPlaceholders == [name]
    ensures writer.openPlaceholders[0].placeholder == name
  {
  }

  /** One placeholder, filled from outside of any other. */
  method FillPlaceholder(writer: TextWriter, name: string, content: string)
    requires writer.Valid() && writer.openPlaceholders == []
    requires name in writer.placeholders && writer.placeholders[name].position <= |writer.text|
    modifies writer
    ensures writer.Valid() && writer.openPlaceholders == []
    ensures var cursor := old(writer.placeholders)[name];
            writer.text == Insert(old(writer.text), cursor.position, Written(cursor, content))
    ensures writer.placeholders == old(writer.placeholders) - {name}
  {
    hide TextWriter.Valid, Insert;
    ghost var cursor := writer.placeholders[name];
    Outside(writer);
    var thrown := writer.BeginWriteOnPlaceholder(name);
    writer.Write(content);
    Inner(writer, name);
    thrown := writer.EndWriteOnPlaceholder();
    Outside(writer);
  }

  /** All named placeholders, one after the other: the contents are filled in in that order, so
      they are all at their own places if the placeholders are named from back to front. */
  method FillPlaceholders(writer: TextWriter, names: seq<string>, contents: seq<string>)
    requires writer.Valid() && writer.openPlaceholders == [] && |contents| == |names|
    requires forall j, k | 0 <= j < k < |names| :: names[j] != names[k]
    requires forall k | 0 <= k < |names| ::
               names[k] in writer.placeholders && writer.placeholders[names[k]].position <= |writer.text|
    modifies writer
    ensures writer.Valid() && writer.openPlaceholders == []
    ensures var fills := NamedFills(old(writer.placeholders), names, contents);
            && writer.text == FillInOrder(old(writer.text), fills)
            && (NeverAscends(Offsets(fills)) ==> writer.text == Simultaneous(old(writer.text), fills, 0))
  {
    ghost var fills := NamedFills(writer.placeholders, names, contents);
    assert fills[0..] == fills;
    for i := 0 to |names|
      invariant writer.Valid() && writer.openPlaceholders == [] && |writer.text| >= |old(writer.text)|
      invariant forall k | i <= k < |names| ::
                  names[k] in writer.placeholders && writer.placeholders[names[k]] == old(writer.placeholders)[names[k]]
      invariant Inside(writer.text, fills[i..])
      invariant FillInOrder(writer.text, fills[i..]) == FillInOrder(old(writer.text), fills)
    {
      assert fills[i..][1..] == fills[i + 1..];
      FillPlaceholder(writer, names[i], contents[i]);
    }
    if NeverAscends(Offsets(fills)) {
      BackToFront(old(writer.text), fills);
    }
  }
}
