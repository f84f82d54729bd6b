/** A text writer with named placeholders that can be filled in later, and with saves. */
module TextWriting {
  import opened SourceText

  const UINT_LIMIT := 0x1_0000_0000
  const INDENTATION_STEP := 4

  datatype TextCursor = TextCursor(position: nat, column: nat, indentation: nat)

  datatype SavedText = SavedText(cursor: TextCursor, text: string)

  // The cursor to go back to when a placeholder is done, and the text after the placeholder.
  datatype OpenPlaceholder = OpenPlaceholder(cursor: TextCursor, placeholder: string, textEnd: string)

  function Spaces(n: nat): (s: string)
    ensures |s| == n
  {
    if n == 0 then "" else Spaces(n - 1) + " "
  }

  function Insert(text: string, offset: nat, inserted: string): string
    requires offset <= |text|
  {
    text[..offset] + inserted + text[offset..]
  }

  lemma InsertTwice(text: string, offset: nat, a: string, b: string)
    requires offset <= |text|
    ensures Insert(Insert(text, offset, a), offset + |a|, b) == Insert(text, offset, a + b)
  {
    var once := Insert(text, offset, a);
    assert once[..offset + |a|] == text[..offset] + a;
    assert once[offset + |a|..] == text[offset..];
  }

  // What has been cut off behind open placeholders, the innermost first.
  function TextEnds(open: seq<OpenPlaceholder>): string {
    if open == [] then "" else open[|open| - 1].textEnd + TextEnds(open[..|open| - 1])
  }

  // Every open placeholder is known, and its end starts where the placeholder lies; the text
  // written since reaches back to it.
  ghost predicate EndsFit(open: seq<OpenPlaceholder>, placeholders: map<string, TextCursor>, length: nat) {
    forall k | 0 <= k < |open| :: EndFits(open, placeholders, length, k)
  }

  ghost predicate EndFits(open: seq<OpenPlaceholder>, placeholders: map<string, TextCursor>, length: nat, k: nat)
    requires k < |open|
  {
    && open[k].placeholder in placeholders
    && placeholders[open[k].placeholder].position + |open[k].textEnd| == open[k].cursor.position
    && placeholders[open[k].placeholder].position <= (if k + 1 < |open| then open[k + 1].cursor.position else length)
  }

  // Opening one more placeholder, and ending the innermost one again.
  lemma EndsFitOpened(open: seq<OpenPlaceholder>, placeholders: map<string, TextCursor>, length: nat,
                      o: OpenPlaceholder)
    requires EndsFit(open, placeholders, length) && o.cursor.position == length && o.placeholder in placeholders
    requires placeholders[o.placeholder].position + |o.textEnd| == length
    ensures EndsFit(open + [o], placeholders, placeholders[o.placeholder].position)
  {
    forall k | 0 <= k < |open| ensures EndFits(open + [o], placeholders, placeholders[o.placeholder].position, k) {
      assert EndFits(open, placeholders, length, k);
    }
  }

  lemma EndsFitEnded(open: seq<OpenPlaceholder>, placeholders: map<string, TextCursor>, length: nat)
    requires open != [] && EndsFit(open, placeholders, length)
    requires forall k | 0 <= k < |open| - 1 :: open[k].placeholder != open[|open| - 1].placeholder
    ensures var o := open[|open| - 1];
            && o.placeholder in placeholders && placeholders[o.placeholder].position <= length
            && placeholders[o.placeholder].position + |o.textEnd| == o.cursor.position
            && EndsFit(open[..|open| - 1], placeholders - {o.placeholder}, length + |o.textEnd|)
  {
    var last := |open| - 1;
    assert EndFits(open, placeholders, length, last);
    var outer, others, longer := open[..last], placeholders - {open[last].placeholder}, length + |open[last].textEnd|;
    forall k | 0 <= k < last ensures EndFits(outer, others, longer, k) {
      assert EndFits(open, placeholders, length, k);
    }
  }

  lemma EndsFitGrown(open: seq<OpenPlaceholder>, placeholders: map<string, TextCursor>, length: nat, more: nat)
    requires EndsFit(open, placeholders, length)
    ensures EndsFit(open, placeholders, length + more)
  {
    var longer := length + more;
    forall k | 0 <= k < |open| ensures EndFits(open, placeholders, longer, k) {
      assert EndFits(open, placeholders, length, k);
    }
  }

  class TextWriter {
    var text: string
    var position: nat
    var column: nat
    var indentation: nat
    var tabs: seq<nat>
    var placeholders: map<string, TextCursor>
    var currentPlaceholders: seq<string>
    var openPlaceholders: seq<OpenPlaceholder>
    var savedTexts: seq<SavedText>

    /** The position is the length of the text; the open placeholders are all different, and
        their ends fit on again. */
    ghost predicate Valid()
      reads this
    {
      && position == |text|
      && |currentPlaceholders| == |openPlaceholders|
      && (forall k | 0 <= k < |openPlaceholders| :: currentPlaceholders[k] == openPlaceholders[k].placeholder)
      && (forall j, k | 0 <= j < k < |currentPlaceholders| :: currentPlaceholders[j] != currentPlaceholders[k])
      && EndsFit(openPlaceholders, placeholders, |text|)
      && (forall k | 0 <= k < |savedTexts| :: savedTexts[k].cursor.position == |savedTexts[k].text|)
    }

    // The text as it will be once every open placeholder has been ended.
    ghost function Whole(): string
      reads this
    {
      text + TextEnds(openPlaceholders)
    }

    function Cursor(): TextCursor
      reads this
    {
      TextCursor(position, column, indentation)
    }

    constructor ()
      ensures Valid() && text == "" && column == 0 && indentation == 0
      ensures placeholders == map[] && openPlaceholders == [] && savedTexts == []
    {
      text, position, column, indentation, tabs := "", 0, 0, 0, [];
      placeholders, currentPlaceholders, openPlaceholders, savedTexts := map[], [], [], [];
    }

    method Indent()
      modifies `indentation
      ensures indentation == (old(indentation) + INDENTATION_STEP) % UINT_LIMIT
    {
      indentation := (indentation + INDENTATION_STEP) % UINT_LIMIT;
    }

    // Below zero the unsigned indentation wraps around.
    method Unindent()
      modifies `indentation
      ensures indentation == (old(indentation) + UINT_LIMIT - INDENTATION_STEP) % UINT_LIMIT
    {
      indentation := (indentation + UINT_LIMIT - INDENTATION_STEP) % UINT_LIMIT;
    }

    // Appends to the text at the cursor.
    method Append(t: string)
      requires Valid()
      modifies `text, `position, `column
      ensures Valid() && text == old(text) + t && column == old(column) + |t|
      ensures Whole() == Insert(old(Whole()), old(position), t)
    {
      ghost var ends := TextEnds(openPlaceholders);
      assert (text + ends)[..position] == text && (text + ends)[position..] == ends;
      text := text + t;
      column := column + |t|;
      position := position + |t|;
      EndsFitGrown(openPlaceholders, placeholders, |old(text)|, |t|);
    }

    method PrintIndentation()
      requires Valid()
      modifies `text, `position, `column
      ensures Valid() && text == old(text) + Spaces(indentation) && column == old(column) + indentation
      ensures Whole() == Insert(old(Whole()), old(position), Spaces(indentation))
    {
      assert Whole() == Insert(Whole(), position, "");
      for i := 0 to indentation
        invariant Valid() && text == old(text) + Spaces(i) && column == old(column) + i
        invariant Whole() == Insert(old(Whole()), old(position), Spaces(i))
      {
        InsertTwice(old(Whole()), old(position), Spaces(i), " ");
        Append(" ");
      }
    }

    /** A write goes in at the cursor, indented at the start of a line; of the whole text nothing
        else changes. */
    method Write(t: string)
      requires Valid()
      modifies `text, `position, `column
      ensures Valid()
      ensures var written := (if old(column) == 0 then Spaces(indentation) else "") + t;
              && text == old(text) + written
              && column == old(column) + |written| && position == old(position) + |written|
              && Whole() == Insert(old(Whole()), old(position), written)
    {
      if column == 0 {
        PrintIndentation();
        InsertTwice(old(Whole()), old(position), Spaces(indentation), t);
      } else {
        assert "" + t == t;
      }
      Append(t);
    }

    method Newline()
      requires Valid()
      modifies `text, `position, `column
      ensures Valid() && text == old(text) + "\n" && column == 0 && position == old(position) + 1
      ensures Whole() == Insert(old(Whole()), old(position), "\n")
    {
      Append("\n");
      column := 0;
    }

    method AddTab(tab: nat)
      modifies `tabs
      ensures tabs == old(tabs) + [tab]
    {
      tabs := tabs + [tab];
    }

    // Moves to the next tab stop: one space past every stop already behind, spaces up to the first one ahead.
    method Tab()
      requires Valid()
      modifies `text, `position, `column
      ensures Valid() && old(text) <= text && column == old(column) + (|text| - |old(text)|)
      ensures (exists k | 0 <= k < |tabs| :: old(column) + k < tabs[k]) ==> column in tabs
    {
      for i := 0 to |tabs|
        invariant Valid() && old(text) <= text && column == old(column) + i == old(column) + (|text| - |old(text)|)
        invariant forall k | 0 <= k < i :: old(column) + k >= tabs[k]
      {
        if column < tabs[i] {
          Append(Spaces(tabs[i] - column));
          return;
        }
        Append(" ");
      }
    }

    /** Remembers the cursor under a name; refused for a name that is taken and inside a placeholder. */
    method AddPlaceholder(name: string) returns (thrown: bool)
      requires Valid()
      modifies `placeholders
      ensures Valid()
      ensures thrown <==> name in old(placeholders) || currentPlaceholders != []
      ensures placeholders == if thrown then old(placeholders) else old(placeholders)[name := Cursor()]
    {
      thrown := name in placeholders || currentPlaceholders != [];
      if !thrown {
        placeholders := placeholders[name := Cursor()];
      }
    }

    // The innermost open placeholder.
    predicate IsInnermost(name: string)
      reads this
    {
      currentPlaceholders != [] && currentPlaceholders[|currentPlaceholders| - 1] == name
    }

    /** Moves the cursor to a placeholder, and changes nothing else of the whole text. It is
        refused for an unknown one, for the innermost open one, and for one that lies behind
        the text up to the cursor. Another open one must not be asked for. */
    method BeginWriteOnPlaceholder(name: string) returns (thrown: bool)
      requires Valid() && (name in currentPlaceholders ==> IsInnermost(name))
      modifies this
      ensures Valid() && Whole() == old(Whole()) && placeholders == old(placeholders) && savedTexts == old(savedTexts)
      ensures thrown <==> name !in placeholders || old(IsInnermost(name)) || placeholders[name].position > old(position)
      ensures thrown ==> Cursor() == old(Cursor()) && openPlaceholders == old(openPlaceholders)
      ensures !thrown ==> Cursor() == placeholders[name] && currentPlaceholders == old(currentPlaceholders) + [name]
      ensures !thrown ==>
                |openPlaceholders| == |old(openPlaceholders)| + 1 &&
                openPlaceholders[..|old(openPlaceholders)|] == old(openPlaceholders)
      ensures !thrown ==> openPlaceholders[|old(openPlaceholders)|].cursor == old(Cursor())
    {
      if name !in placeholders || IsInnermost(name) || placeholders[name].position > |text| {
        return true;
      }
      var cursor := placeholders[name];
      ghost var before := openPlaceholders;
      openPlaceholders := openPlaceholders + [OpenPlaceholder(Cursor(), name, text[cursor.position..])];
      position, column, indentation := cursor.position, cursor.column, cursor.indentation;
      assert text == text[..position] + text[position..];
      text := text[..position];
      currentPlaceholders := currentPlaceholders + [name];
      thrown := false;
      assert openPlaceholders[..|before|] == before;
      EndsFitOpened(before, placeholders, |old(text)|, openPlaceholders[|before|]);
    }

    /** Ends the innermost placeholder: its end is joined on again, the whole text stays as it is,
        and the cursor is where it was at the beginning, moved on by what has been written. */
    method EndWriteOnPlaceholder() returns (thrown: bool)
      requires Valid()
      modifies this
      ensures Valid() && Whole() == old(Whole()) && savedTexts == old(savedTexts)
      ensures thrown <==> old(openPlaceholders) == []
      ensures thrown ==> Cursor() == old(Cursor()) && placeholders == old(placeholders) && openPlaceholders == []
      ensures !thrown ==>
                var last := |old(openPlaceholders)| - 1;
                var o := old(openPlaceholders)[last];
                && o.placeholder in old(placeholders)
                && openPlaceholders == old(openPlaceholders)[..last]
                && placeholders == old(placeholders) - {o.placeholder}
                && position == o.cursor.position + old(position) - old(placeholders)[o.placeholder].position
                && column == o.cursor.column && indentation == o.cursor.indentation
    {
      if openPlaceholders == [] {
        return true;
      }
      thrown := false;
      var last := |openPlaceholders| - 1;
      var o := openPlaceholders[last];
      EndsFitEnded(openPlaceholders, placeholders, |text|);
      var start := placeholders[o.placeholder].position;
      position := o.cursor.position + if o.cursor.position >= start then position - start else 0;
      column, indentation := o.cursor.column, o.cursor.indentation;
      assert text + TextEnds(openPlaceholders) == (text + o.textEnd) + TextEnds(openPlaceholders[..last]);
      text := text + o.textEnd;
      placeholders := placeholders - {o.placeholder};
      currentPlaceholders := currentPlaceholders[..last];
      openPlaceholders := openPlaceholders[..last];
    }

    method Save()
      requires Valid()
      modifies `savedTexts
      ensures Valid() && savedTexts == old(savedTexts) + [SavedText(Cursor(), text)]
    {
      savedTexts := savedTexts + [SavedText(Cursor(), text)];
    }

    /** Goes back to the text saved last; the indentation stays. */
    method Restore() returns (thrown: bool)
      requires Valid() && openPlaceholders == []
      modifies this
      ensures Valid() && openPlaceholders == [] && indentation == old(indentation) && placeholders == old(placeholders)
      ensures thrown <==> old(savedTexts) == []
      ensures thrown ==> text == old(text) && column == old(column) && savedTexts == []
      ensures !thrown ==>
                var last := |old(savedTexts)| - 1;
                && text == old(savedTexts)[last].text && column == old(savedTexts)[last].cursor.column
                && savedTexts == old(savedTexts)[..last]
    {
      if savedTexts == [] {
        return true;
      }
      thrown := false;
      var saved := savedTexts[|savedTexts| - 1];
      position, column, text := saved.cursor.position, saved.cursor.column, saved.text;
      savedTexts := savedTexts[..|savedTexts| - 1];
    }
  }
}
