/**
 The line index: where lines start, in the order the scanner came across them. A revert
 moves the cursor back but leaves the index as it is, so entries may repeat and need not
 ascend; the binary search is correct all the same.
 */
module LineIndex {
  import opened SourceText

  datatype PositionToLine = PositionToLine(position: nat, line: nat)

  datatype Location = Location(line: nat, column: nat)

  /** How a search ends. `OutOfRange` stands for reading past the list and for an unsigned
      subtraction that wraps around: behaviour the C++ program does not define. */
  datatype SearchResult =
    | Found(location: Location)
    | NotFound
    | OutOfRange

  function EntryLocation(entry: PositionToLine, q: nat): Location
    requires entry.position <= q
  {
    Location(entry.line, q - entry.position + 1)
  }

  function SearchForLine(index: seq<PositionToLine>, size: nat, start: nat, end: nat, q: nat): SearchResult
    decreases end - start
  {
    if end > start then
      var mid := start + (end - start) / 2;
      if mid + 1 >= |index| then OutOfRange
      else if index[mid].position <= q && q < index[mid + 1].position then Found(EntryLocation(index[mid], q))
      else if q < index[mid].position then
        if mid == 0 then OutOfRange else SearchForLine(index, size, start, mid - 1, q)
      else SearchForLine(index, size, mid + 1, end, q)
    else if end == start then
      if end >= |index| then OutOfRange
      else if index[end].position <= q < size then Found(EntryLocation(index[end], q))
      else NotFound
    else NotFound
  }

  function TrueLocation(s: string, q: nat): Location {
    Location(TrueLine(s, q), TrueColumn(s, q))
  }

  ghost predicate EntrySound(s: string, entry: PositionToLine) {
    entry.position <= |s| && LineStart(s, entry.position) == entry.position && entry.line == TrueLine(s, entry.position)
  }

  ghost predicate Consecutive(index: seq<PositionToLine>, k: nat)
    requires k + 1 < |index|
  {
    index[k].position < index[k + 1].position ==> index[k + 1].line == index[k].line + 1
  }

  // Every entry is a true line start with its true number, the first is the start of the
  // text, and a step up in the list is always a step to the very next line.
  ghost predicate IndexSound(s: string, index: seq<PositionToLine>) {
    && |index| > 0
    && index[0] == PositionToLine(0, 1)
    && (forall k | 0 <= k < |index| :: EntrySound(s, index[k]))
    && (forall k: nat | k + 1 < |index| :: Consecutive(index, k))
  }

  // No line ends between the last entry and the offset.
  ghost predicate Covers(s: string, index: seq<PositionToLine>, q: nat)
    requires |index| > 0
  {
    NoBreak(s, index[|index| - 1].position, q)
  }

  // An entry and an offset with no line end between them are on the same line.
  lemma SameLineAsEntry(s: string, entry: PositionToLine, q: nat)
    requires EntrySound(s, entry) && entry.position <= q && NoBreak(s, entry.position, q)
    ensures EntryLocation(entry, q) == TrueLocation(s, q)
  {
    SameLine(s, entry.position, q);
  }

  // Between two neighbouring entries that ascend lies exactly one line.
  lemma OneLineBetween(s: string, index: seq<PositionToLine>, k: nat, q: nat)
    requires IndexSound(s, index) && k + 1 < |index|
    requires index[k].position <= q < index[k + 1].position
    ensures EntryLocation(index[k], q) == TrueLocation(s, q)
  {
    var lo, hi := index[k], index[k + 1];
    assert EntrySound(s, lo) && EntrySound(s, hi) && Consecutive(index, k);
    assert EndsLine(s, hi.position - 1);
    SameLine(s, lo.position, q);
    SameLine(s, q, hi.position - 1);
    SameLineAsEntry(s, lo, q);
  }

  // The search only needs its bounds to enclose the offset.
  lemma {:induction false} SearchFindsTrueLocation(s: string, index: seq<PositionToLine>, start: nat, end: nat, q: nat)
    requires IndexSound(s, index) && Covers(s, index, q)
    requires start <= end < |index|
    requires index[start].position <= q && (end + 1 < |index| ==> q < index[end + 1].position)
    ensures SearchForLine(index, |s|, start, end, q) == if q < |s| then Found(TrueLocation(s, q)) else NotFound
    decreases end - start
  {
    if end > start {
      var mid := start + (end - start) / 2;
      assert EntrySound(s, index[mid + 1]);
      if index[mid].position <= q && q < index[mid + 1].position {
        OneLineBetween(s, index, mid, q);
      } else if q < index[mid].position {
        SearchFindsTrueLocation(s, index, start, mid - 1, q);
      } else {
        SearchFindsTrueLocation(s, index, mid + 1, end, q);
      }
    } else {
      assert EntrySound(s, index[end]);
      if end + 1 < |index| {
        assert EntrySound(s, index[end + 1]);
        OneLineBetween(s, index, end, q);
      } else {
        SameLineAsEntry(s, index[end], q);
      }
    }
  }

  /** Whatever the scanner did before, a search over the whole list gives the true location of
      every offset inside the text up to which the index reaches, and fails on every other. */
  lemma WholeSearch(s: string, index: seq<PositionToLine>, q: nat)
    requires IndexSound(s, index) && Covers(s, index, q)
    ensures SearchForLine(index, |s|, 0, |index| - 1, q) == if q < |s| then Found(TrueLocation(s, q)) else NotFound
  {
    SearchFindsTrueLocation(s, index, 0, |index| - 1, q);
  }

  // Recording a line start keeps the index sound if the old one reached the line's end, and
  // then covers every offset before it as well as the new cursor.
  lemma RecordLine(s: string, index: seq<PositionToLine>, p: nat, line: nat)
    requires IndexSound(s, index) && Covers(s, index, p) && p < |s|
    requires EndsLine(s, p) && line == TrueLine(s, p)
    ensures var grown := index + [PositionToLine(p + 1, line + 1)];
            && IndexSound(s, grown)
            && forall q: nat | q <= p + 1 :: Covers(s, grown, q)
  {
    var grown := index + [PositionToLine(p + 1, line + 1)];
    var last := index[|index| - 1];
    assert EntrySound(s, last);
    if last.position <= p {
      SameLine(s, last.position, p);
    }
    forall k | 0 <= k < |grown| ensures EntrySound(s, grown[k]) {
      if k < |index| {
        assert EntrySound(s, index[k]);
      }
    }
    forall k: nat | k + 1 < |grown| ensures Consecutive(grown, k) {
      if k + 1 < |index| {
        assert Consecutive(index, k);
      }
    }
  }
}
