/**
 Source text, line terminators and true locations.

 Character lookup is total: past the end of the text it yields NUL. A line ends at a
 line feed, or at a carriage return that no line feed follows (GraphQL specification,
 June 2018, section 2.1.2); lines and columns count from one.
 */
module SourceText {

  datatype Option<+T> = None | Some(value: T) {
    function GetOr(default': T): T {
      match this
      case None => default'
      case Some(v) => v
    }
  }

  function CharAt(s: string, p: nat): char {
    if p < |s| then s[p] else '\0'
  }

  predicate IsDigit(c: char) {
    '0' <= c <= '9'
  }

  predicate IsHexadecimal(c: char) {
    IsDigit(c) || 'a' <= c <= 'f' || 'A' <= c <= 'F'
  }

  // A character that ends a comment or a one-line string.
  predicate IsLineBreakChar(c: char) {
    c == '\n' || c == '\r'
  }

  // The character at `p` is the last one of a line terminator.
  predicate EndsLine(s: string, p: nat) {
    CharAt(s, p) == '\n' || (CharAt(s, p) == '\r' && CharAt(s, p + 1) != '\n')
  }

  // The number of line terminators that end before offset `p`.
  function Breaks(s: string, p: nat): nat {
    if p == 0 then 0 else Breaks(s, p - 1) + if EndsLine(s, p - 1) then 1 else 0
  }

  // The offset at which the line holding offset `p` starts.
  function LineStart(s: string, p: nat): (start: nat)
    ensures start <= p
  {
    if p == 0 || EndsLine(s, p - 1) then p else LineStart(s, p - 1)
  }

  function TrueLine(s: string, p: nat): nat {
    1 + Breaks(s, p)
  }

  function TrueColumn(s: string, p: nat): nat {
    p - LineStart(s, p) + 1
  }

  predicate NoBreak(s: string, lo: nat, hi: nat) {
    forall p | lo <= p < hi :: !EndsLine(s, p)
  }

  // Every carriage return stands alone: no line feed one or two places after it. The
  // scanner's carriage-return branch looks two places ahead instead of one.
  predicate LoneCarriageReturns(s: string) {
    forall p | 0 <= p < |s| && s[p] == '\r' :: CharAt(s, p + 1) != '\n' && CharAt(s, p + 2) != '\n'
  }

  // Between two offsets the line number and the line start stay the same exactly when
  // no line ends between them.
  lemma {:induction false} SameLine(s: string, lo: nat, hi: nat)
    requires lo <= hi
    ensures Breaks(s, lo) <= Breaks(s, hi)
    ensures NoBreak(s, lo, hi) <==> Breaks(s, lo) == Breaks(s, hi)
    ensures NoBreak(s, lo, hi) <==> LineStart(s, lo) == LineStart(s, hi)
    ensures !NoBreak(s, lo, hi) ==> lo < LineStart(s, hi)
    decreases hi
  {
    if lo < hi {
      SameLine(s, lo, hi - 1);
      assert NoBreak(s, lo, hi) <==> NoBreak(s, lo, hi - 1) && !EndsLine(s, hi - 1);
    }
  }
}
