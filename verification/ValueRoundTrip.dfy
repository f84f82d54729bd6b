/** Printing a value and reading it again. */
module ValueRoundTrip {
  import opened SourceText
  import opened GraphQlTokens
  import opened GraphQlLexer
  import opened GraphQlSyntax
  import opened ValuePrinting
  import opened TokensInText
  import VS = ValueSyntax

  // The texts in the value are tokens of their kind, as they are when a parser made it.
  predicate WellSpelled(v: Value) {
    match v
    case FloatValue(text) => Spells(text, FloatLiteral)
    case StringValue(text) => Spells(text, StringLiteral)
    case EnumValue(name) => Spells(name, GName)
    case ListValue(values) => forall k | 0 <= k < |values| :: WellSpelled(values[k])
    case _ => true
  }

  // The scanner takes just one digit after a first digit if that second one is a zero.
  predicate ReadsBack(n: int) {
    n < 100 || Digits(n)[1] != '0'
  }

  predicate NumbersReadBack(v: Value) {
    match v
    case IntValue(n) => ReadsBack(n)
    case ListValue(values) => forall k | 0 <= k < |values| :: NumbersReadBack(values[k])
    case _ => true
  }

  predicate AllDigits(text: string) {
    forall k | 0 <= k < |text| :: IsDigit(text[k])
  }

  lemma {:induction false} DigitsAreDigits(n: nat)
    ensures AllDigits(Digits(n)) && VS.DigitsValue(Digits(n)) == n
    ensures n > 0 ==> Digits(n)[0] != '0'
    decreases n
  {
    if n >= 10 {
      DigitsAreDigits(n / 10);
      LastDigit(n);
    }
  }

  // The last digit is taken as it was put there.
  lemma LastDigit(n: nat)
    requires n >= 10 && AllDigits(Digits(n / 10))
    ensures AllDigits(Digits(n)) && VS.DigitsValue(Digits(n)) == VS.DigitsValue(Digits(n / 10)) * 10 + n % 10
    ensures Digits(n)[0] == Digits(n / 10)[0]
  {
    var before, d := Digits(n / 10), Digits(n);
    assert d == before + [Digit(n % 10)];
    assert d[..|d| - 1] == before && IsDigit(d[|d| - 1]);
    forall k | 0 <= k < |d| ensures IsDigit(d[k]) {
      assert k < |before| ==> d[k] == before[k];
    }
  }

  lemma DigitCount(n: nat)
    ensures |Digits(n)| <= 2 <==> n < 100
  {
    assert n >= 10 ==> |Digits(n)| == |Digits(n / 10)| + 1;
    assert n >= 100 ==> |Digits(n / 10)| == |Digits(n / 10 / 10)| + 1;
  }

  lemma {:induction false} LeadingDigitsOfDigits(text: string)
    requires AllDigits(text)
    ensures VS.LeadingDigits(text) == text
    decreases |text|
  {
    if text != [] {
      assert AllDigits(text[1..]);
      LeadingDigitsOfDigits(text[1..]);
    }
  }

  lemma NumberOfDecimal(n: int)
    ensures VS.NumberOf(Decimal(n)) == n
  {
    var m := if n < 0 then -n else n;
    DigitsAreDigits(m);
    LeadingDigitsOfDigits(Digits(m));
    if n < 0 {
      assert Decimal(n)[1..] == Digits(m);
    } else {
      assert IsDigit(Digits(n)[0]);
    }
  }

  lemma {:induction false} DigitsRunOut(s: string, p: nat, end: nat)
    requires p <= end <= |s| && !IsDigit(CharAt(s, end)) && forall k | p <= k < end :: IsDigit(s[k])
    ensures DigitsEnd(s, p) == end
    decreases end - p
  {
    if p < end {
      DigitsRunOut(s, p + 1, end);
    }
  }

  // The first token of a run of digits.
  lemma FirstNumber(s: string, p: nat, end: nat)
    requires p < end <= |s| && Neutral(CharAt(s, end)) && forall k | p <= k < end :: IsDigit(s[k])
    ensures Next(s, p, 0, true) == Lexed(IntegerLiteral, p, if p + 1 < end && s[p + 1] == '0' then p + 2 else end)
  {
    DigitsRunOut(s, p + 1, end);
    var q := IntegerPartEnd(s, p + 1);
    assert q == if p + 1 < end && s[p + 1] == '0' then p + 2 else end;
    assert CharAt(s, q) != '.' && !IsExponentSign(CharAt(s, q));
  }

  // A run of digits holds at least one token, and more than one if the first ends early.
  lemma {:induction false} NumbersInDigits(s: string, p: nat, end: nat)
    requires p < end <= |s| && Neutral(CharAt(s, end)) && forall k | p <= k < end :: IsDigit(s[k])
    ensures |Lexemes(s, p)| >= 1 + |Lexemes(s, end)|
    ensures p + 2 < end && s[p + 1] == '0' ==> |Lexemes(s, p)| > 1 + |Lexemes(s, end)|
    decreases end - p
  {
    FirstNumber(s, p, end);
    var next := Next(s, p, 0, true).end;
    if next < end {
      NumbersInDigits(s, next, end);
    }
  }

  // A minus sign and digits that do not start with a zero are one token.
  lemma NegativeToken(s: string, p: nat, end: nat)
    requires p + 1 < end <= |s| && Neutral(CharAt(s, end)) && s[p] == '-' && s[p + 1] != '0'
    requires forall k | p + 1 <= k < end :: IsDigit(s[k])
    ensures Next(s, p, 0, true) == Lexed(IntegerLiteral, p, end)
  {
    DigitsRunOut(s, p + 1, end);
    assert IntegerPartEnd(s, p + 1) == end;
  }

  lemma OneLexeme(s: string, p: nat, text: string)
    requires StandsAt(s, p, text) && Next(s, p, 0, true) == Lexed(IntegerLiteral, p, p + |text|)
    ensures Lexemes(s, p) == [Lexeme(IntegerLiteral, text, p, p + |text|)] + Lexemes(s, p + |text|)
  {
    hide Next;
    assert TextBetween(s, p, p + |text|) == text;
  }

  // Where the digits of a printed number stand.
  lemma DigitsStand(s: string, p: nat, text: string)
    requires StandsAt(s, p, text) && AllDigits(text)
    ensures forall k | p <= k < p + |text| :: IsDigit(s[k]) && s[k] == text[k - p]
  {
    forall k | p <= k < p + |text| ensures IsDigit(s[k]) && s[k] == text[k - p] {
      assert s[p..p + |text|][k - p] == s[k];
    }
  }

  // A printed number is one token exactly when it reads back.
  lemma DecimalTokens(s: string, p: nat, n: int)
    requires StandsAt(s, p, Decimal(n)) && Neutral(CharAt(s, p + |Decimal(n)|))
    ensures var end := p + |Decimal(n)|;
            && (ReadsBack(n) ==> Lexemes(s, p) == [Lexeme(IntegerLiteral, Decimal(n), p, end)] + Lexemes(s, end))
            && (!ReadsBack(n) ==> |Lexemes(s, p)| > 1 + |Lexemes(s, end)|)
  {
    hide Next, Lexemes, Digits, VS.DigitsValue, Neutral;
    var text, m := Decimal(n), if n < 0 then -n else n;
    var end := p + |text|;
    DigitsAreDigits(m);
    DigitCount(m);
    if n < 0 {
      assert s[p..end][0] == '-' && s[p..end][1..] == s[p + 1..end] && text[1..] == Digits(m);
      DigitsStand(s, p + 1, Digits(m));
      NegativeToken(s, p, end);
      OneLexeme(s, p, text);
    } else {
      DigitsStand(s, p, text);
      if ReadsBack(n) {
        FirstNumber(s, p, end);
        OneLexeme(s, p, text);
      } else {
        NumbersInDigits(s, p, end);
      }
    }
  }

  // The token of a printed value that is no number and no list.
  function LeafToken(v: Value): Token
    requires !v.ListValue? && !v.IntValue? && Printable(v)
  {
    match v
    case NullValue => NullKeyword
    case BooleanValue(b) => if b then TrueKeyword else FalseKeyword
    case FloatValue(_) => FloatLiteral
    case EnumValue(_) => GName
    case StringValue(_) => StringLiteral
  }

  lemma LeafSpells(v: Value)
    requires !v.ListValue? && !v.IntValue? && Printable(v) && WellSpelled(v)
    ensures Spells(Print(v), LeafToken(v)) && VS.LeafValue(LeafToken(v), Print(v)) == v
  {
    hide Spells, NameToken;
    KeywordsSpell();
  }

  lemma KeywordsSpell()
    ensures Spells("null", NullKeyword) && Spells("true", TrueKeyword) && Spells("false", FalseKeyword)
  {
    hide Spells;
    NamesSpell("null");
    NamesSpell("true");
    NamesSpell("false");
  }

  // How many tokens a value without objects is made of.
  function Size(v: Value): nat {
    match v
    case ListValue(values) => 2 + SizeOfAll(values)
    case _ => 1
  }

  function SizeOfAll(values: seq<Value>): nat {
    if values == [] then 0 else SizeOfAll(values[..|values| - 1]) + Size(values[|values| - 1])
  }

  // Where printed elements, and the separator after them, stand.
  lemma ElementsStand(s: string, p: nat, values: seq<Value>)
    requires |values| > 1 && (forall k | 0 <= k < |values| :: Printable(values[k]))
    requires StandsAt(s, p, PrintElements(values))
    ensures var before, last := values[..|values| - 1], values[|values| - 1];
            var q := p + |PrintElements(before)|;
            && p + |PrintElements(values)| == q + 2 + |Print(last)|
            && StandsAt(s, p, PrintElements(before)) && StandsAt(s, q + 2, Print(last))
            && CharAt(s, q) == ',' && CharAt(s, q + 1) == ' '
  {
    var before, last := values[..|values| - 1], Print(values[|values| - 1]);
    var first := PrintElements(before);
    var text := first + ", " + last;
    assert PrintElements(values) == text;
    var q := p + |first|;
    assert s[p..q] == text[..|first|] == first;
    assert s[q + 2..q + 2 + |last|] == text[|first| + 2..] == last;
    assert s[q] == text[|first|] && s[q + 1] == text[|first| + 1];
  }

  lemma SeparatorSkipped(s: string, q: nat)
    requires q + 2 <= |s| && s[q] == ',' && s[q + 1] == ' '
    ensures Lexemes(s, q) == Lexemes(s, q + 2)
  {
    hide TokenFrom;
    assert TriviaEnd(s, q) == q + 1 && TriviaEnd(s, q + 1) == q + 2;
    assert Next(s, q, 0, true) == Next(s, q + 1, 0, true);
    assert Next(s, q + 1, 0, true) == Next(s, q + 2, 0, true);
  }

  lemma SliceOfSlice(s: string, p: nat, q: nat, i: nat, j: nat)
    requires i <= j <= q - p && q <= |s|
    ensures s[p..q][i..j] == s[p + i..p + j]
  {
    var a, b := s[p..q][i..j], s[p + i..p + j];
    forall k | 0 <= k < j - i ensures a[k] == b[k] {
      assert s[p..q][i + k] == s[p + i + k];
    }
    assert a == b;
  }

  // Where the parts of a printed list stand.
  lemma ListStands(s: string, p: nat, values: seq<Value>)
    requires Printable(ListValue(values)) && StandsAt(s, p, Print(ListValue(values)))
    ensures var e := p + 1 + |PrintElements(values)|;
            && StandsAt(s, p + 1, PrintElements(values)) && e + 1 == p + |Print(ListValue(values))|
            && e < |s| && s[p] == '[' && s[e] == ']'
  {
    hide PrintElements;
    var inner := PrintElements(values);
    var text := "[" + inner + "]";
    assert Print(ListValue(values)) == text;
    var e := p + 1 + |inner|;
    var here := s[p..p + |text|];
    assert here == text;
    assert text[1..|inner| + 1] == inner by { assert text == "[" + (inner + "]"); assert text[1..] == inner + "]"; }
    SliceOfSlice(s, p, p + |text|, 1, |inner| + 1);
    assert s[p] == here[0] && s[e] == here[|inner| + 1];
  }

  /** Wherever a printed value stands, parsing reads just that value back if its numbers read
      back; otherwise its text makes more tokens than the value is made of. */
  lemma {:induction false} ParsePrinted(s: string, p: nat, v: Value, keywordNames: bool)
    requires Printable(v) && WellSpelled(v)
    requires StandsAt(s, p, Print(v)) && Neutral(CharAt(s, p + |Print(v)|))
    ensures var here, after := Lexemes(s, p), Lexemes(s, p + |Print(v)|);
            && (NumbersReadBack(v) ==> VS.ParseValue(here, keywordNames) == VS.Parsed(v, after))
            && |here| >= |after| + Size(v)
            && (!NumbersReadBack(v) ==> |here| > |after| + Size(v))
    decreases v, 0
  {
    hide Spells, Lexemes, Neutral, Digits, PrintElements, LeafToken;
    if v.IntValue? {
      DecimalTokens(s, p, v.number);
      NumberOfDecimal(v.number);
    } else if v.ListValue? {
      ListPrinted(s, p, v.values, keywordNames);
    } else {
      LeafSpells(v);
      LexemesFrom(s, p, Print(v), LeafToken(v));
      LeafParsed(v, Lexemes(s, p), Lexemes(s, p + |Print(v)|), p, keywordNames);
    }
  }

  lemma LeafParsed(v: Value, here: seq<Lexeme>, after: seq<Lexeme>, p: nat, keywordNames: bool)
    requires !v.ListValue? && !v.IntValue? && Printable(v)
    requires VS.LeafValue(LeafToken(v), Print(v)) == v
    requires here == [Lexeme(LeafToken(v), Print(v), p, p + |Print(v)|)] + after
    ensures VS.ParseValue(here, keywordNames) == VS.Parsed(v, after)
  {
  }

  lemma {:induction false} ListPrinted(s: string, p: nat, values: seq<Value>, keywordNames: bool)
    requires var v := ListValue(values);
             && Printable(v) && WellSpelled(v)
             && StandsAt(s, p, Print(v)) && Neutral(CharAt(s, p + |Print(v)|))
    ensures var v := ListValue(values);
            var here, after := Lexemes(s, p), Lexemes(s, p + |Print(v)|);
            && (NumbersReadBack(v) ==> VS.ParseValue(here, keywordNames) == VS.Parsed(v, after))
            && |here| >= |after| + Size(v)
            && (!NumbersReadBack(v) ==> |here| > |after| + Size(v))
    decreases values, 1
  {
    hide Spells, Lexemes, PrintElements, SizeOfAll;
    ListStands(s, p, values);
    var e := p + 1 + |PrintElements(values)|;
    PunctuatorAt(s, p);
    PunctuatorAt(s, e);
    ElementsPrinted(s, p + 1, values, keywordNames);
  }

  lemma {:induction false} ElementsPrinted(s: string, p: nat, values: seq<Value>, keywordNames: bool)
    requires values != [] && forall k | 0 <= k < |values| :: Printable(values[k]) && WellSpelled(values[k])
    requires StandsAt(s, p, PrintElements(values)) && Neutral(CharAt(s, p + |PrintElements(values)|))
    ensures var here, after := Lexemes(s, p), Lexemes(s, p + |PrintElements(values)|);
            var readBack := forall k | 0 <= k < |values| :: NumbersReadBack(values[k]);
            && (readBack ==> VS.ParseElements(here, [], keywordNames) == VS.ParseElements(after, values, keywordNames))
            && |here| >= |after| + SizeOfAll(values)
            && (!readBack ==> |here| > |after| + SizeOfAll(values))
    decreases values, 0
  {
    hide Spells, Lexemes, VS.ParseValue, Print, Printable, WellSpelled, Size, NumbersReadBack;
    var n := |values| - 1;
    var before, last := values[..n], values[n];
    if n == 0 {
      ParsePrinted(s, p, last, keywordNames);
      assert PrintElements(values) == Print(last);
      ReadsOneElement(Lexemes(s, p), before, last, Lexemes(s, p + |PrintElements(values)|), keywordNames);
      assert before == [] && before + [last] == values && SizeOfAll(before) == 0;
      LastReadsBack(values);
    } else {
      ElementsStand(s, p, values);
      var q := p + |PrintElements(before)|;
      ElementsPrinted(s, p, before, keywordNames);
      SeparatorSkipped(s, q);
      ParsePrinted(s, q + 2, last, keywordNames);
      ReadsOneElement(Lexemes(s, q), before, last, Lexemes(s, p + |PrintElements(values)|), keywordNames);
      assert before + [last] == values;
      assert forall k | 0 <= k < n :: values[k] == before[k];
      LastReadsBack(values);
    }
  }

  lemma LastReadsBack(values: seq<Value>)
    requires values != []
    ensures var n := |values| - 1;
            (forall k | 0 <= k < |values| :: NumbersReadBack(values[k])) <==>
            (forall k | 0 <= k < n :: NumbersReadBack(values[..n][k])) && NumbersReadBack(values[n])
  {
    hide NumbersReadBack;
    var n := |values| - 1;
    if forall k | 0 <= k < n :: NumbersReadBack(values[..n][k]) {
      forall k | 0 <= k < n ensures NumbersReadBack(values[k]) {
        assert NumbersReadBack(values[..n][k]);
      }
    }
  }

  lemma ReadsOneElement(here: seq<Lexeme>, before: seq<Value>, v: Value, after: seq<Lexeme>, keywordNames: bool)
    requires Printable(v)
    ensures VS.ParseValue(here, keywordNames) == VS.Parsed(v, after) ==>
              VS.ParseElements(here, before, keywordNames) == VS.ParseElements(after, before + [v], keywordNames)
  {
    hide VS.ParseValue;
  }

  /** A parsed value without objects has used up the tokens it is made of, no more and no less. */
  lemma {:induction false} ParseTakesSize(lexemes: seq<Lexeme>, keywordNames: bool)
    ensures var r := VS.ParseValue(lexemes, keywordNames);
            r.Parsed? && Printable(r.value) ==> |lexemes| == |r.rest| + Size(r.value)
    decreases |lexemes|, 0
  {
    var r := VS.ParseValue(lexemes, keywordNames);
    if r.Parsed? && Printable(r.value) && lexemes[0].token == OpenBracket {
      ParseElementsTakesSize(lexemes[1..], [], keywordNames);
    }
  }

  lemma {:induction false} ParseElementsTakesSize(lexemes: seq<Lexeme>, before: seq<Value>, keywordNames: bool)
    ensures var r := VS.ParseElements(lexemes, before, keywordNames);
            r.Parsed? && Printable(r.value) ==>
              |lexemes| + SizeOfAll(before) == |r.rest| + 1 + SizeOfAll(r.value.values)
    decreases |lexemes|, 1
  {
    hide VS.ParseValue, Size;
    var r := VS.ParseElements(lexemes, before, keywordNames);
    var element := VS.ParseValue(lexemes, keywordNames);
    if r.Parsed? && Printable(r.value) {
      if element.value.NoValue? {
        CloseTaken(lexemes, keywordNames);
      } else {
        var more := before + [element.value];
        VS.ElementsKept(element.rest, more, keywordNames);
        assert r.value.values[|before|] == more[|before|] == element.value;
        ParseTakesSize(lexemes, keywordNames);
        ParseElementsTakesSize(element.rest, more, keywordNames);
        assert more[..|more| - 1] == before;
      }
    }
  }

  // Only a closing bracket is read as no value.
  lemma CloseTaken(lexemes: seq<Lexeme>, keywordNames: bool)
    ensures var r := VS.ParseValue(lexemes, keywordNames);
            r.Parsed? && r.value.NoValue? ==> |lexemes| == |r.rest| + 1
  {
  }

  /** Printing a value, scanning the text and parsing the tokens gives the value back, and nothing
      is left over, exactly when no number of three or more digits has a zero as its second one. */
  lemma PrintingReadsBack(v: Value, keywordNames: bool)
    requires Printable(v) && WellSpelled(v)
    ensures VS.ParseValue(Lexemes(Print(v), 0), keywordNames) == VS.Parsed(v, []) <==> NumbersReadBack(v)
  {
    hide Spells, Lexemes, Print, Printable, WellSpelled, VS.ParseValue, NumbersReadBack;
    var text := Print(v);
    assert StandsAt(text, 0, text) && Neutral(CharAt(text, |text|));
    ParsePrinted(text, 0, v, keywordNames);
    EndOfText(text);
    ParseTakesSize(Lexemes(text, 0), keywordNames);
  }

  // The smallest number that is lost: it is read as ten, with a zero left over.
  lemma OneHundredIsReadAsTen()
    ensures !NumbersReadBack(IntValue(100))
    ensures VS.ParseValue(Lexemes("100", 0), true) ==
            VS.Parsed(IntValue(10), [Lexeme(IntegerLiteral, "0", 2, 3)])
  {
    hide Next;
    OneHundredPrinted();
    FirstNumber("100", 0, 3);
    FirstNumber("100", 2, 3);
    EndOfText("100");
    assert TextBetween("100", 2, 3) == "0" && TextBetween("100", 0, 2) == "10";
    assert Lexemes("100", 2) == [Lexeme(IntegerLiteral, "0", 2, 3)];
    NumberOfDecimal(10);
  }

  lemma OneHundredPrinted()
    ensures Digits(100) == "100" && Decimal(10) == "10"
  {
    assert Digits(1) == "1" && Digits(10) == "10";
  }
}
