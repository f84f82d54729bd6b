/** Values and type annotations as text, for diagnostics. */
module ValuePrinting {
  import opened SourceText
  import opened GraphQlSyntax
  import opened TextWriting

  // A value that can be printed: an object runs into a throw, and so does an empty list,
  // which has nothing to restore.
  predicate Printable(v: Value) {
    match v
    case ListValue(values) => values != [] && forall k | 0 <= k < |values| :: Printable(values[k])
    case ObjectValue(_) => false
    case NoValue => false
    case _ => true
  }

  function Digit(d: nat): char
    requires d < 10
  {
    '0' + d as char
  }

  function Digits(n: nat): (s: string)
    ensures s != []
  {
    if n < 10 then [Digit(n)] else Digits(n / 10) + [Digit(n % 10)]
  }

  function Decimal(n: int): string {
    if n < 0 then "-" + Digits(-n) else Digits(n)
  }

  function Print(v: Value): string
    requires Printable(v)
    decreases v, 0
  {
    match v
    case NullValue => "null"
    case BooleanValue(b) => if b then "true" else "false"
    case IntValue(n) => Decimal(n)
    case FloatValue(text) => text
    case EnumValue(name) => name
    case StringValue(text) => text
    case ListValue(values) => "[" + PrintElements(values) + "]"
  }

  function PrintElements(values: seq<Value>): string
    requires values != [] && forall k | 0 <= k < |values| :: Printable(values[k])
    decreases values, 1
  {
    var last := |values| - 1;
    if last == 0 then Print(values[0]) else PrintElements(values[..last]) + ", " + Print(values[last])
  }

  // Printing comes to a value that is not there before it comes to anything else it cannot print.
  predicate MeetsNull(v: Value) {
    match v
    case NoValue => true
    case ListValue(values) =>
      exists k | 0 <= k < |values| :: MeetsNull(values[k]) && forall j | 0 <= j < k :: Printable(values[j])
    case ObjectValue(fields) =>
      exists k | 0 <= k < |fields| :: MeetsNull(fields[k].value) && forall j | 0 <= j < k :: Printable(fields[j].value)
    case _ => false
  }

  /** A text, an exception, or a null pointer that is followed. */
  datatype Printed = Text(text: string) | Throws | FollowsNull

  ghost predicate PrintedRight(r: Printed, v: Value) {
    && (r.Text? <==> Printable(v)) && (r.Text? ==> r.text == Print(v))
    && (r.FollowsNull? <==> MeetsNull(v))
  }

  /** Prints a value, or throws for one that cannot be printed. A separator is written after every
      element; going back to the last save removes just the last one. */
  method GetValueString(value: Value) returns (r: Printed)
    ensures PrintedRight(r, value)
    decreases value, 0
  {
    match value
    case ListValue(values) => r := GetListString(values);
    case ObjectValue(fields) => r := GetObjectString(fields);
    case NoValue => r := FollowsNull;
    case NullValue => r := Text("null");
    case BooleanValue(b) => r := Text(if b then "true" else "false");
    case IntValue(n) => r := Text(Decimal(n));
    case FloatValue(text) => r := Text(text);
    case EnumValue(name) => r := Text(name);
    case StringValue(text) => r := Text(text);
  }

  // The fields of an object are printed, and then it throws all the same.
  method GetObjectString(fields: seq<ObjectField>) returns (r: Printed)
    ensures PrintedRight(r, ObjectValue(fields))
    decreases fields, 1
  {
    for i := 0 to |fields|
      invariant forall j | 0 <= j < i :: Printable(fields[j].value) && !MeetsNull(fields[j].value)
    {
      var field := GetValueString(fields[i].value);
      if !field.Text? {
        return field;
      }
    }
    r := Throws;
  }

  method GetListString(values: seq<Value>) returns (r: Printed)
    ensures PrintedRight(r, ListValue(values))
    decreases values, 1
  {
    hide TextWriter.Valid, Print, Printable, PrintElements, MeetsNull;
    var writer := new TextWriter();
    WriteFlush(writer, "[");
    for i := 0 to |values|
      invariant writer.Valid() && writer.openPlaceholders == [] && fresh(writer) && writer.indentation == 0
      invariant forall k | 0 <= k < i :: Printable(values[k]) && !MeetsNull(values[k])
      invariant if i == 0 then writer.text == "[" && writer.savedTexts == []
                else && writer.text == "[" + PrintElements(values[..i]) + ", "
                     && writer.savedTexts != []
                     && writer.savedTexts[|writer.savedTexts| - 1].text == "[" + PrintElements(values[..i])
    {
      var element := GetValueString(values[i]);
      if !element.Text? {
        ListPrinted(values);
        return element;
      }
      PrintElementsGrow(values, i);
      assert i > 0 ==>
               "[" + PrintElements(values[..i]) + ", " + element.text ==
                 "[" + (PrintElements(values[..i]) + ", " + element.text);
      WriteElement(writer, element.text);
    }
    ListPrinted(values);
    assert values[..|values|] == values;
    var thrown := writer.Restore();
    if thrown {
      return Throws;
    }
    WriteFlush(writer, "]");
    r := Text(writer.text);
  }

  // Without indentation a write appends.
  method WriteFlush(writer: TextWriter, t: string)
    requires writer.Valid() && writer.indentation == 0
    modifies writer
    ensures writer.Valid() && writer.indentation == 0 && writer.openPlaceholders == old(writer.openPlaceholders)
    ensures writer.text == old(writer.text) + t && writer.savedTexts == old(writer.savedTexts)
  {
    writer.Write(t);
    assert Spaces(0) + t == t && "" + t == t;
  }

  // An element, a save before the separator, and the separator.
  method WriteElement(writer: TextWriter, element: string)
    requires writer.Valid() && writer.indentation == 0
    modifies writer
    ensures writer.Valid() && writer.indentation == 0 && writer.openPlaceholders == old(writer.openPlaceholders)
    ensures writer.text == old(writer.text) + element + ", "
    ensures writer.savedTexts != [] && writer.savedTexts[|writer.savedTexts| - 1].text == old(writer.text) + element
  {
    hide TextWriter.Valid;
    WriteFlush(writer, element);
    writer.Save();
    WriteFlush(writer, ", ");
  }

  lemma ListPrinted(values: seq<Value>)
    ensures Printable(ListValue(values)) <==> values != [] && forall k | 0 <= k < |values| :: Printable(values[k])
    ensures Printable(ListValue(values)) ==> Print(ListValue(values)) == "[" + PrintElements(values) + "]"
    ensures MeetsNull(ListValue(values)) <==>
            exists k | 0 <= k < |values| :: MeetsNull(values[k]) && forall j | 0 <= j < k :: Printable(values[j])
  {
  }

  lemma PrintElementsGrow(values: seq<Value>, i: nat)
    requires i < |values| && forall k | 0 <= k <= i :: Printable(values[k])
    ensures PrintElements(values[..i + 1]) ==
            if i == 0 then Print(values[0]) else PrintElements(values[..i]) + ", " + Print(values[i])
  {
    assert values[..i + 1][..i] == values[..i];
  }

  function BaseName(info: TypeInfo): string {
    match info.base
    case TBoolean => "Boolean"
    case TInt => "Int"
    case TFloat => "Float"
    case TString => "String"
    case TID => "ID"
    case TObject => info.name
    case TEnum => info.name
  }

  function TypeName(info: TypeInfo): string {
    (if info.isListType then "[" else "") + BaseName(info) + (if info.isNonNull then "!" else "") +
    (if info.isListType then "]" else "") + (if info.isNonNullList then "!" else "")
  }

  method GetTypeName(t: Type) returns (displayType: string)
    ensures displayType == TypeName(t.Info())
  {
    displayType := "";
    if t.isListType {
      displayType := displayType + "[";
    }
    displayType := displayType + BaseName(t.Info());
    if t.isNonNull {
      displayType := displayType + "!";
    }
    if t.isListType {
      displayType := displayType + "]";
    }
    if t.isNonNullList {
      displayType := displayType + "!";
    }
  }
}
