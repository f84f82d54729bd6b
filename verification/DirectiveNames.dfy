/** The names of directive locations, as the scanner tells them from the value it has scanned. */
module DirectiveNames {
  import opened SourceText

  datatype LocationName =
    | UnknownLocation
    | EndOfLocations
    | QueryLocation
    | MutationLocation
    | SubscriptionLocation
    | FieldLocation
    | FragmentDefinitionLocation
    | FragmentSpreadLocation
    | InlineFragmentLocation
    | SchemaLocation
    | ScalarLocation
    | ObjectLocation
    | FieldDefinitionLocation
    | ArgumentDefinitionLocation
    | InterfaceLocation
    | UnionLocation
    | EnumLocation
    | EnumValueLocation
    | InputObjectLocation
    | InputFieldDefinitionLocation

  // The value from a place on, as far as it goes.
  function Tail(value: string, k: nat): string {
    if k <= |value| then value[k..] else ""
  }

  /** The switch over the size of the name and letters of the value. The second letter of the two
      names that start with an S and have six letters is not looked at. */
  function NameOf(size: nat, value: string): LocationName {
    if size == 4 then
      if value == "ENUM" then EnumLocation else UnknownLocation
    else if size == 5 then
      if CharAt(value, 0) == 'Q' then if Tail(value, 1) == "UERY" then QueryLocation else UnknownLocation
      else if CharAt(value, 0) == 'F' then if Tail(value, 1) == "IELD" then FieldLocation else UnknownLocation
      else if CharAt(value, 0) == 'U' then if Tail(value, 1) == "NION" then UnionLocation else UnknownLocation
      else UnknownLocation
    else if size == 6 then
      if CharAt(value, 0) == 'S' then
        if CharAt(value, 2) == 'H' then if Tail(value, 3) == "EMA" then SchemaLocation else UnknownLocation
        else if CharAt(value, 2) == 'A' then if Tail(value, 3) == "LAR" then ScalarLocation else UnknownLocation
        else UnknownLocation
      else if CharAt(value, 0) == 'O' then if Tail(value, 1) == "BJECT" then ObjectLocation else UnknownLocation
      else UnknownLocation
    else if size == 8 then
      if value == "MUTATION" then MutationLocation else UnknownLocation
    else if size == 9 then
      if value == "INTERFACE" then InterfaceLocation else UnknownLocation
    else if size == 10 then
      if value == "ENUM_VALUE" then EnumValueLocation else UnknownLocation
    else if size == 12 then
      if CharAt(value, 0) == 'I' then
        if Tail(value, 1) == "NPUT_OBJECT" then InputObjectLocation else UnknownLocation
      else if CharAt(value, 0) == 'S' then
        if Tail(value, 1) == "UBSCRIPTION" then SubscriptionLocation else UnknownLocation
      else UnknownLocation
    else if size == 15 then
      if CharAt(value, 0) == 'F' then
        if Tail(value, 1) == "RAGMENT_SPREAD" then FragmentSpreadLocation else UnknownLocation
      else if CharAt(value, 0) == 'I' then
        if Tail(value, 1) == "NLINE_FRAGMENT" then InlineFragmentLocation else UnknownLocation
      else UnknownLocation
    else if size == 16 then
      if value == "FIELD_DEFINITION" then FieldDefinitionLocation else UnknownLocation
    else if size == 19 then
      if CharAt(value, 0) == 'A' then
        if Tail(value, 1) == "RGUMENT_DEFINITION" then ArgumentDefinitionLocation else UnknownLocation
      else if CharAt(value, 0) == 'F' then
        if Tail(value, 1) == "RAGMENT_DEFINITION" then FragmentDefinitionLocation else UnknownLocation
      else UnknownLocation
    else if size == 22 then
      if value == "INPUT_FIELD_DEFINITION" then InputFieldDefinitionLocation else UnknownLocation
    else UnknownLocation
  }

  // The names: GraphQL specification, June 2018, section 3.13.
  function Spelling(name: LocationName): string {
    match name
    case UnknownLocation => ""
    case EndOfLocations => ""
    case QueryLocation => "QUERY"
    case MutationLocation => "MUTATION"
    case SubscriptionLocation => "SUBSCRIPTION"
    case FieldLocation => "FIELD"
    case FragmentDefinitionLocation => "FRAGMENT_DEFINITION"
    case FragmentSpreadLocation => "FRAGMENT_SPREAD"
    case InlineFragmentLocation => "INLINE_FRAGMENT"
    case SchemaLocation => "SCHEMA"
    case ScalarLocation => "SCALAR"
    case ObjectLocation => "OBJECT"
    case FieldDefinitionLocation => "FIELD_DEFINITION"
    case ArgumentDefinitionLocation => "ARGUMENT_DEFINITION"
    case InterfaceLocation => "INTERFACE"
    case UnionLocation => "UNION"
    case EnumLocation => "ENUM"
    case EnumValueLocation => "ENUM_VALUE"
    case InputObjectLocation => "INPUT_OBJECT"
    case InputFieldDefinitionLocation => "INPUT_FIELD_DEFINITION"
  }

  // The same but for the letter that is not looked at.
  predicate Misspells(text: string, name: LocationName) {
    && name in {SchemaLocation, ScalarLocation} && |text| == 6
    && text[0] == 'S' && text[2..] == Spelling(name)[2..]
  }

  // A text is its first character and the rest.
  lemma FirstLetterAndTail(text: string, spelling: string)
    requires spelling != []
    ensures text != [] && text[0] == spelling[0] && Tail(text, 1) == spelling[1..] ==> text == spelling
  {
    if text != [] && text[0] == spelling[0] && Tail(text, 1) == spelling[1..] {
      assert text == [text[0]] + text[1..] && spelling == [spelling[0]] + spelling[1..];
    }
  }

  lemma ToldRight(text: string, name: LocationName)
    requires name !in {UnknownLocation, EndOfLocations} && NameOf(|text|, text) == name
    ensures text == Spelling(name) || Misspells(text, name)
  {
    hide NameOf, Spelling, Misspells;
    if name in {SchemaLocation, ScalarLocation} {
      ThirdLetterToldRight(text, name);
    } else if |text| < 9 {
      ShortNameToldRight(text, name);
    } else {
      LongNameToldRight(text, name);
    }
  }

  lemma ThirdLetterToldRight(text: string, name: LocationName)
    requires name in {SchemaLocation, ScalarLocation} && NameOf(|text|, text) == name
    ensures Misspells(text, name)
  {
    assert text[2..] == [text[2]] + text[3..];
    assert Spelling(name)[2..] == [Spelling(name)[2]] + Spelling(name)[3..];
  }

  lemma ShortNameToldRight(text: string, name: LocationName)
    requires name !in {UnknownLocation, EndOfLocations, SchemaLocation, ScalarLocation}
    requires |text| < 9 && NameOf(|text|, text) == name
    ensures text == Spelling(name)
  {
    FirstLetterAndTail(text, Spelling(name));
  }

  lemma LongNameToldRight(text: string, name: LocationName)
    requires name !in {UnknownLocation, EndOfLocations}
    requires |text| >= 9 && NameOf(|text|, text) == name
    ensures text == Spelling(name)
  {
    FirstLetterAndTail(text, Spelling(name));
  }

  lemma ShortNameTold(name: LocationName)
    requires name !in {UnknownLocation, EndOfLocations} && |Spelling(name)| < 9
    ensures NameOf(|Spelling(name)|, Spelling(name)) == name
  {
  }

  lemma LongNameTold(name: LocationName)
    requires |Spelling(name)| >= 9
    ensures NameOf(|Spelling(name)|, Spelling(name)) == name
  {
  }

  lemma RightTold(name: LocationName)
    requires name !in {UnknownLocation, EndOfLocations}
    ensures NameOf(|Spelling(name)|, Spelling(name)) == name
  {
    hide NameOf, Spelling;
    if |Spelling(name)| < 9 {
      ShortNameTold(name);
    } else {
      LongNameTold(name);
    }
  }

  lemma MisspelledTold(text: string, name: LocationName)
    requires Misspells(text, name)
    ensures NameOf(|text|, text) == name
  {
    assert text[2] == text[2..][0] && text[3..] == text[2..][1..];
  }

  /** A name is told right exactly if it is spelled right, or is SCHEMA or SCALAR with any second
      letter. */
  lemma NameTold(text: string, name: LocationName)
    requires name !in {UnknownLocation, EndOfLocations}
    ensures NameOf(|text|, text) == name <==> text == Spelling(name) || Misspells(text, name)
  {
    hide NameOf, Spelling, Misspells;
    if NameOf(|text|, text) == name {
      ToldRight(text, name);
    } else {
      RightTold(name);
      if Misspells(text, name) {
        MisspelledTold(text, name);
      }
    }
  }
}
