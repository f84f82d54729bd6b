/** Values, types and declarations of the GraphQL front end. */
module GraphQlSyntax {
  import opened SourceText

  datatype BaseType = TInt | TString | TFloat | TBoolean | TID | TEnum | TObject {
    predicate TakesStrings() {
      TString? || TID?
    }

    predicate TakesIntegers() {
      TInt? || TID?
    }
  }

  // The contents of a type annotation at one moment.
  datatype TypeInfo = TypeInfo(base: BaseType, name: string, isNonNull: bool, isListType: bool, isNonNullList: bool) {
    // The type of the elements of a list.
    function Element(): TypeInfo {
      this.(isListType := false, isNonNullList := false)
    }

    predicate IsRequired() {
      isNonNull || isNonNullList
    }

    predicate TakesNull() {
      !((!isListType && isNonNull) || isNonNullList)
    }
  }

  /** A type annotation of the schema, shared by everything that refers to it. The value checkers
      clear its list flags while they are inside a list and set them again afterwards. */
  class Type {
    var base: BaseType
    const name: string
    const isNonNull: bool
    var isListType: bool
    var isNonNullList: bool

    constructor (info: TypeInfo)
      ensures Info() == info
    {
      this.base, name, isNonNull := info.base, info.name, info.isNonNull;
      isListType, isNonNullList := info.isListType, info.isNonNullList;
    }

    function Info(): TypeInfo
      reads this
    {
      TypeInfo(base, name, isNonNull, isListType, isNonNullList)
    }
  }

  /** A parsed value. `NoValue` is the null pointer the parsers return for a closing bracket. */
  datatype Value =
    | NullValue
    | BooleanValue(value: bool)
    | IntValue(number: int)
    | FloatValue(text: string)
    | EnumValue(name: string)
    | StringValue(text: string)
    | ListValue(values: seq<Value>)
    | ObjectValue(fields: seq<ObjectField>)
    | NoValue

  // A field of an object value and the offsets of its name in the source.
  datatype ObjectField = ObjectField(name: string, value: Value, start: nat, end: nat)

  datatype InputField = InputField(annotation: Type, directives: set<string>)

  datatype FieldDefinition = FieldDefinition(annotation: Type, arguments: map<string, Type>)

  datatype Declaration =
    | InputObjectType(name: string, inputFields: map<string, InputField>, requiredFields: seq<string>,
                      directives: set<string>)
    | EnumType(name: string, values: map<string, set<string>>, directives: set<string>)
    | ObjectType(name: string, fields: map<string, FieldDefinition>, implementations: set<string>)
    | InterfaceType(name: string, fields: map<string, FieldDefinition>)
    | UnionType(name: string, members: set<string>)

  type Symbols = map<string, Declaration>

  // What the type annotations contain at one moment.
  type Annotations = map<Type, TypeInfo>

  // The input objects only refer to annotations that are accounted for.
  ghost predicate Closed(symbols: Symbols, types: set<Type>) {
    forall name | name in symbols && symbols[name].InputObjectType? ::
      forall f | f in symbols[name].inputFields :: symbols[name].inputFields[f].annotation in types
  }

  // So does a declaration with fields.
  ghost predicate ArgumentsClosed(arguments: map<string, Type>, types: set<Type>) {
    forall a | a in arguments :: arguments[a] in types
  }

  ghost predicate FieldsClosed(declaration: Declaration, types: set<Type>) {
    declaration.ObjectType? || declaration.InterfaceType? ==>
      forall f | f in declaration.fields ::
        declaration.fields[f].annotation in types && ArgumentsClosed(declaration.fields[f].arguments, types)
  }

  ghost function Snapshot(types: set<Type>): (annotations: Annotations)
    reads types
    ensures annotations.Keys == types
  {
    map t | t in types :: t.Info()
  }
}
