/** The diagnostics of the schema checker and of the query parser, without their texts. */
module Diagnostics {
  import opened GraphQlTokens

  /** `UndefinedBehaviour` stands for a step to which the C++ program gives no meaning, such as
      following a null pointer. */
  datatype Diagnostic =
    | ValueNotAssignable
    | TypeNotDefined(name: string)
    | NotAnObject(name: string)
    | InputInOutputLocation(name: string)
    | OutputInInputLocation(name: string)
    | FieldDoesNotExist(name: string)
    | DuplicateField(name: string, start: nat, end: nat)
    | MissingRequiredField(name: string)
    | MissingRequiredArgument(name: string)
    | UnknownArgument(name: string)
    | UndefinedEnumValue(name: string)
    | UndefinedDirective(name: string)
    | DirectiveLocationNotSupported(name: string)
    | DuplicateDirective(name: string)
    | DuplicateFragment(name: string)
    | FragmentNotDefined(name: string)
    | FragmentDoesNotFit(name: string)
    | NotImplemented(field: string, interfaceName: string)
    | InterfaceNotDefined(name: string)
    | TypeMismatch(field: string, interfaceName: string)
    | RecursiveDirective(name: string)
    | CannotSelectOnScalar
    | OperationNotSupported
    | Expected(token: Token)
    | ExpectedValue
    | ExpectedName
    | ExpectedObjectFieldName
    | ExpectedTypeAnnotation
    | ExpectedSelection
    | ExpectedDefinition
    | UndefinedBehaviour

  /** How a check ends: it returns, an exception leaves it, or it follows a null pointer. */
  datatype Ending = Returned | Threw | FollowedNull
}
