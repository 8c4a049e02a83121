/** The ORM's exceptions, reduced to their kind and code. Messages are not modelled. */
module Errors {

  /** InvalidStateException codes */
  datatype StateCode =
    | ConnectionNotSet          // 0
    | CollectionAlreadyLoaded   // 1
    | InvalidIdentifier         // 2
    | InvalidBinderVar          // 3
    | KeyHolderNotAllowed       // 4
    | PkIsNotSet                // 5
    | GroupByNotAllowed         // 6
    | IndexAndStarWithoutPrefix // 7
    | OrderByNotAllowed         // 8
    | IgnoreCode                // 9  IGNORE
    | Synced                    // 10
    | FullGroupByWithStar       // 11

  /** AlreadyExistsException codes */
  datatype ExistsCode = BindVarExists | AliasExists

  /** NotExistsException codes */
  datatype NotExistsCode = Mutation | Relation | Property | ValueCode

  /** The reasons for which the source raises \InvalidArgumentException */
  datatype ArgReason =
    | NoValueToUpdate
    | NoBindVariable
    | NoColumns
    | EmptyColumn
    | ColumnCountMismatch
    | UnknownMutation(mutation: string)
    | UnknownFilter(name: string)
    | BadConditionType
    | NestedKeys
    | UnknownConstraintType(kind: string)

  datatype Error =
    | InvalidState(code: StateCode)
    | AlreadyExists(what: ExistsCode, name: string)
    | NotExists(notWhat: NotExistsCode, name: string)
    | NotFound(keys: seq<string>)
    | InvalidArgument(reason: ArgReason)
      /** PHP's own \ValueError, raised by vsprintf on a format it cannot fill */
    | FormatError
      /** PHP's own \TypeError: a value of the wrong type where a parameter, a return
          type or an array offset declares one */
    | TypeError
      /** PHP's own \Error, raised when an object without __toString is cast to string */
    | NoStringForm
      /** PHP's own \Error, raised when a method is called on null */
    | NullCall
      /** PHP's own \Error, raised when a typed property is read before it is initialised */
    | Uninitialized
      /** AnnotationException MULTIPLE_ANNOTATION: a property carries the column annotation twice */
    | MultipleAnnotation(property: string)
      /** GeneralException, which carries only a message */
    | General

  datatype Result<T> = Ok(value: T) | Err(error: Error)

  const Loaded := InvalidState(CollectionAlreadyLoaded)
}
