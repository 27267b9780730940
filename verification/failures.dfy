/** Outcomes of the resource engine: an optional value, the exceptions the
    PHP code throws, and a result that carries either a value or one of them. */
module Failures {

  datatype Option<+T> = None | Some(value: T)

  /** Every exception the modelled code can raise, with the data its message names. */
  datatype Error =
    /** InvalidArgumentException 'Trying to fill resource with malformed data' (fill on a non-array). */
    | MalformedData
    /** validateClassName rejected a configured class name (a cast or relationship target). */
    | InvalidClassName(className: string)
    /** SoldoInvalidPathException '<kind> basePath seems to be invalid' (base path or instance path). */
    | InvalidPath(kind: string)
    /** SoldoInvalidPathException '<kind> <attribute> is not defined' (a placeholder whose attribute is null). */
    | UndefinedAttribute(kind: string, attribute: string)
    /** TypeError from urlencode: the placeholder's attribute is an array or an object. */
    | NotStringable(kind: string, attribute: string)
    /** SoldoInvalidRelationshipException 'Relationship <name> is not defined'. */
    | UndefinedRelationship(name: string)
    /** SoldoInvalidRelationshipException 'Trying to build a relationship with invalid data'. */
    | InvalidRelationshipData
    /** SoldoInvalidEvent with its message. */
    | InvalidEvent(message: string)

  datatype Result<+T> = Ok(value: T) | Err(error: Error)
}
