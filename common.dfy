/** Values shared by every part of the generator: optional values, results of
    operations that can raise, the errors they raise, and which of the two
    copies of the generator (the installed package or the older script) a
    component follows where the two differ. */
module Common {

  /** A Python value that may be `None`. */
  datatype Option<+T> = None | Some(value: T)

  /** The exceptions the generator raises; each aborts the whole run. */
  datatype Error =
    | EmptyLocation                    // the IndexError of `data[0]` on an empty trimmed location
    | NotALocation                     // trimmed location not starting with '<'
    | UnclosedTag                      // the base tag has no '>'
    | MalformedSection                 // a section holds no well-formed tag
    | MalformedAttributes              // an attribute without a closing quote
    | UnhandledElement(name: string)   // "MODS element not handled!"
    | UnhandledDwcElement(name: string)
    | UnhandledOriginInfo(name: string)
    | NoIdColumn                       // neither a group-id nor an xml-id column
    | NoMappingColumns                 // no control-row cell starts with '<'
    | NoFieldData                      // a record without any field data
    | YearBefore1900                   // Python 2 strftime refuses years before 1900

  /** The result of an operation that either returns a value or raises. */
  datatype Result<+T> = Success(value: T) | Failure(error: Error) {
    predicate IsFailure() { Failure? }
    function PropagateFailure<U>(): Result<U>
      requires Failure?
    {
      Failure(error)
    }
    function Extract(): T
      requires Success?
    {
      value
    }
  }

  /** The result of an operation that only changes state, or raises. */
  datatype Outcome = Pass | Fail(error: Error)

  /** Which copy of the generator a component follows: the installed package
      (mods_generator/__init__.py, Python 3) or the older script
      (generate_mods.py, Python 2). */
  datatype Variant = Package | Script

  /** One (location expression, cell text) pair of a record, in column order. */
  datatype FieldDatum = FieldDatum(path: string, data: string)
}
