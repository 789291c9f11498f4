/** Shared vocabulary of the persistence layer: optional fields, object
    identifiers, timestamps and the failures the storage layer raises. */
module Common {

  datatype Option<+T> = None | Some(value: T)

  /** Dates are modelled as integers (milliseconds since the epoch). */
  type Time = int

  /** An object identifier in its textual form. */
  type Id = string

  predicate IsHexDigit(c: char) {
    '0' <= c <= '9' || 'a' <= c <= 'f'
  }

  /** Well-formedness of an identifier: stands both for `Types.ObjectId.isValid`
      and for the cast whose failure the storage layer reports as `CastError`.
      Only the canonical form, 24 lower-case hexadecimal digits, is accepted. */
  predicate ValidId(s: string) {
    |s| == 24 && forall i :: 0 <= i < |s| ==> IsHexDigit(s[i])
  }

  /** JavaScript truthiness of an optional string: present and not "". */
  predicate Given(o: Option<string>) {
    o.Some? && o.value != ""
  }

  /** The code MongoDB attaches to a unique-index violation. */
  const DUPLICATE_KEY_CODE: int := 11000

  /** Failures raised below the service layer. */
  datatype Fault =
    | ValidationError         // a schema constraint failed (required, enum, minlength, cast)
    | CastError               // an identifier in a query could not be cast to an ObjectId
    | DuplicateKey(code: int) // a unique index rejected the write

  /** The outcome of persisting one document. */
  datatype SaveResult<T> = Saved(doc: T) | Rejected(fault: Fault)
}
