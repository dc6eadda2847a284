/**
 * `handle_db_errors` of app/utils/errors.py: an SQLAlchemy error becomes
 * a `DetailedError` (status code, message, one `{code, details}` entry).
 */
module DbErrors {
  import opened Wrappers
  import opened Http

  /**
   * The SQLAlchemy exception classes the chain tells apart. DataError,
   * IntegrityError and OperationalError are sibling subclasses, so the
   * order of the `isinstance` tests does not matter; every other
   * SQLAlchemyError (MultipleResultsFound among them) is `OtherError`.
   */
  datatype ErrorClass = DataError | IntegrityError | OperationalError | OtherError

  /** An SQLAlchemy error: its class, its `code` and its `_message()`. */
  datatype DbError = DbError(cls: ErrorClass, code: Option<string>, details: string)

  datatype ErrorEntry = ErrorEntry(code: Option<string>, details: string)

  datatype DetailedError = DetailedError(statusCode: int, message: string, errors: seq<ErrorEntry>)

  function HandleDbErrors(e: DbError): (r: DetailedError)
    ensures r.errors == [ErrorEntry(e.code, e.details)]
    ensures e.cls == DataError ==> r.statusCode == StatusUnprocessable && r.message == "Incorrect data."
    ensures e.cls == IntegrityError ==> r.statusCode == StatusConflict && r.message == "Duplicate entry"
    ensures e.cls == OperationalError ==>
              r.statusCode == StatusInternalError && r.message == "Query failed due to lock/dead lock issues."
    ensures e.cls == OtherError ==> r.statusCode == StatusBadRequest && r.message == "Unexpected SQLAlchemy error."
  {
    var entry := [ErrorEntry(e.code, e.details)];
    match e.cls
    case DataError => DetailedError(StatusUnprocessable, "Incorrect data.", entry)
    case IntegrityError => DetailedError(StatusConflict, "Duplicate entry", entry)
    case OperationalError => DetailedError(StatusInternalError, "Query failed due to lock/dead lock issues.", entry)
    case OtherError => DetailedError(StatusBadRequest, "Unexpected SQLAlchemy error.", entry)
  }

  /**
   * The classification loses nothing: the status code alone tells the
   * error class, and the single entry gives back the code and details.
   */
  lemma HandledErrorsAreDistinguishable(a: DbError, b: DbError)
    ensures HandleDbErrors(a).statusCode == HandleDbErrors(b).statusCode <==> a.cls == b.cls
    ensures HandleDbErrors(a) == HandleDbErrors(b) <==> a == b
    ensures 400 <= HandleDbErrors(a).statusCode <= 500
  {
    if HandleDbErrors(a) == HandleDbErrors(b) {
      assert HandleDbErrors(a).errors[0] == HandleDbErrors(b).errors[0];
    }
  }

  /** The unique-constraint violation PostgreSQL reports for a duplicate key. */
  const DuplicateKey := DbError(IntegrityError, Some("gkpj"), "duplicate key value violates unique constraint")

  /** The not-null violation PostgreSQL reports when a NOT NULL column is set to null. */
  const NullValue := DbError(IntegrityError, Some("gkpj"), "null value violates not-null constraint")

  /** `Result.one_or_none()` over more than one row raises MultipleResultsFound. */
  const MultipleResultsFound := DbError(OtherError, None, "Multiple rows were found when one or none was required")
}
