/** Optional values and results shared by every module of the model. */
module Wrappers {

  /** A Java reference that may be `null`. */
  datatype Option<T> = None | Some(value: T)
  {
    function GetOr(default: T): T
    {
      match this
      case None => default
      case Some(v) => v
    }
  }

  /** The outcome of a service call: a value, or the exception it throws. */
  datatype Result<T, E> = Ok(value: T) | Err(error: E)

  /** Row `k` takes part in a uniqueness test that excludes `excludeId` (none when NULL). */
  predicate Other(k: int, excludeId: Option<int>)
  {
    excludeId.None? || k != excludeId.value
  }
}

/** The exceptions raised by the services, one constructor per distinct failure. */
module Errors {

  datatype Error =
    | NotFound            // RuntimeException "... non trouvé(e)"
    | NullId              // Spring Data refuses findById(null)
    | DuplicateCode
    | DuplicateEmail
    | DuplicateSku
    | DuplicateEan
    | SelfParent          // a category cannot be its own parent
    | HasSubcategories    // category still has children
    | HasProducts         // category still has products
    | StockNotManaged
    | EmailRequiredForLead
    | PhoneRequiredForCritical
    | NextBeforeLast      // next contact date before last contact date
    | PrimaryWithOthers   // primary contact of a customer that has other contacts
    | NonUniqueResult     // a single-result query found several rows
    | NotNullViolation    // save with NULL in a NOT NULL column
    | NullPointer         // unboxing a NULL Boolean or Integer
    | StackOverflow       // a parent chain that never reaches a root
    | UniqueViolation     // the insert breaks a unique constraint of the table
}
