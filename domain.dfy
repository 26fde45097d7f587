/** The entities of the customer service: the customer record, the two request
    bodies, and the error kinds the service signals. */
module Domain {

  datatype Option<+T> = None | Some(value: T)

  /** A stored customer. Java's Customer is a mutable object; here it is a value,
      and a setter on the object the store holds is modelled as a write to the
      list entry that holds it. Ids and ages are Java Integers; nothing computes
      with them, so `int` loses nothing. */
  datatype Customer = Customer(id: int, name: string, email: string, age: int)

  /** Body of a registration: every field is given. */
  datatype RegistrationRequest = RegistrationRequest(name: string, email: string, age: int)

  /** Body of an update: a `None` field is a null in the request, "no change asked". */
  datatype UpdateRequest = UpdateRequest(name: Option<string>, email: Option<string>, age: Option<int>)

  /** ResourceNotFoundException, DuplicateResourceException, RequestValidationException. */
  datatype ErrorKind = NotFound | Duplicate | NoChange

  /** The outcome of an operation that returns a value or throws. */
  datatype Result<+T> = Success(value: T) | Failure(error: ErrorKind)

  /** The outcome of a `void` operation that may throw. */
  datatype Outcome = Pass | Fail(error: ErrorKind)
}
