/** Failure-carrying values shared by the whole model: the Java exceptions the
    core throws become the error side of a `Result`, `null` becomes `None`, and
    the argument of `equals(Object)` becomes an `Object`. */
module Common {

  /** A possibly-null Java reference. */
  datatype Option<+T> = None | Some(value: T)

  /** The exceptions thrown by the modelled code. */
  datatype Exception =
    | NullPointer                 // `Objects.requireNonNull` on a null argument
    | IllegalValue(message: string)  // `IllegalValueException` while loading storage
    | CommandError(message: string)  // `CommandException` while executing a command

  /** Either a returned value or a thrown exception. */
  datatype Result<+T> = Ok(value: T) | Err(error: Exception)

  /** The argument of a Java `equals(Object other)`: null, an instance of the
      receiver's class, or an object of some unrelated class. */
  datatype Object<+T> = Null | Instance(value: T) | OtherClass
}
