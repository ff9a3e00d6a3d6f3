/** The exceptions the modelled code raises, as values, and the result types
    that carry them. Every Python `raise` of the modelled code becomes an `Err`
    (or a `Some` in a `raised` field); a distinct Python exception class is a
    distinct constructor. */
module Exceptions {

  datatype Option<T> = None | Some(value: T)

  /** A Python exception instance. The message is kept where the modelled code
      builds it itself; exceptions raised inside a library carry none. */
  datatype Exception =
    /** builtins.ValueError raised by the store or the registry with its own message. */
    | ValueError(msg: string)
    /** a ValueError raised inside numpy (shape mismatch in vstack or in a row
        assignment, negative dimension in np.empty); its text is numpy's. */
    | NumpyValueError
    /** an index past the end of a list or of an array's first axis. */
    | IndexError
    /** an attribute lookup on an object that lacks it (`.items()`, `.copy()`, `.popitem()`). */
    | AttributeError
    /** `popitem()` on an empty dict. */
    | KeyError
    /** iteration over a value that is not iterable. */
    | TypeError
    /** vectorapi.stores.exceptions.CollectionNotFound (raised by the in-memory registry). */
    | StoresCollectionNotFound(msg: string)
    /** vectorapi.exceptions.CollectionNotFound (the class the base registry catches). */
    | CollectionNotFound(msg: string)
    /** vectorapi.exceptions.CollectionPointNotFound. */
    | CollectionPointNotFound(msg: string)
    /** vectorapi.exceptions.CollectionPointFilterError. */
    | CollectionPointFilterError(msg: string)
    /** pydantic's ValidationError for a model built without a required field. */
    | ValidationError
    /** an error reported by the database server; `msg` is its `args[0]`. */
    | DatabaseError(msg: string)

  /** The Python class of an exception: what an `except <Class>:` clause tests. */
  datatype ExceptionClass =
    | ValueErrorClass | IndexErrorClass | AttributeErrorClass | KeyErrorClass | TypeErrorClass
    | StoresCollectionNotFoundClass | CollectionNotFoundClass | CollectionPointNotFoundClass
    | CollectionPointFilterErrorClass | ValidationErrorClass | DatabaseErrorClass

  function ClassOf(e: Exception): ExceptionClass
  {
    match e
    case ValueError(_) => ValueErrorClass
    case NumpyValueError => ValueErrorClass
    case IndexError => IndexErrorClass
    case AttributeError => AttributeErrorClass
    case KeyError => KeyErrorClass
    case TypeError => TypeErrorClass
    case StoresCollectionNotFound(_) => StoresCollectionNotFoundClass
    case CollectionNotFound(_) => CollectionNotFoundClass
    case CollectionPointNotFound(_) => CollectionPointNotFoundClass
    case CollectionPointFilterError(_) => CollectionPointFilterErrorClass
    case ValidationError => ValidationErrorClass
    case DatabaseError(_) => DatabaseErrorClass
  }

  /** The outcome of an operation that returns a value or raises. */
  datatype Result<T> = Ok(value: T) | Err(error: Exception)
}
