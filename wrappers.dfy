/** Optional values and the exceptions the magma core raises. */
module Wrappers {

  /** Stands for pymonad's Maybe (Nothing / Just). */
  datatype Option<T> = None | Some(value: T)

  /** One constructor per distinct exception the core can raise. */
  datatype MagmaError =
    | MissingTable      // a subclass declared without CAYLEY_TABLE
    | NonSquareTable    // some row's length differs from the number of rows
    | InvalidArgument   // an element value that is not in SET
    | IndexOutOfRange   // a table lookup outside CAYLEY_TABLE
    | NotCallable       // isRightInvoulntary is declared without self, so calling it raises TypeError

  datatype Result<T> = Ok(value: T) | Err(error: MagmaError)
}
