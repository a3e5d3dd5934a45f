/** What both the database and the option parser use. */
module Basics {

  datatype Maybe<+T> = Nothing | Just(value: T)

  function Max(a: nat, b: nat): nat {
    if a < b then b else a
  }
}
