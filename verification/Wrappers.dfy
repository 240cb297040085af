/** The option type shared by every other module. */
module Wrappers {

  datatype Option<+T> = None | Some(value: T)
  {
    function GetOr(other: T): T {
      if Some? then value else other
    }

    predicate IsFailure() {
      None?
    }

    function PropagateFailure<U>(): Option<U>
      requires None?
    {
      None
    }

    function Extract(): T
      requires Some?
    {
      value
    }
  }

}
