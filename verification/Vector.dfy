/** The growing array of lib/kvec.h: the fields `n` and `a`, with the capacity as the length of `a`. */
module Vector {

  class Vector<T(0)> {
    var n: nat
    var a: array<T>

    constructor ()
      ensures Valid() && Contents() == [] && fresh(a) && a.Length == 0
    {
      n, a := 0, new T[0];
    }

    ghost predicate Valid()
      reads this
    {
      n <= a.Length && a.Length != 1
    }

    ghost function Contents(): (s: seq<T>)
      reads this, a
      requires Valid()
      ensures |s| == n
    {
      a[..n]
    }

    /** Appends `x`; only a full vector is moved, to twice the room. */
    method Push(x: T)
      requires Valid()
      modifies this, a
      ensures Valid() && Contents() == old(Contents()) + [x]
      ensures if old(n < a.Length) then a == old(a) else fresh(a)
      ensures a.Length == if old(n < a.Length) then old(a.Length) else if old(a.Length) == 0 then 2 else 2 * old(a.Length)
    {
      if n == a.Length {
        var bigger := new T[if a.Length == 0 then 2 else 2 * a.Length];
        var i := 0;
        while i < n
          invariant i <= n && bigger[..i] == a[..i]
          modifies bigger
        {
          bigger[i] := a[i];
          i := i + 1;
        }
        a := bigger;
      }
      a[n] := x;
      n := n + 1;
    }
  }
}
