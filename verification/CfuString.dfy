/** The growing string buffer of lib/cfustring.c. */
module CfuString {
  import opened Wrappers

  class CfuString {
    /** `used` counts the characters and the NUL after them; the length of `str` is the maximal size. */
    var str: array?<char>
    var used: nat

    constructor (initialSize: nat)
      ensures Valid() && Contents() == "" && MaxSize() == initialSize && (str != null ==> fresh(str))
    {
      str, used := null, 0;
      if initialSize > 0 {
        str, used := new char[initialSize](_ => '\0'), 1;
      }
    }

    ghost predicate Valid()
      reads this, str
    {
      if str == null then used == 0 else 1 <= used <= str.Length && str[used - 1] == '\0'
    }

    ghost function Contents(): string
      reads this, str
      requires Valid()
    {
      if str == null then "" else str[..used - 1]
    }

    function MaxSize(): nat
      reads this
    {
      if str == null then 0 else str.Length
    }

    /**
     * Appends a C string; a NULL one changes nothing. The test for room counts one place too many. A buffer
     * that fails it is doubled, or given what the test asks for where doubling is not enough.
     */
    method Append(s: Option<string>)
      requires Valid()
      modifies this, str
      ensures Valid() && Contents() == old(Contents()) + s.GetOr("")
      ensures str == old(str) || fresh(str)
      ensures old(str) != null || s.Some? ==> str != null
      ensures s.Some? ==>
        var before := if old(str) == null then |s.value| + 1 else old(MaxSize());
        var need := |Contents()| + 2;
        MaxSize() == if before >= need then before else if 2 * before >= need then 2 * before else need
    {
      if s.None? {
        return;
      }
      var n := |s.value|;
      Reserve(n);
      ghost var before := Contents();
      Copy(str, used - 1, s.value);
      assert str[..used - 1 + n] == before + s.value;
      used := used + n;
      str[used - 1] := '\0';
    }

    /** Makes room for `n` more characters. */
    method Reserve(n: nat)
      requires Valid()
      modifies this
      ensures Valid() && str != null && Contents() == old(Contents()) && used + n <= str.Length
      ensures str == old(str) || fresh(str)
      ensures
        var before := if old(str) == null then n + 1 else old(MaxSize());
        var need := |Contents()| + n + 2;
        MaxSize() == if before >= need then before else if 2 * before >= need then 2 * before else need
    {
      if str == null {
        str, used := new char[n + 1](_ => '\0'), 1;
      }
      if used + n + 1 > str.Length {
        var size := if str.Length * 2 >= used + n + 1 then str.Length * 2 else used + n + 1;
        var tmp := new char[size];
        Copy(tmp, 0, str[..used]);
        assert tmp[..used] == str[..used];
        assert tmp[used - 1] == str[used - 1];
        str := tmp;
      }
    }

    /** `cfustring_get_buffer_copy` of a string that has a buffer. */
    method GetBufferCopy() returns (copy: array<char>)
      requires Valid() && str != null
      ensures fresh(copy) && copy[..] == Contents() + ['\0']
    {
      copy := new char[used];
      Copy(copy, 0, str[..used]);
    }
  }

  /** `memcpy` of `s` to offset `i`. */
  method Copy(a: array<char>, i: nat, s: seq<char>)
    requires i + |s| <= a.Length
    modifies a
    ensures a[..i] == old(a[..i]) && a[i..i + |s|] == s && a[i + |s|..] == old(a[i + |s|..])
  {
    var j := 0;
    while j < |s|
      invariant j <= |s| && a[..i] == old(a[..i]) && a[i..i + j] == s[..j] && a[i + j..] == old(a[i + j..])
    {
      a[i + j] := s[j];
      j := j + 1;
    }
  }
}
