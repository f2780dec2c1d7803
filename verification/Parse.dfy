/** The outcome of reading from the front of a byte string. */
module Parse {
  import opened Bits

  datatype Parse<+T> = Fail | Ok(val: T, rest: seq<Byte>) {
    predicate IsFailure() { Fail? }

    function PropagateFailure<U>(): Parse<U>
      requires Fail?
    {
      Fail
    }

    function Extract(): (T, seq<Byte>)
      requires Ok?
    {
      (val, rest)
    }

    /** The same outcome with `t` appended to the unread bytes. */
    function Then(t: seq<Byte>): Parse<T> {
      match this
      case Fail => Fail
      case Ok(v, r) => Ok(v, r + t)
    }
  }

  /** `r` is a tail of `s`. */
  ghost predicate SuffixOf(r: seq<Byte>, s: seq<Byte>) {
    |r| <= |s| && r == s[|s| - |r|..]
  }
}
