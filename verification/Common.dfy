/** Small datatypes and library behaviour shared by the modules. */
module Common {

  datatype Option<+T> = None | Some(value: T)

  /** Python's `s[:n]` for any integer `n`: a negative bound counts from the end. */
  function Prefix<T>(s: seq<T>, n: int): seq<T> {
    if n >= |s| then s
    else if n >= 0 then s[..n]
    else if |s| + n >= 0 then s[..|s| + n]
    else []
  }
}
