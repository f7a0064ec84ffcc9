/** Values shared by every component: bytes, optional values and the error
    classes whose difference decides which handler of the Linker sees them. */
module Common {
  type byte = b: int | 0 <= b < 256
  type Bytes = seq<byte>

  datatype Option<+T> = None | Some(value: T)

  /** The exception classes the driver tells apart.  A `ProtocolError` and a
      `ConfigurationError` are subclasses of Python's ValueError; `ValueError`
      stands for a plain one, which most handlers of the driver do not catch. */
  datatype Error =
    | ProtocolError
    | ConfigurationError
    | ValueError
    | IncompleteRead

  datatype Result<+T> = Ok(value: T) | Err(error: Error) {
    predicate IsFailure() { Err? }

    function PropagateFailure<U>(): Result<U>
      requires Err?
    {
      Err(error)
    }

    function Extract(): T
      requires Ok?
    {
      value
    }
  }

  predicate StartsWith<T(==)>(s: seq<T>, prefix: seq<T>) {
    |prefix| <= |s| && s[..|prefix|] == prefix
  }

  function Max(a: int, b: int): int { if a < b then b else a }

  function Min(a: int, b: int): int { if a < b then a else b }

  function Ascii(s: string): Bytes
    requires forall k :: 0 <= k < |s| ==> (s[k] as int) < 128
  {
    seq(|s|, k requires 0 <= k < |s| => s[k] as int)
  }

  function LowerChar(c: char): char {
    if 'A' <= c <= 'Z' then (c as int - 'A' as int + 'a' as int) as char else c
  }

  /** ASCII letters in lower case. */
  function Lower(s: string): string { seq(|s|, k requires 0 <= k < |s| => LowerChar(s[k])) }

  function Abs(a: int): nat { if a < 0 then -a else a }
}
