/** Small datatypes and finite-collection facts shared by the other modules. */
module Common {

  datatype Option<+T> = None | Some(value: T)

  /** What a storage call hands back to the handler that made it. */
  datatype Reply<+T> = Value(value: T) | StorageError | ValueError

  /** How a storage transaction can go wrong: not at all, rolled back, or committed with its reply lost. */
  datatype Fault = NoFault | RolledBack | ReplyLost

  /** The reply the caller sees: any fault surfaces as the storage error. */
  function Seen<T>(fault: Fault, reply: Reply<T>): Reply<T> {
    if fault.NoFault? then reply else StorageError
  }

  function Min(a: int, b: int): int { if a <= b then a else b }

  function Max(a: int, b: int): int { if a <= b then b else a }

  function Reverse<T>(s: seq<T>): (r: seq<T>)
    ensures |r| == |s|
    ensures forall i :: 0 <= i < |s| ==> r[i] == s[|s| - 1 - i]
  {
    seq(|s|, i requires 0 <= i < |s| => s[|s| - 1 - i])
  }

  /** The last n elements, or all of them when there are fewer. */
  function LastN<T>(s: seq<T>, n: nat): seq<T> {
    if n >= |s| then s else s[|s| - n..]
  }

  function FirstN<T>(s: seq<T>, n: nat): seq<T> {
    if n >= |s| then s else s[..n]
  }

  /** The slice s[:n], whose bound counts from the end when negative. */
  function Prefix<T>(s: seq<T>, n: int): (r: seq<T>)
    ensures |r| == if n >= 0 then Min(n, |s|) else Max(0, |s| + n)
  {
    if n >= 0 then FirstN(s, n) else s[..Max(0, |s| + n)]
  }

  /** str.join. */
  function JoinWith(separator: string, parts: seq<string>): string {
    if parts == [] then "" else if |parts| == 1 then parts[0]
    else parts[0] + (separator + JoinWith(separator, parts[1..]))
  }
}
