/** Small value types shared by the store and the command layer. */
module Util {

  /** A JavaScript value that may be absent (`undefined`) or present. */
  datatype Option<+T> = None | Some(value: T) {
    function GetOr(default: T): T {
      match this
      case Some(v) => v
      case None => default
    }
  }

  /** The outcome of a computation that may throw. */
  datatype Result<+T> = Ok(value: T) | Err(error: string)

  /** The error a property access on `undefined` raises. */
  const TypeError: string := "TypeError"

  /** `array.slice(0, index).concat(item, array.slice(index + 1))`, for the two
      kinds of index the store ever passes: a found position, or the `-1` that
      `findIndex` returns for a missing element. JavaScript reads a negative
      slice bound from the end, so `-1` keeps all but the last element in front
      of `item` and then the whole array again behind it. */
  function UpdateArrayItem<T>(s: seq<T>, index: int, item: T): (r: seq<T>)
    requires -1 <= index < |s|
    ensures 0 <= index ==> |r| == |s| && r[index] == item
    ensures 0 <= index ==> forall j :: 0 <= j < |s| && j != index ==> r[j] == s[j]
    ensures index == -1 && |s| == 0 ==> r == [item]
    ensures index == -1 && |s| > 0 ==> |r| == 2 * |s| && r[|s| - 1] == item && r[|s|..] == s
  {
    if index == -1 then
      (if |s| == 0 then [] else s[..|s| - 1]) + [item] + s
    else
      s[..index] + [item] + s[index + 1..]
  }
}
