/** Result codes, the optional value and small helpers shared by the driver's components. */
module OdbcTypes {

  datatype Option<+T> = None | Some(value: T) {
    function Map<U>(f: T -> U): Option<U> {
      match this
      case None => None
      case Some(v) => Some(f(v))
    }
  }

  /** The general result of a driver operation (the AI_ codes of the driver). */
  datatype SqlResult = Success | SuccessWithInfo | Error | NoData | NeedData

  /** The result of converting one column value into an application buffer. */
  datatype ConversionResult =
    | Converted
    | VarlenDataTruncated
    | NothingLeft
    | IndicatorNeeded
    | ConversionFailed

  const INT32_MAX := 0x7FFF_FFFF

  predicate IsInt32(n: int) {
    -INT32_MAX - 1 <= n <= INT32_MAX
  }

  function Min(a: nat, b: nat): nat {
    if a < b then a else b
  }

  function Flatten<T>(blocks: seq<seq<T>>): seq<T> {
    if blocks == [] then [] else blocks[0] + Flatten(blocks[1..])
  }

  lemma {:induction false} FlattenLast<T>(blocks: seq<seq<T>>, last: seq<T>)
    ensures Flatten(blocks + [last]) == Flatten(blocks) + last
    decreases |blocks|
  {
    if blocks == [] {
      assert ([last])[1..] == [];
    } else {
      FlattenLast(blocks[1..], last);
      assert (blocks + [last])[1..] == blocks[1..] + [last];
    }
  }
}
