/** Notions that several models share. */
module Common {
  datatype Option<+T> = None | Some(value: T)

  type byte = b: int | 0 <= b < 256

  ghost predicate NoDuplicates<T>(list: seq<T>) {
    forall j, k :: 0 <= j < k < |list| ==> list[j] != list[k]
  }

  function Once(b: bool): nat {
    if b then 1 else 0
  }

  function Max(a: nat, b: nat): nat {
    if a < b then b else a
  }

  function Concat<T>(batches: seq<seq<T>>): seq<T> {
    if batches == [] then [] else Concat(batches[..|batches| - 1]) + batches[|batches| - 1]
  }
}
