/** Result and option types, and what else the whole project shares. */
module Wrappers {

  datatype Option<+T> = None | Some(value: T)

  /** The failures a FAT32 operation can report. */
  datatype FatError =
    | BufferTooSmall
    | NotFat32
    | OutOfBounds
    | InvalidCluster
    | NotAFile
    | NotADirectory
    | PathNotFound
    | InvalidName
    | NoSpaceLeft
    | Other

  datatype Result<+T> = Ok(value: T) | Err(error: FatError) {
    predicate IsFailure() {
      Err?
    }

    function PropagateFailure<U>(): Result<U>
      requires Err?
    {
      Err(error)
    }

    function Extract(): T
      requires Ok?
    {
      value
    }
  }

  ghost predicate Distinct<T(!new)>(s: seq<T>) {
    forall i, j :: 0 <= i < j < |s| ==> s[i] != s[j]
  }
}
