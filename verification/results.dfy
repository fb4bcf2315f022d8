/** Errors raised by the project reader, and the Option/Result wrappers that
    carry them in place of Python exceptions. */
module Results {

  /** One constructor per raise site of the reader. */
  datatype Error =
    | MissingBlockFile(project: string, path: seq<string>) // IOError: a block file is absent
    | NoBlocks            // IndexError: gap filling on a channel with no blocks
    | ChannelOutOfBounds  // ValueError: open() of a channel that does not exist
    | NotOpened           // IOError: seek() or read() while the cursor is closed
    | SeekPastEnd         // EOFError: seek() at or beyond the end of the channel

  datatype Option<+T> = None | Some(value: T)

  datatype Result<+T> = Ok(value: T) | Err(error: Error) {

    predicate IsFailure() {
      Err?
    }

    function PropagateFailure<U>(): Result<U>
      requires Err?
    {
      Err(error)
    }

    function Extract(): T
      requires Ok?
    {
      value
    }
  }

  /** Runs through results in order and stops at the first error. */
  function Collect<T>(rs: seq<Result<T>>): (r: Result<seq<T>>)
    ensures r.Ok? ==> |r.value| == |rs| && forall i :: 0 <= i < |rs| ==> rs[i] == Ok(r.value[i])
    ensures r.Err? ==>
      exists i :: 0 <= i < |rs| && rs[i] == Err(r.error) && forall j :: 0 <= j < i ==> rs[j].Ok?
  {
    if rs == [] then Ok([])
    else
      match rs[0]
      case Err(e) => Err(e)
      case Ok(first) =>
        match Collect(rs[1..])
        case Err(e) =>
          var i :| 0 <= i < |rs[1..]| && rs[1..][i] == Err(e) && forall j :: 0 <= j < i ==> rs[1..][j].Ok?;
          assert rs[i + 1] == Err(e);
          assert forall j :: 0 <= j < i + 1 ==> rs[j].Ok? by {
            forall j | 0 <= j < i + 1 ensures rs[j].Ok? {
              if j > 0 {
                assert rs[1..][j - 1] == rs[j];
              }
            }
          }
          Err(e)
        case Ok(rest) =>
          Ok([first] + rest)
  }
}
