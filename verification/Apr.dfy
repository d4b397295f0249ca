/** The status codes and options that the filters pass around. */
module Apr {

  datatype Status =
    | Success
    | EAgain
    | EIntr
    | TimeUp
    | EndOfFile
    | ConnAborted
    | Failed(code: int)

  datatype Option<+T> = None | Some(value: T)

  /** Neither success nor a request to try again. */
  predicate Fatal(rv: Status) {
    rv != Success && rv != EAgain
  }

  /** The calls made so far of one kind: how many there were, how many of them only asked to try
      again, how many failed, and what the last one returned. */
  datatype Tally = Tally(calls: nat, refused: nat, failed: nat, last: Status)
  {
    /** One more call, which returned `rv`. */
    function Next(rv: Status, again: bool): Tally {
      Tally(calls + 1,
            if again then refused + 1 else refused,
            if rv != Success && !again then failed + 1 else failed,
            rv)
    }

    /** The calls that did not ask to try again. */
    function Answered(): int {
      calls - refused
    }
  }

  const NO_CALLS := Tally(0, 0, 0, Success)
}
