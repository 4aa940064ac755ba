/** The optional value used for `int.Parse` failures and for the one-shot
    result slots that stand in for `TaskCompletionSource`. */
module Wrappers {

  datatype Option<+T> = None | Some(value: T)
}
