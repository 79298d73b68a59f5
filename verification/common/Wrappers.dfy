// The result shapes the other modules share.

module Options {

  datatype Option<+T> = None | Some(value: T)
}

module Results {

  datatype Result<+T, +E> = Ok(value: T) | Refused(reason: E)
}
