/** Optional values and recoverable failures, used wherever the modelled code
    can come back without a value (a parse that fails, a slot that is empty). */
module Wrappers {

  datatype Option<+T> = None | Some(value: T)

  datatype Result<+T> = Ok(value: T) | Err(reason: string)
}
