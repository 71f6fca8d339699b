/** Optional values and results. The source reports errors as formatted strings; only the
    distinction between success and failure is kept, so `Err` carries nothing. */
module Wrappers {

  datatype Option<+T> = None | Some(value: T)

  datatype Result<+T> = Err | Ok(value: T)
}
