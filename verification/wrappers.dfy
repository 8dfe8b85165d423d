/** Optional values. `None` plays the part of JavaScript's `null`/`undefined`
    wherever the hook reports or receives "no cookie". */
module Wrappers {

  datatype Option<+T> = None | Some(value: T)
}
