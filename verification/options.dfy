/** Optional values: JavaScript's `null` / `undefined` versus a present value. */
module Options {

  datatype Option<+T> = None | Some(value: T)
}
