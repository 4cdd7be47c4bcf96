/** Optional values: a JavaScript property that may be absent (undefined). */
module Options {

  datatype Option<T> = None | Some(value: T)
}
