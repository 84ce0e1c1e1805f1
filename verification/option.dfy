/** Optional results, for the Go code's nil returns and failing calls. */
module Options {

  datatype Option<T> = None | Some(value: T)
}
