/** An optional value, used for the environment variables the build reads:
    Ruby's `nil` is `None`. */
module Options {

  datatype Option<+T> = None | Some(value: T)
}
