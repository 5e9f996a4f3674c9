/** The Option type used throughout the model, standing for Rust's `Option`. */
module Optional {

  datatype Option<+T> = None | Some(value: T)
}
