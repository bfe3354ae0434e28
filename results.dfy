/** Option and Result shapes shared by the other modules; `Err` stands for
    Rust's `Err(..)`, a panic or an early `return None`. */
module Results {

  datatype Option<+T> = None | Some(value: T)

  datatype Result<+T, +E> = Ok(value: T) | Err(error: E)
}
