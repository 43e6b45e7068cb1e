/** Types shared by the access declaration layer and the executor. */
module Types {

  /** Stands for `std::any::TypeId`: an opaque, comparable identifier of a
      component or resource type. */
  type TypeId = nat

  /** Rust's `Option`. */
  datatype Option<+T> = None | Some(value: T)
}
