/** Values shared by every stage of the pipeline. */
module Common {
  /** A value that may be missing: Python's None, or pandas' NaN in a joined column. */
  datatype Option<T> = None | Some(value: T)
}
