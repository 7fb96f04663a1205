/** Types shared by every part of the model: the scanned paths, and the optional
    values that the perceptual hash and the report reader return. */
module Common {

  /** A file location, as the directory walker produces it. */
  type Path = string

  datatype Option<T> = None | Some(value: T)
}
