/** C# nullable references, shared by both classes whose table of base areas
    may be null (`_baseAreas`, `_originalAreas`). */
module Nullables {

  /** A reference that is either null or a value. */
  datatype Option<T> = None | Some(value: T)
}
