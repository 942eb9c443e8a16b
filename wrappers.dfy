/** A value that may be absent: a nil pointer in the game engine, a null
    string in the quiz finder. */
module Wrappers {

  datatype Option<+T> = None | Some(value: T)

}
