/** The Option type shared by every module of the model: `None` stands for
    Python's `None` (an absent row, an absent column value, a failed parse). */
module Wrappers {

  datatype Option<+T> = None | Some(value: T)

}
