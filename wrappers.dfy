/** An optional value: `None` stands for a property that TypeScript leaves `undefined`. */
module Wrappers {

  datatype Option<+T> = None | Some(value: T)

}
