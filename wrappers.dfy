/** Option values. In this model `None` stands for JavaScript's NaN (and for
    `undefined` once it has gone through arithmetic). */
module Wrappers {

  datatype Option<+T> = None | Some(value: T)

}
