/** An optional value. In this model `None` stands for ECMAScript `undefined`
    (a missing property) or for "not found" where the source uses `-1`. */
module Options {

  datatype Option<+T> = None | Some(value: T)
}
