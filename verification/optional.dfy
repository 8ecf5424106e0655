/** The conventional optional value. It stands for the places where the
    service distinguishes "no value" from a value: a `parentId` of `null`,
    a record that was not found, a request field that was not sent, and a
    path id that did not parse as a number. */
module Optional {

  datatype Option<+T> = None | Some(value: T)
}
