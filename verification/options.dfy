/** An optional value, for answers that may be absent (a regex that does not
    match, a key that is not in a map, an annotation name that is null). */
module Options {

  datatype Option<+T> = None | Some(value: T)
}
