/** An optional value: stands for JavaScript's `undefined`/`null` results. */
module Maybe {

  datatype Option<T> = None | Some(value: T)
}
