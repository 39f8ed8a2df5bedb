/** The optional value used wherever the analyser's JavaScript has `undefined` or `null`. */
module Options {
  datatype Option<+T> = None | Some(value: T)

  function Min(a: int, b: int): int { if a <= b then a else b }
  function Max(a: int, b: int): int { if a >= b then a else b }
}
