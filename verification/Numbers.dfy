/** Numbers of the language, as far as they are compared. */
module Numbers {

  datatype Num = NaN | At(value: real) | Infinite(negative: bool)

  /** `x > y` */
  predicate Greater(x: Num, y: Num) {
    match (x, y)
    case (At(v), At(w)) => v > w
    case (At(_), Infinite(negative)) => negative
    case (Infinite(negative), At(_)) => !negative
    case (Infinite(n), Infinite(m)) => !n && m
    case _ => false
  }
}
