/** Types shared by the models. */
module Common {

  /** `u8` */
  type byte = x: int | 0 <= x < 256

  datatype Option<T> = None | Some(value: T)

  lemma ConcatThree<T>(a: seq<T>, b: seq<T>, c: seq<T>)
    ensures (a + b) + c == a + (b + c)
  {
  }
}
