/** Small value helpers shared by every module of the model. */
module Common {

  /** Python's `None` or a value. */
  datatype Option<+T> = None | Some(value: T)

  function Min(a: int, b: int): (m: int)
    ensures m <= a && m <= b && (m == a || m == b)
  {
    if b < a then b else a
  }

  function Max(a: int, b: int): (m: int)
    ensures m >= a && m >= b && (m == a || m == b)
  {
    if b > a then b else a
  }

  /**
   * Python's float division `a / b`. The quotient sits one recursive step
   * down, so the verifier only unfolds it where a proof asks for its value
   * (through `QuotientValue`); elsewhere a share is just a number.
   */
  function Quotient(a: real, b: real, hops: nat): real
    requires b != 0.0
    decreases hops
  {
    if hops > 0 then Quotient(a, b, hops - 1) else a / b
  }

  lemma {:induction false} QuotientValue(a: real, b: real, hops: nat)
    requires b != 0.0
    ensures Quotient(a, b, hops) * b == a
    ensures Quotient(a, b, hops) == a / b
    decreases hops
  {
    if hops > 0 {
      QuotientValue(a, b, hops - 1);
    }
  }
}
