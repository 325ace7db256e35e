/** Small vocabulary shared by every component of the model. */
module Prelude {

  /** A nullable column or an optional argument. */
  datatype Option<+T> = None | Some(value: T)

  /** A value, or the error the Go code returns instead. */
  datatype Result<+T, +E> = Ok(value: T) | Err(error: E)

  /** Instants and durations, in microseconds on one unbounded axis. */
  type Time = int
  type Duration = int

  type PostId = nat
  type SourceId = nat
  type WorkerId = string

  function Min(a: int, b: int): (m: int)
    ensures m <= a && m <= b && (m == a || m == b)
  {
    if a <= b then a else b
  }

  function Max(a: int, b: int): (m: int)
    ensures m >= a && m >= b && (m == a || m == b)
  {
    if a >= b then a else b
  }

  /** Somewhere between false and true it changes. */
  lemma {:induction false} Turning(p: nat -> bool, m: nat, n: nat) returns (k: nat)
    requires m < n && !p(m) && p(n)
    ensures m <= k < n && !p(k) && p(k + 1)
    decreases n - m
  {
    if p(m + 1) {
      k := m;
    } else {
      k := Turning(p, m + 1, n);
    }
  }
}
