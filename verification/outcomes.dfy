/** Values shared by the sensor and the display side of the firmware: the
    `Result<_, &'static str>` that every start-up routine returns, the `u16`
    that carries a CO2 reading, and the I2C device endpoint that both
    drivers are built on. */
module Outcomes {

  datatype Option<T> = None | Some(value: T)

  /** `Result<T, &'static str>`: every error in the firmware is a fixed message. */
  datatype Result<T> = Ok(value: T) | Err(msg: string)

  /** Rust's `u16`. */
  newtype u16 = x: int | 0 <= x < 0x1_0000

  /** One `I2cDevice` endpoint on the shared bus. The bus and its mutex are not
      modelled; an endpoint is only an identity that a driver is built on and
      hands back when it is released. */
  datatype I2cDevice = I2cDevice(id: nat)

  /** The outcome of `spawner.spawn(task)`: the executor either admits the task
      or rejects it (its task pool is full). */
  datatype SpawnOutcome = Spawned | SpawnRejected

  /** Number of elements of `s` that satisfy `p`. */
  function CountWhere<T>(s: seq<T>, p: T -> bool): (n: nat)
    ensures n <= |s|
  {
    if s == [] then 0 else CountWhere(s[..|s| - 1], p) + (if p(s[|s| - 1]) then 1 else 0)
  }

  lemma {:induction false} CountWhereAppend<T>(s: seq<T>, t: seq<T>, p: T -> bool)
    ensures CountWhere(s + t, p) == CountWhere(s, p) + CountWhere(t, p)
    decreases |t|
  {
    if t == [] {
      assert s + t == s;
    } else {
      assert (s + t)[..|s + t| - 1] == s + t[..|t| - 1];
      CountWhereAppend(s, t[..|t| - 1], p);
    }
  }

  lemma {:induction false} CountWhereNone<T>(s: seq<T>, p: T -> bool)
    requires forall i :: 0 <= i < |s| ==> !p(s[i])
    ensures CountWhere(s, p) == 0
    decreases |s|
  {
    if s != [] {
      CountWhereNone(s[..|s| - 1], p);
    }
  }
}
