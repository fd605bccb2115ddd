/** Values shared by the replay buffer and the algorithm models. */
module Types {

  /** One observation: a row of the float32 state tensor, with float32 rounding not modelled. */
  type Observation = seq<real>

  /** An action: a float vector for a Box action space, an int64 index for a Discrete one. */
  datatype Action = Continuous(vector: seq<real>) | DiscreteIndex(index: int)

  /** The action-space kinds the buffer lays its action array out for, and everything else. */
  datatype ActionSpace = Box(shape: seq<nat>) | Discrete(n: nat) | Unsupported

  /** A value that may be absent (Python's None). */
  datatype Option<T> = None | Some(value: T)

  function Min(a: int, b: int): (m: int)
    ensures m <= a && m <= b && (m == a || m == b)
  {
    if a <= b then a else b
  }
}
