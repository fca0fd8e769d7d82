/** Exact three-vectors and (position, velocity) pairs.

    Positions and velocities are integer triples so that the sums the
    resolver forms are exact; the source's floating-point arrays are not
    modelled. */
module Vectors {

  datatype Vec = Vec(x: int, y: int, z: int)

  const Zero: Vec := Vec(0, 0, 0)

  function Add(a: Vec, b: Vec): Vec
  {
    Vec(a.x + b.x, a.y + b.y, a.z + b.z)
  }

  function Sub(a: Vec, b: Vec): Vec
  {
    Vec(a.x - b.x, a.y - b.y, a.z - b.z)
  }

  /** What a segment's compute function returns: position and velocity. */
  datatype State = State(position: Vec, velocity: Vec)

  const Rest: State := State(Zero, Zero)

  function Plus(a: State, b: State): State
  {
    State(Add(a.position, b.position), Add(a.velocity, b.velocity))
  }

  function Minus(a: State, b: State): State
  {
    State(Sub(a.position, b.position), Sub(a.velocity, b.velocity))
  }

  /** Differences of sums regroup componentwise. */
  lemma Regroup(a: State, b: State, c: State, d: State)
    ensures Minus(Plus(a, b), Plus(c, d)) == Plus(Minus(a, c), Minus(b, d))
  {
  }

  /** A state added on both sides cancels. */
  lemma Cancel(a: State, b: State, c: State)
    ensures Minus(Plus(a, b), Plus(a, c)) == Minus(b, c)
  {
  }
}
