// Shared values used by every part of the model.

module Common {

  /** The usual optional value. */
  datatype Option<T> = None | Some(value: T)

  /** A 2-D vector; the sources use float `PVector`/`Point`, modelled over the reals. */
  datatype Point = Point(x: real, y: real)
  {
    function Plus(o: Point): Point { Point(x + o.x, y + o.y) }
    function Minus(o: Point): Point { Point(x - o.x, y - o.y) }
    function Scale(k: real): Point { Point(k * x, k * y) }
    function Dot(o: Point): real { x * o.x + y * o.y }
    /** Squared length: the sources compare lengths, which is the same as comparing squares. */
    function NormSq(): real { x * x + y * y }
  }

  const Origin: Point := Point(0.0, 0.0)

  /** `Math.min`/`std::min` on two values (the first wins a tie). */
  function MinR(a: real, b: real): real { if a <= b then a else b }

  /** `Math.max`/`std::max` on two values. */
  function MaxR(a: real, b: real): real { if a >= b then a else b }

  function AbsR(a: real): real { if a < 0.0 then -a else a }

  function AbsI(a: int): nat { if a < 0 then -a else a }

  function MaxI(a: int, b: int): int { if a >= b then a else b }
}
