/**
 The 2D vector algebra of ImVec2Operators.h: component-wise addition and
 subtraction, and multiplication / division of both components by one scalar.
 Single-precision floats are modelled as exact reals, so the algebraic laws
 below hold exactly.
 */
module Vectors {

  /** A point or a size in screen space (y grows downwards). */
  datatype Vec2 = Vec2(x: real, y: real)

  /** ImVec2 operator+: `a` moved by `b`; moving back by `b` returns to `a`,
      and the zero vector moves nothing. */
  function Add(a: Vec2, b: Vec2): (r: Vec2)
    ensures r.x - b.x == a.x && r.y - b.y == a.y
    ensures a == Vec2(0.0, 0.0) ==> r == b
  {
    Vec2(a.x + b.x, a.y + b.y)
  }

  /** ImVec2 operator-: the displacement from `b` to `a`; it takes `b` back
      to `a`, and is zero exactly when the two coincide. */
  function Sub(a: Vec2, b: Vec2): (r: Vec2)
    ensures r.x + b.x == a.x && r.y + b.y == a.y
    ensures r == Vec2(0.0, 0.0) <==> a == b
  {
    Vec2(a.x - b.x, a.y - b.y)
  }

  /** ImVec2 operator*(float): keeps the direction of `v` (the result is
      parallel to it), factor 1 changes nothing and factor 0 gives zero. */
  function Scale(v: Vec2, k: real): (r: Vec2)
    ensures r.x * v.y == r.y * v.x
    ensures k == 1.0 ==> r == v
    ensures k == 0.0 ==> r == Vec2(0.0, 0.0)
  {
    Vec2(v.x * k, v.y * k)
  }

  /** ImVec2 operator/(float); the model refuses a zero divisor. */
  function Div(v: Vec2, k: real): (r: Vec2)
    requires k != 0.0
    ensures Scale(r, k) == v
  {
    Vec2(v.x / k, v.y / k)
  }

  /** The same scalar offset on both axes, `ImVec2(d, d)`. */
  function Diag(d: real): Vec2 {
    Vec2(d, d)
  }

  // Edges and centre of an axis-aligned box given by its upper-left anchor and size.

  function Right(anchor: Vec2, size: Vec2): real { anchor.x + size.x }

  function Bottom(anchor: Vec2, size: Vec2): real { anchor.y + size.y }

  function CentreX(anchor: Vec2, size: Vec2): real { anchor.x + size.x / 2.0 }

  function CentreY(anchor: Vec2, size: Vec2): real { anchor.y + size.y / 2.0 }

  lemma AddCommutative(a: Vec2, b: Vec2)
    ensures Add(a, b) == Add(b, a)
  {
  }

  lemma AddAssociative(a: Vec2, b: Vec2, c: Vec2)
    ensures Add(Add(a, b), c) == Add(a, Add(b, c))
  {
  }

  /** Subtraction undoes addition, and the other way round. */
  lemma SubCancelsAdd(a: Vec2, b: Vec2)
    ensures Sub(Add(a, b), b) == a
    ensures Add(Sub(a, b), b) == a
  {
  }

  /** Scaling acts on both axes with the same factor and distributes over addition. */
  lemma ScaleUniform(a: Vec2, b: Vec2, k: real)
    ensures Scale(a, k).x == k * a.x && Scale(a, k).y == k * a.y
    ensures Scale(Add(a, b), k) == Add(Scale(a, k), Scale(b, k))
  {
  }

  /** Division by a non-zero factor undoes scaling by it. */
  lemma DivCancelsScale(v: Vec2, k: real)
    requires k != 0.0
    ensures Div(Scale(v, k), k) == v
  {
  }
}
