// The coordinate value type of the game model: a pair of 32-bit integers
// compared and hashed component by component.
module Coords {

  datatype Coord = Coord(x: int, y: int)

  /** `Coord.Zero`. */
  const Zero: Coord := Coord(0, 0)

  /** `Coord(x, y)`: keeps both components as given; the result is `Zero`
      exactly when both are 0. */
  function NewCoord(x: int, y: int): (c: Coord)
    ensures c.x == x && c.y == y
    ensures Equal(c, Zero) <==> x == 0 && y == 0
  {
    Coord(x, y)
  }

  /** An object reference as `Equals(object)` sees it. */
  datatype Boxed = Null | BoxedCoord(value: Coord) | OtherObject

  predicate IsInt32(v: int) {
    -0x8000_0000 <= v < 0x8000_0000
  }

  /** `operator ==`: compares X and Y, which is exactly value equality. */
  function Equal(a: Coord, b: Coord): (r: bool)
    ensures r <==> a == b
  {
    a.x == b.x && a.y == b.y
  }

  /** `operator !=`: the negation of `==`. */
  function NotEqual(a: Coord, b: Coord): (r: bool)
    ensures r <==> a != b
    ensures r == !Equal(a, b)
  {
    !Equal(a, b)
  }

  /** `Equals(object)`: false for null and for other types, else `==`. */
  function EqualsObject(c: Coord, obj: Boxed): (r: bool)
    ensures r <==> obj == BoxedCoord(c)
    ensures obj.Null? || obj.OtherObject? ==> !r
  {
    match obj
    case Null => false
    case OtherObject => false
    case BoxedCoord(other) => Equal(c, other)
  }

  /** The two's-complement bit pattern of a 32-bit integer (wraps other values). */
  function ToBits(v: int): bv32 {
    (v % 0x1_0000_0000) as bv32
  }

  /** The signed 32-bit integer with the given bit pattern. */
  function FromBits(b: bv32): (v: int)
    ensures IsInt32(v)
  {
    if b < 0x8000_0000 then b as int else b as int - 0x1_0000_0000
  }

  /** `GetHashCode`: X ^ Y on 32-bit integers. */
  function HashCode(c: Coord): (h: int)
    ensures IsInt32(h)
    ensures c.x == c.y ==> h == 0
  {
    FromBits(ToBits(c.x) ^ ToBits(c.y))
  }

  /** Equal coordinates hash alike, and the hash does not depend on the
      order of the components. */
  lemma HashCodeProperties(a: Coord, b: Coord)
    ensures Equal(a, b) ==> HashCode(a) == HashCode(b)
    ensures HashCode(a) == HashCode(Coord(a.y, a.x))
  {
    assert ToBits(a.x) ^ ToBits(a.y) == ToBits(a.y) ^ ToBits(a.x);
  }
}
