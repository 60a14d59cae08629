// Abstract views of the puzzle's two-dimensional arrays, indexed
// `[x, y]` as in the source: the set of cells, the set of starred cells,
// the colour map and the per-colour counts that `GetColorsCount` computes.
module Grids {
  import opened Coords
  import opened Instructions

  /** All cells of a width x height board. */
  function Cells(w: int, h: int): (s: set<Coord>)
    ensures forall c :: c in s <==> 0 <= c.x < w && 0 <= c.y < h
  {
    var s := set x, y | 0 <= x < w && 0 <= y < h :: Coord(x, y);
    assert forall c: Coord :: 0 <= c.x < w && 0 <= c.y < h ==> c in s by {
      forall c: Coord | 0 <= c.x < w && 0 <= c.y < h ensures c in s {
        assert c == Coord(c.x, c.y);
      }
    }
    s
  }

  /** The cells whose flag is set (the star grid, or the eaten-star mask). */
  ghost function TrueCells(a: array2<bool>): (s: set<Coord>)
    reads a
    ensures forall c :: c in s <==> 0 <= c.x < a.Length0 && 0 <= c.y < a.Length1 && a[c.x, c.y]
  {
    set c | c in Cells(a.Length0, a.Length1) && a[c.x, c.y]
  }

  /** The colour of every cell. */
  ghost function ColorMap(a: array2<FieldColor>): (m: map<Coord, FieldColor>)
    reads a
    ensures m.Keys == Cells(a.Length0, a.Length1)
    ensures forall c :: c in m ==> m[c] == a[c.x, c.y]
  {
    map c | c in Cells(a.Length0, a.Length1) :: a[c.x, c.y]
  }

  /** Sets or clears one flag of a boolean grid: the cell joins or leaves
      the set of flagged cells and no other flag changes. */
  method SetFlag(a: array2<bool>, c: Coord, value: bool)
    requires 0 <= c.x < a.Length0 && 0 <= c.y < a.Length1
    modifies a
    ensures TrueCells(a) == if value then old(TrueCells(a)) + {c} else old(TrueCells(a)) - {c}
    ensures a[c.x, c.y] == value
    ensures forall x, y :: 0 <= x < a.Length0 && 0 <= y < a.Length1 && (x != c.x || y != c.y) ==>
                             a[x, y] == old(a[x, y])
  {
    a[c.x, c.y] := value;
    assert TrueCells(a) == if value then old(TrueCells(a)) + {c} else old(TrueCells(a)) - {c};
  }

  /** Cells of `color` among the first `y` cells of line `x`. */
  ghost function CountInLine(a: array2<FieldColor>, color: FieldColor, x: int, y: int): (n: nat)
    reads a
    requires 0 <= x < a.Length0 && 0 <= y <= a.Length1
    ensures n <= y
  {
    if y == 0 then 0
    else CountInLine(a, color, x, y - 1) + (if a[x, y - 1] == color then 1 else 0)
  }

  /** Cells of `color` in the first `x` lines (all of them for x = Length0). */
  ghost function CountInLines(a: array2<FieldColor>, color: FieldColor, x: int): (n: nat)
    reads a
    requires 0 <= x <= a.Length0
  {
    if x == 0 then 0
    else CountInLines(a, color, x - 1) + CountInLine(a, color, x - 1, a.Length1)
  }

  /** The number of cells painted `color`. */
  ghost function CountColor(a: array2<FieldColor>, color: FieldColor): nat
    reads a
  {
    CountInLines(a, color, a.Length0)
  }

  lemma {:induction false} LineCountsBounded(a: array2<FieldColor>, x: int, y: int)
    requires 0 <= x < a.Length0 && 0 <= y <= a.Length1
    ensures CountInLine(a, FieldColor.Red, x, y) + CountInLine(a, FieldColor.Green, x, y)
            + CountInLine(a, FieldColor.Blue, x, y) <= y
  {
    if y > 0 {
      LineCountsBounded(a, x, y - 1);
    }
  }

  lemma {:induction false} LinesCountsBounded(a: array2<FieldColor>, x: int)
    requires 0 <= x <= a.Length0
    ensures CountInLines(a, FieldColor.Red, x) + CountInLines(a, FieldColor.Green, x)
            + CountInLines(a, FieldColor.Blue, x) <= x * a.Length1
  {
    if x > 0 {
      LinesCountsBounded(a, x - 1);
      LineCountsBounded(a, x - 1, a.Length1);
      assert (x - 1) * a.Length1 + a.Length1 == x * a.Length1;
    }
  }

  /** The painted cells of the three colours never outnumber the cells. */
  lemma ColorCountsBounded(a: array2<FieldColor>)
    ensures CountColor(a, FieldColor.Red) + CountColor(a, FieldColor.Green)
            + CountColor(a, FieldColor.Blue) <= a.Length0 * a.Length1
  {
    LinesCountsBounded(a, a.Length0);
  }

  /** The `foreach` of `GetColorsCount`: one pass over the grid, line by
      line, counting the cells of each of the three paints. */
  method CountColors(a: array2<FieldColor>) returns (red: int, green: int, blue: int)
    ensures red == CountColor(a, FieldColor.Red) && green == CountColor(a, FieldColor.Green)
    ensures blue == CountColor(a, FieldColor.Blue)
    ensures 0 <= red && 0 <= green && 0 <= blue && red + green + blue <= a.Length0 * a.Length1
  {
    red, green, blue := 0, 0, 0;
    for x := 0 to a.Length0
      invariant red == CountInLines(a, FieldColor.Red, x) && green == CountInLines(a, FieldColor.Green, x)
      invariant blue == CountInLines(a, FieldColor.Blue, x)
    {
      for y := 0 to a.Length1
        invariant red == CountInLines(a, FieldColor.Red, x) + CountInLine(a, FieldColor.Red, x, y)
        invariant green == CountInLines(a, FieldColor.Green, x) + CountInLine(a, FieldColor.Green, x, y)
        invariant blue == CountInLines(a, FieldColor.Blue, x) + CountInLine(a, FieldColor.Blue, x, y)
      {
        match a[x, y]
        case Red => red := red + 1;
        case Green => green := green + 1;
        case Blue => blue := blue + 1;
        case None =>
      }
    }
    ColorCountsBounded(a);
  }

  lemma SubsetCardinality<T>(a: set<T>, b: set<T>)
    requires a <= b
    ensures |a| <= |b|
  {
    assert b == a + (b - a);
  }

  /** A subset as large as its superset is the whole superset. */
  lemma SameCardinalitySubset<T>(a: set<T>, b: set<T>)
    requires a <= b && |a| == |b|
    ensures a == b
  {
    assert b == a + (b - a);
  }
}
