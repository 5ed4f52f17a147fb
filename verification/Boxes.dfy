/**
  Bounding boxes given by centre and size, and `_calculate_iou`.  Boxes are sets of integer
  cells here; the theorems say that the arithmetic of the code counts cells.
*/
module Boxes {

  datatype Point = Point(x: int, y: int)

  datatype Size = Size(width: int, height: int)

  // Floor division by two, as Python's `//`; Dafny's `/` agrees for a positive divisor.
  function Left(centre: Point, size: Size): int { centre.x - size.width / 2 }

  function Top(centre: Point, size: Size): int { centre.y - size.height / 2 }

  function Right(centre: Point, size: Size): int { Left(centre, size) + size.width }

  function Bottom(centre: Point, size: Size): int { Top(centre, size) + size.height }

  function MinInt(a: int, b: int): int { if b < a then b else a }

  function MaxInt(a: int, b: int): int { if b > a then b else a }

  /** `_calculate_iou`, with real division in place of floating point. */
  function Iou(centre1: Point, size1: Size, centre2: Point, size2: Size): real {
    var left := MaxInt(Left(centre1, size1), Left(centre2, size2));
    var top := MaxInt(Top(centre1, size1), Top(centre2, size2));
    var right := MinInt(Right(centre1, size1), Right(centre2, size2));
    var bottom := MinInt(Bottom(centre1, size1), Bottom(centre2, size2));
    if right < left || bottom < top then 0.0
    else
      var intersection := (right - left) * (bottom - top);
      var union := size1.width * size1.height + size2.width * size2.height - intersection;
      if union == 0 then 0.0 else intersection as real / union as real
  }

  // ---------- Cells ----------

  ghost function Rectangle(left: int, right: int, top: int, bottom: int): set<(int, int)> {
    set x, y | left <= x < right && top <= y < bottom :: (x, y)
  }

  /** The integer cells a box covers. */
  ghost function Cells(centre: Point, size: Size): set<(int, int)> {
    Rectangle(Left(centre, size), Right(centre, size), Top(centre, size), Bottom(centre, size))
  }

  /** A box is centred: its cells reach as far to one side as to the other, up to the odd column or row. */
  lemma CellsAreCentred(centre: Point, size: Size, x: int, y: int)
    ensures (x, y) in Cells(centre, size) <==>
            && -size.width <= 2 * (x - centre.x) - size.width % 2 < size.width
            && -size.height <= 2 * (y - centre.y) - size.height % 2 < size.height
  {
  }

  lemma {:induction false} ColumnCount(x: int, top: int, bottom: int)
    requires top <= bottom
    ensures |Rectangle(x, x + 1, top, bottom)| == bottom - top
    decreases bottom - top
  {
    if top == bottom {
      assert Rectangle(x, x + 1, top, bottom) == {};
    } else {
      ColumnCount(x, top, bottom - 1);
      assert Rectangle(x, x + 1, top, bottom) == Rectangle(x, x + 1, top, bottom - 1) + {(x, bottom - 1)};
    }
  }

  lemma {:induction false} RectangleCount(left: int, right: int, top: int, bottom: int)
    requires left <= right && top <= bottom
    ensures |Rectangle(left, right, top, bottom)| == (right - left) * (bottom - top)
    decreases right - left
  {
    if left == right {
      assert Rectangle(left, right, top, bottom) == {};
    } else {
      RectangleCount(left, right - 1, top, bottom);
      ColumnCount(right - 1, top, bottom);
      var rest, column := Rectangle(left, right - 1, top, bottom), Rectangle(right - 1, right, top, bottom);
      assert Rectangle(left, right, top, bottom) == rest + column;
      assert rest !! column;
      assert (right - left) * (bottom - top) == (right - 1 - left) * (bottom - top) + (bottom - top);
    }
  }

  predicate NonNegative(size: Size) { 0 <= size.width && 0 <= size.height }

  lemma CellCount(centre: Point, size: Size)
    requires NonNegative(size)
    ensures |Cells(centre, size)| == size.width * size.height
  {
    RectangleCount(Left(centre, size), Right(centre, size), Top(centre, size), Bottom(centre, size));
  }

  lemma CommonCells(c1: Point, s1: Size, c2: Point, s2: Size)
    ensures Cells(c1, s1) * Cells(c2, s2) ==
            Rectangle(MaxInt(Left(c1, s1), Left(c2, s2)), MinInt(Right(c1, s1), Right(c2, s2)),
                      MaxInt(Top(c1, s1), Top(c2, s2)), MinInt(Bottom(c1, s1), Bottom(c2, s2)))
  {
  }

  lemma NoCells(left: int, right: int, top: int, bottom: int)
    requires right < left || bottom < top
    ensures Rectangle(left, right, top, bottom) == {}
  {
  }

  /** The IoU is the number of cells in both boxes over the number of cells in either. */
  lemma IouCountsCells(c1: Point, s1: Size, c2: Point, s2: Size)
    requires NonNegative(s1) && NonNegative(s2)
    ensures var both, either := |Cells(c1, s1) * Cells(c2, s2)|, |Cells(c1, s1) + Cells(c2, s2)|;
            Iou(c1, s1, c2, s2) == if either == 0 then 0.0 else both as real / either as real
  {
    hide Rectangle, Cells;
    var left, right := MaxInt(Left(c1, s1), Left(c2, s2)), MinInt(Right(c1, s1), Right(c2, s2));
    var top, bottom := MaxInt(Top(c1, s1), Top(c2, s2)), MinInt(Bottom(c1, s1), Bottom(c2, s2));
    CommonCells(c1, s1, c2, s2);
    CellCount(c1, s1);
    CellCount(c2, s2);
    var a, b := Cells(c1, s1), Cells(c2, s2);
    assert |a + b| == |a| + |b| - |a * b|;
    if right < left || bottom < top {
      NoCells(left, right, top, bottom);
      assert |a * b| == 0;
    } else {
      RectangleCount(left, right, top, bottom);
    }
  }

  lemma IouSymmetric(c1: Point, s1: Size, c2: Point, s2: Size)
    ensures Iou(c1, s1, c2, s2) == Iou(c2, s2, c1, s1)
  {
  }

  lemma SubsetCount(a: set<(int, int)>, b: set<(int, int)>)
    requires a <= b
    ensures |a| <= |b|
    ensures |a| == |b| ==> a == b
  {
    assert b == a + (b - a);
  }

  /** A quotient of counts. */
  lemma RatioOfCounts(part: nat, whole: nat)
    requires part <= whole && 0 < whole
    ensures 0.0 <= part as real / whole as real <= 1.0
    ensures part as real / whole as real == 1.0 <==> part == whole
  {
    var q := part as real / whole as real;
    assert q * whole as real == part as real;
  }

  lemma SameCellsSameBox(c1: Point, s1: Size, c2: Point, s2: Size)
    requires 0 < s1.width && 0 < s1.height && NonNegative(s2)
    requires Cells(c1, s1) == Cells(c2, s2)
    ensures c1 == c2 && s1 == s2
  {
    var a, b := Cells(c1, s1), Cells(c2, s2);
    assert (Left(c1, s1), Top(c1, s1)) in b && (Right(c1, s1) - 1, Bottom(c1, s1) - 1) in b;
    assert (Left(c2, s2), Top(c2, s2)) in a && (Right(c2, s2) - 1, Bottom(c2, s2) - 1) in a;
  }

  /** The IoU lies in 0..1 and is 1 exactly for two non-empty boxes that coincide. */
  lemma IouRange(c1: Point, s1: Size, c2: Point, s2: Size)
    requires NonNegative(s1) && NonNegative(s2)
    ensures 0.0 <= Iou(c1, s1, c2, s2) <= 1.0
    ensures Iou(c1, s1, c2, s2) == 1.0 <==> c1 == c2 && s1 == s2 && 0 < s1.width && 0 < s1.height
  {
    hide Iou, Cells;
    IouCountsCells(c1, s1, c2, s2);
    CellCount(c1, s1);
    CellCount(c2, s2);
    var a, b := Cells(c1, s1), Cells(c2, s2);
    SubsetCount(a * b, a + b);
    if |a + b| != 0 {
      RatioOfCounts(|a * b|, |a + b|);
    }
    if Iou(c1, s1, c2, s2) == 1.0 {
      SameSets(a, b);
      CoincidingBoxes(c1, s1, c2, s2);
    } else if c1 == c2 && s1 == s2 && 0 < s1.width && 0 < s1.height {
      assert a * b == a && a + b == a;
      Positive(s1.width, s1.height);
    }
  }

  lemma Positive(w: int, h: int)
    requires 0 < w && 0 < h
    ensures 0 < w * h
  {
  }

  lemma SameSets(a: set<(int, int)>, b: set<(int, int)>)
    requires a * b == a + b
    ensures a == b
  {
    assert forall p :: p in a ==> p in a + b;
    assert forall p :: p in b ==> p in a + b;
  }

  lemma CoincidingBoxes(c1: Point, s1: Size, c2: Point, s2: Size)
    requires NonNegative(s1) && NonNegative(s2)
    requires Cells(c1, s1) == Cells(c2, s2) && |Cells(c1, s1)| != 0
    ensures c1 == c2 && s1 == s2 && 0 < s1.width && 0 < s1.height
  {
    var p :| p in Cells(c1, s1);
    SameCellsSameBox(c1, s1, c2, s2);
  }
}
