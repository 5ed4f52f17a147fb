/**
  `_trim_transparent_pixels` on the decoded image: crop a picture with an alpha channel to the
  box of its visible pixels.  PNG encoding is taken to be lossless, so the picture stands for its
  bytes; background compositing is switched off in the configuration and not modelled.
*/
module TransparentTrim {

  datatype Pixel = Pixel(blue: nat, green: nat, red: nat, alpha: nat)

  type Image = seq<seq<Pixel>>

  /** What decoding the bytes can give. */
  datatype Picture = Unreadable | WithoutAlpha(bytes: seq<nat>) | WithAlpha(image: Image)

  /** Rows `top..bottom`, columns `left..right`, upper bounds exclusive. */
  datatype Box = Box(top: nat, bottom: nat, left: nat, right: nat)

  const MIN_ICON_SIZE := 10

  function Width(img: Image): nat { if |img| == 0 then 0 else |img[0]| }

  predicate Rectangular(img: Image) {
    forall r :: 0 <= r < |img| ==> |img[r]| == Width(img)
  }

  predicate Visible(img: Image, r: int, c: int)
    requires Rectangular(img)
  {
    0 <= r < |img| && 0 <= c < Width(img) && img[r][c].alpha > 0
  }

  // ---------- The computation ----------

  predicate RowVisible(img: Image, r: int)
    requires Rectangular(img)
  {
    exists c :: 0 <= c < Width(img) && Visible(img, r, c)
  }

  predicate ColumnVisible(img: Image, c: int)
    requires Rectangular(img)
  {
    exists r :: 0 <= r < |img| && Visible(img, r, c)
  }

  /** `np.any(alpha > 0, axis=1)`. */
  function RowMask(img: Image): seq<bool>
    requires Rectangular(img)
  {
    seq(|img|, r => RowVisible(img, r))
  }

  /** `np.any(alpha > 0, axis=0)`. */
  function ColumnMask(img: Image): seq<bool>
    requires Rectangular(img)
  {
    seq(Width(img), c => ColumnVisible(img, c))
  }

  /** `np.where(mask)[0]`: the indices of the true entries, ascending. */
  function Where(mask: seq<bool>): seq<nat> {
    if |mask| == 0 then []
    else Where(mask[..|mask| - 1]) + if mask[|mask| - 1] then [|mask| - 1] else []
  }

  function ContentBox(img: Image): Box
    requires Rectangular(img) && Where(RowMask(img)) != [] && Where(ColumnMask(img)) != []
  {
    var rows, columns := Where(RowMask(img)), Where(ColumnMask(img));
    Box(rows[0], rows[|rows| - 1] + 1, columns[0], columns[|columns| - 1] + 1)
  }

  function Crop(img: Image, box: Box): Image
    requires Rectangular(img) && Fits(box, img)
  {
    seq(box.bottom - box.top, r requires 0 <= r < box.bottom - box.top => img[box.top + r][box.left..box.right])
  }

  predicate Fits(box: Box, img: Image) {
    box.top <= box.bottom <= |img| && box.left <= box.right <= Width(img)
  }

  const MinimalImage: Image := [[Pixel(0, 0, 0, 0)]]

  function TrimImage(img: Image): Image
    requires Rectangular(img)
  {
    if Where(RowMask(img)) == [] || Where(ColumnMask(img)) == [] then MinimalImage
    else
      var box := ContentBox(img);
      WhereExtremes(RowMask(img));
      WhereExtremes(ColumnMask(img));
      if box.bottom - box.top < MIN_ICON_SIZE || box.right - box.left < MIN_ICON_SIZE then img
      else if box == Box(0, |img|, 0, Width(img)) then img
      else Crop(img, box)
  }

  function Trim(p: Picture): Picture
    requires p.WithAlpha? ==> Rectangular(p.image)
  {
    match p
    case Unreadable => p
    case WithoutAlpha(_) => p
    case WithAlpha(img) => WithAlpha(TrimImage(img))
  }

  // ---------- Masks and boxes ----------

  /** The first and last index found by `Where` are the least and greatest true positions. */
  lemma {:induction false} WhereExtremes(mask: seq<bool>)
    ensures Where(mask) == [] <==> forall i :: 0 <= i < |mask| ==> !mask[i]
    ensures Where(mask) != [] ==>
              var first, last := Where(mask)[0], Where(mask)[|Where(mask)| - 1];
              && first <= last < |mask| && mask[first] && mask[last]
              && (forall i :: 0 <= i < |mask| && mask[i] ==> first <= i <= last)
  {
    if |mask| != 0 {
      WhereExtremes(mask[..|mask| - 1]);
    }
  }

  ghost predicate Transparent(img: Image)
    requires Rectangular(img)
  {
    forall r, c :: !Visible(img, r, c)
  }

  lemma TransparentMasks(img: Image)
    requires Rectangular(img)
    ensures Transparent(img) <==> Where(RowMask(img)) == []
    ensures Transparent(img) <==> Where(ColumnMask(img)) == []
  {
    WhereExtremes(RowMask(img));
    WhereExtremes(ColumnMask(img));
    if !Transparent(img) {
      var r, c :| Visible(img, r, c);
      assert RowMask(img)[r] && ColumnMask(img)[c];
    }
  }

  ghost predicate Contains(box: Box, img: Image)
    requires Rectangular(img)
  {
    forall r, c :: Visible(img, r, c) ==> box.top <= r < box.bottom && box.left <= c < box.right
  }

  /** The computed box fits the image, contains every visible pixel and lies inside every box that does. */
  lemma BoxIsTight(img: Image, other: Box)
    requires Rectangular(img) && !Transparent(img)
    ensures Where(RowMask(img)) != [] && Where(ColumnMask(img)) != []
    ensures var box := ContentBox(img);
            && Fits(box, img) && Contains(box, img)
            && (Contains(other, img) ==> other.top <= box.top && box.bottom <= other.bottom &&
                                         other.left <= box.left && box.right <= other.right)
  {
    TransparentMasks(img);
    var box := ContentBox(img);
    WhereExtremes(RowMask(img));
    WhereExtremes(ColumnMask(img));
    forall r, c | Visible(img, r, c)
      ensures box.top <= r < box.bottom && box.left <= c < box.right
    {
      assert RowMask(img)[r] && ColumnMask(img)[c];
    }
    assert RowMask(img)[box.top] && RowMask(img)[box.bottom - 1];
    assert ColumnMask(img)[box.left] && ColumnMask(img)[box.right - 1];
    var c1 :| Visible(img, box.top, c1);
    var c2 :| Visible(img, box.bottom - 1, c2);
    var r1 :| Visible(img, r1, box.left);
    var r2 :| Visible(img, r2, box.right - 1);
  }

  /** The image is at least the minimum size within its box, and the box is not already the whole image. */
  predicate Crops(img: Image)
    requires Rectangular(img)
  {
    Where(RowMask(img)) != [] && Where(ColumnMask(img)) != [] &&
    var box := ContentBox(img);
    box.bottom - box.top >= MIN_ICON_SIZE && box.right - box.left >= MIN_ICON_SIZE &&
    box != Box(0, |img|, 0, Width(img))
  }

  /** `t` is the part of `img` inside `box`, shifted to the origin, and the rest of `img` is transparent. */
  ghost predicate HoldsContent(t: Image, img: Image, box: Box)
    requires Rectangular(img) && Rectangular(t)
  {
    && Fits(box, img) && |t| == box.bottom - box.top && (|t| > 0 ==> Width(t) == box.right - box.left)
    && (forall r, c :: 0 <= r < |t| && 0 <= c < Width(t) ==> t[r][c] == img[box.top + r][box.left + c])
    && (forall r, c :: Visible(img, r, c) <==> Visible(t, r - box.top, c - box.left))
  }

  lemma CropHoldsContent(img: Image, box: Box)
    requires Rectangular(img) && Fits(box, img) && Contains(box, img)
    ensures Rectangular(Crop(img, box)) && HoldsContent(Crop(img, box), img, box)
  {
    var t := Crop(img, box);
    forall r, c
      ensures Visible(img, r, c) <==> Visible(t, r - box.top, c - box.left)
    {
      if 0 <= r - box.top < |t| && 0 <= c - box.left < Width(t) {
        assert t[r - box.top][c - box.left] == img[r][c];
      }
    }
  }

  /**
    Trimming keeps every pixel inside the box, shifted to the origin, and drops only transparent
    ones; every visible pixel survives.  Where it does not crop, the picture is unchanged, except
    that a fully transparent one becomes a single transparent pixel.
  */
  lemma TrimKeepsContent(img: Image)
    requires Rectangular(img)
    ensures Rectangular(TrimImage(img))
    ensures Transparent(img) ==> TrimImage(img) == MinimalImage
    ensures !Transparent(img) && !Crops(img) ==> TrimImage(img) == img
    ensures Crops(img) ==> HoldsContent(TrimImage(img), img, ContentBox(img))
  {
    hide Where, RowMask, ColumnMask, ContentBox, HoldsContent, Contains, Crop;
    TransparentMasks(img);
    if Crops(img) {
      var box := ContentBox(img);
      BoxIsTight(img, box);
      CropHoldsContent(img, box);
    }
  }

  // ---------- In terms of alpha values alone ----------

  ghost predicate HasAlpha(row: seq<Pixel>) { exists c :: 0 <= c < |row| && row[c].alpha > 0 }

  /** The box lies in the image, holds every pixel with a positive alpha value, and has one on each of its sides. */
  ghost predicate TightByAlpha(img: Image, box: Box) {
    && box.top < box.bottom <= |img| && box.left < box.right && (forall r :: 0 <= r < |img| ==> box.right <= |img[r]|)
    && (forall r, c :: 0 <= r < |img| && 0 <= c < |img[r]| && img[r][c].alpha > 0 ==>
          box.top <= r < box.bottom && box.left <= c < box.right)
    && HasAlpha(img[box.top])
    && HasAlpha(img[box.bottom - 1])
    && (exists r :: 0 <= r < |img| && img[r][box.left].alpha > 0)
    && (exists r :: 0 <= r < |img| && img[r][box.right - 1].alpha > 0)
  }

  lemma TightIsContentBox(img: Image, box: Box)
    requires Rectangular(img) && TightByAlpha(img, box)
    ensures !Transparent(img) && Where(RowMask(img)) != [] && Where(ColumnMask(img)) != []
    ensures ContentBox(img) == box
  {
    hide Where, RowMask, ColumnMask, ContentBox;
    var c1 :| 0 <= c1 < |img[box.top]| && img[box.top][c1].alpha > 0;
    var c2 :| 0 <= c2 < |img[box.bottom - 1]| && img[box.bottom - 1][c2].alpha > 0;
    var r1 :| 0 <= r1 < |img| && img[r1][box.left].alpha > 0;
    var r2 :| 0 <= r2 < |img| && img[r2][box.right - 1].alpha > 0;
    assert Visible(img, box.top, c1) && Visible(img, box.bottom - 1, c2);
    assert Visible(img, r1, box.left) && Visible(img, r2, box.right - 1);
    BoxIsTight(img, box);
  }

  /** Unless no pixel is visible there is such a box. */
  lemma TightBoxExists(img: Image) returns (box: Box)
    requires Rectangular(img)
    requires exists r, c :: 0 <= r < |img| && 0 <= c < |img[r]| && img[r][c].alpha > 0
    ensures TightByAlpha(img, box)
  {
    hide Where, RowMask, ColumnMask, ContentBox;
    var r, c :| 0 <= r < |img| && 0 <= c < |img[r]| && img[r][c].alpha > 0;
    assert Visible(img, r, c);
    TransparentMasks(img);
    box := ContentBox(img);
    BoxIsTight(img, box);
    BoxEdges(img);
    var c1 :| Visible(img, box.top, c1);
    var c2 :| Visible(img, box.bottom - 1, c2);
    var r1 :| Visible(img, r1, box.left);
    var r2 :| Visible(img, r2, box.right - 1);
    forall r, c | 0 <= r < |img| && 0 <= c < |img[r]| && img[r][c].alpha > 0
      ensures box.top <= r < box.bottom && box.left <= c < box.right
    {
      assert Visible(img, r, c);
    }
  }

  /**
    An image with a tight box that is at least ten by ten is cut down to that box, pixel by pixel; with
    a smaller box it stays; without a visible pixel it becomes one transparent pixel.
  */
  lemma TrimByAlpha(img: Image, box: Box)
    requires Rectangular(img)
    ensures (forall r, c :: 0 <= r < |img| && 0 <= c < |img[r]| ==> img[r][c].alpha == 0) ==>
              TrimImage(img) == [[Pixel(0, 0, 0, 0)]]
    ensures TightByAlpha(img, box) && (box.bottom - box.top < 10 || box.right - box.left < 10) ==> TrimImage(img) == img
    ensures TightByAlpha(img, box) && box.bottom - box.top >= 10 && box.right - box.left >= 10 ==>
              && |TrimImage(img)| == box.bottom - box.top
              && forall r :: 0 <= r < box.bottom - box.top ==>
                   TrimImage(img)[r] == img[box.top + r][box.left..box.right]
  {
    hide Where, RowMask, ColumnMask, ContentBox, TightByAlpha;
    TransparentMasks(img);
    if TightByAlpha(img, box) {
      TightIsContentBox(img, box);
    } else if forall r, c :: 0 <= r < |img| && 0 <= c < |img[r]| ==> img[r][c].alpha == 0 {
      assert Transparent(img);
    }
    if r, c :| 0 <= r < |img| && 0 <= c < |img[r]| && img[r][c].alpha > 0 {
      assert Visible(img, r, c);
    }
  }

  /** A picture without alpha, or one that cannot be read, is handed back. */
  lemma OnlyAlphaIsTrimmed(p: Picture)
    requires p.WithAlpha? ==> Rectangular(p.image)
    ensures !p.WithAlpha? ==> Trim(p) == p
    ensures p.WithAlpha? ==> Trim(p).WithAlpha? && Trim(p).image == TrimImage(p.image)
  {
  }

  /** Trimming a second time changes nothing, in every case. */
  lemma TrimIdempotent(img: Image)
    requires Rectangular(img)
    ensures Rectangular(TrimImage(img)) && TrimImage(TrimImage(img)) == TrimImage(img)
  {
    hide Where, RowMask, ColumnMask;
    TrimKeepsContent(img);
    var t := TrimImage(img);
    TrimKeepsContent(t);
    if Transparent(img) {
      MinimalIsTransparent();
    } else if Crops(img) {
      var box := ContentBox(img);
      BoxIsTight(img, box);
      CroppedTouchesEdges(img);
    }
  }

  lemma MinimalIsTransparent()
    ensures Rectangular(MinimalImage) && Transparent(MinimalImage)
  {
  }

  lemma CroppedTouchesEdges(img: Image)
    requires Rectangular(img) && Crops(img)
    ensures Rectangular(TrimImage(img)) && !Transparent(TrimImage(img)) && !Crops(TrimImage(img))
  {
    hide Where, RowMask, ColumnMask, Contains, TrimImage, ContentBox;
    var t, box := TrimImage(img), ContentBox(img);
    TransparentMasks(img);
    TrimKeepsContent(img);
    BoxEdges(img);
    var r, c :| Visible(img, r, c);
    assert Visible(t, r - box.top, c - box.left);
    TransparentMasks(t);
    BoxIsTight(t, ContentBox(t));
    BoxEdgesShifted(img, t, box);
  }

  lemma BoxEdges(img: Image)
    requires Rectangular(img) && Where(RowMask(img)) != [] && Where(ColumnMask(img)) != []
    ensures var box := ContentBox(img);
            && !Transparent(img)
            && RowVisible(img, box.top) && RowVisible(img, box.bottom - 1)
            && ColumnVisible(img, box.left) && ColumnVisible(img, box.right - 1)
  {
    TransparentMasks(img);
    WhereExtremes(RowMask(img));
    WhereExtremes(ColumnMask(img));
    var box := ContentBox(img);
    assert RowMask(img)[box.top] && RowMask(img)[box.bottom - 1];
    assert ColumnMask(img)[box.left] && ColumnMask(img)[box.right - 1];
  }

  lemma BoxEdgesShifted(img: Image, t: Image, box: Box)
    requires Rectangular(img) && Rectangular(t)
    requires HoldsContent(t, img, box)
    requires Where(RowMask(t)) != [] && Where(ColumnMask(t)) != []
    requires RowVisible(img, box.top) && RowVisible(img, box.bottom - 1)
    requires ColumnVisible(img, box.left) && ColumnVisible(img, box.right - 1)
    requires Fits(ContentBox(t), t) && Contains(ContentBox(t), t)
    ensures ContentBox(t) == Box(0, |t|, 0, Width(t))
  {
    hide Where, RowMask, ColumnMask;
    var inner := ContentBox(t);
    var c1 :| Visible(img, box.top, c1);
    var c2 :| Visible(img, box.bottom - 1, c2);
    var r1 :| Visible(img, r1, box.left);
    var r2 :| Visible(img, r2, box.right - 1);
    assert Visible(t, 0, c1 - box.left) && Visible(t, |t| - 1, c2 - box.left);
    assert Visible(t, r1 - box.top, 0) && Visible(t, r2 - box.top, Width(t) - 1);
  }

  /** A fully transparent image is returned as it was exactly when it is the minimal one already. */
  lemma TransparentReturnedIffMinimal(img: Image)
    requires Rectangular(img) && Transparent(img)
    ensures TrimImage(img) == img <==> img == MinimalImage
  {
    TransparentMasks(img);
  }

  /** Two transparent pixels are not returned as they were. */
  lemma TransparentReplaced()
    ensures var img := [[Pixel(0, 0, 0, 0), Pixel(0, 0, 0, 0)]];
            Rectangular(img) && Transparent(img) && TrimImage(img) == MinimalImage && TrimImage(img) != img
  {
    var img := [[Pixel(0, 0, 0, 0), Pixel(0, 0, 0, 0)]];
    assert |img[0]| != |MinimalImage[0]|;
    TransparentMasks(img);
    TransparentReturnedIffMinimal(img);
  }

  lemma TrimPictureIdempotent(p: Picture)
    requires p.WithAlpha? ==> Rectangular(p.image)
    ensures Trim(p).WithAlpha? ==> Rectangular(Trim(p).image)
    ensures Trim(Trim(p)) == Trim(p)
  {
    if p.WithAlpha? {
      TrimIdempotent(p.image);
    }
  }
}
