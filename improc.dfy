/** Padding, squaring and the bounding box of ocrolib/improc.py, on 2-D
    integer arrays. */
module ImProc {
  import opened Wrappers
  import opened PyOps
  import opened Boxes

  /** `out` holds `image` at offset (x0, y0) and zeros everywhere else. */
  ghost predicate Placed(out: array2<int>, image: array2<int>, x0: int, y0: int)
    reads out, image
  {
    forall i, j :: 0 <= i < out.Length0 && 0 <= j < out.Length1 ==>
      out[i, j] == if x0 <= i < x0 + image.Length0 && y0 <= j < y0 + image.Length1 then image[i - x0, j - y0] else 0
  }

  /** `zeros((rows, cols))` followed by the slice assignment
      `result[x0:x0+iw, y0:y0+ih] = image`. */
  method Place(image: array2<int>, rows: int, cols: int, x0: int, y0: int) returns (out: array2<int>)
    requires 0 <= x0 && x0 + image.Length0 <= rows && 0 <= y0 && y0 + image.Length1 <= cols
    ensures fresh(out) && out.Length0 == rows && out.Length1 == cols
    ensures Placed(out, image, x0, y0)
  {
    out := new int[rows, cols]((_, _) => 0);
    forall i, j | 0 <= i < image.Length0 && 0 <= j < image.Length1 {
      out[x0 + i, y0 + j] := image[i, j];
    }
  }

  /** `pad_to`: pads to shape (w, h), splitting each margin in half with
      the smaller half before the image. */
  method PadTo(image: array2<int>, w: int, h: int) returns (r: Result<array2<int>>)
    ensures w < image.Length0 ==> r == Err(AssertionError("wd>=0"))
    ensures w >= image.Length0 && h < image.Length1 ==> r == Err(AssertionError("hd>=0"))
    ensures w >= image.Length0 && h >= image.Length1 ==>
      r.Ok? && fresh(r.value) && r.value.Length0 == w && r.value.Length1 == h &&
      Placed(r.value, image, (w - image.Length0) / 2, (h - image.Length1) / 2)
  {
    var wd := w - image.Length0;
    if wd < 0 {
      return Err(AssertionError("wd>=0"));
    }
    var w0 := wd / 2;
    var hd := h - image.Length1;
    if hd < 0 {
      return Err(AssertionError("hd>=0"));
    }
    var h0 := hd / 2;
    var out := Place(image, w, h, w0, h0);
    return Ok(out);
  }

  /** `pad_by`: a margin of r on every side. */
  method PadBy(image: array2<int>, r: int) returns (res: Result<array2<int>>)
    ensures r < 0 ==> res == Err(ValueError)
    ensures r >= 0 ==>
      res.Ok? && fresh(res.value) &&
      res.value.Length0 == image.Length0 + 2 * r && res.value.Length1 == image.Length1 + 2 * r &&
      Placed(res.value, image, r, r)
  {
    if r < 0 {
      return Err(ValueError);
    }
    var out := Place(image, image.Length0 + 2 * r, image.Length1 + 2 * r, r, r);
    return Ok(out);
  }

  /** `r*int((n+r-1)/r)`, the bin size of `pad_bin` for a dimension n. */
  function BinSize(n: int, r: int): int
    requires r != 0
  {
    r * FloorDiv(n + r - 1, r)
  }

  /** m is a multiple of r that holds a dimension n. */
  predicate Fits(m: int, n: int, r: int)
    requires r > 0
  {
    m >= n && m % r == 0
  }

  /** For positive r the bin size is the smallest multiple of r that is at
      least n, and exceeds n by less than r. */
  lemma BinSizeOf(n: int, r: int)
    requires r > 0
    ensures Fits(BinSize(n, r), n, r)
    ensures BinSize(n, r) - n < r
    ensures forall m :: Fits(m, n, r) ==> BinSize(n, r) <= m
  {
    var q := FloorDiv(n + r - 1, r);
    assert BinSize(n, r) == q * r;
    LemmaMulMod(q, r);
    forall m | Fits(m, n, r) ensures q * r <= m {
      var k := m / r;
      assert m == k * r;
      if k < q {
        LemmaMulLe(k, q - 1, r);
      }
    }
  }

  /** For negative r the bin size falls below any non-negative n, so
      `pad_to` refuses it. */
  lemma BinSizeNegative(n: nat, r: int)
    requires r < 0
    ensures BinSize(n, r) < n
  {
    var q := FloorDiv(n + r - 1, r);
    assert q * r + r < n + r - 1;
  }

  lemma LemmaMulMod(q: int, r: int)
    requires r > 0
    ensures (q * r) % r == 0
  {
    LemmaDivModUnique(q * r, r, q, 0);
  }

  lemma LemmaMulLe(a: int, b: int, r: int)
    requires a <= b && r > 0
    ensures a * r <= b * r
  {
  }

  /** `pad_bin`: pads each dimension up to its bin size. */
  method PadBin(image: array2<int>, r: int) returns (res: Result<array2<int>>)
    ensures r == 0 ==> res == Err(ZeroDivisionError)
    ensures r > 0 ==>
      res.Ok? && fresh(res.value) &&
      res.value.Length0 == BinSize(image.Length0, r) && res.value.Length1 == BinSize(image.Length1, r) &&
      Placed(res.value, image, (BinSize(image.Length0, r) - image.Length0) / 2,
                               (BinSize(image.Length1, r) - image.Length1) / 2)
    ensures r < 0 ==> res == Err(AssertionError("wd>=0"))
  {
    if r == 0 {
      return Err(ZeroDivisionError);
    }
    var w := BinSize(image.Length0, r);
    var h := BinSize(image.Length1, r);
    if r > 0 {
      BinSizeOf(image.Length0, r);
      BinSizeOf(image.Length1, r);
    } else {
      BinSizeNegative(image.Length0, r);
    }
    res := PadTo(image, w, h);
  }

  /** `square`: pads the shorter side so that both are max(w, h). */
  method Square(image: array2<int>) returns (out: array2<int>)
    ensures fresh(out)
    ensures out.Length0 == out.Length1 == Max(image.Length0, image.Length1)
    ensures Placed(out, image, (out.Length0 - image.Length0) / 2, (out.Length1 - image.Length1) / 2)
  {
    var r := Max(image.Length0, image.Length1);
    var dx := (r - image.Length0) / 2;
    var dy := (r - image.Length1) / 2;
    out := Place(image, r, r, dx, dy);
  }

  /** `bbox` orders its tuple (row0, col0, row1, col1). */
  datatype Corners = Corners(row0: int, col0: int, row1: int, col1: int)

  /** `bbox`: the tight box of the nonzero pixels, or None when there are
      none. The mask `array(image!=0,'uint32')` is returned as a ghost so
      that the contract can name it. */
  method Bbox(image: array2<int>) returns (r: Option<Corners>, ghost mask: array2<int>)
    ensures fresh(mask) && mask.Length0 == image.Length0 && mask.Length1 == image.Length1
    ensures forall i, j :: 0 <= i < image.Length0 && 0 <= j < image.Length1 ==>
      mask[i, j] == if image[i, j] != 0 then 1 else 0
    ensures r == match LabelExtent(mask, 1)
                 case None => None
                 case Some(b) => Some(Corners(b.r0, b.c0, b.r1, b.c1))
  {
    var m := new int[image.Length0, image.Length1]((i, j) reads image =>
      if 0 <= i < image.Length0 && 0 <= j < image.Length1 && image[i, j] != 0 then 1 else 0);
    mask := m;
    var cs := FindObjects(m);
    if |cs| < 1 {
      LabelExtentTight(m, 1);
      return None, mask;
    }
    var c := cs[0];
    match c
    case None =>
      return None, mask;
    case Some(b) =>
      return Some(Corners(b.r0, b.c0, b.r1, b.c1)), mask;
  }

  /** Row r of the image has a nonzero pixel. */
  ghost predicate NonzeroRow(image: array2<int>, r: int)
    reads image
  {
    exists j :: 0 <= r < image.Length0 && 0 <= j < image.Length1 && image[r, j] != 0
  }

  /** Column c of the image has a nonzero pixel. */
  ghost predicate NonzeroCol(image: array2<int>, c: int)
    reads image
  {
    exists i :: 0 <= i < image.Length0 && 0 <= c < image.Length1 && image[i, c] != 0
  }

  /** The box `bbox` reports holds every nonzero pixel, and each of its
      four sides touches one; None means the image is all zero. */
  lemma BboxTight(image: array2<int>, mask: array2<int>)
    requires mask.Length0 == image.Length0 && mask.Length1 == image.Length1
    requires forall i, j :: 0 <= i < image.Length0 && 0 <= j < image.Length1 ==>
      mask[i, j] == if image[i, j] != 0 then 1 else 0
    ensures LabelExtent(mask, 1).None? <==>
      forall i, j :: 0 <= i < image.Length0 && 0 <= j < image.Length1 ==> image[i, j] == 0
    ensures LabelExtent(mask, 1).Some? ==>
      var b := LabelExtent(mask, 1).value;
      && (forall i, j :: 0 <= i < image.Length0 && 0 <= j < image.Length1 && image[i, j] != 0 ==> HasPixel(b, i, j))
      && NonzeroRow(image, b.r0) && NonzeroRow(image, b.r1 - 1)
      && NonzeroCol(image, b.c0) && NonzeroCol(image, b.c1 - 1)
  {
    LabelExtentTight(mask, 1);
    assert forall i, j :: At(mask, i, j, 1) <==> 0 <= i < image.Length0 && 0 <= j < image.Length1 && image[i, j] != 0;
    var e := LabelExtent(mask, 1);
    if e.Some? {
      var b := e.value;
      var j0 :| At(mask, b.r0, j0, 1);
      var j1 :| At(mask, b.r1 - 1, j1, 1);
      var i0 :| At(mask, i0, b.c0, 1);
      var i1 :| At(mask, i1, b.c1 - 1, 1);
    }
  }
}
