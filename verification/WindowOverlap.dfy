/** Whether a window meets a raster's extent under an affine geotransform. */
module WindowOverlap {
  import opened Reals

  /** GDAL's six coefficients: pixel (x, y) lies at (g0 + x g1 + y g2, g3 + x g4 + y g5). */
  datatype Geotransform = Geotransform(g0: real, g1: real, g2: real, g3: real, g4: real, g5: real)

  /** A window by two opposite corners, in whichever order. */
  datatype Window = Window(ulx: real, uly: real, lrx: real, lry: real)

  function Along(origin: real, x: real, dx: real, y: real, dy: real): real {
    origin + Times(x, dx) + Times(y, dy)
  }

  function AtX(gt: Geotransform, x: real, y: real): real {
    Along(gt.g0, x, gt.g1, y, gt.g2)
  }

  function AtY(gt: Geotransform, x: real, y: real): real {
    Along(gt.g3, x, gt.g4, y, gt.g5)
  }

  function Min(a: real, b: real): real {
    if a <= b then a else b
  }

  function Max(a: real, b: real): real {
    if a >= b then a else b
  }

  /** The least of one coordinate over the four corners of a `w` by `h` raster. */
  function Low(origin: real, w: real, dx: real, h: real, dy: real): real {
    Min(Min(Along(origin, 0.0, dx, 0.0, dy), Along(origin, w, dx, 0.0, dy)),
        Min(Along(origin, 0.0, dx, h, dy), Along(origin, w, dx, h, dy)))
  }

  function High(origin: real, w: real, dx: real, h: real, dy: real): real {
    Max(Max(Along(origin, 0.0, dx, 0.0, dy), Along(origin, w, dx, 0.0, dy)),
        Max(Along(origin, 0.0, dx, h, dy), Along(origin, w, dx, h, dy)))
  }

  predicate WindowOverlaps(win: Window, gt: Geotransform, w: nat, h: nat) {
    var width, height := w as real, h as real;
    && Min(win.ulx, win.lrx) < High(gt.g0, width, gt.g1, height, gt.g2)
    && Max(win.ulx, win.lrx) > Low(gt.g0, width, gt.g1, height, gt.g2)
    && Min(win.uly, win.lry) < High(gt.g3, width, gt.g4, height, gt.g5)
    && Max(win.uly, win.lry) > Low(gt.g3, width, gt.g4, height, gt.g5)
  }

  // The corners bound the raster

  /** A multiple of `d` up to `n d` lies between 0 and `n d`. */
  lemma {:induction false} Between(x: real, n: real, d: real)
    requires 0.0 <= x <= n
    ensures Min(0.0, Times(n, d)) <= Times(x, d) <= Max(0.0, Times(n, d))
  {
    if d >= 0.0 {
      assert 0.0 <= x * d <= n * d;
    } else {
      assert n * d <= x * d <= 0.0;
    }
  }

  lemma {:induction false} CornersBound(origin: real, x: real, w: real, dx: real, y: real, h: real, dy: real)
    requires 0.0 <= x <= w && 0.0 <= y <= h
    ensures Low(origin, w, dx, h, dy) <= Along(origin, x, dx, y, dy) <= High(origin, w, dx, h, dy)
  {
    Between(x, w, dx);
    Between(y, h, dy);
    assert Times(0.0, dx) == 0.0 && Times(0.0, dy) == 0.0;
  }

  predicate OnRaster(x: real, y: real, w: nat, h: nat) {
    0.0 <= x <= w as real && 0.0 <= y <= h as real
  }

  /** Where a raster point lies, in GDAL's coefficients. */
  lemma {:induction false} ImageOf(gt: Geotransform, x: real, y: real)
    ensures AtX(gt, x, y) == gt.g0 + x * gt.g1 + y * gt.g2
    ensures AtY(gt, x, y) == gt.g3 + x * gt.g4 + y * gt.g5
  {}

  /** The image of some raster point is beyond `p` in one coordinate. */
  ghost predicate Beyond(origin: real, dx: real, dy: real, w: nat, h: nat, p: real) {
    exists x: real, y: real :: OnRaster(x, y, w, h) && Along(origin, x, dx, y, dy) > p
  }

  ghost predicate Short(origin: real, dx: real, dy: real, w: nat, h: nat, p: real) {
    exists x: real, y: real :: OnRaster(x, y, w, h) && Along(origin, x, dx, y, dy) < p
  }

  lemma {:induction false} Extremes(origin: real, dx: real, dy: real, w: nat, h: nat, p: real)
    ensures Beyond(origin, dx, dy, w, h, p) <==> High(origin, w as real, dx, h as real, dy) > p
    ensures Short(origin, dx, dy, w, h, p) <==> Low(origin, w as real, dx, h as real, dy) < p
  {
    var width, height := w as real, h as real;
    assert OnRaster(0.0, 0.0, w, h) && OnRaster(width, 0.0, w, h) && OnRaster(0.0, height, w, h)
      && OnRaster(width, height, w, h);
    forall x: real, y: real | OnRaster(x, y, w, h)
      ensures Low(origin, width, dx, height, dy) <= Along(origin, x, dx, y, dy) <= High(origin, width, dx, height, dy)
    {
      CornersBound(origin, x, width, dx, y, height, dy);
    }
  }

  /** Under any geotransform the test is whether the raster reaches past each of the window's four
      edges. */
  lemma {:induction false} OverlapExactly(win: Window, gt: Geotransform, w: nat, h: nat)
    ensures WindowOverlaps(win, gt, w, h) <==>
      && Beyond(gt.g0, gt.g1, gt.g2, w, h, if win.ulx <= win.lrx then win.ulx else win.lrx)
      && Short(gt.g0, gt.g1, gt.g2, w, h, if win.ulx <= win.lrx then win.lrx else win.ulx)
      && Beyond(gt.g3, gt.g4, gt.g5, w, h, if win.uly <= win.lry then win.uly else win.lry)
      && Short(gt.g3, gt.g4, gt.g5, w, h, if win.uly <= win.lry then win.lry else win.uly)
  {
    Extremes(gt.g0, gt.g1, gt.g2, w, h, Min(win.ulx, win.lrx));
    Extremes(gt.g0, gt.g1, gt.g2, w, h, Max(win.ulx, win.lrx));
    Extremes(gt.g3, gt.g4, gt.g5, w, h, Min(win.uly, win.lry));
    Extremes(gt.g3, gt.g4, gt.g5, w, h, Max(win.uly, win.lry));
  }

  /** Rotated, sheared or flipped, a raster with any point strictly inside the window overlaps it. */
  lemma {:induction false} InsidePointOverlaps(win: Window, gt: Geotransform, w: nat, h: nat, x: real, y: real)
    requires OnRaster(x, y, w, h)
    requires var px := gt.g0 + x * gt.g1 + y * gt.g2; win.ulx < px < win.lrx || win.lrx < px < win.ulx
    requires var py := gt.g3 + x * gt.g4 + y * gt.g5; win.uly < py < win.lry || win.lry < py < win.uly
    ensures WindowOverlaps(win, gt, w, h)
  {
    ImageOf(gt, x, y);
    CornersBound(gt.g0, x, w as real, gt.g1, y, h as real, gt.g2);
    CornersBound(gt.g3, x, w as real, gt.g4, y, h as real, gt.g5);
  }

  // Shared area, on an axis-aligned grid

  /** The point is the image of a raster point. */
  ghost predicate Covered(gt: Geotransform, w: nat, h: nat, px: real, py: real) {
    exists x: real, y: real :: AtX(gt, x, y) == px && AtY(gt, x, y) == py && OnRaster(x, y, w, h)
  }

  /** The box has area and lies in the window and in the raster's image. */
  ghost predicate Shared(win: Window, gt: Geotransform, w: nat, h: nat, left: real, right: real, bottom: real,
                         top: real)
  {
    && left < right && bottom < top
    && Min(win.ulx, win.lrx) <= left && right <= Max(win.ulx, win.lrx)
    && Min(win.uly, win.lry) <= bottom && top <= Max(win.uly, win.lry)
    && (forall px: real, py: real :: left <= px <= right && bottom <= py <= top ==> Covered(gt, w, h, px, py))
  }

  ghost predicate SharesArea(win: Window, gt: Geotransform, w: nat, h: nat) {
    exists left, right, bottom, top :: Shared(win, gt, w, h, left, right, bottom, top)
  }

  predicate WindowHasArea(win: Window) {
    win.ulx != win.lrx && win.uly != win.lry
  }

  predicate RasterHasArea(gt: Geotransform, w: nat, h: nat) {
    w > 0 && h > 0 && gt.g1 != 0.0 && gt.g5 != 0.0
  }

  /** Sharing area always means overlapping, whatever the geotransform. */
  lemma {:induction false} SharedMeansOverlap(win: Window, gt: Geotransform, w: nat, h: nat)
    requires SharesArea(win, gt, w, h)
    ensures WindowOverlaps(win, gt, w, h) && WindowHasArea(win)
  {
    var left, right, bottom, top :| Shared(win, gt, w, h, left, right, bottom, top);
    CoveredInBounds(gt, w, h, left, bottom);
    CoveredInBounds(gt, w, h, right, top);
  }

  lemma {:induction false} CoveredInBounds(gt: Geotransform, w: nat, h: nat, px: real, py: real)
    requires Covered(gt, w, h, px, py)
    ensures Low(gt.g0, w as real, gt.g1, h as real, gt.g2) <= px <= High(gt.g0, w as real, gt.g1, h as real, gt.g2)
    ensures Low(gt.g3, w as real, gt.g4, h as real, gt.g5) <= py <= High(gt.g3, w as real, gt.g4, h as real, gt.g5)
  {
    var x: real, y: real :| AtX(gt, x, y) == px && AtY(gt, x, y) == py && OnRaster(x, y, w, h);
    CornersBound(gt.g0, x, w as real, gt.g1, y, h as real, gt.g2);
    CornersBound(gt.g3, x, w as real, gt.g4, y, h as real, gt.g5);
  }

  /** Without the cross term the bounds are reached at the two ends. */
  lemma {:induction false} Ends(origin: real, n: real, d: real, m: real)
    ensures Low(origin, n, d, m, 0.0) == Min(origin, origin + Times(n, d))
    ensures High(origin, n, d, m, 0.0) == Max(origin, origin + Times(n, d))
  {}

  lemma {:induction false} Swap(origin: real, n: real, d: real, m: real)
    ensures Low(origin, m, 0.0, n, d) == Min(origin, origin + Times(n, d))
    ensures High(origin, m, 0.0, n, d) == Max(origin, origin + Times(n, d))
  {}

  /** Every coordinate between the ends is reached. */
  lemma {:induction false} Reached(origin: real, n: real, d: real, p: real) returns (x: real)
    requires d != 0.0 && n > 0.0 && Min(origin, origin + Times(n, d)) <= p <= Max(origin, origin + Times(n, d))
    ensures 0.0 <= x <= n && origin + Times(x, d) == p
  {
    x := Over(p - origin, d);
    OverTimes(p - origin, d);
    TimesSign(n, d);
    assert Times(0.0, d) == 0.0;
    TimesOrdered(0.0, x, d);
    TimesOrdered(x, n, d);
  }

  lemma {:induction false} CoveredWithin(gt: Geotransform, w: nat, h: nat, px: real, py: real)
    requires gt.g2 == 0.0 && gt.g4 == 0.0 && RasterHasArea(gt, w, h)
    requires Low(gt.g0, w as real, gt.g1, h as real, gt.g2) <= px <= High(gt.g0, w as real, gt.g1, h as real, gt.g2)
    requires Low(gt.g3, w as real, gt.g4, h as real, gt.g5) <= py <= High(gt.g3, w as real, gt.g4, h as real, gt.g5)
    ensures Covered(gt, w, h, px, py)
  {
    Ends(gt.g0, w as real, gt.g1, h as real);
    Swap(gt.g3, h as real, gt.g5, w as real);
    var x := Reached(gt.g0, w as real, gt.g1, px);
    var y := Reached(gt.g3, h as real, gt.g5, py);
    assert Times(y, 0.0) == 0.0 && Times(x, 0.0) == 0.0;
    assert AtX(gt, x, y) == px && AtY(gt, x, y) == py;
  }

  lemma {:induction false} Spans(gt: Geotransform, w: nat, h: nat)
    requires gt.g2 == 0.0 && gt.g4 == 0.0
    ensures RasterHasArea(gt, w, h) <==>
      && Low(gt.g0, w as real, gt.g1, h as real, gt.g2) < High(gt.g0, w as real, gt.g1, h as real, gt.g2)
      && Low(gt.g3, w as real, gt.g4, h as real, gt.g5) < High(gt.g3, w as real, gt.g4, h as real, gt.g5)
  {}

  /** On an axis-aligned grid, flipped or not, the window and the raster share area exactly when they
      overlap and neither is flat: a window of no width or height can overlap and still share none. */
  lemma {:induction false} OverlapIsSharedArea(win: Window, gt: Geotransform, w: nat, h: nat)
    requires gt.g2 == 0.0 && gt.g4 == 0.0
    ensures SharesArea(win, gt, w, h) <==>
      WindowOverlaps(win, gt, w, h) && WindowHasArea(win) && RasterHasArea(gt, w, h)
  {
    Spans(gt, w, h);
    if SharesArea(win, gt, w, h) {
      SharedMeansOverlap(win, gt, w, h);
      var left, right, bottom, top :| Shared(win, gt, w, h, left, right, bottom, top);
      CoveredInBounds(gt, w, h, left, bottom);
      CoveredInBounds(gt, w, h, right, top);
    }
    if WindowOverlaps(win, gt, w, h) && WindowHasArea(win) && RasterHasArea(gt, w, h) {
      var left := Max(Min(win.ulx, win.lrx), Low(gt.g0, w as real, gt.g1, h as real, gt.g2));
      var right := Min(Max(win.ulx, win.lrx), High(gt.g0, w as real, gt.g1, h as real, gt.g2));
      var bottom := Max(Min(win.uly, win.lry), Low(gt.g3, w as real, gt.g4, h as real, gt.g5));
      var top := Min(Max(win.uly, win.lry), High(gt.g3, w as real, gt.g4, h as real, gt.g5));
      forall px: real, py: real | left <= px <= right && bottom <= py <= top
        ensures Covered(gt, w, h, px, py)
      {
        CoveredWithin(gt, w, h, px, py);
      }
      assert Shared(win, gt, w, h, left, right, bottom, top);
    }
  }
}
