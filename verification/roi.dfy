/** The region-of-interest mask: a vertical road band of full height, minus a
    box around the frame centre where the vehicle itself is. Python's
    `int(p * n)` for a two-digit ratio p is taken to be the exact truncating
    division `(100p * n) / 100`. */
module Roi {
  import opened Ints

  /** `int(pct / 100 * n)` for a non-negative `n`. */
  function Pct(pct: nat, n: nat): nat {
    (pct * n) / 100
  }

  /** The geometry of the mask of a `w`×`h` frame: the band is the columns
      `[x0, x1)`; the exclusion box is the rows `[y0c, y1c)` × columns `[x0c, x1c)`. */
  datatype Layout = Layout(x0: int, x1: int, x0c: int, x1c: int, y0c: int, y1c: int)


  /** The box width before halving, `int(0.22 * w)`. */
  function BoxWidth(w: nat): nat { Pct(22, w) }

  /** The box height before halving, `int(0.18 * h)`. */
  function BoxHeight(h: nat): nat { Pct(18, h) }

  /** The bounds `make_roi_mask` computes: the band lies inside the frame, the
      box is clipped to the frame and lies inside the band, and the box spans
      at most `box_w // 2` columns on either side of the centre column, so an
      odd `box_w` loses a column. */
  function MaskLayout(w: nat, h: nat): (g: Layout)
    ensures 0 <= g.x0 <= g.x1 <= w
    ensures 0 <= g.x0c <= g.x1c <= w && 0 <= g.y0c <= g.y1c <= h
    ensures g.x0 <= g.x0c && g.x1c <= g.x1
    ensures g.x1c - g.x0c <= 2 * (BoxWidth(w) / 2) <= BoxWidth(w)
    ensures BoxWidth(w) % 2 == 1 ==> g.x1c - g.x0c < BoxWidth(w)
    ensures g.y1c - g.y0c <= 2 * (BoxHeight(h) / 2) <= BoxHeight(h)
  {
    var x0 := Pct(32, w);
    var x1 := Pct(68, w);
    var cx := Pct(50, w);
    var cy := Pct(52, h);
    var boxW := BoxWidth(w);
    var boxH := BoxHeight(h);
    Layout(x0, x1,
           Max(0, cx - boxW / 2), Min(w, cx + boxW / 2),
           Max(0, cy - boxH / 2), Min(h, cy + boxH / 2))
  }

  /** The clipping at roi.py:30-33 never takes effect: the unclipped box
      already lies inside the frame for every size. */
  lemma ClippingIsInactive(w: nat, h: nat)
    ensures MaskLayout(w, h).x0c == Pct(50, w) - BoxWidth(w) / 2
    ensures MaskLayout(w, h).x1c == Pct(50, w) + BoxWidth(w) / 2
    ensures MaskLayout(w, h).y0c == Pct(52, h) - BoxHeight(h) / 2
    ensures MaskLayout(w, h).y1c == Pct(52, h) + BoxHeight(h) / 2
  {
  }

  predicate InBand(w: nat, h: nat, c: int) {
    MaskLayout(w, h).x0 <= c < MaskLayout(w, h).x1
  }

  predicate InBox(w: nat, h: nat, r: int, c: int) {
    var g := MaskLayout(w, h);
    g.y0c <= r < g.y1c && g.x0c <= c < g.x1c
  }

  type Grid = seq<seq<int>>

  ghost predicate HasShape(m: Grid, h: nat, w: nat) {
    |m| == h && forall r :: 0 <= r < h ==> |m[r]| == w
  }

  /** `np.zeros((h, w))`. */
  function Zeros(h: nat, w: nat): (m: Grid)
    ensures HasShape(m, h, w)
    ensures forall r, c :: 0 <= r < h && 0 <= c < w ==> m[r][c] == 0
  {
    seq(h, r => seq(w, c => 0))
  }

  /** `m[r0:r1, c0:c1] = v` for bounds already inside the grid. */
  function Fill(m: Grid, h: nat, w: nat, r0: int, r1: int, c0: int, c1: int, v: int): (m': Grid)
    requires HasShape(m, h, w)
    ensures HasShape(m', h, w)
    ensures forall r, c :: 0 <= r < h && 0 <= c < w ==>
              m'[r][c] == if r0 <= r < r1 && c0 <= c < c1 then v else m[r][c]
  {
    seq(h, r requires 0 <= r < h =>
      seq(w, c requires 0 <= c < w => if r0 <= r < r1 && c0 <= c < c1 then v else m[r][c]))
  }

  /** `make_roi_mask(w, h)`: an `h`×`w` grid of 0/255 whose 255 entries are
      exactly the band pixels outside the exclusion box. */
  function MakeRoiMask(w: nat, h: nat): (m: Grid)
    ensures HasShape(m, h, w)
    ensures forall r, c :: 0 <= r < h && 0 <= c < w ==> m[r][c] == 0 || m[r][c] == 255
    ensures forall r, c :: 0 <= r < h && 0 <= c < w ==>
              (m[r][c] == 255 <==> InBand(w, h, c) && !InBox(w, h, r, c))
    ensures forall r, c :: 0 <= r < h && 0 <= c < w && !InBand(w, h, c) ==> m[r][c] == 0
  {
    var g := MaskLayout(w, h);
    var band := Fill(Zeros(h, w), h, w, 0, h, g.x0, g.x1, 255);
    Fill(band, h, w, g.y0c, g.y1c, g.x0c, g.x1c, 0)
  }

  /** The number of non-zero entries of a row. */
  function RowNonzero(row: seq<int>): nat {
    if |row| == 0 then 0
    else RowNonzero(row[..|row| - 1]) + (if row[|row| - 1] != 0 then 1 else 0)
  }

  /** The number of non-zero entries of a grid. */
  function GridNonzero(m: Grid): nat {
    if |m| == 0 then 0
    else GridNonzero(m[..|m| - 1]) + RowNonzero(m[|m| - 1])
  }

  /** How many of the positions `[0, n)` fall in `[a, b)`, for `0 <= a <= b`. */
  function Overlap(n: int, a: int, b: int): int {
    if n <= a then 0 else if n <= b then n - a else b - a
  }

  /** A row that is non-zero exactly on `[a, b)` minus `[p, q)`, with
      `[p, q)` inside `[a, b)`, has `(b - a) - (q - p)` non-zero entries. */
  lemma {:induction false} RowNonzeroCount(row: seq<int>, a: int, b: int, p: int, q: int, n: nat)
    requires 0 <= a <= p <= q <= b
    requires n <= |row|
    requires forall c :: 0 <= c < |row| ==> (row[c] != 0 <==> a <= c < b && !(p <= c < q))
    ensures RowNonzero(row[..n]) == Overlap(n, a, b) - Overlap(n, p, q)
  {
    if n > 0 {
      RowNonzeroCount(row, a, b, p, q, n - 1);
      assert row[..n][..n - 1] == row[..n - 1];
    }
  }

  /** Row `r` of the mask holds the band width, less the box width on box rows. */
  lemma MaskRowNonzero(w: nat, h: nat, r: nat)
    requires r < h
    ensures var g := MaskLayout(w, h);
            RowNonzero(MakeRoiMask(w, h)[r])
            == (g.x1 - g.x0) - (if g.y0c <= r < g.y1c then g.x1c - g.x0c else 0)
  {
    var g := MaskLayout(w, h);
    var row := MakeRoiMask(w, h)[r];
    assert row[..w] == row;
    if g.y0c <= r < g.y1c {
      RowNonzeroCount(row, g.x0, g.x1, g.x0c, g.x1c, w);
    } else {
      RowNonzeroCount(row, g.x0, g.x1, g.x0, g.x0, w);
    }
  }

  lemma StepArithmetic(n: int, bandW: int, boxW: int, o: int, inBox: int)
    ensures n * bandW - (o + inBox) * boxW == ((n - 1) * bandW - o * boxW) + (bandW - inBox * boxW)
  {
    assert n * bandW == (n - 1) * bandW + bandW;
    assert (o + inBox) * boxW == o * boxW + inBox * boxW;
  }

  /** A grid whose rows hold `bandW` non-zero entries, `boxW` fewer on the
      rows `[y0, y1)`, has `n` band widths minus `boxW` per box row in its
      first `n` rows. */
  lemma {:induction false} GridPrefixNonzero(m: Grid, bandW: int, boxW: int, y0: int, y1: int, n: nat)
    requires 0 <= y0 <= y1
    requires n <= |m|
    requires forall r :: 0 <= r < |m| ==> RowNonzero(m[r]) == bandW - (if y0 <= r < y1 then boxW else 0)
    ensures GridNonzero(m[..n]) == n * bandW - Overlap(n, y0, y1) * boxW
  {
    if n > 0 {
      GridPrefixNonzero(m, bandW, boxW, y0, y1, n - 1);
      assert m[..n][..n - 1] == m[..n - 1];
      var inBox := if y0 <= n - 1 < y1 then 1 else 0;
      assert Overlap(n, y0, y1) == Overlap(n - 1, y0, y1) + inBox;
      assert RowNonzero(m[n - 1]) == bandW - inBox * boxW;
      StepArithmetic(n, bandW, boxW, Overlap(n - 1, y0, y1), inBox);
    }
  }

  /** The whole grid: `h` band widths minus one box width per box row. */
  lemma GridNonzeroTotal(m: Grid, bandW: int, boxW: int, y0: int, y1: int)
    requires 0 <= y0 <= y1 <= |m|
    requires forall r :: 0 <= r < |m| ==> RowNonzero(m[r]) == bandW - (if y0 <= r < y1 then boxW else 0)
    ensures GridNonzero(m) == bandW * |m| - (y1 - y0) * boxW
  {
    GridPrefixNonzero(m, bandW, boxW, y0, y1, |m|);
    assert m[..|m|] == m;
  }

  /** Every row of the mask holds the band width, less the box width on box rows. */
  lemma MaskRowsNonzero(w: nat, h: nat)
    ensures var g := MaskLayout(w, h);
            forall r :: 0 <= r < h ==>
              RowNonzero(MakeRoiMask(w, h)[r]) == (g.x1 - g.x0) - (if g.y0c <= r < g.y1c then g.x1c - g.x0c else 0)
  {
    forall r | 0 <= r < h {
      MaskRowNonzero(w, h, r);
    }
  }

  /** The count of `GridNonzeroTotal`, stated for the rectangles of a layout. */
  lemma LayoutNonzero(m: Grid, g: Layout)
    requires 0 <= g.y0c <= g.y1c <= |m|
    requires forall r :: 0 <= r < |m| ==>
               RowNonzero(m[r]) == (g.x1 - g.x0) - (if g.y0c <= r < g.y1c then g.x1c - g.x0c else 0)
    ensures GridNonzero(m) == (g.x1 - g.x0) * |m| - (g.y1c - g.y0c) * (g.x1c - g.x0c)
  {
    GridNonzeroTotal(m, g.x1 - g.x0, g.x1c - g.x0c, g.y0c, g.y1c);
  }

  /** The mask has one band width of non-zero pixels per row, less the box. */
  lemma MaskNonzeroCount(w: nat, h: nat)
    ensures var g := MaskLayout(w, h);
            GridNonzero(MakeRoiMask(w, h))
            == (g.x1 - g.x0) * h - (g.y1c - g.y0c) * (g.x1c - g.x0c)
  {
    MaskRowsNonzero(w, h);
    LayoutNonzero(MakeRoiMask(w, h), MaskLayout(w, h));
  }

  /** The 640×480 mask: band columns [204, 435), box rows [206, 292) × columns
      [250, 390), and 231·480 − 86·140 = 98840 non-zero pixels. */
  lemma Mask640x480()
    ensures MaskLayout(640, 480) == Layout(204, 435, 250, 390, 206, 292)
    ensures GridNonzero(MakeRoiMask(640, 480)) == 98840
  {
    MaskNonzeroCount(640, 480);
  }
}
