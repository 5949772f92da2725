/** Single-pass rotations of an image stored row by row, into a buffer the caller provides. */
module Rotate {

  // ----- Cells -----

  function RowOf(k: nat, w: nat): nat
    requires w > 0
  {
    if k < w then 0 else 1 + RowOf(k - w, w)
  }

  function ColOf(k: nat, w: nat): nat
    requires w > 0
  {
    if k < w then k else ColOf(k - w, w)
  }

  lemma {:induction false} RowAndCol(row: nat, col: nat, w: nat)
    requires col < w
    ensures RowOf(row * w + col, w) == row && ColOf(row * w + col, w) == col
  {
    if row > 0 {
      RowAndCol(row - 1, col, w);
      assert row * w + col - w == (row - 1) * w + col;
      assert row * w >= w;
    } else {
      assert row * w == 0;
    }
  }

  lemma RowFits(row: nat, col: nat, w: nat, h: nat)
    requires row < h && col < w
    ensures row * w + col < w * h
  {
    assert (row + 1) * w <= h * w;
  }

  /** The index of a pixel; no two pixels share one. */
  function Cell(row: nat, col: nat, w: nat, h: nat): (k: nat)
    requires row < h && col < w
    ensures k < w * h && RowOf(k, w) == row && ColOf(k, w) == col
  {
    RowAndCol(row, col, w);
    RowFits(row, col, w, h);
    row * w + col
  }

  /** Every index of the image is that of a pixel. */
  lemma {:induction false} Located(k: nat, w: nat, h: nat)
    requires k < w * h
    ensures w > 0 && RowOf(k, w) < h && ColOf(k, w) < w && Cell(RowOf(k, w), ColOf(k, w), w, h) == k
    decreases h
  {
    assert w > 0 && h > 0;
    if k >= w {
      assert w * h == w * (h - 1) + w;
      Located(k - w, w, h - 1);
      var row, col := RowOf(k - w, w), ColOf(k - w, w);
      assert row * w + col == k - w;
      assert (row + 1) * w + col == k;
    } else {
      assert 0 * w + k == k;
    }
  }

  // ----- What the rotations mean -----

  predicate Frames<T>(s: seq<T>, out: seq<T>, w: nat, h: nat) {
    |s| >= w * h && |out| >= w * h && w * h == h * w
  }

  /** The pixel at (row, col) goes to row col, column h - 1 - row, of an image h wide and w high. */
  ghost predicate Turned90<T>(s: seq<T>, w: nat, h: nat, out: seq<T>) {
    Frames(s, out, w, h) &&
    forall row: nat, col: nat :: row < h && col < w ==> out[Cell(col, h - 1 - row, h, w)] == s[Cell(row, col, w, h)]
  }

  /** The pixel opposite to (row, col). */
  function Opposite(row: nat, col: nat, w: nat, h: nat): (k: nat)
    requires row < h && col < w
    ensures k < w * h && RowOf(k, w) == h - 1 - row && ColOf(k, w) == w - 1 - col
  {
    Cell(h - 1 - row, w - 1 - col, w, h)
  }

  ghost predicate Turned180<T>(s: seq<T>, w: nat, h: nat, out: seq<T>) {
    Frames(s, out, w, h) &&
    forall row: nat, col: nat {:trigger Opposite(row, col, w, h)} :: row < h && col < w ==> out[Opposite(row, col, w, h)] == s[Cell(row, col, w, h)]
  }

  ghost predicate Turned270<T>(s: seq<T>, w: nat, h: nat, out: seq<T>) {
    Frames(s, out, w, h) &&
    forall row: nat, col: nat :: row < w && col < h ==> out[Cell(row, col, h, w)] == s[Cell(col, w - 1 - row, w, h)]
  }

  /** A quarter turn after a three-quarter turn gives back every pixel. */
  lemma QuarterUndoesThree<T>(s: seq<T>, w: nat, h: nat, t: seq<T>, u: seq<T>)
    requires Turned270(s, w, h, t) && Turned90(t, h, w, u)
    ensures u[..w * h] == s[..w * h]
  {
    forall k | 0 <= k < w * h ensures u[k] == s[k] {
      Located(k, w, h);
      var r, c := RowOf(k, w), ColOf(k, w);
      assert u[Cell(r, w - 1 - (w - 1 - c), w, h)] == t[Cell(w - 1 - c, r, h, w)];
    }
  }

  /** And the other way round. */
  lemma ThreeUndoesQuarter<T>(s: seq<T>, w: nat, h: nat, t: seq<T>, u: seq<T>)
    requires Turned90(s, w, h, t) && Turned270(t, h, w, u)
    ensures u[..w * h] == s[..w * h]
  {
    forall k | 0 <= k < w * h ensures u[k] == s[k] {
      Located(k, w, h);
      var r, c := RowOf(k, w), ColOf(k, w);
      assert u[Cell(r, c, w, h)] == t[Cell(c, h - 1 - r, h, w)];
    }
  }

  /** Two quarter turns, the second on the turned frame, are exactly the single-pass half turn. */
  lemma TwoQuartersAreHalf<T>(s: seq<T>, w: nat, h: nat, t: seq<T>, u: seq<T>, v: seq<T>)
    requires Turned90(s, w, h, t) && Turned90(t, h, w, u) && Turned180(s, w, h, v)
    ensures u[..w * h] == v[..w * h]
  {
    forall k | 0 <= k < w * h ensures u[k] == v[k] {
      Located(k, w, h);
      var r, c := RowOf(k, w), ColOf(k, w);
      var row, col := h - 1 - r, w - 1 - c;
      assert v[Opposite(row, col, w, h)] == s[Cell(row, col, w, h)];
      assert t[Cell(col, h - 1 - row, h, w)] == s[Cell(row, col, w, h)];
      assert u[Cell(h - 1 - row, w - 1 - col, w, h)] == t[Cell(col, h - 1 - row, h, w)];
    }
  }

  /** Clockwise: the first row becomes the last column from top to bottom; after three quarters, the first column from bottom to top. */
  lemma TurnsClockwise<T>(s: seq<T>, w: nat, h: nat, t: seq<T>, u: seq<T>, col: nat)
    requires Turned90(s, w, h, t) && Turned270(s, w, h, u) && col < w && h > 0
    ensures t[Cell(col, h - 1, h, w)] == s[Cell(0, col, w, h)] && u[Cell(w - 1 - col, 0, h, w)] == s[Cell(0, col, w, h)]
  {
    assert t[Cell(col, h - 1 - 0, h, w)] == s[Cell(0, col, w, h)];
    assert u[Cell(w - 1 - col, 0, h, w)] == s[Cell(0, w - 1 - (w - 1 - col), w, h)];
  }

  // ----- The loops -----

  method Rotate90Into<T>(luma: seq<T>, w: nat, h: nat, out: array<T>)
    requires |luma| >= w * h && out.Length >= w * h
    modifies out
    ensures Turned90(luma, w, h, out[..])
    ensures out[w * h..] == old(out[w * h..])
  {
    assert w * h == h * w;
    for y := 0 to h
      invariant out[w * h..] == old(out[w * h..])
      invariant forall row: nat, col: nat :: row < y && col < w ==> out[Cell(col, h - 1 - row, h, w)] == luma[Cell(row, col, w, h)]
    {
      for x := 0 to w
        invariant out[w * h..] == old(out[w * h..])
        invariant forall row: nat, col: nat :: (row < y && col < w) || (row == y && col < x) ==>
                    out[Cell(col, h - 1 - row, h, w)] == luma[Cell(row, col, w, h)]
      {
        out[Cell(x, h - 1 - y, h, w)] := luma[Cell(y, x, w, h)];
      }
    }
  }

  method Rotate180Into<T>(luma: seq<T>, w: nat, h: nat, out: array<T>)
    requires |luma| >= w * h && out.Length >= w * h
    modifies out
    ensures Turned180(luma, w, h, out[..])
    ensures out[w * h..] == old(out[w * h..])
  {
    assert w * h == h * w;
    for y := 0 to h
      invariant out[w * h..] == old(out[w * h..])
      invariant forall row: nat, col: nat {:trigger Opposite(row, col, w, h)} :: row < y && col < w ==> out[Opposite(row, col, w, h)] == luma[Cell(row, col, w, h)]
    {
      for x := 0 to w
        invariant out[w * h..] == old(out[w * h..])
        invariant forall row: nat, col: nat {:trigger Opposite(row, col, w, h)} :: (row < y && col < w) || (row == y && col < x) ==>
                    out[Opposite(row, col, w, h)] == luma[Cell(row, col, w, h)]
      {
        out[Opposite(y, x, w, h)] := luma[Cell(y, x, w, h)];
      }
    }
  }

  method Rotate270Into<T>(luma: seq<T>, w: nat, h: nat, out: array<T>)
    requires |luma| >= w * h && out.Length >= w * h
    modifies out
    ensures Turned270(luma, w, h, out[..])
    ensures out[w * h..] == old(out[w * h..])
  {
    assert w * h == h * w;
    for y := 0 to w
      invariant out[w * h..] == old(out[w * h..])
      invariant forall row: nat, col: nat :: row < y && col < h ==> out[Cell(row, col, h, w)] == luma[Cell(col, w - 1 - row, w, h)]
    {
      for x := 0 to h
        invariant out[w * h..] == old(out[w * h..])
        invariant forall row: nat, col: nat :: (row < y && col < h) || (row == y && col < x) ==>
                    out[Cell(row, col, h, w)] == luma[Cell(col, w - 1 - row, w, h)]
      {
        out[Cell(y, x, h, w)] := luma[Cell(x, w - 1 - y, w, h)];
      }
    }
  }
}
