/**
 Two-dimensional rasters as sequences of rows: row-major flattening
 (numpy `ravel`), constant padding (numpy `pad` with `constant_values`),
 the square window slice `p[r-h : r+h+1, c-h : c+h+1]`, and cropping.
 */
module Grids {

  /** `g` has `rows` rows of `cols` cells each. */
  predicate IsGrid<T>(g: seq<seq<T>>, rows: nat, cols: nat)
  {
    |g| == rows && forall i :: 0 <= i < rows ==> |g[i]| == cols
  }

  /** Row-major flattening. */
  function Ravel<T>(g: seq<seq<T>>): seq<T>
  {
    if |g| == 0 then [] else g[0] + Ravel(g[1..])
  }

  /** rows·cols as repeated addition of rows of `cols` cells; keeping the
      product out of the solver's arithmetic makes flat indices linear. */
  function Area(rows: nat, cols: nat): nat
  {
    if rows == 0 then 0 else Area(rows - 1, cols) + cols
  }

  /** Area is rows·cols. */
  lemma {:induction false} AreaIsProduct(rows: nat, cols: nat)
    ensures Area(rows, cols) == rows * cols
  {
    if rows > 0 {
      AreaIsProduct(rows - 1, cols);
      assert (rows - 1) * cols + cols == rows * cols;
    }
  }

  /** The flat index of cell (r, c) lies before the end of a rows×cols grid. */
  lemma {:induction false} AreaIndexBound(rows: nat, cols: nat, r: nat, c: nat)
    requires r < rows && c < cols
    ensures Area(r, cols) + c < Area(rows, cols)
  {
    if r + 1 < rows {
      AreaIndexBound(rows - 1, cols, r, c);
    }
  }

  lemma {:induction false} RavelLength<T>(g: seq<seq<T>>, rows: nat, cols: nat)
    requires IsGrid(g, rows, cols)
    ensures |Ravel(g)| == Area(rows, cols)
  {
    if rows > 0 {
      RavelLength(g[1..], rows - 1, cols);
    }
  }

  /** Cell (r, c) sits at flat index r·cols + c. */
  lemma {:induction false} RavelIndex<T>(g: seq<seq<T>>, rows: nat, cols: nat, r: nat, c: nat)
    requires IsGrid(g, rows, cols)
    requires r < rows && c < cols
    ensures |Ravel(g)| == Area(rows, cols)
    ensures Area(r, cols) + c < |Ravel(g)| && Ravel(g)[Area(r, cols) + c] == g[r][c]
  {
    RavelLength(g, rows, cols);
    AreaIndexBound(rows, cols, r, c);
    if r > 0 {
      assert IsGrid(g[1..], rows - 1, cols);
      var tail := Ravel(g[1..]);
      RavelIndex(g[1..], rows - 1, cols, r - 1, c);
      var k := Area(r - 1, cols) + c;
      assert Ravel(g) == g[0] + tail;
      assert (g[0] + tail)[k + cols] == tail[k];
    }
  }

  /** Every flattened entry comes from some row. */
  lemma {:induction false} RavelMembers<T>(g: seq<seq<T>>, x: T)
    requires x in Ravel(g)
    ensures exists i :: 0 <= i < |g| && x in g[i]
  {
    if x !in g[0] {
      RavelMembers(g[1..], x);
      var i :| 0 <= i < |g[1..]| && x in g[1..][i];
      assert x in g[i + 1];
    }
  }

  /** Surround `g` by `h` rows and columns of the constant `v`. */
  function Pad<T>(g: seq<seq<T>>, rows: nat, cols: nat, h: nat, v: T): (p: seq<seq<T>>)
    requires IsGrid(g, rows, cols)
    ensures IsGrid(p, rows + 2 * h, cols + 2 * h)
  {
    seq(rows + 2 * h, i requires 0 <= i < rows + 2 * h =>
      seq(cols + 2 * h, j requires 0 <= j < cols + 2 * h =>
        if h <= i < rows + h && h <= j < cols + h then g[i - h][j - h] else v))
  }

  /** Inside the border the padded grid holds the original cells; on it, the padding constant. */
  lemma PadCells<T>(g: seq<seq<T>>, rows: nat, cols: nat, h: nat, v: T, i: nat, j: nat)
    requires IsGrid(g, rows, cols)
    requires i < rows + 2 * h && j < cols + 2 * h
    ensures h <= i < rows + h && h <= j < cols + h ==> Pad(g, rows, cols, h, v)[i][j] == g[i - h][j - h]
    ensures !(h <= i < rows + h && h <= j < cols + h) ==> Pad(g, rows, cols, h, v)[i][j] == v
  {
  }

  /** The (2h+1)² window centred on (r, c); the requires say the slice lies inside `p`. */
  function Window<T>(p: seq<seq<T>>, rows: nat, cols: nat, r: nat, c: nat, h: nat): (w: seq<seq<T>>)
    requires IsGrid(p, rows, cols)
    requires h <= r && r + h < rows
    requires h <= c && c + h < cols
    ensures IsGrid(w, 2 * h + 1, 2 * h + 1)
    ensures forall i, j :: 0 <= i < 2 * h + 1 && 0 <= j < 2 * h + 1 ==> w[i][j] == p[r - h + i][c - h + j]
  {
    seq(2 * h + 1, i requires 0 <= i < 2 * h + 1 => p[r - h + i][c - h .. c + h + 1])
  }

  /** Cell (a, b) of the window of original cell (i, j) in the padded grid:
      the original cell (i + a - h, j + b - h) when that lies inside, else the padding constant. */
  lemma PaddedWindowCell<T>(g: seq<seq<T>>, rows: nat, cols: nat, h: nat, v: T, i: nat, j: nat, a: nat, b: nat)
    requires IsGrid(g, rows, cols)
    requires i < rows && j < cols
    requires a < 2 * h + 1 && b < 2 * h + 1
    ensures var w := Window(Pad(g, rows, cols, h, v), rows + 2 * h, cols + 2 * h, i + h, j + h, h);
      if h <= i + a < rows + h && h <= j + b < cols + h then w[a][b] == g[i + a - h][j + b - h] else w[a][b] == v
  {
    PadCells(g, rows, cols, h, v, i + a, j + b);
  }

  /** The `rows`×`cols` block whose top-left corner is (h, h). */
  function Crop<T>(p: seq<seq<T>>, rows: nat, cols: nat, h: nat): (g: seq<seq<T>>)
    requires IsGrid(p, rows + 2 * h, cols + 2 * h)
    ensures IsGrid(g, rows, cols)
  {
    seq(rows, i requires 0 <= i < rows => p[i + h][h .. h + cols])
  }

  /** Cropping the border away undoes the padding. */
  lemma CropPad<T>(g: seq<seq<T>>, rows: nat, cols: nat, h: nat, v: T)
    requires IsGrid(g, rows, cols)
    ensures Crop(Pad(g, rows, cols, h, v), rows, cols, h) == g
  {
    var p := Pad(g, rows, cols, h, v);
    var q := Crop(p, rows, cols, h);
    forall i | 0 <= i < rows
      ensures q[i] == g[i]
    {
      forall j | 0 <= j < cols
        ensures q[i][j] == g[i][j]
      {
        PadCells(g, rows, cols, h, v, i + h, j + h);
      }
    }
  }
}
