/** Row-major pixel grids (pkg/printer/image.go). */
module Grid {

  /** Black-and-white dots in reading order. */
  datatype Raster = Raster(width: nat, height: nat, black: seq<bool>)

  /** Number of cells above row y: y * w. */
  function Above(w: nat, y: nat): nat {
    if y == 0 then 0 else Above(w, y - 1) + w
  }

  lemma {:induction false} AboveIs(w: nat, y: nat)
    ensures Above(w, y) == y * w
  {
    if y > 0 { AboveIs(w, y - 1); }
  }

  lemma {:induction false} AboveGrows(w: nat, y: nat, z: nat)
    requires y < z
    ensures Above(w, y) + w <= Above(w, z)
  {
    if y < z - 1 { AboveGrows(w, y, z - 1); }
  }

  lemma {:induction false} SameCell(w: nat, x: nat, y: nat, p: nat, q: nat)
    requires x < w && p < w
    ensures Above(w, y) + x == Above(w, q) + p <==> x == p && y == q
  {
    if y < q { AboveGrows(w, y, q); }
    if q < y { AboveGrows(w, q, y); }
  }
}
