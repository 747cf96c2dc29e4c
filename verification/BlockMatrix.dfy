/**
 A block as a matrix of cells of equal size, row after row, and what copying packets into it does.

 A patch is a packet's data: a rectangle of the matrix whose cells the packet carries column after column.
 In the strided copy a packet is part of one column (half_hashpipe/ata_volt_outer_thread.c:315-378); in the
 transposing copy it is a band of whole columns (half_hashpipe/hpguppi_udp.c:244-309).
 */
module BlockMatrix {
  import Radix

  datatype Patch<T> = Patch(row0: nat, nrows: nat, col0: nat, ncols: nat, src: seq<T>)

  ghost predicate PatchOk<T>(p: Patch<T>) {
    |p.src| == p.ncols * p.nrows
  }

  predicate Covers<T>(p: Patch<T>, row: nat, col: nat) {
    p.row0 <= row < p.row0 + p.nrows && p.col0 <= col < p.col0 + p.ncols
  }

  /** What the patch carries for a cell. */
  function Value<T>(p: Patch<T>, row: nat, col: nat): T
    requires PatchOk(p) && Covers(p, row, col)
  {
    Radix.FlatBound(col - p.col0, p.ncols, row - p.row0, p.nrows);
    p.src[(col - p.col0) * p.nrows + (row - p.row0)]
  }

  /** A matrix with the given number of columns. */
  ghost predicate IsMatrix<T>(d: seq<T>, rows: nat, cols: nat) {
    |d| == rows * cols
  }

  function At<T>(d: seq<T>, rows: nat, cols: nat, row: nat, col: nat): T
    requires IsMatrix(d, rows, cols) && row < rows && col < cols
  {
    Radix.FlatBound(row, rows, col, cols);
    d[row * cols + col]
  }

  ghost predicate Inside<T>(p: Patch<T>, rows: nat, cols: nat) {
    PatchOk(p) && p.row0 + p.nrows <= rows && p.col0 + p.ncols <= cols
  }

  /** Matrices that agree in every row and column are equal. */
  lemma SameCells<T>(d: seq<T>, d': seq<T>, rows: nat, cols: nat)
    requires IsMatrix(d, rows, cols) && IsMatrix(d', rows, cols)
    requires forall row: nat, col: nat :: row < rows && col < cols ==>
             At(d', rows, cols, row, col) == At(d, rows, cols, row, col)
    ensures d == d'
  {
    forall i | 0 <= i < |d| ensures d[i] == d'[i] {
      Radix.RowBound(i, rows, cols);
      Radix.Split(i, cols);
      assert At(d', rows, cols, i / cols, i % cols) == At(d, rows, cols, i / cols, i % cols);
    }
  }

  // Applying a patch, wholly or in part.

  /** d' is d with those cells of the patch written for which `done` holds, counted from the patch's corner. */
  ghost predicate Patched<T>(d: seq<T>, d': seq<T>, rows: nat, cols: nat, p: Patch<T>, done: (int, int) -> bool)
    requires IsMatrix(d, rows, cols) && Inside(p, rows, cols)
  {
    && IsMatrix(d', rows, cols)
    && forall row: nat, col: nat :: row < rows && col < cols ==>
         At(d', rows, cols, row, col) == PatchedCell(d, rows, cols, p, done, row, col)
  }

  ghost function PatchedCell<T>(d: seq<T>, rows: nat, cols: nat, p: Patch<T>, done: (int, int) -> bool, row: nat,
                                col: nat): T
    requires IsMatrix(d, rows, cols) && Inside(p, rows, cols) && row < rows && col < cols
  {
    if Covers(p, row, col) &&
      done(row - p.row0, col - p.col0) then Value(p, row, col) else At(d, rows, cols, row, col)
  }

  lemma SetAt<T>(d: seq<T>, rows: nat, cols: nat, r: nat, c: nat, v: T)
    requires IsMatrix(d, rows, cols) && r < rows && c < cols
    ensures 0 <= r * cols + c < |d|
    ensures IsMatrix(d[r * cols + c := v], rows, cols)
    ensures forall row: nat, col: nat :: row < rows && col < cols ==>
              At(d[r * cols + c := v], rows, cols, row, col) == if row == r &&
                col == c then v else At(d, rows, cols, row, col)
  {
    Radix.FlatBound(r, rows, c, cols);
    var d' := d[r * cols + c := v];
    forall row: nat, col: nat | row < rows && col < cols
      ensures At(d', rows, cols, row, col) == if row == r && col == c then v else At(d, rows, cols, row, col)
    {
      Radix.FlatBound(row, rows, col, cols);
      if row * cols + col == r * cols + c {
        Radix.FlatUnique(row, col, r, c, cols);
      }
    }
  }

  /** Writing one more cell of the patch. */
  lemma PatchOne<T>(d: seq<T>, d': seq<T>, rows: nat, cols: nat, p: Patch<T>,
                    done: (int, int) -> bool, done': (int, int) -> bool, r: nat, c: nat)
    requires IsMatrix(d, rows, cols) && Inside(p, rows, cols) && Patched(d, d', rows, cols, p, done)
    requires r < p.nrows && c < p.ncols
    requires forall i, j :: 0 <= i < p.nrows && 0 <= j < p.ncols ==>
             (done'(i, j) <==> done(i, j) || (i == r && j == c))
    ensures 0 <= (p.row0 + r) * cols + (p.col0 + c) < |d'| && 0 <= c * p.nrows + r < |p.src|
    ensures Patched(d, d'[(p.row0 + r) * cols + (p.col0 + c) := p.src[c * p.nrows + r]], rows, cols, p, done')
  {
    Radix.FlatBound(c, p.ncols, r, p.nrows);
    var v := p.src[c * p.nrows + r];
    assert v == Value(p, p.row0 + r, p.col0 + c);
    SetAt(d', rows, cols, p.row0 + r, p.col0 + c, v);
    PatchWrite(d, d', d'[(p.row0 + r) * cols + (p.col0 + c) := v], rows, cols, p, done, done', p.row0 + r,
      p.col0 + c);
  }

  lemma PatchWrite<T>(d: seq<T>, d': seq<T>, d'': seq<T>, rows: nat, cols: nat, p: Patch<T>,
                      done: (int, int) -> bool, done': (int, int) -> bool, r: nat, c: nat)
    requires IsMatrix(d, rows, cols) && Inside(p, rows, cols) && Patched(d, d', rows, cols, p, done)
    requires Covers(p, r, c) && IsMatrix(d'', rows, cols)
    requires forall i, j :: 0 <= i < p.nrows && 0 <= j < p.ncols ==>
               (done'(i, j) <==> done(i, j) || (i == r - p.row0 && j == c - p.col0))
    requires forall row: nat, col: nat :: row < rows && col < cols ==>
               At(d'', rows, cols, row, col) == if row == r &&
                 col == c then Value(p, r, c) else At(d', rows, cols, row, col)
    ensures Patched(d, d'', rows, cols, p, done')
  {
    forall row: nat, col: nat | row < rows && col < cols
      ensures At(d'', rows, cols, row, col) == PatchedCell(d, rows, cols, p, done', row, col)
    {
      assert At(d', rows, cols, row, col) == PatchedCell(d, rows, cols, p, done, row, col);
    }
  }

  lemma PatchedSame<T>(d: seq<T>, d': seq<T>, rows: nat, cols: nat, p: Patch<T>,
                       done: (int, int) -> bool, done': (int, int) -> bool)
    requires IsMatrix(d, rows, cols) && Inside(p, rows, cols) && Patched(d, d', rows, cols, p, done)
    requires forall i, j :: 0 <= i < p.nrows && 0 <= j < p.ncols ==> (done'(i, j) <==> done(i, j))
    ensures Patched(d, d', rows, cols, p, done')
  {
    forall row: nat, col: nat | row < rows && col < cols
      ensures At(d', rows, cols, row, col) == PatchedCell(d, rows, cols, p, done', row, col)
    {
      assert At(d', rows, cols, row, col) == PatchedCell(d, rows, cols, p, done, row, col);
    }
  }

  lemma PatchNone<T>(d: seq<T>, rows: nat, cols: nat, p: Patch<T>, done: (int, int) -> bool)
    requires IsMatrix(d, rows, cols) && Inside(p, rows, cols)
    requires forall i, j :: 0 <= i < p.nrows && 0 <= j < p.ncols ==> !done(i, j)
    ensures Patched(d, d, rows, cols, p, done)
  {
  }

  /** The matrix with the whole patch written. */
  function Apply<T>(d: seq<T>, rows: nat, cols: nat, p: Patch<T>): (r: seq<T>)
    requires IsMatrix(d, rows, cols) && Inside(p, rows, cols)
    ensures IsMatrix(r, rows, cols)
  {
    seq(|d|, i requires 0 <= i < |d| =>
      Radix.RowBound(i, rows, cols);
      Radix.Split(i, cols);
      if Covers(p, i / cols, i % cols) then Value(p, i / cols, i % cols) else d[i])
  }

  lemma ApplyAt<T>(d: seq<T>, rows: nat, cols: nat, p: Patch<T>, row: nat, col: nat)
    requires IsMatrix(d, rows, cols) && Inside(p, rows, cols) && row < rows && col < cols
    ensures At(Apply(d, rows, cols, p), rows, cols, row, col)
            == if Covers(p, row, col) then Value(p, row, col) else At(d, rows, cols, row, col)
  {
    Radix.FlatBound(row, rows, col, cols);
    Radix.FlatDivMod(row, col, cols);
  }

  lemma AllPatched<T>(d: seq<T>, d': seq<T>, rows: nat, cols: nat, p: Patch<T>, done: (int, int) -> bool)
    requires IsMatrix(d, rows, cols) && Inside(p, rows, cols) && Patched(d, d', rows, cols, p, done)
    requires forall i, j :: 0 <= i < p.nrows && 0 <= j < p.ncols ==> done(i, j)
    ensures d' == Apply(d, rows, cols, p)
  {
    forall row: nat, col: nat | row < rows && col < cols
      ensures At(Apply(d, rows, cols, p), rows, cols, row, col) == At(d', rows, cols, row, col)
    {
      ApplyAt(d, rows, cols, p, row, col);
      assert At(d', rows, cols, row, col) == PatchedCell(d, rows, cols, p, done, row, col);
    }
    SameCells(d', Apply(d, rows, cols, p), rows, cols);
  }

  // Many patches.

  ghost predicate AllInside<T>(ps: seq<Patch<T>>, rows: nat, cols: nat) {
    forall i :: 0 <= i < |ps| ==> Inside(ps[i], rows, cols)
  }

  function ApplyAll<T>(d: seq<T>, rows: nat, cols: nat, ps: seq<Patch<T>>): (r: seq<T>)
    requires IsMatrix(d, rows, cols) && AllInside(ps, rows, cols)
    ensures IsMatrix(r, rows, cols)
  {
    if ps == [] then d else Apply(ApplyAll(d, rows, cols, ps[..|ps| - 1]), rows, cols, ps[|ps| - 1])
  }

  ghost predicate Covered<T>(ps: seq<Patch<T>>, row: nat, col: nat) {
    exists i :: 0 <= i < |ps| && Covers(ps[i], row, col)
  }

  /** If all patches that cover a cell agree on it, that is its content in the end, whatever the order. */
  lemma {:induction false} ApplyAllAt<T>(d: seq<T>, rows: nat, cols: nat, ps: seq<Patch<T>>, row: nat, col: nat, v: T)
    requires IsMatrix(d, rows, cols) && AllInside(ps, rows, cols) && row < rows && col < cols
    requires forall i :: 0 <= i < |ps| && Covers(ps[i], row, col) ==> Value(ps[i], row, col) == v
    ensures At(ApplyAll(d, rows, cols, ps), rows, cols, row, col)
            == if Covered(ps, row, col) then v else At(d, rows, cols, row, col)
  {
    if ps != [] {
      var n := |ps| - 1;
      var init := ps[..n];
      assert forall i :: 0 <= i < n ==> init[i] == ps[i];
      ApplyAllAt(d, rows, cols, init, row, col, v);
      ApplyAt(ApplyAll(d, rows, cols, init), rows, cols, ps[n], row, col);
      assert Covered(ps, row, col) <==> Covered(init, row, col) || Covers(ps[n], row, col) by {
        if Covered(init, row, col) {
          var i :| 0 <= i < |init| && Covers(init[i], row, col);
          assert Covers(ps[i], row, col);
        }
        if Covered(ps, row, col) && !Covers(ps[n], row, col) {
          var i :| 0 <= i < |ps| && Covers(ps[i], row, col);
          assert Covers(init[i], row, col);
        }
      }
    }
  }

  ghost predicate Overlap<T>(p: Patch<T>, q: Patch<T>) {
    exists row: nat, col: nat :: Covers(p, row, col) && Covers(q, row, col)
  }

  /** Two patches share a cell exactly when they share a row and a column. */
  lemma OverlapIff<T>(p: Patch<T>, q: Patch<T>)
    ensures Overlap(p, q) <==>
            && p.nrows > 0 && p.ncols > 0 && q.nrows > 0 && q.ncols > 0
            && p.row0 < q.row0 + q.nrows && q.row0 < p.row0 + p.nrows
            && p.col0 < q.col0 + q.ncols && q.col0 < p.col0 + p.ncols
  {
    var row := if p.row0 < q.row0 then q.row0 else p.row0;
    var col := if p.col0 < q.col0 then q.col0 else p.col0;
    if Covers(p, row, col) && Covers(q, row, col) {
      assert Overlap(p, q);
    }
  }

  ghost predicate Disjoint<T>(ps: seq<Patch<T>>) {
    forall i, j :: 0 <= i < |ps| && 0 <= j < |ps| && ps[i] != ps[j] ==> !Overlap(ps[i], ps[j])
  }

  /** Patches that do not overlap can be copied in any order, and repeated. */
  lemma AnyOrder<T>(d: seq<T>, rows: nat, cols: nat, ps: seq<Patch<T>>, qs: seq<Patch<T>>)
    requires IsMatrix(d, rows, cols) && AllInside(ps, rows, cols) && AllInside(qs, rows, cols)
    requires Disjoint(ps) && forall p :: p in ps <==> p in qs
    ensures ApplyAll(d, rows, cols, ps) == ApplyAll(d, rows, cols, qs)
  {
    var d1, d2 := ApplyAll(d, rows, cols, ps), ApplyAll(d, rows, cols, qs);
    forall row: nat, col: nat | row < rows && col < cols
      ensures At(d2, rows, cols, row, col) == At(d1, rows, cols, row, col)
    {
      CellAnyOrder(d, rows, cols, ps, qs, row, col);
    }
    SameCells(d1, d2, rows, cols);
  }

  lemma CellAnyOrder<T>(d: seq<T>, rows: nat, cols: nat, ps: seq<Patch<T>>, qs: seq<Patch<T>>, row: nat, col: nat)
    requires IsMatrix(d, rows, cols) && AllInside(ps, rows, cols) && AllInside(qs, rows, cols)
    requires Disjoint(ps) && (forall p :: p in ps <==> p in qs) && row < rows && col < cols
    ensures At(ApplyAll(d, rows, cols, ps), rows, cols, row, col)
            == At(ApplyAll(d, rows, cols, qs), rows, cols, row, col)
  {
    CoveredSame(ps, qs, row, col);
    if Covered(ps, row, col) {
      var k :| 0 <= k < |ps| && Covers(ps[k], row, col);
      var v := Value(ps[k], row, col);
      forall i | 0 <= i < |ps| && Covers(ps[i], row, col) ensures Value(ps[i], row, col) == v {
        assert ps[i] != ps[k] ==> Overlap(ps[i], ps[k]);
      }
      forall i | 0 <= i < |qs| && Covers(qs[i], row, col) ensures Value(qs[i], row, col) == v {
        assert qs[i] in ps;
        var j :| 0 <= j < |ps| && ps[j] == qs[i];
        assert ps[j] != ps[k] ==> Overlap(ps[j], ps[k]);
      }
      ApplyAllAt(d, rows, cols, ps, row, col, v);
      ApplyAllAt(d, rows, cols, qs, row, col, v);
    } else {
      var v := At(d, rows, cols, row, col);
      ApplyAllAt(d, rows, cols, ps, row, col, v);
      assert forall i :: 0 <= i < |qs| ==> !Covers(qs[i], row, col);
      ApplyAllAt(d, rows, cols, qs, row, col, v);
    }
  }

  lemma CoveredSame<T>(ps: seq<Patch<T>>, qs: seq<Patch<T>>, row: nat, col: nat)
    requires forall p :: p in ps <==> p in qs
    ensures Covered(ps, row, col) <==> Covered(qs, row, col)
  {
    if Covered(ps, row, col) {
      var i :| 0 <= i < |ps| && Covers(ps[i], row, col);
      assert ps[i] in qs;
    }
    if Covered(qs, row, col) {
      var i :| 0 <= i < |qs| && Covers(qs[i], row, col);
      assert qs[i] in ps;
    }
  }
}
