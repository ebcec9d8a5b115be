/**
 * Batched matrix products. Rows of the batch are grouped four or eight at a time, or split into one job per output
 * element; in exact arithmetic every grouping gives each batch row the product it would get alone.
 */
module BatchKernels {
  import opened Arithmetic

  /** A weight matrix: dot(r, x) is the scalar kernel's dot product of its row r with x. */
  datatype Matrix = Matrix(rows: nat, blocked: bool, ffn: bool, dot: (nat, seq<real>) -> real)

  /** The product for one row of the batch on its own. */
  function MatRow(m: Matrix, x: seq<real>): (r: seq<real>)
    ensures |r| == m.rows
    ensures forall i :: 0 <= i < m.rows ==> r[i] == m.dot(i, x)
  {
    seq(m.rows, i requires i >= 0 => m.dot(i, x))
  }

  method RowBatch4(m: Matrix, r: nat, xs: seq<seq<real>>, b: nat) returns (out: seq<real>)
    requires b + 4 <= |xs|
    ensures |out| == 4 && forall j :: 0 <= j < 4 ==> out[j] == m.dot(r, xs[b + j])
  {
    out := [];
    for j := 0 to 4
      invariant |out| == j && forall i :: 0 <= i < j ==> out[i] == m.dot(r, xs[b + i])
    {
      out := out + [m.dot(r, xs[b + j])];
    }
  }

  method RowBatch8(m: Matrix, r: nat, xs: seq<seq<real>>, b: nat) returns (out: seq<real>)
    requires b + 8 <= |xs|
    ensures |out| == 8 && forall j :: 0 <= j < 8 ==> out[j] == m.dot(r, xs[b + j])
  {
    var lo := RowBatch4(m, r, xs, b);
    var hi := RowBatch4(m, r, xs, b + 4);
    out := lo + hi;
  }

  /** Column r of y is done for the first n batch rows. */
  ghost predicate ColumnDone(y: array2<real>, m: Matrix, xs: seq<seq<real>>, r: nat, n: nat)
    reads y
    requires y.Length0 == |xs| && y.Length1 == m.rows && n <= |xs| && r < m.rows
  {
    forall b :: 0 <= b < n ==> y[b, r] == m.dot(r, xs[b])
  }

  ghost predicate ColumnsDone(y: array2<real>, m: Matrix, xs: seq<seq<real>>, n: nat)
    reads y
    requires y.Length0 == |xs| && y.Length1 == m.rows && n <= m.rows
  {
    forall r :: 0 <= r < n ==> ColumnDone(y, m, xs, r, |xs|)
  }

  /** Only column r differs from the earlier contents. */
  twostate predicate OtherColumnsKept(y: array2<real>, r: nat)
    reads y
  {
    forall b, c :: 0 <= b < y.Length0 && 0 <= c < y.Length1 && c != r ==> y[b, c] == old(y[b, c])
  }

  /** Stores a group's outputs in column r. */
  method StoreGroup(y: array2<real>, m: Matrix, xs: seq<seq<real>>, r: nat, b: nat, out: seq<real>)
    requires y.Length0 == |xs| && y.Length1 == m.rows && r < m.rows && b + |out| <= |xs|
    requires ColumnDone(y, m, xs, r, b)
    requires forall j :: 0 <= j < |out| ==> out[j] == m.dot(r, xs[b + j])
    modifies y
    ensures ColumnDone(y, m, xs, r, b + |out|) && OtherColumnsKept(y, r)
  {
    for j := 0 to |out|
      invariant ColumnDone(y, m, xs, r, b + j) && OtherColumnsKept(y, r)
    {
      y[b + j, r] := out[j];
    }
  }

  /** One weight row against the whole batch: groups of eight (FFN) or four, then the rest one at a time. */
  method GroupedColumn(y: array2<real>, m: Matrix, xs: seq<seq<real>>, r: nat)
    requires y.Length0 == |xs| && y.Length1 == m.rows && r < m.rows
    modifies y
    ensures ColumnDone(y, m, xs, r, |xs|) && OtherColumnsKept(y, r)
  {
    var b := 0;
    if m.ffn {
      while b + 8 <= |xs|
        invariant b <= |xs| && ColumnDone(y, m, xs, r, b) && OtherColumnsKept(y, r)
      {
        var out := RowBatch8(m, r, xs, b);
        StoreGroup(y, m, xs, r, b, out);
        b := b + 8;
      }
    } else {
      while b + 4 <= |xs|
        invariant b <= |xs| && ColumnDone(y, m, xs, r, b) && OtherColumnsKept(y, r)
      {
        var out := RowBatch4(m, r, xs, b);
        StoreGroup(y, m, xs, r, b, out);
        b := b + 4;
      }
    }
    while b < |xs|
      invariant b <= |xs| && ColumnDone(y, m, xs, r, b) && OtherColumnsKept(y, r)
    {
      y[b, r] := m.dot(r, xs[b]);
      b := b + 1;
    }
  }

  method GroupedProduct(y: array2<real>, m: Matrix, xs: seq<seq<real>>)
    requires y.Length0 == |xs| && y.Length1 == m.rows
    modifies y
    ensures ColumnsDone(y, m, xs, m.rows)
  {
    for r := 0 to m.rows
      invariant ColumnsDone(y, m, xs, r)
    {
      label before:
      GroupedColumn(y, m, xs, r);
      forall c | 0 <= c < r
        ensures ColumnDone(y, m, xs, c, |xs|)
      {
        assert old@before(ColumnDone(y, m, xs, c, |xs|));
      }
    }
  }

  /** Job j of the ungrouped product is batch row j / rows, weight row j % rows. */
  lemma {:induction false} JobPlace(j: nat, n: nat, b: nat, r: nat)
    requires n > 0 && r < n
    ensures SlotOff(b, n) + r == j <==> b == PageOf(j, n) && r == RowOf(j, n)
  {
    if b == 0 {
    } else if j >= n {
      JobPlace(j - n, n, b - 1, r);
    }
  }

  lemma {:induction false} JobRange(j: nat, n: nat, batch: nat)
    requires n > 0 && j < SlotOff(batch, n)
    ensures PageOf(j, n) < batch
  {
    if j >= n {
      JobRange(j - n, n, batch - 1);
    }
  }

  /** The elements of the first j jobs are done. */
  ghost predicate JobsDone(y: array2<real>, m: Matrix, xs: seq<seq<real>>, j: nat)
    reads y
    requires y.Length0 == |xs| && y.Length1 == m.rows
  {
    forall b, r :: 0 <= b < |xs| && 0 <= r < m.rows && SlotOff(b, m.rows) + r < j ==> y[b, r] == m.dot(r, xs[b])
  }

  method OneJob(y: array2<real>, m: Matrix, xs: seq<seq<real>>, j: nat)
    requires y.Length0 == |xs| && y.Length1 == m.rows && m.rows > 0 && j < SlotOff(|xs|, m.rows)
    requires JobsDone(y, m, xs, j)
    modifies y
    ensures JobsDone(y, m, xs, j + 1)
  {
    PageRowAreDivMod(j, m.rows);
    JobRange(j, m.rows, |xs|);
    var bi, r := j / m.rows, j % m.rows;
    y[bi, r] := m.dot(r, xs[bi]);
    forall b, c | 0 <= b < |xs| && 0 <= c < m.rows && SlotOff(b, m.rows) + c < j + 1
      ensures y[b, c] == m.dot(c, xs[b])
    {
      JobPlace(j, m.rows, b, c);
    }
  }

  /** tensor_matmul_batch: one job per output element. */
  method JobProduct(y: array2<real>, m: Matrix, xs: seq<seq<real>>)
    requires y.Length0 == |xs| && y.Length1 == m.rows
    modifies y
    ensures ColumnsDone(y, m, xs, m.rows)
  {
    SlotOffIsProduct(|xs|, m.rows);
    var jobs := |xs| * m.rows;
    var j := 0;
    while j < jobs
      invariant j <= jobs && JobsDone(y, m, xs, j)
    {
      OneJob(y, m, xs, j);
      j := j + 1;
    }
    forall r, b | 0 <= r < m.rows && 0 <= b < |xs|
      ensures y[b, r] == m.dot(r, xs[b])
    {
      SlotInPage(b, |xs|, m.rows);
    }
  }

  method ReadRow(y: array2<real>, m: Matrix, xs: seq<seq<real>>, b: nat) returns (row: seq<real>)
    requires y.Length0 == |xs| && y.Length1 == m.rows && ColumnsDone(y, m, xs, m.rows) && b < |xs|
    ensures row == MatRow(m, xs[b])
  {
    row := [];
    for r := 0 to m.rows
      invariant |row| == r && forall i :: 0 <= i < r ==> row[i] == m.dot(i, xs[b])
    {
      assert ColumnDone(y, m, xs, r, |xs|);
      row := row + [y[b, r]];
    }
  }

  /** tensor_matmul_batch_v06: the batch product, grouped when the weights are blocked, is the product row by row. */
  method MatmulBatch(m: Matrix, xs: seq<seq<real>>) returns (out: seq<seq<real>>)
    ensures |out| == |xs| && forall b :: 0 <= b < |xs| ==> out[b] == MatRow(m, xs[b])
  {
    var y := new real[|xs|, m.rows];
    if |xs| < 2 || !m.blocked {
      JobProduct(y, m, xs);
    } else {
      GroupedProduct(y, m, xs);
    }
    out := [];
    for b := 0 to |xs|
      invariant |out| == b && ColumnsDone(y, m, xs, m.rows)
      invariant forall i :: 0 <= i < b ==> out[i] == MatRow(m, xs[i])
    {
      var row := ReadRow(y, m, xs, b);
      out := out + [row];
    }
  }
}
