/** Tables of equally long rows laid end to end. */
module Blocks {
  import opened Bytes
  import opened Arithmetic
  import opened Buffers

  predicate Rows(rows: seq<seq<byte>>, width: nat) {
    forall i | 0 <= i < |rows| :: |rows[i]| == width
  }

  function Flat(rows: seq<seq<byte>>, width: nat): (b: seq<byte>)
    requires Rows(rows, width)
    ensures |b| == width * |rows|
  {
    if rows == [] then [] else
      assert width * |rows| == width * (|rows| - 1) + width;
      Flat(rows[..|rows| - 1], width) + rows[|rows| - 1]
  }

  lemma RowFits(n: nat, i: nat, width: nat)
    requires i < n
    ensures width * i + width <= width * n
  {
    MulMonotone(i + 1, n, width);
    assert width * i + width == (i + 1) * width;
    assert width * n == n * width;
  }

  lemma {:induction false} FlatRow(rows: seq<seq<byte>>, width: nat, i: nat)
    requires Rows(rows, width) && i < |rows|
    ensures width * i + width <= width * |rows|
    ensures Flat(rows, width)[width * i..width * i + width] == rows[i]
  {
    RowFits(|rows|, i, width);
    var n := |rows| - 1;
    if i < n {
      FlatRow(rows[..n], width, i);
    }
  }

  /** Overwriting one row of the laid-out table is replacing that row. */
  lemma {:induction false} FlatUpdate(rows: seq<seq<byte>>, width: nat, i: nat, row: seq<byte>)
    requires Rows(rows, width) && i < |rows| && |row| == width
    ensures width * i + width <= width * |rows|
    ensures Splice(Flat(rows, width), width * i, row) == Flat(rows[i := row], width)
  {
    RowFits(|rows|, i, width);
    var n := |rows| - 1;
    if i < n {
      FlatUpdate(rows[..n], width, i, row);
      assert rows[i := row][..n] == rows[..n][i := row];
      RowFits(n, i, width);
    } else {
      assert rows[i := row][..n] == rows[..n];
    }
  }

  /** Cutting a stretch of bytes into rows. */
  function Cut(b: seq<byte>, width: nat, n: nat): (rows: seq<seq<byte>>)
    requires |b| == width * n
    ensures |rows| == n && Rows(rows, width)
  {
    if n == 0 then [] else
      var at := |b| - width;
      assert width * n == width * (n - 1) + width;
      Cut(b[..at], width, n - 1) + [b[at..]]
  }

  lemma {:induction false} FlatOfCut(b: seq<byte>, width: nat, n: nat)
    requires |b| == width * n
    ensures Flat(Cut(b, width, n), width) == b
  {
    if n > 0 {
      var at := |b| - width;
      assert width * n == width * (n - 1) + width;
      var head := Cut(b[..at], width, n - 1);
      FlatOfCut(b[..at], width, n - 1);
      assert Cut(b, width, n) == head + [b[at..]];
      assert (head + [b[at..]])[..n - 1] == head;
    }
  }

  lemma {:induction false} CutOfFlat(rows: seq<seq<byte>>, width: nat)
    requires Rows(rows, width)
    ensures Cut(Flat(rows, width), width, |rows|) == rows
  {
    if rows != [] {
      var n := |rows| - 1;
      assert width * |rows| == width * n + width;
      CutOfFlat(rows[..n], width);
      assert Flat(rows, width) == Flat(rows[..n], width) + rows[n];
      assert Flat(rows, width)[..width * n] == Flat(rows[..n], width) && Flat(rows, width)[width * n..] == rows[n];
      assert rows == rows[..n] + [rows[n]];
    }
  }

  lemma {:induction false} CutRow(b: seq<byte>, width: nat, n: nat, i: nat)
    requires |b| == width * n && i < n
    ensures width * i + width <= width * n
    ensures Cut(b, width, n)[i] == b[width * i..width * i + width]
  {
    FlatOfCut(b, width, n);
    FlatRow(Cut(b, width, n), width, i);
  }

  /** The `n` rows of a table that starts at `at`. */
  function Table(b: seq<byte>, at: nat, width: nat, n: nat): (rows: seq<seq<byte>>)
    requires at + width * n <= |b|
    ensures |rows| == n && Rows(rows, width)
  {
    Cut(b[at..at + width * n], width, n)
  }

  /** Row `i` of a table is one slice of the bytes. */
  lemma TableRow(b: seq<byte>, at: nat, width: nat, n: nat, i: nat)
    requires at + width * n <= |b| && i < n
    ensures at + width * i + width <= |b|
    ensures Table(b, at, width, n)[i] == b[at + width * i..at + width * i + width]
  {
    hide Cut, Flat;
    var size, row := width * n, width * i;
    CutRow(b[at..at + size], width, n, i);
    Within(b, at, at + size, row, row + width);
  }

  lemma FlatOfTable(b: seq<byte>, at: nat, width: nat, n: nat)
    requires at + width * n <= |b|
    ensures Flat(Table(b, at, width, n), width) == b[at..at + width * n]
  {
    FlatOfCut(b[at..at + width * n], width, n);
  }

  lemma TableOfFlat(before: seq<byte>, rows: seq<seq<byte>>, width: nat, after: seq<byte>)
    requires Rows(rows, width)
    ensures Table(before + Flat(rows, width) + after, |before|, width, |rows|) == rows
  {
    var b := before + Flat(rows, width) + after;
    assert b[|before|..|before| + width * |rows|] == Flat(rows, width);
    CutOfFlat(rows, width);
  }

  /** Laying out one more row. */
  lemma FlatNext(rows: seq<seq<byte>>, width: nat, i: nat)
    requires Rows(rows, width) && i < |rows|
    ensures Flat(rows[..i + 1], width) == Flat(rows[..i], width) + rows[i]
    ensures width * i + width <= width * |rows|
  {
    assert rows[..i + 1][..i] == rows[..i];
    RowFits(|rows|, i, width);
  }
}
