/** Indices that wrap around a buffer of `n` slots. */
module Cyclic {

  /** Moving on one slot and then `k` more is moving on `k + 1` slots. */
  lemma Advance(x: nat, k: nat, n: nat)
    requires n > 0
    ensures ((x + 1) % n + k) % n == (x + k + 1) % n
  {
    Fold(x + 1, k, n);
  }

  lemma Fold(y: nat, k: nat, n: nat)
    requires n > 0
    ensures (y % n + k) % n == (y + k) % n
  {
    var q := y / n;
    assert y == q * n + y % n;
    Multiples(y % n + k, q, n);
    assert y % n + k + q * n == y + k;
  }

  lemma {:induction false} Multiples(x: nat, q: nat, n: nat)
    requires n > 0
    ensures (x + q * n) % n == x % n
    decreases q
  {
    if q > 0 {
      Multiples(x, q - 1, n);
      var y := x + (q - 1) * n;
      assert x + q * n == y + n;
      AddOnce(y, n);
    }
  }

  lemma AddOnce(y: nat, n: nat)
    requires n > 0
    ensures (y + n) % n == y % n
  {
    var q, r := y / n, y % n;
    assert y + n == (q + 1) * n + r;
    DivUnique(y + n, q + 1, r, n);
  }

  lemma MulBounds(d: int, n: nat)
    ensures d >= 1 ==> d * n >= n
    ensures d <= -1 ==> d * n + n <= 0
  {
    if d >= 1 {
      assert (d - 1) * n >= 0;
    } else if d <= -1 {
      assert (-d - 1) * n >= 0;
    }
  }

  lemma DivUnique(y: nat, q: nat, r: nat, n: nat)
    requires n > 0 && r < n && y == q * n + r
    ensures y % n == r
  {
    var d := y / n - q;
    assert d * n == r - y % n;
    MulBounds(d, n);
  }

  /** Two positions less than `n` apart are different slots. */
  lemma Distinct(x: nat, j: nat, k: nat, n: nat)
    requires j < k < j + n
    ensures (x + j) % n != (x + k) % n
  {
    var a, b := (x + j) / n, (x + k) / n;
    assert (b - a) * n == k - j + (x + j) % n - (x + k) % n;
    MulBounds(b - a, n);
  }

  /** The slot `k` places after `pos`, cyclically. */
  function Cell(cells: seq<int>, pos: nat, k: nat): int
    requires pos < |cells|
  {
    cells[(pos + k) % |cells|]
  }

  /** The next `n` slots read cyclically from the read index. */
  function ReadFrom(cells: seq<int>, posRead: nat, n: nat): seq<int>
    requires posRead < |cells|
  {
    seq(n, k requires 0 <= k < n => Cell(cells, posRead, k))
  }

  /** Writing a slot behind the `n` stored values leaves them alone. */
  lemma WriteBehind(cells: seq<int>, posRead: nat, n: nat, j: nat, v: int)
    requires posRead < |cells| && n <= j < |cells|
    ensures ReadFrom(cells[(posRead + j) % |cells| := v], posRead, n) == ReadFrom(cells, posRead, n)
  {
    var cells' := cells[(posRead + j) % |cells| := v];
    forall k | 0 <= k < n ensures ReadFrom(cells', posRead, n)[k] == ReadFrom(cells, posRead, n)[k] {
      Distinct(posRead, k, j, |cells|);
    }
  }

  lemma ReadOneMore(cells: seq<int>, posRead: nat, n: nat)
    requires posRead < |cells|
    ensures ReadFrom(cells, posRead, n + 1) == ReadFrom(cells, posRead, n) + [Cell(cells, posRead, n)]
  {
  }

  lemma CellHere(cells: seq<int>, pos: nat)
    requires pos < |cells|
    ensures Cell(cells, pos, 0) == cells[pos]
  {
    DivUnique(pos, 0, pos, |cells|);
  }

  lemma CellShift(cells: seq<int>, pos: nat, k: nat)
    requires pos < |cells|
    ensures Cell(cells, (pos + 1) % |cells|, k) == Cell(cells, pos, k + 1)
  {
    Advance(pos, k, |cells|);
  }

  lemma ReadOneLess(cells: seq<int>, posRead: nat, next: nat, n: nat)
    requires posRead < |cells| && next == (posRead + 1) % |cells| && n > 0
    ensures ReadFrom(cells, posRead, n) == [cells[posRead]] + ReadFrom(cells, next, n - 1)
  {
    CellHere(cells, posRead);
    forall k: nat ensures Cell(cells, next, k) == Cell(cells, posRead, k + 1) {
      CellShift(cells, posRead, k);
    }
  }

  /** The write index stays `Stored` slots ahead of the read index, whichever of them moves. */
  lemma WriteIndexMoves(posRead: nat, n: nat, size: nat)
    requires posRead < size
    ensures ((posRead + n) % size + 1) % size == (posRead + (n + 1)) % size
  {
    Fold(posRead + n, 1, size);
  }

  lemma ReadIndexMoves(posRead: nat, n: nat, size: nat)
    requires posRead < size && n > 0
    ensures (posRead + n) % size == ((posRead + 1) % size + (n - 1)) % size
  {
    Advance(posRead, n - 1, size);
  }
}
