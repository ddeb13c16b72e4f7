/** `_nEveryRow(data, n)`: cuts a list into rows of `n`, padding the last
    row with `null` (here `None`). */
module Rows {
  import opened PickerTypes

  /** The rows laid end to end. */
  function Flatten<T>(rows: seq<seq<T>>): seq<T>
  {
    if rows == [] then [] else Flatten(rows[..|rows| - 1]) + rows[|rows| - 1]
  }

  lemma FlattenSnoc<T>(rows: seq<seq<T>>, row: seq<T>)
    ensures Flatten(rows + [row]) == Flatten(rows) + row
  {
  }

  /** Every element of `data`, as a present (non-null) cell. */
  function Present<T>(data: seq<T>): (cells: seq<Option<T>>)
    ensures |cells| == |data|
    ensures forall k | 0 <= k < |data| :: cells[k] == Some(data[k])
  {
    seq(|data|, k requires 0 <= k < |data| => Some(data[k]))
  }

  /** `k` null cells. */
  function Nulls<T>(k: nat): (cells: seq<Option<T>>)
    ensures |cells| == k
    ensures forall j | 0 <= j < k :: cells[j] == None
  {
    seq(k, _ => None)
  }

  /** Division with remainder has one answer. */
  lemma DivModUnique(i: int, n: int, q: int, r: int)
    requires n >= 1 && 0 <= r < n && i == q * n + r
    ensures i / n == q && i % n == r
  {
    var q', r' := i / n, i % n;
    assert i == q' * n + r';
    if q' < q {
      MulMono(q' + 1, q, n);
    } else if q < q' {
      MulMono(q + 1, q', n);
    }
  }

  /** After `rows` full rows and a partial row of `t` cells (1 to `n`),
      the position `rows * n + t` is a multiple of `n` exactly when the
      partial row is full. */
  lemma FullRowAt(rows: nat, t: int, n: int)
    requires n >= 1 && 1 <= t <= n
    ensures (rows * n + t) % n == 0 <==> t == n
  {
    if t == n {
      assert rows * n + t == (rows + 1) * n + 0;
      DivModUnique(rows * n + t, n, rows + 1, 0);
    } else {
      DivModUnique(rows * n + t, n, rows, t);
    }
  }

  /** `rows` rows of `n` cells hold `len` elements with fewer than `n`
      cells of padding exactly when `rows` is `len / n` rounded up. */
  lemma RowCount(len: nat, rows: nat, n: nat)
    requires n >= 1
    requires len <= rows * n < len + n
    ensures rows == (len + n - 1) / n
  {
    var q, r := (len + n - 1) / n, (len + n - 1) % n;
    assert len + n - 1 == q * n + r;
    if rows < q {
      assert rows * n <= (q - 1) * n by { MulMono(rows, q - 1, n); }
    } else if rows > q {
      assert (q + 1) * n <= rows * n by { MulMono(q + 1, rows, n); }
    }
  }

  lemma MulMono(a: int, b: int, n: nat)
    requires a <= b
    ensures a * n <= b * n
  {
  }

  /** The padding loop of `_nEveryRow`: `null`s are pushed onto the last
      row until it holds `n` cells. */
  method PadWithNulls<T>(row: seq<Option<T>>, n: nat) returns (padded: seq<Option<T>>)
    requires |row| <= n
    ensures padded == row + Nulls(n - |row|)
  {
    padded := row;
    while |padded| != n
      invariant |row| <= |padded| <= n
      invariant padded == row + Nulls(|padded| - |row|)
      decreases n - |padded|
    {
      assert Nulls<T>(|padded| + 1 - |row|) == Nulls(|padded| - |row|) + [None];
      padded := padded + [None];
    }
  }

  /** The rows the source builds: each row has exactly `n` cells, there are
      `|data| / n` rounded up of them (none for empty data), and read in
      order they give `data` followed by fewer than `n` nulls. With `n == 0`
      and non-empty data the source's padding loop never ends, so `n >= 1`
      is required. */
  method NEveryRow<T>(data: seq<T>, n: nat) returns (result: seq<seq<Option<T>>>)
    requires n >= 1
    ensures forall r | 0 <= r < |result| :: |result[r]| == n
    ensures |result| == (|data| + n - 1) / n
    ensures |data| <= |result| * n < |data| + n
    ensures Flatten(result) == Present(data) + Nulls(|result| * n - |data|)
  {
    result := [];
    var temp: seq<Option<T>> := [];
    var i := 0;
    while i < |data|
      invariant 0 <= i <= |data|
      invariant forall r | 0 <= r < |result| :: |result[r]| == n
      invariant |result| * n + |temp| == i
      invariant i > 0 ==> 1 <= |temp| <= n
      invariant i == 0 ==> temp == [] && result == []
      invariant Flatten(result) + temp == Present(data[..i])
    {
      if i > 0 {
        FullRowAt(|result|, |temp|, n);
      }
      if i > 0 && i % n == 0 {
        FlattenSnoc(result, temp);
        assert (|result| + 1) * n == |result| * n + n;
        result := result + [temp];
        temp := [];
      }
      assert Present(data[..i + 1]) == Present(data[..i]) + [Some(data[i])];
      temp := temp + [Some(data[i])];
      i := i + 1;
    }
    assert data[..i] == data;
    if |temp| > 0 {
      var filled := |temp|;
      temp := PadWithNulls(temp, n);
      assert Flatten(result) + temp == Present(data) + Nulls(n - filled);
      FlattenSnoc(result, temp);
      assert (|result| + 1) * n == |result| * n + n;
      result := result + [temp];
    }
    RowCount(|data|, |result|, n);
  }
}
