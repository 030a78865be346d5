// Small vocabulary shared by the models: optional values, finite sets, powers of two.
module Common {
  datatype Option<+T> = None | Some(value: T)

  type Byte = x: int | 0 <= x < 256

  function Max(a: int, b: int): (r: int)
    ensures r >= a && r >= b && (r == a || r == b)
  {
    if a >= b then a else b
  }

  function Min(a: int, b: int): (r: int)
    ensures r <= a && r <= b && (r == a || r == b)
  {
    if a <= b then a else b
  }

  lemma SubsetSize<T>(a: set<T>, b: set<T>)
    requires a <= b
    ensures |a| <= |b|
    ensures |a| == |b| ==> a == b
  {
    assert b == a + (b - a);
    assert |b| == |a| + |b - a|;
  }

  // LIMIT without ORDER BY: any `cap` of the rows, or all of them.
  method TakeUpTo<T(==)>(all: set<T>, cap: nat) returns (rows: set<T>)
    ensures rows <= all && |rows| == Min(cap, |all|)
  {
    rows := {};
    while |rows| < cap && rows != all
      invariant rows <= all && |rows| <= cap
      decreases cap - |rows|
    {
      SubsetSize(rows, all);
      assert all - rows != {};
      var i :| i in all - rows;
      rows := rows + {i};
    }
    SubsetSize(rows, all);
  }

  function Pow2(n: nat): (r: int)
    ensures r >= 1
  {
    if n == 0 then 1 else 2 * Pow2(n - 1)
  }

  lemma {:induction false} Pow2Grows(m: nat, n: nat)
    requires m <= n
    ensures Pow2(m) <= Pow2(n)
  {
    if m < n {
      Pow2Grows(m, n - 1);
    }
  }
}
