/** Division and remainder by a variable. */
module Arithmetic {

  lemma SmallMultiple(d: int, n: int)
    requires n > 0 && -n < d * n < n
    ensures d == 0
  {
    assert d >= 1 ==> d * n >= n;
    assert d <= -1 ==> d * n <= -n;
  }

  lemma {:induction false} MulGap(i: nat, j: nat, n: nat)
    requires i < j
    ensures i * n + n <= j * n
  {
    var d := j - i;
    assert j * n == i * n + d * n;
    assert d * n == n + (d - 1) * n;
    assert (d - 1) * n >= 0;
  }

  lemma OneLess(a: nat, m: nat, n: nat)
    requires m > 0
    ensures a <= a + (m - 1) * n == a + m * n - n
  {
  }

  lemma DivModUnique(q: int, r: int, n: int)
    requires 0 <= r < n
    ensures (q * n + r) / n == q && (q * n + r) % n == r
  {
    var a := q * n + r;
    var q', r' := a / n, a % n;
    assert a == q' * n + r';
    assert (q - q') * n == r' - r;
    SmallMultiple(q - q', n);
  }

  /** `k % n`, kept as a name so that proofs about round-robin indices stay linear. */
  ghost function Mod(k: nat, n: nat): (r: nat)
    requires n > 0
    ensures r < n
    ensures k < n ==> r == k
  {
    k % n
  }

  /** Stepping a round-robin index keeps it the remainder of the step count. */
  lemma ModStep(i: nat, n: nat)
    requires n > 0
    ensures (i % n + 1) % n == (i + 1) % n
  {
    var q, r := i / n, i % n;
    assert i == q * n + r;
    if r + 1 < n {
      DivModUnique(q, r + 1, n);
      DivModUnique(0, r + 1, n);
    } else {
      assert i + 1 == (q + 1) * n + 0;
      DivModUnique(q + 1, 0, n);
      DivModUnique(1, 0, n);
    }
  }

  lemma ModNext(i: nat, n: nat)
    requires n > 0
    ensures (Mod(i, n) + 1) % n == Mod(i + 1, n)
  {
    ModStep(i, n);
  }

  lemma ModShift(k: nat, n: nat)
    requires n > 0
    ensures Mod(k + n, n) == Mod(k, n)
  {
    var q, r := k / n, k % n;
    assert k + n == (q + 1) * n + r;
    DivModUnique(q + 1, r, n);
  }

  lemma ModApart(k: nat, i: nat, n: nat)
    requires n > 0 && k < i < k + n
    ensures Mod(k, n) != Mod(i, n)
  {
    if k % n == i % n {
      var d := i / n - k / n;
      assert i == (i / n) * n + i % n && k == (k / n) * n + k % n;
      assert d * n == i - k;
      SmallMultiple(d, n);
    }
  }

  /** Equal remainders lie a whole number of `n`s apart. */
  lemma ModEqual(k: nat, i: nat, n: nat) returns (m: nat)
    requires n > 0 && k <= i && Mod(k, n) == Mod(i, n)
    ensures i == k + m * n && (k < i ==> m > 0)
  {
    var d := i / n - k / n;
    assert i == (i / n) * n + i % n && k == (k / n) * n + k % n;
    assert d * n == i - k;
    assert d < 0 ==> d * n < 0;
    m := d;
  }
}
