/** Products, quotients and sizes that the solver should not have to find by itself. */
module Arithmetic {

  lemma MulMonotone(j: nat, k: nat, n: nat)
    requires j <= k
    ensures j * n <= k * n
  {
  }

  lemma MulBounds(j: nat, k: nat, n: nat)
    requires j < k
    ensures j * n + n <= k * n
  {
    MulMonotone(j + 1, k, n);
  }

  lemma DivMul(a: nat, n: nat)
    requires n > 0
    ensures a / n * n <= a < a / n * n + n
  {
  }

  // a quotient between lo and hi
  lemma Quotient(a: nat, n: nat, lo: nat, hi: nat)
    requires n > 0 && lo * n <= a < (hi + 1) * n
    ensures lo <= a / n <= hi
  {
    var q := a / n;
    DivMul(a, n);
    if q < lo {
      MulBounds(q, lo, n);
    } else if hi < q {
      MulMonotone(hi + 1, q, n);
    }
  }

  lemma QuotientIs(j: nat, n: nat)
    requires n > 0
    ensures j * n / n == j
  {
    Quotient(j * n, n, j, j);
  }

  lemma {:induction false} Subset(a: set<nat>, b: set<nat>)
    requires a <= b
    ensures |a| <= |b|
  {
    if a != {} {
      var x :| x in a;
      Subset(a - {x}, b - {x});
    }
  }

  lemma ByteSucc(b: bv8)
    requires b < 255
    ensures (b + 1) as nat == b as nat + 1
  {
  }

  // the byte that stands for n, counted up to
  function ByteOf(n: nat): (r: bv8)
    requires n < 256
    ensures r as nat == n
  {
    if n == 0 then 0
    else
      ByteSucc(ByteOf(n - 1));
      ByteOf(n - 1) + 1
  }

  lemma ByteBack(b: bv8)
    ensures (b as nat) as bv8 == b
  {
  }

  lemma ByteRoundTrip(n: nat)
    requires n < 256
    ensures (n as bv8) as nat == n
  {
    ByteBack(ByteOf(n));
  }
}
