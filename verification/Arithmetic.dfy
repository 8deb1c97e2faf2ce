// Remainders of integers.
module Arithmetic {

  lemma MultipleIsBig(d: int, n: int)
    requires n > 0
    ensures d >= 1 ==> d * n >= n
    ensures d <= -1 ==> d * n <= -n
  {
    if d <= -1 {
      assert d * n == -(-d * n) && -d * n >= n;
    }
  }

  lemma ModIs(a: int, b: int, q: int, n: int)
    requires n > 0 && 0 <= a < n && b == q * n + a
    ensures b % n == a
  {
    var d := b / n;
    assert b == d * n + b % n;
    assert (q - d) * n == q * n - d * n == b % n - a;
    MultipleIsBig(q - d, n);
  }
}
