/** Facts about Euclidean division that the cursor and the update cadences rest on. */
module Modular {

  lemma MulAtLeast(m: int, c: int)
    requires m >= 1 && c > 0
    ensures m * c >= c
  {
  }

  /** The remainder of `q * c + r` by `c` is `r` whenever `r` lies in `[0, c)`. */
  lemma ModUnique(x: int, c: int, q: int, r: int)
    requires c > 0 && 0 <= r < c && x == q * c + r
    ensures x % c == r
  {
    var a, b := x / c, x % c;
    assert x == a * c + b;
    if a > q {
      MulAtLeast(a - q, c);
    } else if a < q {
      MulAtLeast(q - a, c);
    }
  }
}
