/** Bitwise OR on natural numbers, and what OR with a mask of low ones does. */
module Bits {
  function Or(a: nat, b: nat): (r: nat)
    ensures a <= r <= a + b && b <= r
    decreases a + b
  {
    if a == 0 then b
    else if b == 0 then a
    else 2 * Or(a / 2, b / 2) + (if a % 2 == 1 || b % 2 == 1 then 1 else 0)
  }

  lemma OrOdd(x: nat, y: nat, n: nat, v: nat)
    requires (x == 2 * y || x == 2 * y + 1) && Or(y, n) == v
    ensures Or(x, 2 * n + 1) == 2 * v + 1
  {
    assert (2 * n + 1) / 2 == n && (2 * n + 1) % 2 == 1;
  }

  lemma OrThreeOnes(x: nat, y: nat, n: nat, v: nat)
    requires 8 * y <= x < 8 * y + 8 && Or(y, n) == v
    ensures Or(x, 8 * n + 7) == 8 * v + 7
  {
    var z := x / 2;
    var w := z / 2;
    OrOdd(w, y, n, v);
    var n1, v1 := 2 * n + 1, 2 * v + 1;
    OrOdd(z, w, n1, v1);
    var n2, v2 := 2 * n1 + 1, 2 * v1 + 1;
    OrOdd(x, z, n2, v2);
    assert 2 * n2 + 1 == 8 * n + 7;
  }

  /** OR with twelve low ones rounds down to a multiple of 4096 and adds all the ones. */
  lemma OrPageMask(x: nat)
    ensures Or(x, 4095) == x - x % 4096 + 4095
  {
    var y := x / 4096;
    var z, w := x / 64, x / 8;
    OrThreeOnes(x / 512, y, 0, y);
    OrThreeOnes(z, x / 512, 7, 8 * y + 7);
    OrThreeOnes(w, z, 63, 64 * y + 63);
    OrThreeOnes(x, w, 511, 512 * y + 511);
  }
}
