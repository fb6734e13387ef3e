/** Small functions of numbers. */
module Numbers {
  function Pow2(n: nat): (r: nat)
    ensures r > n
  {
    if n == 0 then 1 else 2 * Pow2(n - 1)
  }

  ghost function One(b: bool): nat { if b then 1 else 0 }
}
