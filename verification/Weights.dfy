/** Products and sums of weights.  Mul and Add-free statements keep the nonlinear arithmetic inside this file:
  * lemmas elsewhere hide Mul and use the laws below. */
module Weights {

  ghost function Mul(x: real, y: real): real { x * y }

  function Times(x: real, y: real): (r: real)
    ensures r == Mul(x, y)
  {
    x * y
  }

  lemma MulExchange(x: real, y: real, z: real, w: real)
    ensures Mul(Mul(x, y), Mul(z, w)) == Mul(Mul(x, z), Mul(y, w))
  {}

  lemma MulAssoc(x: real, y: real, z: real)
    ensures Mul(x, Mul(y, z)) == Mul(Mul(x, y), z)
  {}

  lemma MulUnit(x: real)
    ensures Mul(x, 1.0) == x && Mul(1.0, x) == x
  {}

  ghost function Product(s: seq<real>): real {
    if |s| == 0 then 1.0 else Mul(s[0], Product(s[1..]))
  }

  lemma ProductCons(x: real, s: seq<real>)
    ensures Product([x] + s) == Mul(x, Product(s))
  {
    assert ([x] + s)[1..] == s;
  }

  lemma ProductOfOne(x: real)
    ensures Product([x]) == x && Product([]) == 1.0
  {
    assert [x][1..] == [];
  }

  lemma {:induction false} ProductConcat(s: seq<real>, t: seq<real>)
    ensures Product(s + t) == Mul(Product(s), Product(t))
  {
    hide Mul;
    if |s| == 0 {
      assert s + t == t;
      MulUnit(Product(t));
    } else {
      ProductConcat(s[1..], t);
      assert (s + t)[1..] == s[1..] + t;
      MulAssoc(s[0], Product(s[1..]), Product(t));
    }
  }

  lemma MulCommutes(x: real, y: real)
    ensures Mul(x, y) == Mul(y, x)
  {}

  lemma MulDistributes(x: real, y: real, z: real)
    ensures Mul(x, y + z) == Mul(x, y) + Mul(x, z) && Mul(y + z, x) == Mul(y, x) + Mul(z, x)
  {}

  lemma MulZero(x: real)
    ensures Mul(x, 0.0) == 0.0 && Mul(0.0, x) == 0.0
  {}

  lemma MulNonNegative(x: real, y: real)
    requires x >= 0.0 && y >= 0.0
    ensures Mul(x, y) >= 0.0
  {}

  function Div(x: real, y: real): (r: real)
    requires y != 0.0
    ensures Mul(r, y) == x
  {
    x / y
  }

  /** Dividing by a product, spread over a sum. */
  lemma DivProduct(p: real, b: real, k: real, u: real, v: real)
    requires b != 0.0 && k != 0.0
    ensures Mul(b, k) != 0.0
    ensures Mul(Div(p, Mul(b, k)), Mul(b, u) + Mul(v, k)) == Mul(Div(p, b), v) + Mul(Div(p, k), u)
  {
    hide Div, Mul;
    MulNotZero(b, k);
    var d := Div(p, Mul(b, k));
    DivMul(p, Mul(b, k));
    Spread(d, b, k, u, v);
    DivUnique(p, b, Mul(d, k));
    DivUnique(p, k, Mul(d, b));
  }

  lemma MulDiv(x: real, y: real, z: real)
    requires z != 0.0
    ensures Div(Mul(x, y), z) == Mul(x, Div(y, z))
  {
    hide Div;
    MulAssoc(x, Div(y, z), z);
    DivUnique(Mul(x, y), z, Mul(x, Div(y, z)));
  }

  lemma DivMul(p: real, q: real)
    requires q != 0.0
    ensures Mul(Div(p, q), q) == p
  {
    hide Div, Mul;
  }

  lemma DivUnique(p: real, q: real, d: real)
    requires q != 0.0 && Mul(d, q) == p
    ensures Div(p, q) == d
  {
    hide Div, Mul;
    MulCancels(Div(p, q), d, q);
  }

  lemma MulCancels(x: real, y: real, z: real)
    requires z != 0.0 && Mul(x, z) == Mul(y, z)
    ensures x == y
  {}

  lemma Spread(d: real, b: real, k: real, u: real, v: real)
    ensures Mul(d, Mul(b, u) + Mul(v, k)) == Mul(Mul(d, k), v) + Mul(Mul(d, b), u)
    ensures Mul(Mul(d, k), b) == Mul(d, Mul(b, k)) && Mul(Mul(d, b), k) == Mul(d, Mul(b, k))
  {}

  lemma MulNotZero(x: real, y: real)
    ensures Mul(x, y) != 0.0 <==> x != 0.0 && y != 0.0
  {}

  // ----- finite sums -----

  ghost function Sum(s: seq<real>): real {
    if |s| == 0 then 0.0 else Sum(s[..|s| - 1]) + s[|s| - 1]
  }

  lemma {:induction false} SumUpdate(s: seq<real>, i: nat, x: real)
    requires i < |s|
    ensures Sum(s[i := x]) == Sum(s) - s[i] + x
  {
    var n := |s| - 1;
    if i == n {
      assert s[i := x][..n] == s[..n];
    } else {
      SumUpdate(s[..n], i, x);
      assert s[i := x][..n] == s[..n][i := x];
    }
  }
}
