/** Sums of weights over finite sets. */
module SetSums {
  import opened Weights

  ghost function SumOver<T(!new)>(s: set<T>, f: T -> real): real
    decreases |s|
  {
    if s == {} then 0.0 else
    var x :| x in s;
    f(x) + SumOver(s - {x}, f)
  }

  /** Any element may be taken out first. */
  lemma {:induction false} SumTakes<T(!new)>(s: set<T>, f: T -> real, y: T)
    requires y in s
    ensures SumOver(s, f) == f(y) + SumOver(s - {y}, f)
    decreases |s|
  {
    var x :| x in s && SumOver(s, f) == f(x) + SumOver(s - {x}, f);
    if x != y {
      SumTakes(s - {x}, f, y);
      SumTakes(s - {y}, f, x);
      assert s - {x} - {y} == s - {y} - {x};
    }
  }

  lemma SumAdds<T(!new)>(s: set<T>, f: T -> real, y: T)
    requires y !in s
    ensures SumOver(s + {y}, f) == f(y) + SumOver(s, f)
  {
    SumTakes(s + {y}, f, y);
    assert s + {y} - {y} == s;
  }

  lemma {:induction false} SumSame<T(!new)>(s: set<T>, f: T -> real, g: T -> real)
    requires forall x :: x in s ==> f(x) == g(x)
    ensures SumOver(s, f) == SumOver(s, g)
    decreases |s|
  {
    if s != {} {
      var x :| x in s;
      SumTakes(s, f, x);
      SumTakes(s, g, x);
      SumSame(s - {x}, f, g);
    }
  }

  /** A sum of products with two constants. */
  lemma {:induction false} SumMixes<T(!new)>(s: set<T>, f: T -> real, g: T -> real, h: T -> real, a: real, b: real)
    requires forall x :: x in s ==> h(x) == Mul(a, f(x)) + Mul(b, g(x))
    ensures SumOver(s, h) == Mul(a, SumOver(s, f)) + Mul(b, SumOver(s, g))
    decreases |s|
  {
    hide Mul;
    if s == {} {
      MulZero(a);
      MulZero(b);
    } else {
      var x :| x in s;
      SumTakes(s, f, x);
      SumTakes(s, g, x);
      SumTakes(s, h, x);
      SumMixes(s - {x}, f, g, h, a, b);
      MulDistributes(a, f(x), SumOver(s - {x}, f));
      MulDistributes(b, g(x), SumOver(s - {x}, g));
    }
  }

  /** Elements at which f is 0 do not matter. */
  lemma {:induction false} SumOfPart<T(!new)>(s: set<T>, part: set<T>, f: T -> real)
    requires part <= s && forall x :: x in s && x !in part ==> f(x) == 0.0
    ensures SumOver(s, f) == SumOver(part, f)
    decreases |s|
  {
    if s == part {
    } else {
      var x :| x in s && x !in part;
      SumTakes(s, f, x);
      SumOfPart(s - {x}, part, f);
    }
  }

  /** The same sum, over the elements renamed one for one. */
  lemma {:induction false} SumRenamed<T(!new), U(!new)>(s: set<T>, t: set<U>, name: T -> U, f: T -> real, g: U -> real)
    requires forall x :: x in s ==> name(x) in t && f(x) == g(name(x))
    requires forall x, y :: x in s && y in s && name(x) == name(y) ==> x == y
    requires forall z :: z in t ==> exists x :: x in s && name(x) == z
    ensures SumOver(s, f) == SumOver(t, g)
    decreases |s|
  {
    if s == {} {
      assert t == {};
    } else {
      var x :| x in s;
      SumTakes(s, f, x);
      SumTakes(t, g, name(x));
      forall z | z in t - {name(x)} ensures exists y :: y in s - {x} && name(y) == z {
        var y :| y in s && name(y) == z;
        assert y in s - {x};
      }
      SumRenamed(s - {x}, t - {name(x)}, name, f, g);
    }
  }
}
