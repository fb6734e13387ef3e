/** The sampler of gextract/graehl.py: N weighted items are cut into N equal cells of at most two items. */
module AliasTable {
  import opened Weights
  import opened Options

  /** A weight, and the position of what it is the weight of. */
  datatype Item = Item(p: real, v: nat)

  /** The low part of the cell, of the given share, picks lo, the rest hi. */
  datatype Cell = Cell(share: real, lo: nat, hi: nat)

  /** Which items are measured: all of them, or those equal to one. */
  datatype Pick = Everything | Only(v: nat)

  ghost predicate Picks(pick: Pick, v: nat) {
    pick.Everything? || pick.v == v
  }

  ghost function Part(pick: Pick, v: nat, p: real): real {
    if Picks(pick, v) then p else 0.0
  }

  ghost function Mass(items: seq<Item>, pick: Pick): real {
    if |items| == 0 then 0.0 else Part(pick, items[0].v, items[0].p) + Mass(items[1..], pick)
  }

  /** u is the width of a cell. */
  ghost function CellMass(cell: Cell, u: real, pick: Pick): real {
    Part(pick, cell.lo, Mul(cell.share, u)) + Part(pick, cell.hi, u - Mul(cell.share, u))
  }

  ghost function CellsMass(cells: seq<Cell>, u: real, pick: Pick): real {
    if |cells| == 0 then 0.0 else CellsMass(cells[..|cells| - 1], u, pick) + CellMass(cells[|cells| - 1], u, pick)
  }

  /** A list of tuples of non-negative probabilities that sum to 1. */
  ghost predicate IsDistribution(items: seq<Item>) {
    (forall k :: 0 <= k < |items| ==> items[k].p >= 0.0) && Mass(items, Everything) == 1.0
  }

  // ----- select_choosep -----

  ghost predicate WellFormed(cells: seq<Cell>) {
    forall k :: 0 <= k < |cells| ==> 0.0 <= cells[k].share <= 1.0
  }

  /** Nothing from no cells; 1, which no draw should be, picks the last cell's low item. */
  method SelectChoosep(p01: real, cells: seq<Cell>) returns (v: Option<nat>)
    requires 0.0 <= p01 <= 1.0
    ensures v.None? <==> cells == []
    ensures cells != [] && p01 < 1.0 ==> v == Some(Selected(p01, cells))
    ensures cells != [] && p01 == 1.0 ==> v == Some(cells[|cells| - 1].lo)
  {
    if |cells| == 0 { return None; }
    if p01 == 1.0 { return Some(cells[|cells| - 1].lo); }
    var n := |cells| as real;
    var pn := p01 * n;
    assert 0.0 <= pn < n by { Scale(p01, n); }
    var i := pn.Floor;
    var r := pn - i as real;
    var cell := cells[i];
    v := Some(if r < cell.share then cell.lo else cell.hi);
  }

  /** In cells of equal width that fill [0, 1), every pick has the share that it has of the items. */
  ghost predicate HoldsShares(cells: seq<Cell>, items: seq<Item>) {
    forall u, pick :: Mul(u, |cells| as real) == 1.0 ==> CellsMass(cells, u, pick) == Mass(items, pick)
  }

  /** The width of each of n cells. */
  function Width(n: nat): (u: real)
    requires n > 0
    ensures u > 0.0 && Mul(u, n as real) == 1.0
  {
    Div(1.0, n as real)
  }

  lemma Scale(p: real, n: real)
    requires 0.0 <= p < 1.0 && n > 0.0
    ensures 0.0 <= p * n < n
  {}

  ghost function Selected(p01: real, cells: seq<Cell>): nat
    requires |cells| > 0 && 0.0 <= p01 < 1.0
  {
    Scale(p01, |cells| as real);
    var pn := p01 * |cells| as real;
    var cell := cells[pn.Floor];
    if pn - pn.Floor as real < cell.share then cell.lo else cell.hi
  }

  /** The cell that a value falls in, and where in it. */
  lemma SelectedInCell(p01: real, cells: seq<Cell>, u: real, k: nat)
    requires WellFormed(cells) && k < |cells| && 0.0 <= p01 < 1.0 && Mul(u, |cells| as real) == 1.0
    requires Mul(k as real, u) <= p01 < Mul(k as real + 1.0, u)
    ensures Selected(p01, cells) == if p01 < Mul(k as real, u) + Mul(cells[k].share, u) then cells[k].lo else cells[k].hi
  {
    var n := |cells| as real;
    var kr, share, pn := k as real, cells[k].share, p01 * n;
    assert pn == Mul(p01, n) && n > 0.0;
    Scale(p01, n);
    Unscale(kr, u, n);
    Unscale(kr + share, u, n);
    Unscale(kr + 1.0, u, n);
    MulDistributes(u, kr, share);
    Monotone(Mul(kr, u), p01, n);
    Monotone(p01, Mul(kr + 1.0, u), n);
    FloorIs(pn, k);
    if p01 < Mul(kr + share, u) {
      Monotone(p01, Mul(kr + share, u), n);
    } else {
      Monotone(Mul(kr + share, u), p01, n);
    }
    hide Mul;
  }

  lemma FloorIs(x: real, k: nat)
    requires k as real <= x < k as real + 1.0
    ensures x.Floor == k
  {}

  lemma Unscale(x: real, u: real, n: real)
    requires Mul(u, n) == 1.0
    ensures Mul(Mul(x, u), n) == x
  {
    MulAssoc(x, u, n);
    MulUnit(x);
  }

  lemma Monotone(x: real, y: real, n: real)
    requires x <= y && n > 0.0
    ensures Mul(x, n) <= Mul(y, n) && (x < y ==> Mul(x, n) < Mul(y, n))
  {}

  // ----- the measure of what picks an item -----

  datatype Interval = Interval(lo: real, hi: real)

  ghost predicate In(ivs: seq<Interval>, x: real) {
    exists k :: 0 <= k < |ivs| && ivs[k].lo <= x < ivs[k].hi
  }

  /** Disjoint half-open intervals, from left to right, below top. */
  ghost predicate Disjoint(ivs: seq<Interval>, top: real) {
    && (forall k :: 0 <= k < |ivs| ==> 0.0 <= ivs[k].lo <= ivs[k].hi <= top)
    && forall j, k :: 0 <= j < k < |ivs| ==> ivs[j].hi <= ivs[k].lo
  }

  ghost function Length(ivs: seq<Interval>): real {
    if |ivs| == 0 then 0.0 else Length(ivs[..|ivs| - 1]) + (ivs[|ivs| - 1].hi - ivs[|ivs| - 1].lo)
  }

  lemma AppendInterval(ivs: seq<Interval>, iv: Interval, top: real)
    requires Disjoint(ivs, iv.lo) && 0.0 <= iv.lo <= iv.hi <= top
    ensures Disjoint(ivs + [iv], top) && Length(ivs + [iv]) == Length(ivs) + (iv.hi - iv.lo)
    ensures forall x :: In(ivs + [iv], x) <==> In(ivs, x) || iv.lo <= x < iv.hi
  {
    var all := ivs + [iv];
    assert all[..|ivs|] == ivs && all[|ivs|] == iv;
    forall x ensures In(all, x) <==> In(ivs, x) || iv.lo <= x < iv.hi {
      if In(ivs, x) {
        var k :| 0 <= k < |ivs| && ivs[k].lo <= x < ivs[k].hi;
        assert all[k] == ivs[k];
      }
    }
  }

  /** The values below k*u that pick v are disjoint intervals whose lengths sum to v's share of the first k cells. */
  lemma {:induction false} PickedIntervals(cells: seq<Cell>, u: real, v: nat, k: nat) returns (ivs: seq<Interval>)
    requires WellFormed(cells) && k <= |cells| && 0 < |cells| && Mul(u, |cells| as real) == 1.0 && u > 0.0
    ensures Disjoint(ivs, Mul(k as real, u)) && Length(ivs) == CellsMass(cells[..k], u, Only(v))
    ensures Mul(k as real, u) <= 1.0
    ensures forall p :: 0.0 <= p < Mul(k as real, u) ==> (Selected(p, cells) == v <==> In(ivs, p))
  {
    if k == 0 {
      ivs := [];
      MulZero(u);
    } else {
      var low := PickedIntervals(cells, u, v, k - 1);
      ivs := PickedInCell(cells, u, v, k - 1, low);
    }
  }

  lemma CellBounds(cells: seq<Cell>, u: real, k: nat)
    requires WellFormed(cells) && k < |cells| && Mul(u, |cells| as real) == 1.0 && u > 0.0
    ensures Mul(k as real + 1.0, u) == Mul(k as real, u) + u && 0.0 <= Mul(cells[k].share, u) <= u
    ensures 0.0 <= Mul(k as real, u) && Mul(k as real + 1.0, u) <= 1.0
  {
    var kr, n := k as real, |cells| as real;
    MulDistributes(u, kr, 1.0);
    MulUnit(u);
    MulCommutes(u, n);
    assert kr + 1.0 <= n;
    Monotone(kr + 1.0, n, u);
    MulNonNegative(kr, u);
    MulNonNegative(cells[k].share, u);
    Monotone(cells[k].share, 1.0, u);
  }

  lemma PickedInCell(cells: seq<Cell>, u: real, v: nat, k: nat, low: seq<Interval>) returns (ivs: seq<Interval>)
    requires WellFormed(cells) && k < |cells| && Mul(u, |cells| as real) == 1.0 && u > 0.0
    requires Disjoint(low, Mul(k as real, u)) && Length(low) == CellsMass(cells[..k], u, Only(v)) && Mul(k as real, u) <= 1.0
    requires forall p :: 0.0 <= p < Mul(k as real, u) ==> (Selected(p, cells) == v <==> In(low, p))
    ensures Disjoint(ivs, Mul((k + 1) as real, u)) && Length(ivs) == CellsMass(cells[..k + 1], u, Only(v))
    ensures Mul((k + 1) as real, u) <= 1.0
    ensures forall p :: 0.0 <= p < Mul((k + 1) as real, u) ==> (Selected(p, cells) == v <==> In(ivs, p))
  {
    var cell, start, mid, end := cells[k], Mul(k as real, u), Mul(k as real, u) + Mul(cells[k].share, u), Mul((k + 1) as real, u);
    CellBounds(cells, u, k);
    assert (k + 1) as real == k as real + 1.0;
    forall p | start <= p < end ensures Selected(p, cells) == if p < mid then cell.lo else cell.hi {
      SelectedInCell(p, cells, u, k);
    }
    hide Mul, Selected;
    assert cells[..k + 1][..k] == cells[..k];
    ivs := WithCell(low, cell, v, start, mid, end);
  }

  /** Appends the parts of a cell that pick v. */
  lemma WithCell(low: seq<Interval>, cell: Cell, v: nat, start: real, mid: real, end: real) returns (ivs: seq<Interval>)
    requires Disjoint(low, start) && 0.0 <= start <= mid <= end
    ensures Disjoint(ivs, end)
    ensures Length(ivs) == Length(low) + Part(Only(v), cell.lo, mid - start) + Part(Only(v), cell.hi, end - mid)
    ensures forall x :: In(ivs, x) <==> In(low, x) || (cell.lo == v && start <= x < mid) || (cell.hi == v && mid <= x < end)
    ensures forall x :: In(low, x) ==> x < start
  {
    ivs := low;
    if cell.lo == v {
      AppendInterval(ivs, Interval(start, mid), mid);
      ivs := ivs + [Interval(start, mid)];
    }
    assert Disjoint(ivs, mid);
    hide Length, Disjoint;
    if cell.hi == v {
      AppendInterval(ivs, Interval(mid, end), end);
      ivs := ivs + [Interval(mid, end)];
    } else {
      DisjointBelow(ivs, mid, end);
    }
    DisjointBelow(low, start, end);
  }

  lemma DisjointBelow(ivs: seq<Interval>, top: real, end: real)
    requires Disjoint(ivs, top) && top <= end
    ensures Disjoint(ivs, end) && forall x :: In(ivs, x) ==> x < top
  {}

  // ----- compile_choosep -----

  function Smalls(items: seq<Item>, u: real): (s: seq<Item>)
    ensures forall k :: 0 <= k < |s| ==> s[k] in items && s[k].p < u
  {
    if |items| == 0 then [] else if items[0].p < u then [items[0]] + Smalls(items[1..], u) else Smalls(items[1..], u)
  }

  ghost function Bigs(items: seq<Item>, u: real): (b: seq<Item>)
    ensures forall k :: 0 <= k < |b| ==> b[k].p >= u
  {
    if |items| == 0 then [] else if items[0].p < u then Bigs(items[1..], u) else [items[0]] + Bigs(items[1..], u)
  }

  lemma {:induction false} SmallsAndBigs(items: seq<Item>, u: real, pick: Pick)
    ensures |Smalls(items, u)| + |Bigs(items, u)| == |items|
    ensures Mass(Smalls(items, u), pick) + Mass(Bigs(items, u), pick) == Mass(items, pick)
  {
    if |items| > 0 {
      SmallsAndBigs(items[1..], u, pick);
      assert ([items[0]] + Smalls(items[1..], u))[1..] == Smalls(items[1..], u);
      assert ([items[0]] + Bigs(items[1..], u))[1..] == Bigs(items[1..], u);
    }
  }

  lemma {:induction false} MassSnoc(items: seq<Item>, x: Item, pick: Pick)
    ensures Mass(items + [x], pick) == Mass(items, pick) + Part(pick, x.v, x.p)
  {
    if |items| == 0 {
      assert items + [x] == [x] && [x][1..] == [];
    } else {
      MassSnoc(items[1..], x, pick);
      assert (items + [x])[1..] == items[1..] + [x];
    }
  }

  lemma MassCons(x: Item, items: seq<Item>, pick: Pick)
    ensures Mass([x] + items, pick) == Part(pick, x.v, x.p) + Mass(items, pick)
  {
    assert ([x] + items)[1..] == items;
  }

  lemma CellsSnoc(cells: seq<Cell>, x: Cell, u: real, pick: Pick)
    ensures CellsMass(cells + [x], u, pick) == CellsMass(cells, u, pick) + CellMass(x, u, pick)
  {
    assert (cells + [x])[..|cells|] == cells;
  }

  lemma {:induction false} CellsTotal(cells: seq<Cell>, u: real)
    ensures CellsMass(cells, u, Everything) == Mul(|cells| as real, u)
  {
    if |cells| == 0 {
      MulZero(u);
    } else {
      CellsTotal(cells[..|cells| - 1], u);
      MulDistributes(u, (|cells| - 1) as real, 1.0);
      MulUnit(u);
    }
  }

  lemma {:induction false} MassBounds(items: seq<Item>, u: real)
    ensures (forall k :: 0 <= k < |items| ==> items[k].p >= u) ==> Mass(items, Everything) >= Mul(|items| as real, u)
    ensures (forall k :: 0 <= k < |items| ==> items[k].p < u) && |items| > 0 ==> Mass(items, Everything) < Mul(|items| as real, u)
  {
    MulZero(u);
    if |items| > 0 {
      MassBounds(items[1..], u);
      MulDistributes(u, (|items| - 1) as real, 1.0);
      MulUnit(u);
    }
  }

  /** r, what is pending (all slight) and what is left (the first of it perhaps cut into, the rest overfull) hold all
    * the mass, item by item, and will make one cell each. */
  ghost predicate Balanced(items: seq<Item>, u: real, r: seq<Cell>, pending: seq<Item>, left: seq<Item>) {
    && |r| + |pending| + |left| == |items| && WellFormed(r)
    && (forall k :: 0 <= k < |pending| ==> 0.0 <= pending[k].p < u)
    && (forall k :: 1 <= k < |left| ==> left[k].p >= u)
    && forall pick :: CellsMass(r, u, pick) + Mass(pending, pick) + Mass(left, pick) == Mass(items, pick)
  }

  /** Something slight is pending whenever something is overfull; in the end nothing is. */
  lemma NeverStuck(items: seq<Item>, u: real, r: seq<Cell>, pending: seq<Item>, left: seq<Item>)
    requires Balanced(items, u, r, pending, left) && IsDistribution(items) && Mul(u, |items| as real) == 1.0
    ensures |left| > 0 && left[0].p > u ==> |pending| > 0
    ensures left == [] ==> pending == []
  {
    CellsTotal(r, u);
    MassBounds(pending, u);
    var n, a, b := |r| as real, |pending| as real, |left| as real;
    MulCommutes(u, |items| as real);
    assert |items| as real == n + a + b;
    MulDistributes(u, n, a);
    MulDistributes(u, n + a, b);
    MulZero(u);
    assert Mass(pending, Everything) + Mass(left, Everything) == Mul(a, u) + Mul(b, u);
    if |left| > 0 {
      MassBounds(left[1..], u);
      MulDistributes(u, b - 1.0, 1.0);
      MulUnit(u);
      assert |left[1..]| as real == b - 1.0;
    }
  }

  lemma EatSlight(items: seq<Item>, u: real, r: seq<Cell>, small: Item, pending: seq<Item>, p: real, v: nat, rest: seq<Item>)
    requires Balanced(items, u, r, [small] + pending, [Item(p, v)] + rest) && Mul(u, |items| as real) == 1.0 && p > u
    ensures small.p >= 0.0
    ensures Balanced(items, u, r + [Cell(Mul(small.p, |items| as real), small.v, v)], pending, [Item(p - (u - small.p), v)] + rest)
  {
    var n := |items| as real;
    var cell, p' := Cell(Mul(small.p, n), small.v, v), p - (u - small.p);
    assert ([small] + pending)[0] == small && ([small] + pending)[1..] == pending;
    assert ([Item(p, v)] + rest)[1..] == rest && ([Item(p', v)] + rest)[1..] == rest;
    MulAssoc(small.p, n, u);
    MulCommutes(n, u);
    MulUnit(small.p);
    MulNonNegative(small.p, n);
    Monotone(small.p, u, n);
    forall pick ensures CellsMass(r + [cell], u, pick) + Mass(pending, pick) + Mass([Item(p', v)] + rest, pick) == Mass(items, pick) {
      CellsSnoc(r, cell, u, pick);
      MassCons(small, pending, pick);
      MassCons(Item(p, v), rest, pick);
      MassCons(Item(p', v), rest, pick);
    }
  }

  lemma CloseFull(items: seq<Item>, u: real, r: seq<Cell>, pending: seq<Item>, v: nat, rest: seq<Item>)
    requires Balanced(items, u, r, pending, [Item(u, v)] + rest)
    ensures Balanced(items, u, r + [Cell(1.0, v, v)], pending, rest)
  {
    assert ([Item(u, v)] + rest)[1..] == rest;
    MulUnit(u);
    forall pick ensures CellsMass(r + [Cell(1.0, v, v)], u, pick) + Mass(pending, pick) + Mass(rest, pick) == Mass(items, pick) {
      CellsSnoc(r, Cell(1.0, v, v), u, pick);
      MassCons(Item(u, v), rest, pick);
    }
  }

  lemma SetAside(items: seq<Item>, u: real, r: seq<Cell>, pending: seq<Item>, p: real, v: nat, rest: seq<Item>)
    requires Balanced(items, u, r, pending, [Item(p, v)] + rest) && 0.0 <= p < u
    ensures Balanced(items, u, r, pending + [Item(p, v)], rest)
  {
    assert ([Item(p, v)] + rest)[1..] == rest;
    forall pick ensures CellsMass(r, u, pick) + Mass(pending + [Item(p, v)], pick) + Mass(rest, pick) == Mass(items, pick) {
      MassSnoc(pending, Item(p, v), pick);
      MassCons(Item(p, v), rest, pick);
    }
  }

  method CompileChoosep(items: seq<Item>) returns (r: seq<Cell>)
    requires IsDistribution(items)
    ensures |r| == |items| > 0 && WellFormed(r) && HoldsShares(r, items)
  {
    hide *;
    NotEmpty(items);
    var n := |items| as real;
    var u := Width(|items|);
    r := [];
    var s, i := Smalls(items, u), 0;
    Start(items, u);
    assert s[0..] == s && items[0..] == items;
    for j := 0 to |items|
      invariant i <= |s| && Balanced(items, u, r, s[i..], Bigs(items[j..], u))
    {
      var p, v := items[j].p, items[j].v;
      ghost var rest := Bigs(items[j + 1..], u);
      NextBig(items, u, j);
      if p < u { continue; }
      while p > u
        invariant p > 0.0 && i <= |s| && Balanced(items, u, r, s[i..], [Item(p, v)] + rest)
        decreases |s| - i
      {
        NeverStuck(items, u, r, s[i..], [Item(p, v)] + rest);
        if i < |s| {
          var ps, vs := s[i].p, s[i].v;
          assert s[i..] == [Item(ps, vs)] + s[i + 1..];
          EatSlight(items, u, r, s[i], s[i + 1..], p, v, rest);
          i := i + 1;
          r := r + [Cell(Times(ps, n), vs, v)];
          p := p - (u - ps);
        } else {
          assert false;
        }
      }
      if p == u {
        CloseFull(items, u, r, s[i..], v, rest);
        r := r + [Cell(1.0, v, v)];
      } else if p > 0.0 {
        SetAside(items, u, r, s[i..], p, v, rest);
        assert (s + [Item(p, v)])[i..] == s[i..] + [Item(p, v)];
        s := s + [Item(p, v)];
      } else {
        assert false;
      }
    }
    Finish(items, u, r, s[i..]);
    if i < |s| { assert false; }
    SharesHeld(r, u, items);
  }

  lemma SharesHeld(r: seq<Cell>, u: real, items: seq<Item>)
    requires |r| > 0 && Mul(u, |r| as real) == 1.0 && forall pick :: CellsMass(r, u, pick) == Mass(items, pick)
    ensures HoldsShares(r, items)
  {
    hide Mul, CellsMass, Mass;
    forall u', pick | Mul(u', |r| as real) == 1.0 ensures CellsMass(r, u', pick) == Mass(items, pick) {
      OneWidth(u, u', |r| as real);
    }
  }

  lemma OneWidth(u: real, u': real, n: real)
    requires Mul(u, n) == Mul(u', n) == 1.0
    ensures u == u'
  {
    MulAssoc(u, n, u');
    MulCommutes(n, u');
    MulUnit(u);
    MulUnit(u');
  }

  lemma NotEmpty(items: seq<Item>)
    requires IsDistribution(items)
    ensures |items| > 0
  {}

  lemma NextBig(items: seq<Item>, u: real, j: nat)
    requires j < |items|
    ensures Bigs(items[j..], u) == if items[j].p < u then Bigs(items[j + 1..], u) else [items[j]] + Bigs(items[j + 1..], u)
  {
    assert items[j..][1..] == items[j + 1..];
  }

  lemma Start(items: seq<Item>, u: real)
    requires IsDistribution(items)
    ensures Balanced(items, u, [], Smalls(items, u), Bigs(items, u))
  {
    SmallsAndBigs(items, u, Everything);
    forall pick ensures CellsMass([], u, pick) + Mass(Smalls(items, u), pick) + Mass(Bigs(items, u), pick) == Mass(items, pick) {
      SmallsAndBigs(items, u, pick);
    }
  }

  lemma Finish(items: seq<Item>, u: real, r: seq<Cell>, pending: seq<Item>)
    requires Balanced(items, u, r, pending, Bigs(items[|items|..], u)) && IsDistribution(items) && Mul(u, |items| as real) == 1.0
    ensures pending == [] && |r| == |items| && WellFormed(r) && forall pick :: CellsMass(r, u, pick) == Mass(items, pick)
  {
    NeverStuck(items, u, r, pending, []);
    forall pick ensures CellsMass(r, u, pick) == Mass(items, pick) {
      assert Mass([], pick) == 0.0;
    }
  }

  /** What compile_choosep makes and select_choosep reads: the values in [0, 1) that pick an item are disjoint intervals
    * whose lengths sum to the item's probability. */
  lemma PickedInProportion(items: seq<Item>, cells: seq<Cell>, v: nat) returns (ivs: seq<Interval>)
    requires |cells| > 0 && WellFormed(cells) && HoldsShares(cells, items)
    ensures Disjoint(ivs, 1.0) && Length(ivs) == Mass(items, Only(v))
    ensures forall p :: 0.0 <= p < 1.0 ==> (Selected(p, cells) == v <==> In(ivs, p))
  {
    hide Mul, Width, CellsMass, Mass, WellFormed, Disjoint, In, Length, Selected;
    var n := |cells| as real;
    var u := Width(|cells|);
    MulCommutes(u, n);
    assert cells[..|cells|] == cells;
    ivs := PickedIntervals(cells, u, v, |cells|);
  }
}
