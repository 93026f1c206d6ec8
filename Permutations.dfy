/**
 * Permutations of a finite set of integers and the number of their cycles.
 *
 * A permutation is a finite map `m` whose keys are the elements it permutes:
 * it maps its key set onto itself, one to one. Its cycle count is defined
 * recursively, without following orbits: take any element `t` out of its
 * cycle (whoever pointed to `t` now points to `t`'s successor); `t` formed a
 * cycle on its own exactly when it was a fixed point. `CycleCountRemove`
 * proves that the element taken out first does not matter.
 */
module Permutations {

  /**
   * `m` maps its key set one to one into itself (and therefore onto itself,
   * see `Preimage`).
   */
  ghost predicate IsPerm(m: map<int, int>) {
    m.Values <= m.Keys &&
    forall x, y :: x in m && y in m && x != y ==> m[x] != m[y]
  }

  lemma NonEmpty(d: set<int>)
    requires d != {}
    ensures exists t :: t in d
  {
    if forall t :: t !in d {
      assert false;
    }
  }

  /** Some element of a non-empty set. */
  ghost function Pick(d: set<int>): (t: int)
    requires d != {}
    ensures t in d
  {
    NonEmpty(d);
    var t :| t in d; t
  }

  ghost function Image(m: map<int, int>, d: set<int>): set<int>
    requires d <= m.Keys
  {
    set x | x in d :: m[x]
  }

  /** A one-to-one map does not shrink the set it is applied to. */
  lemma {:induction false} ImageSize(m: map<int, int>, d: set<int>)
    requires IsPerm(m) && d <= m.Keys
    ensures |Image(m, d)| == |d|
    decreases |d|
  {
    if d == {} {
      assert Image(m, d) == {};
    } else {
      var t := Pick(d);
      ImageSize(m, d - {t});
      assert Image(m, d) == Image(m, d - {t}) + {m[t]};
      assert m[t] !in Image(m, d - {t});
    }
  }

  /** Every element of a permutation's key set has a preimage (the pigeonhole principle). */
  lemma Preimage(m: map<int, int>, y: int) returns (x: int)
    requires IsPerm(m) && y in m
    ensures x in m && m[x] == y
  {
    if forall z :: z in m ==> m[z] != y {
      var img, rest := Image(m, m.Keys), m.Keys - {y};
      assert img <= rest;
      assert m.Keys == rest + {y};
      assert rest == img + (rest - img);
      ImageSize(m, m.Keys);
      assert false;
    }
    x :| x in m && m[x] == y;
  }

  /** Where `x` points once `t` is cut out of its cycle. */
  function Bypass(m: map<int, int>, t: int, x: int): int
    requires t in m && x in m
  {
    if m[x] == t then m[t] else m[x]
  }

  /** `m` takes `t` out of its cycle: its predecessor now points to its successor. */
  function Remove(m: map<int, int>, t: int): (r: map<int, int>)
    requires t in m
    ensures r.Keys == m.Keys - {t}
  {
    map x | x in m && x != t :: Bypass(m, t, x)
  }

  /** Exchanges the images of `x` and `y`: the tuple swap `a[x], a[y] = a[y], a[x]`. */
  function Swap(m: map<int, int>, x: int, y: int): (r: map<int, int>)
    requires x in m && y in m
    ensures r.Keys == m.Keys
  {
    m[x := m[y]][y := m[x]]
  }

  /** The identity permutation of `d`. */
  function Identity(d: set<int>): (r: map<int, int>)
    ensures r.Keys == d
  {
    map x | x in d :: x
  }

  function FixedIndicator(m: map<int, int>, t: int): nat
    requires t in m
  {
    if m[t] == t then 1 else 0
  }

  /** The number of cycles of the permutation `m`, fixed points included. */
  ghost function CycleCount(m: map<int, int>): nat
    decreases |m|
  {
    if m.Keys == {} then 0
    else
      var t := Pick(m.Keys);
      assert |Remove(m, t).Keys| == |m.Keys - {t}| == |m.Keys| - 1;
      FixedIndicator(m, t) + CycleCount(Remove(m, t))
  }

  lemma RemoveIsPerm(m: map<int, int>, t: int)
    requires IsPerm(m) && t in m
    ensures IsPerm(Remove(m, t))
  {
  }

  lemma SwapIsPerm(m: map<int, int>, x: int, y: int)
    requires IsPerm(m) && x in m && y in m
    ensures IsPerm(Swap(m, x, y))
  {
  }

  /** Taking two elements out of their cycles gives the same result in either order. */
  lemma RemoveCommutes(m: map<int, int>, a: int, b: int)
    requires IsPerm(m) && a in m && b in m && a != b
    ensures Remove(Remove(m, a), b) == Remove(Remove(m, b), a)
  {
    var l := Remove(Remove(m, a), b);
    var r := Remove(Remove(m, b), a);
    assert l.Keys == r.Keys;
    forall x | x in l
      ensures l[x] == r[x]
    {
    }
  }

  /** The cycle count does not depend on which element is taken out first. */
  lemma {:induction false} CycleCountRemove(m: map<int, int>, t: int)
    requires IsPerm(m) && t in m
    ensures CycleCount(m) == FixedIndicator(m, t) + CycleCount(Remove(m, t))
    decreases |m|
  {
    var u := Pick(m.Keys);
    if u != t {
      var mu, mt := Remove(m, u), Remove(m, t);
      assert |mu.Keys| == |m.Keys - {u}| == |m.Keys| - 1;
      assert |mt.Keys| == |m.Keys - {t}| == |m.Keys| - 1;
      RemoveIsPerm(m, u);
      RemoveIsPerm(m, t);
      CycleCountRemove(mu, t);
      CycleCountRemove(mt, u);
      RemoveCommutes(m, u, t);
    }
  }

  /** The identity of `d` has one cycle per element. */
  lemma {:induction false} IdentityCycleCount(d: set<int>)
    ensures CycleCount(Identity(d)) == |d|
    decreases |d|
  {
    if d != {} {
      var t := Pick(d);
      var id := Identity(d);
      CycleCountRemove(id, t);
      assert Remove(id, t) == Identity(d - {t});
      IdentityCycleCount(d - {t});
    }
  }

  /** A non-empty permutation has at least one cycle. */
  lemma {:induction false} CycleCountPositive(m: map<int, int>)
    requires IsPerm(m) && m != map[]
    ensures CycleCount(m) >= 1
    decreases |m|
  {
    var t := Pick(m.Keys);
    CycleCountRemove(m, t);
    var r := Remove(m, t);
    if r != map[] {
      assert |r.Keys| == |m.Keys - {t}| == |m.Keys| - 1;
      RemoveIsPerm(m, t);
      CycleCountPositive(r);
    } else {
      assert m.Keys == {t};
      assert m[t] == t;
    }
  }

  /** A permutation has at most one cycle per element. */
  lemma {:induction false} CycleCountAtMostSize(m: map<int, int>)
    ensures CycleCount(m) <= |m|
    decreases |m|
  {
    if m.Keys != {} {
      var t := Pick(m.Keys);
      var r := Remove(m, t);
      assert |r.Keys| == |m.Keys - {t}| == |m.Keys| - 1;
      CycleCountAtMostSize(r);
    }
  }

  /**
   * Sending the value at `x` to its home slot `m[x]` turns that slot into a
   * fixed point and leaves the rest of `x`'s cycle a cycle: one more cycle.
   */
  lemma SwapIntoHome(m: map<int, int>, x: int)
    requires IsPerm(m) && x in m && m[x] != x
    ensures CycleCount(Swap(m, x, m[x])) == CycleCount(m) + 1
  {
    var t := m[x];
    var q := Swap(m, x, t);
    SwapIsPerm(m, x, t);
    CycleCountRemove(q, t);
    CycleCountRemove(m, t);
    assert Remove(q, t) == Remove(m, t);
  }

  /** Exchanging with a fixed point `y` and then taking `y` out is taking `y` out. */
  lemma RemoveSwapWithFixedPoint(m: map<int, int>, x: int, y: int)
    requires IsPerm(m) && x in m && y in m && x != y && m[y] == y
    ensures Remove(Swap(m, x, y), y) == Remove(m, y)
  {
    var l, r := Remove(Swap(m, x, y), y), Remove(m, y);
    assert l.Keys == r.Keys;
    forall z | z in l
      ensures l[z] == r[z]
    {
    }
  }

  /**
   * When neither `x` nor `y` points to `y`, taking `y` out after the exchange
   * is the exchange of `x` with `y`'s predecessor `w` after taking `y` out.
   */
  lemma RemoveSwapThrough(m: map<int, int>, x: int, y: int, w: int)
    requires IsPerm(m) && x in m && y in m && w in m && x != y
    requires m[x] != y && m[y] != y && m[w] == y
    ensures x in Remove(m, y) && w in Remove(m, y)
    ensures Remove(Swap(m, x, y), y) == Swap(Remove(m, y), x, w)
  {
    var l, r := Remove(Swap(m, x, y), y), Swap(Remove(m, y), x, w);
    assert l.Keys == r.Keys;
    forall z | z in l
      ensures l[z] == r[z]
    {
    }
  }

  /** Any exchange of two distinct images changes the cycle count by exactly one. */
  lemma {:induction false} SwapChangesCycleCount(m: map<int, int>, x: int, y: int)
    requires IsPerm(m) && x in m && y in m && x != y
    ensures CycleCount(Swap(m, x, y)) == CycleCount(m) + 1
         || CycleCount(Swap(m, x, y)) + 1 == CycleCount(m)
    decreases |m|
  {
    var q := Swap(m, x, y);
    if m[x] == y {
      SwapIntoHome(m, x);
    } else {
      SwapIsPerm(m, x, y);
      CycleCountRemove(q, y);
      CycleCountRemove(m, y);
      var r := Remove(m, y);
      if m[y] == y {
        RemoveSwapWithFixedPoint(m, x, y);
      } else {
        var w := Preimage(m, y);
        RemoveSwapThrough(m, x, y, w);
        assert |r.Keys| == |m.Keys - {y}| == |m.Keys| - 1;
        RemoveIsPerm(m, y);
        SwapChangesCycleCount(r, x, w);
      }
    }
  }
}
