/** Sums, means and the "map then keep the numbers" step that every
    averaging routine of the frontend shares. */
module Stats {
  import opened Wrappers

  /** `xs.reduce((a, b) => a + b, 0)`; exact over reals. */
  function Sum(xs: seq<real>): real
    decreases |xs|
  {
    if xs == [] then 0.0 else Sum(xs[..|xs| - 1]) + xs[|xs| - 1]
  }

  /** `xs.length ? sum / xs.length : 0` */
  function Mean(xs: seq<real>): (m: real)
    ensures xs == [] ==> m == 0.0
    ensures xs != [] ==> m * |xs| as real == Sum(xs)
  {
    if xs == [] then 0.0 else Sum(xs) / |xs| as real
  }

  lemma {:induction false} SumAppend(a: seq<real>, b: seq<real>)
    ensures Sum(a + b) == Sum(a) + Sum(b)
    decreases |b|
  {
    if b != [] {
      assert (a + b)[..|a + b| - 1] == a + b[..|b| - 1];
      SumAppend(a, b[..|b| - 1]);
    } else {
      assert a + b == a;
    }
  }

  /** `c` copies of `v` added up: a product built from additions only. */
  function Times(c: nat, v: real): real
    decreases c
  {
    if c == 0 then 0.0 else Times(c - 1, v) + v
  }

  lemma Distrib(x: real, v: real)
    ensures x * v + v == (x + 1.0) * v
  {
  }

  lemma {:induction false} TimesIsProduct(c: nat, v: real)
    ensures Times(c, v) == c as real * v
    decreases c
  {
    if c > 0 {
      TimesIsProduct(c - 1, v);
      Distrib((c - 1) as real, v);
    }
  }

  lemma {:induction false} TimesAdd(c: nat, x: real, y: real)
    ensures Times(c, x) + Times(c, y) == Times(c, x + y)
    decreases c
  {
    if c > 0 {
      TimesAdd(c - 1, x, y);
    }
  }

  lemma MulSucc(c: nat, n: nat)
    ensures c * (n + 1) == c * n + c
  {
  }

  lemma DivCancel(c: real, x: real, n: real, scaled: real, count: real)
    requires c > 0.0 && n > 0.0
    requires scaled == c * x && count == c * n
    ensures scaled / count == x / n
  {
    assert (x / n) * (c * n) == c * x;
  }

  lemma NatProduct(c: nat, n: nat)
    ensures (c * n) as real == c as real * n as real
  {
  }

  /** Adding every value `c` times and dividing by `c` times the count
      gives the plain mean. */
  lemma ScaledMean(c: nat, xs: seq<real>)
    requires c > 0 && xs != []
    ensures Times(c, Sum(xs)) / ((c * |xs|) as real) == Mean(xs)
  {
    var total := Sum(xs);
    var n := |xs| as real;
    TimesIsProduct(c, total);
    NatProduct(c, |xs|);
    DivCancel(c as real, total, n, Times(c, total), (c * |xs|) as real);
  }

  lemma {:induction false} SumBounds(xs: seq<real>, lo: real, hi: real)
    requires forall i :: 0 <= i < |xs| ==> lo <= xs[i] <= hi
    ensures lo * |xs| as real <= Sum(xs) <= hi * |xs| as real
    decreases |xs|
  {
    if xs != [] {
      SumBounds(xs[..|xs| - 1], lo, hi);
    }
  }

  /** A mean of values inside [lo, hi] stays inside it (scores in [0, 1]
      average to a score in [0, 1]). */
  lemma MeanBounds(xs: seq<real>, lo: real, hi: real)
    requires xs != []
    requires forall i :: 0 <= i < |xs| ==> lo <= xs[i] <= hi
    ensures lo <= Mean(xs) <= hi
  {
    SumBounds(xs, lo, hi);
  }

  /** `.filter(x => typeof x === "number")` after a `.map`: the defined
      values, in order. */
  function Numbers(os: seq<Option<real>>): (vs: seq<real>)
    ensures |vs| <= |os|
    decreases |os|
  {
    if os == [] then []
    else Numbers(os[..|os| - 1]) + (if os[|os| - 1].Some? then [os[|os| - 1].value] else [])
  }

  /** Exactly the defined values are kept. */
  lemma {:induction false} NumbersMembers(os: seq<Option<real>>)
    ensures forall i :: 0 <= i < |os| && os[i].Some? ==> os[i].value in Numbers(os)
    ensures forall v :: v in Numbers(os) ==> Some(v) in os
    decreases |os|
  {
    if os != [] {
      var init := os[..|os| - 1];
      NumbersMembers(init);
      assert forall i :: 0 <= i < |init| ==> init[i] == os[i];
      assert os == init + [os[|os| - 1]];
    }
  }

  lemma {:induction false} NumbersAppend(a: seq<Option<real>>, b: seq<Option<real>>)
    ensures Numbers(a + b) == Numbers(a) + Numbers(b)
    decreases |b|
  {
    if b == [] {
      assert a + b == a;
    } else {
      assert (a + b)[..|a + b| - 1] == a + b[..|b| - 1];
      NumbersAppend(a, b[..|b| - 1]);
    }
  }

  /** A missing value adds to neither sum nor count. */
  lemma NumbersSkip(os: seq<Option<real>>)
    ensures Numbers(os + [None]) == Numbers(os)
  {
    assert (os + [None])[..|os + [None]| - 1] == os;
  }

  /** A present value adds exactly itself. */
  lemma NumbersTake(os: seq<Option<real>>, v: real)
    ensures Numbers(os + [Some(v)]) == Numbers(os) + [v]
  {
    assert (os + [Some(v)])[..|os + [Some(v)]| - 1] == os;
  }

  /** When every value is present, nothing is dropped. */
  lemma {:induction false} NumbersTotal(os: seq<Option<real>>)
    requires forall i :: 0 <= i < |os| ==> os[i].Some?
    ensures |Numbers(os)| == |os|
    decreases |os|
  {
    if os != [] {
      NumbersTotal(os[..|os| - 1]);
    }
  }

  /** With nothing present, the mean is 0. */
  lemma {:induction false} NumbersNone(os: seq<Option<real>>)
    requires forall i :: 0 <= i < |os| ==> os[i].None?
    ensures Numbers(os) == []
    decreases |os|
  {
    if os != [] {
      NumbersNone(os[..|os| - 1]);
    }
  }
}
