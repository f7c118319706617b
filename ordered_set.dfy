/** A JavaScript `Set` of strings as the sequence of its members in
    insertion order, which is what `Array.from(set)` and `[...set]` give. */
module OrderedSet {

  predicate NoDups(xs: seq<string>) {
    forall i, j :: 0 <= i < j < |xs| ==> xs[i] != xs[j]
  }

  /** Two repeat-free sequences with no common member concatenate to a
      repeat-free sequence. */
  lemma AppendNoDups(xs: seq<string>, ys: seq<string>)
    requires NoDups(xs) && NoDups(ys)
    requires forall y :: y in ys ==> y !in xs
    ensures NoDups(xs + ys)
  {
    forall i, j | 0 <= i < j < |xs + ys|
      ensures (xs + ys)[i] != (xs + ys)[j]
    {
      if j >= |xs| {
        assert (xs + ys)[j] == ys[j - |xs|];
        assert ys[j - |xs|] in ys;
        if i >= |xs| {
          assert (xs + ys)[i] == ys[i - |xs|];
        }
      }
    }
  }

  /** `set.add(x)`: a new member goes last, an existing one stays put. */
  function Add(xs: seq<string>, x: string): (r: seq<string>)
    ensures x in r
    ensures forall y :: y in r <==> y in xs || y == x
    ensures NoDups(xs) ==> NoDups(r)
  {
    if x in xs then xs else xs + [x]
  }

  /** `set.delete(x)` */
  function Delete(xs: seq<string>, x: string): (r: seq<string>)
    ensures forall y :: y in r <==> y in xs && y != x
    ensures |r| <= |xs|
    decreases |xs|
  {
    if xs == [] then []
    else if xs[0] == x then Delete(xs[1..], x)
    else [xs[0]] + Delete(xs[1..], x)
  }

  /** Deleting keeps the remaining members in their order and distinct. */
  lemma {:induction false} DeleteNoDups(xs: seq<string>, x: string)
    requires NoDups(xs)
    ensures NoDups(Delete(xs, x))
    decreases |xs|
  {
    if xs != [] {
      DeleteNoDups(xs[1..], x);
      if xs[0] != x {
        var rest := Delete(xs[1..], x);
        assert xs[0] !in rest by {
          assert xs[0] !in xs[1..];
        }
      }
    }
  }

  /** Deleting something absent changes nothing. */
  lemma {:induction false} DeleteAbsent(xs: seq<string>, x: string)
    requires x !in xs
    ensures Delete(xs, x) == xs
    decreases |xs|
  {
    if xs != [] {
      DeleteAbsent(xs[1..], x);
    }
  }

  /** `new Set(xs)` read back as an array: first occurrences, in order. */
  function FromSeq(xs: seq<string>): (r: seq<string>)
    ensures forall y :: y in r <==> y in xs
    ensures NoDups(r)
    decreases |xs|
  {
    if xs == [] then [] else Add(FromSeq(xs[..|xs| - 1]), xs[|xs| - 1])
  }

  /** A sequence without repeats is its own set. */
  lemma {:induction false} FromSeqNoDups(xs: seq<string>)
    requires NoDups(xs)
    ensures FromSeq(xs) == xs
    decreases |xs|
  {
    if xs != [] {
      var n := |xs| - 1;
      var init := xs[..n];
      assert NoDups(init) by {
        forall i, j | 0 <= i < j < n
          ensures init[i] != init[j]
        {
          assert init[i] == xs[i] && init[j] == xs[j];
        }
      }
      FromSeqNoDups(init);
      forall k | 0 <= k < n
        ensures init[k] != xs[n]
      {
        assert init[k] == xs[k];
      }
      assert xs[n] !in init;
      assert init + [xs[n]] == xs;
    }
  }
}
