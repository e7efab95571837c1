/** Generic folds over sequences: flattening a map, and keeping the present values of options. */
module Seqs {
  import opened Wrappers

  /** `f` applied to each element of `xs` in turn, the results concatenated. */
  function FlatMap<A, B>(xs: seq<A>, f: A -> seq<B>): seq<B> {
    if |xs| == 0 then []
    else FlatMap(xs[..|xs| - 1], f) + f(xs[|xs| - 1])
  }

  lemma FlatMapStep<A, B>(xs: seq<A>, i: nat, f: A -> seq<B>)
    requires i < |xs|
    ensures FlatMap(xs[..i + 1], f) == FlatMap(xs[..i], f) + f(xs[i])
  {
    assert xs[..i + 1][..i] == xs[..i];
  }

  /** Flattening distributes over concatenation: the output of `xs` comes before that of `ys`. */
  lemma {:induction false} FlatMapAppend<A, B>(xs: seq<A>, ys: seq<A>, f: A -> seq<B>)
    ensures FlatMap(xs + ys, f) == FlatMap(xs, f) + FlatMap(ys, f)
  {
    if |ys| == 0 {
      assert xs + ys == xs;
    } else {
      var init := ys[..|ys| - 1];
      FlatMapAppend(xs, init, f);
      assert (xs + ys)[..|xs + ys| - 1] == xs + init;
    }
  }

  /** Flattening a prefix yields a prefix. */
  lemma {:induction false} FlatMapPrefix<A, B>(xs: seq<A>, n: nat, f: A -> seq<B>)
    requires n <= |xs|
    ensures FlatMap(xs[..n], f) <= FlatMap(xs, f)
  {
    if n == |xs| {
      assert xs[..n] == xs;
    } else {
      var init := xs[..|xs| - 1];
      FlatMapPrefix(init, n, f);
      assert init[..n] == xs[..n];
    }
  }

  lemma PrefixConcat<T>(a: seq<T>, b: seq<T>, c: seq<T>)
    requires b <= c
    ensures a + b <= a + c
  {
    assert (a + c)[..|a + b|] == a + b;
  }

  lemma PrefixTrans<T>(a: seq<T>, b: seq<T>, c: seq<T>)
    requires a <= b && b <= c
    ensures a <= c
  {
    assert c[..|a|] == b[..|a|];
  }

  /** The present values among `os`, in order. */
  function Somes<T>(os: seq<Option<T>>): seq<T> {
    if |os| == 0 then []
    else Somes(os[..|os| - 1]) + os[|os| - 1].ToSeq()
  }

  /** The positions of the present values among `os`, ascending. */
  function SomeIndices<T>(os: seq<Option<T>>): (r: seq<nat>)
    ensures forall j :: 0 <= j < |r| ==> r[j] < |os| && os[r[j]].Some?
    ensures forall j, l :: 0 <= j < l < |r| ==> r[j] < r[l]
    ensures forall i :: 0 <= i < |os| && os[i].Some? ==> i in r
  {
    if |os| == 0 then []
    else
      var init := os[..|os| - 1];
      var r := SomeIndices(init);
      assert forall j :: 0 <= j < |r| ==> os[r[j]] == init[r[j]];
      r + (if os[|os| - 1].Some? then [|os| - 1] else [])
  }

  lemma SomesStep<T>(os: seq<Option<T>>, k: nat)
    requires k < |os|
    ensures Somes(os[..k + 1]) == Somes(os[..k]) + os[k].ToSeq()
    ensures SomeIndices(os[..k + 1]) == SomeIndices(os[..k]) + (if os[k].Some? then [k] else [])
  {
    assert os[..k + 1][..k] == os[..k];
  }

  /** The `j`-th present value sits at the `j`-th present position. */
  lemma {:induction false} SomesFollowIndices<T>(os: seq<Option<T>>)
    ensures |Somes(os)| == |SomeIndices(os)|
    ensures forall j :: 0 <= j < |Somes(os)| ==> os[SomeIndices(os)[j]] == Some(Somes(os)[j])
  {
    if |os| > 0 {
      var init := os[..|os| - 1];
      SomesFollowIndices(init);
      var s, s' := Somes(init), Somes(os);
      var idx, idx' := SomeIndices(init), SomeIndices(os);
      forall j | 0 <= j < |s'|
        ensures os[idx'[j]] == Some(s'[j])
      {
        if j < |s| {
          assert s'[j] == s[j] && idx'[j] == idx[j];
          assert os[idx[j]] == init[idx[j]];
        }
      }
    }
  }
}
