/** Order-preserving filtering of sequences. */
module SeqFacts {

  function Filter<T>(xs: seq<T>, keep: T -> bool): seq<T> {
    if |xs| == 0 then []
    else
      var last := xs[|xs| - 1];
      if keep(last) then Filter(xs[..|xs| - 1], keep) + [last] else Filter(xs[..|xs| - 1], keep)
  }

  lemma {:induction false} FilterMembers<T>(xs: seq<T>, keep: T -> bool)
    ensures |Filter(xs, keep)| <= |xs|
    ensures forall x :: x in Filter(xs, keep) ==> x in xs && keep(x)
    ensures forall x :: x in xs && keep(x) ==> x in Filter(xs, keep)
  {
    if |xs| > 0 {
      FilterMembers(xs[..|xs| - 1], keep);
    }
  }

  lemma FilterSnoc<T>(xs: seq<T>, x: T, keep: T -> bool)
    ensures Filter(xs + [x], keep) == if keep(x) then Filter(xs, keep) + [x] else Filter(xs, keep)
  {
    assert (xs + [x])[..|xs|] == xs;
  }

  lemma {:induction false} FilterConcat<T>(xs: seq<T>, ys: seq<T>, keep: T -> bool)
    ensures Filter(xs + ys, keep) == Filter(xs, keep) + Filter(ys, keep)
  {
    if |ys| == 0 {
      assert xs + ys == xs;
    } else {
      var ys', y := ys[..|ys| - 1], ys[|ys| - 1];
      FilterConcat(xs, ys', keep);
      FilterSnoc(xs + ys', y, keep);
      assert xs + ys == (xs + ys') + [y];
    }
  }

  lemma {:induction false} FilterAll<T>(xs: seq<T>, keep: T -> bool)
    requires forall x :: x in xs ==> keep(x)
    ensures Filter(xs, keep) == xs
  {
    if |xs| > 0 {
      FilterAll(xs[..|xs| - 1], keep);
      assert xs == xs[..|xs| - 1] + [xs[|xs| - 1]];
    }
  }

  lemma {:induction false} FilterNone<T>(xs: seq<T>, keep: T -> bool)
    requires forall x :: x in xs ==> !keep(x)
    ensures Filter(xs, keep) == []
  {
    if |xs| > 0 {
      FilterNone(xs[..|xs| - 1], keep);
    }
  }

  /** A filter that keeps exactly one stretch cuts it out. */
  lemma FilterStretch<T>(xs: seq<T>, s: nat, e: nat, keep: T -> bool)
    requires s <= e <= |xs|
    requires forall i :: 0 <= i < |xs| ==> (keep(xs[i]) <==> s <= i < e)
    ensures Filter(xs, keep) == xs[s..e]
  {
    hide Filter;
    var before, middle, behind := xs[..s], xs[s..e], xs[e..];
    FilterConcat(before + middle, behind, keep);
    FilterConcat(before, middle, keep);
    FilterNone(before, keep);
    FilterNone(behind, keep);
    FilterAll(middle, keep);
    assert xs == before + middle + behind;
  }

  /** A filter implied by a later one drops out. */
  lemma {:induction false} FilterImplied<T>(xs: seq<T>, weak: T -> bool, strong: T -> bool)
    requires forall x :: x in xs && strong(x) ==> weak(x)
    ensures Filter(Filter(xs, weak), strong) == Filter(xs, strong)
  {
    if |xs| > 0 {
      var xs', x := xs[..|xs| - 1], xs[|xs| - 1];
      FilterImplied(xs', weak, strong);
      if weak(x) {
        FilterSnoc(Filter(xs', weak), x, strong);
      }
    }
  }

  /** Two filters that agree on the elements agree on the sequence. */
  lemma {:induction false} FilterAgree<T>(xs: seq<T>, f: T -> bool, g: T -> bool)
    requires forall x :: x in xs ==> f(x) == g(x)
    ensures Filter(xs, f) == Filter(xs, g)
  {
    if |xs| > 0 {
      FilterAgree(xs[..|xs| - 1], f, g);
    }
  }

  lemma {:induction false} FilterTwiceShorter<T>(xs: seq<T>, weak: T -> bool, strong: T -> bool)
    ensures |Filter(Filter(xs, weak), strong)| <= |Filter(xs, strong)|
  {
    if |xs| > 0 {
      var xs', x := xs[..|xs| - 1], xs[|xs| - 1];
      FilterTwiceShorter(xs', weak, strong);
      if weak(x) {
        FilterSnoc(Filter(xs', weak), x, strong);
      }
    }
  }

  /** Losing an element that the second filter would keep shortens the result. */
  lemma {:induction false} FilterShrinks<T>(xs: seq<T>, weak: T -> bool, strong: T -> bool, lost: T)
    requires lost in xs && strong(lost) && !weak(lost)
    ensures |Filter(Filter(xs, weak), strong)| < |Filter(xs, strong)|
  {
    var xs', x := xs[..|xs| - 1], xs[|xs| - 1];
    FilterTwiceShorter(xs', weak, strong);
    if weak(x) {
      FilterSnoc(Filter(xs', weak), x, strong);
    }
    if x != lost {
      FilterShrinks(xs', weak, strong, lost);
    }
  }

  lemma MultisetOfLast<T>(xs: seq<T>)
    requires |xs| > 0
    ensures multiset(xs) == multiset(xs[..|xs| - 1]) + multiset{xs[|xs| - 1]}
  {
    assert xs == xs[..|xs| - 1] + [xs[|xs| - 1]];
  }
}
