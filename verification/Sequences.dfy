/** Lists without repetition, the sets of their elements and their sizes, and parts of lists. */
module Sequences {

  function Elements<T>(xs: seq<T>): set<T> {
    set x | x in xs
  }

  predicate Distinct<T(==)>(xs: seq<T>) {
    forall i, j :: 0 <= i < j < |xs| ==> xs[i] != xs[j]
  }

  /** `len(xs) == len(set(xs))` exactly when nothing is repeated. */
  lemma {:induction false} CountDistinct<T>(xs: seq<T>)
    ensures |Elements(xs)| <= |xs|
    ensures |Elements(xs)| == |xs| <==> Distinct(xs)
  {
    if xs != [] {
      var init, last := xs[..|xs| - 1], xs[|xs| - 1];
      CountDistinct(init);
      assert Elements(xs) == Elements(init) + {last};
      if last in init {
        var i :| 0 <= i < |init| && init[i] == last;
        assert xs[i] == xs[|xs| - 1];
        assert Elements(xs) == Elements(init);
      } else {
        assert Distinct(init) ==> Distinct(xs) by {
          assert forall i :: 0 <= i < |init| ==> xs[i] == init[i] && init[i] in init;
        }
        assert Distinct(xs) ==> Distinct(init);
      }
    }
  }

  lemma DistinctConcat<T>(xs: seq<T>, ys: seq<T>)
    requires Distinct(xs) && Distinct(ys) && forall y :: y in ys ==> y !in xs
    ensures Distinct(xs + ys)
  {
    var all := xs + ys;
    forall i, j | 0 <= i < j < |all|
      ensures all[i] != all[j]
    {
      if i < |xs| <= j {
        assert all[j] in ys && all[i] in xs;
      }
    }
  }

  /** `[x for x in xs if x not in taken]`. */
  function Left<T(==)>(xs: seq<T>, taken: set<T>): seq<T> {
    if xs == [] then [] else
    var last := xs[|xs| - 1];
    Left(xs[..|xs| - 1], taken) + if last in taken then [] else [last]
  }

  /** What is left keeps its order. */
  lemma {:induction false} LeftConcat<T>(xs: seq<T>, ys: seq<T>, taken: set<T>)
    ensures Left(xs + ys, taken) == Left(xs, taken) + Left(ys, taken)
  {
    if ys == [] {
      assert xs + ys == xs;
    } else {
      LeftConcat(xs, ys[..|ys| - 1], taken);
      assert (xs + ys)[..|xs + ys| - 1] == xs + ys[..|ys| - 1];
    }
  }

  /** `[x for x in xs if x in taken]`. */
  function Kept<T(==)>(xs: seq<T>, taken: set<T>): seq<T> {
    if xs == [] then [] else
    var last := xs[|xs| - 1];
    Kept(xs[..|xs| - 1], taken) + if last in taken then [last] else []
  }

  lemma {:induction false} KeptMembers<T>(xs: seq<T>, taken: set<T>, x: T)
    ensures x in Kept(xs, taken) <==> x in xs && x in taken
  {
    if xs != [] {
      KeptMembers(xs[..|xs| - 1], taken, x);
      assert xs == xs[..|xs| - 1] + [xs[|xs| - 1]];
    }
  }

  lemma {:induction false} KeptDistinct<T>(xs: seq<T>, taken: set<T>)
    requires Distinct(xs)
    ensures Distinct(Kept(xs, taken)) && |Left(xs, taken)| + |Kept(xs, taken)| == |xs|
  {
    if xs != [] {
      var init, last := xs[..|xs| - 1], xs[|xs| - 1];
      KeptDistinct(init, taken);
      KeptMembers(init, taken, last);
      assert last !in init;
    }
  }

  lemma {:induction false} LeftMembers<T>(xs: seq<T>, taken: set<T>, x: T)
    ensures x in Left(xs, taken) <==> x in xs && x !in taken
  {
    if xs != [] {
      LeftMembers(xs[..|xs| - 1], taken, x);
      assert xs == xs[..|xs| - 1] + [xs[|xs| - 1]];
    }
  }

  lemma {:induction false} LeftDistinct<T>(xs: seq<T>, taken: set<T>)
    requires Distinct(xs)
    ensures Distinct(Left(xs, taken))
  {
    if xs != [] {
      var init, last := xs[..|xs| - 1], xs[|xs| - 1];
      LeftDistinct(init, taken);
      LeftMembers(init, taken, last);
    }
  }

  /** What is left and what is taken make up the whole. */
  lemma LeftCount<T>(xs: seq<T>, taken: set<T>)
    requires Distinct(xs) && taken <= Elements(xs)
    ensures |Left(xs, taken)| == |xs| - |taken|
  {
    KeptDistinct(xs, taken);
    CountDistinct(Kept(xs, taken));
    forall x
      ensures x in Elements(Kept(xs, taken)) <==> x in taken
    {
      KeptMembers(xs, taken, x);
    }
    assert Elements(Kept(xs, taken)) == taken;
  }

  lemma SubsetSize<T>(a: set<T>, b: set<T>)
    requires a <= b
    ensures |a| <= |b| && (a != b ==> |a| < |b|)
  {
    var rest := b - a;
    assert b == a + rest;
  }

  lemma WithoutFirst<T>(xs: seq<T>)
    requires xs != []
    ensures multiset(xs[1..]) == multiset(xs) - multiset{xs[0]}
  {
    assert xs == [xs[0]] + xs[1..];
  }

  /** A list without one of its places. */
  lemma WithoutOne<T>(xs: seq<T>, i: nat)
    requires i < |xs|
    ensures multiset(xs[..i] + xs[i + 1..]) == multiset(xs) - multiset{xs[i]}
  {
    assert xs == xs[..i] + [xs[i]] + xs[i + 1..];
  }

  // ------------------------------------------------------------------ where a part stands in a whole

  predicate Stands<T(==)>(whole: seq<T>, at: nat, part: seq<T>)
    ensures Stands(whole, at, part) ==> at + |part| <= |whole|
    decreases part
  {
    if part == [] then at <= |whole|
    else at < |whole| && whole[at] == part[0] && Stands(whole, at + 1, part[1..])
  }

  lemma {:induction false} StandsSplit<T>(whole: seq<T>, at: nat, left: seq<T>, right: seq<T>)
    ensures Stands(whole, at, left + right) <==> Stands(whole, at, left) && Stands(whole, at + |left|, right)
    decreases left
  {
    if left == [] {
      assert left + right == right;
    } else {
      assert (left + right)[1..] == left[1..] + right;
      StandsSplit(whole, at + 1, left[1..], right);
    }
  }

  lemma {:induction false} StandsWhole<T>(whole: seq<T>, at: nat)
    requires at <= |whole|
    ensures Stands(whole, at, whole[at..])
    decreases |whole| - at
  {
    if at < |whole| {
      StandsWhole(whole, at + 1);
    }
  }

  lemma {:induction false} StandsIsSlice<T>(whole: seq<T>, at: nat, part: seq<T>)
    requires Stands(whole, at, part)
    ensures whole[at..at + |part|] == part
    decreases part
  {
    if part != [] {
      StandsIsSlice(whole, at + 1, part[1..]);
      assert whole[at..at + |part|] == [whole[at]] + whole[at + 1..at + |part|];
    }
  }

  lemma StandsSingle<T>(whole: seq<T>, at: nat, x: T)
    ensures Stands(whole, at, [x]) <==> at < |whole| && whole[at] == x
  {
  }
}
