/** Order-insensitive reasoning about sequences. */
module Lists {
  function FlatMap<T, U>(xs: seq<T>, f: T -> seq<U>): seq<U> {
    if xs == [] then [] else f(xs[0]) + FlatMap(xs[1..], f)
  }

  lemma {:induction false} FlatMapAppend<T, U>(xs: seq<T>, ys: seq<T>, f: T -> seq<U>)
    ensures FlatMap(xs + ys, f) == FlatMap(xs, f) + FlatMap(ys, f)
  {
    if xs == [] {
      assert xs + ys == ys;
    } else {
      assert (xs + ys)[1..] == xs[1..] + ys;
      FlatMapAppend(xs[1..], ys, f);
    }
  }

  lemma FlatMapStep<T, U>(xs: seq<T>, i: nat, f: T -> seq<U>)
    requires i < |xs|
    ensures FlatMap(xs[..i + 1], f) == FlatMap(xs[..i], f) + f(xs[i])
  {
    assert xs[..i + 1] == xs[..i] + [xs[i]];
    FlatMapAppend(xs[..i], [xs[i]], f);
  }

  lemma {:induction false} FlatMapEmpty<T, U>(xs: seq<T>, f: T -> seq<U>)
    ensures FlatMap(xs, f) == [] <==> forall i :: 0 <= i < |xs| ==> f(xs[i]) == []
  {
    if xs != [] {
      FlatMapEmpty(xs[1..], f);
      assert forall i :: 0 < i < |xs| ==> xs[i] == xs[1..][i - 1];
    }
  }

  lemma {:induction false} FlatMapMember<T, U>(xs: seq<T>, f: T -> seq<U>, y: U)
    ensures y in FlatMap(xs, f) <==> exists i :: 0 <= i < |xs| && y in f(xs[i])
  {
    if xs != [] {
      FlatMapMember(xs[1..], f, y);
      assert forall i :: 0 < i < |xs| ==> xs[i] == xs[1..][i - 1];
      if y in FlatMap(xs[1..], f) {
        var i :| 0 <= i < |xs| - 1 && y in f(xs[1..][i]);
        assert y in f(xs[i + 1]);
      }
    }
  }

  lemma HeadFirst<T>(a: seq<T>, x: T, b: seq<T>)
    ensures a == [] ==> a + [x] + b == [x] + b && a + b == b
    ensures a != [] ==> a + [x] + b == [a[0]] + (a[1..] + [x] + b) && a + b == [a[0]] + (a[1..] + b)
  {
  }

  /** Splits ys around an occurrence of the first element of a permutation of it. */
  lemma Locate<T>(xs: seq<T>, ys: seq<T>) returns (a: seq<T>, b: seq<T>)
    requires xs != [] && multiset(xs) == multiset(ys)
    ensures ys == a + [xs[0]] + b
    ensures multiset(xs[1..]) == multiset(a + b)
  {
    assert xs[0] in multiset(xs);
    var i :| 0 <= i < |ys| && ys[i] == xs[0];
    a, b := ys[..i], ys[i + 1..];
    assert ys == a + [xs[0]] + b;
    assert multiset(ys) == multiset(a) + multiset{xs[0]} + multiset(b);
    assert xs == [xs[0]] + xs[1..];
    assert multiset(xs) == multiset{xs[0]} + multiset(xs[1..]);
    assert multiset(a + b) == multiset(a) + multiset(b);
    assert multiset(xs[1..]) == multiset(xs) - multiset{xs[0]};
    assert multiset(a + b) == multiset(ys) - multiset{xs[0]};
  }

  /** Mapping a permutation yields a permutation. */
  lemma {:induction false} FlatMapPermuted<T, U>(xs: seq<T>, ys: seq<T>, f: T -> seq<U>)
    requires multiset(xs) == multiset(ys)
    ensures multiset(FlatMap(xs, f)) == multiset(FlatMap(ys, f))
  {
    if xs == [] {
      assert |ys| == |multiset(ys)| == 0;
    } else {
      var a, b := Locate(xs, ys);
      FlatMapPermuted(xs[1..], a + b, f);
      FlatMapAppend(a, b, f);
      FlatMapAppend(a + [xs[0]], b, f);
      FlatMapAppend(a, [xs[0]], f);
      assert FlatMap([xs[0]], f) == f(xs[0]) + [];
    }
  }

  lemma SameMembers<T>(xs: seq<T>, ys: seq<T>)
    requires multiset(xs) == multiset(ys)
    ensures |xs| == |ys|
    ensures forall x :: x in xs <==> x in ys
  {
    assert |multiset(xs)| == |xs| && |multiset(ys)| == |ys|;
    assert forall x :: x in xs <==> x in multiset(xs);
  }

  lemma SameSize<T>(xs: seq<T>, ys: seq<T>)
    requires multiset(xs) == multiset(ys)
    ensures |xs| == |ys|
  {
    SameMembers(xs, ys);
  }

  /** How many elements satisfy p. */
  function Count<T>(xs: seq<T>, p: T -> bool): nat {
    if xs == [] then 0 else Count(xs[..|xs| - 1], p) + (if p(xs[|xs| - 1]) then 1 else 0)
  }

  lemma CountOneMore<T>(xs: seq<T>, x: T, p: T -> bool)
    ensures Count(xs + [x], p) == Count(xs, p) + (if p(x) then 1 else 0)
  {
    assert (xs + [x])[..|xs|] == xs;
  }

  lemma Regroup<T>(a: seq<T>, b: seq<T>, c: seq<T>)
    ensures a + b + c == a + (b + c)
  {
  }
}
