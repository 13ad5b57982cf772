/** Ruby `Array` operations used by the core, on Dafny sequences: `select`/`delete_if`, `map`,
    `uniq`, `compact`, `count` and `+`-concatenation of a list of lists. */
module Seqs {
  import opened Outcomes

  /** `xs.select { p }` — and `xs.delete_if { !p }` — keeps order and multiplicity. */
  function Filter<T(!new)>(xs: seq<T>, p: T -> bool): (r: seq<T>)
    ensures |r| <= |xs|
    ensures forall x :: x in r <==> x in xs && p(x)
    ensures forall x :: multiset(r)[x] == if p(x) then multiset(xs)[x] else 0
  {
    if xs == [] then []
    else
      var r := Filter(xs[..|xs| - 1], p);
      var x := xs[|xs| - 1];
      assert xs == xs[..|xs| - 1] + [x];
      if p(x) then r + [x] else r
  }

  /** Filtering drops an element exactly when some element fails the test. */
  lemma {:induction false} FilterShorter<T(!new)>(xs: seq<T>, p: T -> bool)
    ensures |Filter(xs, p)| < |xs| <==> exists i :: 0 <= i < |xs| && !p(xs[i])
  {
    if xs != [] {
      var init := xs[..|xs| - 1];
      var x := xs[|xs| - 1];
      SnocSplit(xs);
      FilterLast(xs, p);
      FilterShorter(init, p);
      if exists i :: 0 <= i < |init| && !p(init[i]) {
        var i :| 0 <= i < |init| && !p(init[i]);
        assert xs[i] == init[i];
      } else if p(x) {
        AllOfSnoc(init, x, p);
      }
    }
  }

  /** The last element is kept exactly when it passes the test. */
  lemma FilterLast<T(!new)>(xs: seq<T>, p: T -> bool)
    requires xs != []
    ensures Filter(xs, p) == if p(xs[|xs| - 1]) then Filter(xs[..|xs| - 1], p) + [xs[|xs| - 1]] else Filter(xs[..|xs| - 1], p)
  {
  }

  /** Appending an element appends it to the filtered sequence exactly when it passes the test. */
  lemma FilterSnoc<T(!new)>(xs: seq<T>, x: T, p: T -> bool)
    ensures Filter(xs + [x], p) == Filter(xs, p) + (if p(x) then [x] else [])
  {
    FilterLast(xs + [x], p);
    assert (xs + [x])[..|xs|] == xs;
  }

  /** `a` is `b` with some elements left out: the elements of `a` occur in `b` in the same order. */
  predicate IsSubsequence<T(==)>(a: seq<T>, b: seq<T>)
    decreases |b|
  {
    if a == [] then true
    else if b == [] then false
    else (a[|a| - 1] == b[|b| - 1] && IsSubsequence(a[..|a| - 1], b[..|b| - 1])) || IsSubsequence(a, b[..|b| - 1])
  }

  /** Filtering keeps the order of the elements it keeps. */
  lemma {:induction false} FilterOrder<T(!new)>(xs: seq<T>, p: T -> bool)
    ensures IsSubsequence(Filter(xs, p), xs)
  {
    if xs != [] {
      var init, x := xs[..|xs| - 1], xs[|xs| - 1];
      FilterOrder(init, p);
      FilterLast(xs, p);
      var r := Filter(init, p);
      if p(x) {
        SnocInit(r, x);
      }
    }
  }

  lemma SnocInit<T>(xs: seq<T>, x: T)
    ensures (xs + [x])[..|xs|] == xs && (xs + [x])[|xs|] == x
  {
  }

  /** One more element of a prefix is kept exactly when it passes the test. */
  lemma FilterPrefix<T(!new)>(xs: seq<T>, i: nat, p: T -> bool)
    requires i < |xs|
    ensures Filter(xs[..i + 1], p) == if p(xs[i]) then Filter(xs[..i], p) + [xs[i]] else Filter(xs[..i], p)
  {
    assert xs[..i + 1][..i] == xs[..i];
  }

  lemma AllOfSnoc<T>(init: seq<T>, x: T, p: T -> bool)
    requires forall i :: 0 <= i < |init| ==> p(init[i])
    requires p(x)
    ensures forall i :: 0 <= i < |init + [x]| ==> p((init + [x])[i])
  {
    forall i | 0 <= i < |init + [x]| ensures p((init + [x])[i]) {
      if i < |init| {
        assert (init + [x])[i] == init[i];
      }
    }
  }

  /** Filtering keeps a sequence whole exactly when every element passes the test. */
  lemma {:induction false} FilterKeepsAll<T(!new)>(xs: seq<T>, p: T -> bool)
    ensures Filter(xs, p) == xs <==> forall i :: 0 <= i < |xs| ==> p(xs[i])
  {
    FilterShorter(xs, p);
    if xs != [] && forall i :: 0 <= i < |xs| ==> p(xs[i]) {
      var init := xs[..|xs| - 1];
      var x := xs[|xs| - 1];
      SnocSplit(xs);
      forall i | 0 <= i < |init| ensures p(init[i]) {
        assert init[i] == xs[i];
      }
      FilterKeepsAll(init, p);
      FilterLast(xs, p);
    }
  }

  lemma SnocSplit<T>(xs: seq<T>)
    requires xs != []
    ensures xs == xs[..|xs| - 1] + [xs[|xs| - 1]]
  {
  }

  function Map<T, U>(xs: seq<T>, f: T -> U): (r: seq<U>)
    ensures |r| == |xs|
    ensures forall i {:trigger r[i]} :: 0 <= i < |xs| ==> r[i] == f(xs[i])
  {
    if xs == [] then [] else [f(xs[0])] + Map(xs[1..], f)
  }

  lemma MapSnoc<T, U>(xs: seq<T>, x: T, f: T -> U)
    ensures Map(xs + [x], f) == Map(xs, f) + [f(x)]
  {
    assert forall i :: 0 <= i < |xs| ==> (xs + [x])[i] == xs[i];
  }

  predicate Distinct<T(==)>(xs: seq<T>) {
    forall i, j :: 0 <= i < j < |xs| ==> xs[i] != xs[j]
  }

  /** `xs.uniq`: the first occurrence of every element, in order. */
  function Uniq<T(==,!new)>(xs: seq<T>): (r: seq<T>)
    ensures Distinct(r)
    ensures forall x :: x in r <==> x in xs
    ensures |r| <= |xs|
  {
    if xs == [] then []
    else
      var r := Uniq(xs[..|xs| - 1]);
      var x := xs[|xs| - 1];
      assert xs == xs[..|xs| - 1] + [x];
      if x in r then r else r + [x]
  }

  /** The position of the first occurrence of `x` in `xs`. */
  function FirstIndex<T(==)>(xs: seq<T>, x: T): (i: nat)
    requires x in xs
    ensures i < |xs| && xs[i] == x && x !in xs[..i]
  {
    if xs[0] == x then 0
    else
      var i := FirstIndex(xs[1..], x) + 1;
      assert xs[..i] == [xs[0]] + xs[1..][..i - 1];
      i
  }

  /** Only the first occurrence has no earlier copy. */
  lemma FirstIndexUnique<T>(xs: seq<T>, x: T, i: nat)
    requires i < |xs| && xs[i] == x && x !in xs[..i]
    ensures FirstIndex(xs, x) == i
  {
  }

  /** An element of a prefix has its first occurrence there. */
  lemma FirstIndexSnoc<T>(xs: seq<T>, y: T, x: T)
    requires x in xs
    ensures x in xs + [y] && FirstIndex(xs + [y], x) == FirstIndex(xs, x)
  {
    var f := FirstIndex(xs, x);
    SnocPrefix(xs, y, f);
    FirstIndexUnique(xs + [y], x, f);
  }

  lemma SnocPrefix<T>(xs: seq<T>, y: T, f: nat)
    requires f < |xs|
    ensures (xs + [y])[..f] == xs[..f] && (xs + [y])[f] == xs[f]
  {
  }

  /** `uniq` keeps the first occurrence of every element: its elements come in the order of their
      first occurrences in the input. */
  lemma {:induction false} UniqOrder<T(!new)>(xs: seq<T>)
    ensures forall j, k :: 0 <= j < k < |Uniq(xs)| ==> FirstIndex(xs, Uniq(xs)[j]) < FirstIndex(xs, Uniq(xs)[k])
  {
    if xs != [] {
      var init, x := xs[..|xs| - 1], xs[|xs| - 1];
      SnocSplit(xs);
      UniqOrder(init);
      var r := Uniq(init);
      forall y | y in r ensures FirstIndex(xs, y) == FirstIndex(init, y) < |init| {
        FirstIndexSnoc(init, x, y);
      }
      if x !in r {
        FirstIndexUnique(xs, x, |init|);
        SnocInit(r, x);
      }
    }
  }

  /** `xs.compact`: the non-nil values, in order. */
  function Compact<T(!new)>(xs: seq<Option<T>>): (r: seq<T>)
    ensures |r| <= |xs|
    ensures forall x :: x in r <==> Some(x) in xs
    ensures Distinct(xs) ==> Distinct(r)
  {
    if xs == [] then []
    else
      var r := Compact(xs[1..]);
      assert forall o :: o in xs <==> o == xs[0] || o in xs[1..];
      assert Distinct(xs) ==> Distinct(xs[1..]) && xs[0] !in xs[1..];
      if xs[0].Some? then [xs[0].value] + r else r
  }

  /** `xs.count { p }`. */
  function Count<T>(xs: seq<T>, p: T -> bool): (n: nat)
    ensures n <= |xs|
    ensures n == 0 <==> forall i :: 0 <= i < |xs| ==> !p(xs[i])
    ensures n == |xs| <==> forall i :: 0 <= i < |xs| ==> p(xs[i])
  {
    if xs == [] then 0 else (if p(xs[0]) then 1 else 0) + Count(xs[1..], p)
  }

  lemma {:induction false} CountAppend<T>(xs: seq<T>, ys: seq<T>, p: T -> bool)
    ensures Count(xs + ys, p) == Count(xs, p) + Count(ys, p)
  {
    if xs != [] {
      assert (xs + ys)[1..] == xs[1..] + ys;
      CountAppend(xs[1..], ys, p);
    } else {
      assert xs + ys == ys;
    }
  }

  /** Replacing one element changes the count by what the old and the new element contribute. */
  lemma CountUpdate<T>(xs: seq<T>, i: nat, y: T, p: T -> bool)
    requires i < |xs|
    ensures Count(xs[i := y], p) == Count(xs, p) - (if p(xs[i]) then 1 else 0) + (if p(y) then 1 else 0)
  {
    assert xs == xs[..i] + ([xs[i]] + xs[i + 1..]);
    assert xs[i := y] == xs[..i] + ([y] + xs[i + 1..]);
    CountAppend(xs[..i], [xs[i]] + xs[i + 1..], p);
    CountAppend(xs[..i], [y] + xs[i + 1..], p);
  }

  /** Removing one element lowers the count by what it contributed. */
  lemma CountRemove<T>(xs: seq<T>, i: nat, p: T -> bool)
    requires i < |xs|
    ensures Count(xs[..i] + xs[i + 1..], p) == Count(xs, p) - (if p(xs[i]) then 1 else 0)
  {
    var front, back := xs[..i], xs[i + 1..];
    var mid := [xs[i]] + back;
    calc {
      Count(front + back, p);
    == { CountAppend(front, back, p); }
      Count(front, p) + Count(back, p);
    == { assert mid[1..] == back; }
      Count(front, p) + Count(mid, p) - (if p(xs[i]) then 1 else 0);
    == { SplitAt(xs, i); CountAppend(front, mid, p); }
      Count(xs, p) - (if p(xs[i]) then 1 else 0);
    }
  }

  lemma SplitAt<T>(xs: seq<T>, i: nat)
    requires i < |xs|
    ensures xs == xs[..i] + ([xs[i]] + xs[i + 1..])
  {
  }

  /** `xss.reduce([], :+)`. */
  function Flatten<T>(xss: seq<seq<T>>): seq<T> {
    if xss == [] then [] else Flatten(xss[..|xss| - 1]) + xss[|xss| - 1]
  }

  lemma FlattenSnoc<T>(xss: seq<seq<T>>, ys: seq<T>)
    ensures Flatten(xss + [ys]) == Flatten(xss) + ys
  {
    assert (xss + [ys])[..|xss|] == xss;
  }

  /** One more element of a prefix adds its elements at the end. */
  lemma FlattenPrefix<T>(xss: seq<seq<T>>, i: nat)
    requires i < |xss|
    ensures Flatten(xss[..i + 1]) == Flatten(xss[..i]) + xss[i]
  {
    assert xss[..i + 1][..i] == xss[..i];
  }

  lemma {:induction false} FlattenAppend<T>(xss: seq<seq<T>>, yss: seq<seq<T>>)
    ensures Flatten(xss + yss) == Flatten(xss) + Flatten(yss)
  {
    if yss != [] {
      var init := yss[..|yss| - 1];
      var y := yss[|yss| - 1];
      assert yss == init + [y];
      assert xss + yss == (xss + init) + [y];
      FlattenAppend(xss, init);
      FlattenSnoc(xss + init, y);
      FlattenSnoc(init, y);
    } else {
      assert xss + yss == xss;
    }
  }

  lemma {:induction false} FlattenMembership<T>(xss: seq<seq<T>>, x: T)
    ensures x in Flatten(xss) <==> exists i :: 0 <= i < |xss| && x in xss[i]
  {
    if xss != [] {
      var init := xss[..|xss| - 1];
      FlattenMembership(init, x);
      assert forall i :: 0 <= i < |init| ==> init[i] == xss[i];
    }
  }

  function Last<T>(xs: seq<T>): T
    requires xs != []
  {
    xs[|xs| - 1]
  }
}
