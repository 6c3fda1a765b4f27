/**
 * Python lists used as ordered sets: `if not x in xs: xs.append(x)`.
 * AddNew folds that statement over a sequence of candidates; the lemmas say
 * the result has no duplicates, holds exactly the old elements and the
 * candidates, and keeps the candidates in the order they were first seen.
 */
module Lists {

  ghost predicate Distinct<T>(s: seq<T>)
  {
    forall i, j :: 0 <= i < j < |s| ==> s[i] != s[j]
  }

  /** Index of the first occurrence of `x` in `s`. */
  function FirstIndex<T(==)>(s: seq<T>, x: T): (i: nat)
    requires x in s
    ensures i < |s| && s[i] == x
    ensures forall k :: 0 <= k < i ==> s[k] != x
  {
    if s[0] == x then 0 else 1 + FirstIndex(s[1..], x)
  }

  /** `acc` after `if not x in acc: acc.append(x)` for each `x` of `xs` in turn. */
  function AddNew<T(==)>(acc: seq<T>, xs: seq<T>): seq<T>
  {
    if xs == [] then acc
    else
      var a := AddNew(acc, xs[..|xs| - 1]);
      if xs[|xs| - 1] in a then a else a + [xs[|xs| - 1]]
  }

  /** The de-duplicated list of `xs` in first-seen order. */
  function Dedup<T(==)>(xs: seq<T>): seq<T>
  {
    AddNew([], xs)
  }

  /** AddNew keeps what is already there, in place, and adds exactly the new candidates. */
  lemma {:induction false} AddNewContents<T>(acc: seq<T>, xs: seq<T>)
    ensures |AddNew(acc, xs)| >= |acc| && AddNew(acc, xs)[..|acc|] == acc
    ensures forall x :: x in AddNew(acc, xs) <==> x in acc || x in xs
  {
    if xs != [] {
      var init := xs[..|xs| - 1];
      AddNewContents(acc, init);
      assert xs == init + [xs[|xs| - 1]];
      var a := AddNew(acc, init);
      if xs[|xs| - 1] !in a {
        assert (a + [xs[|xs| - 1]])[..|acc|] == a[..|acc|];
      }
    }
  }

  /** A duplicate-free list stays duplicate-free. */
  lemma {:induction false} AddNewDistinct<T>(acc: seq<T>, xs: seq<T>)
    requires Distinct(acc)
    ensures Distinct(AddNew(acc, xs))
  {
    if xs != [] {
      AddNewDistinct(acc, xs[..|xs| - 1]);
    }
  }

  /** Folding over `xs + ys` is folding over `xs`, then over `ys`. */
  lemma {:induction false} AddNewAppend<T>(acc: seq<T>, xs: seq<T>, ys: seq<T>)
    ensures AddNew(acc, xs + ys) == AddNew(AddNew(acc, xs), ys)
  {
    if ys == [] {
      assert xs + ys == xs;
    } else {
      var ys' := ys[..|ys| - 1];
      assert (xs + ys)[..|xs + ys| - 1] == xs + ys';
      AddNewAppend(acc, xs, ys');
    }
  }

  lemma FirstIndexSnoc<T>(s: seq<T>, y: T, x: T)
    requires x in s
    ensures FirstIndex(s + [y], x) == FirstIndex(s, x)
  {
    var i := FirstIndex(s, x);
    var j := FirstIndex(s + [y], x);
    assert (s + [y])[i] == x;
    assert s[j] == x || j == |s|;
  }

  /** Dedup(xs) lists the distinct elements of `xs` by increasing first occurrence. */
  lemma {:induction false} DedupOrder<T>(xs: seq<T>)
    ensures Distinct(Dedup(xs))
    ensures forall x :: x in Dedup(xs) <==> x in xs
    ensures forall i, j :: 0 <= i < j < |Dedup(xs)| ==>
              FirstIndex(xs, Dedup(xs)[i]) < FirstIndex(xs, Dedup(xs)[j])
  {
    AddNewContents([], xs);
    AddNewDistinct([], xs);
    if xs != [] {
      var init := xs[..|xs| - 1];
      var last := xs[|xs| - 1];
      assert xs == init + [last];
      DedupOrder(init);
      AddNewContents([], init);
      var d := Dedup(init);
      assert forall x :: x in d ==> x in init;
      forall x | x in d
        ensures FirstIndex(xs, x) == FirstIndex(init, x)
      {
        assert x in init;
        FirstIndexSnoc(init, last, x);
      }
      if last !in d {
        assert FirstIndex(xs, last) == |init|;
        forall i, j | 0 <= i < j < |Dedup(xs)|
          ensures FirstIndex(xs, Dedup(xs)[i]) < FirstIndex(xs, Dedup(xs)[j])
        {
          assert Dedup(xs) == d + [last];
          assert Dedup(xs)[i] == d[i];
          if j < |d| {
            assert Dedup(xs)[j] == d[j];
          }
        }
      }
    }
  }
}
