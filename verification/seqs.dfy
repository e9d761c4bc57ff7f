/**
  Order-preserving selection, the shape shared by the allow-list filter and the
  seen-key diff: both walk a list once and keep the elements a test accepts.
*/
module Seqs {

  /** The elements of `xs` that `keep` accepts, in their original order. */
  function Select<T(==,!new)>(xs: seq<T>, keep: T -> bool): (r: seq<T>)
    ensures |r| <= |xs|
    ensures forall x :: x in r <==> x in xs && keep(x)
  {
    if xs == [] then []
    else (if keep(xs[0]) then [xs[0]] else []) + Select(xs[1..], keep)
  }

  /** Every accepted element keeps its multiplicity; every rejected one disappears. */
  lemma {:induction false} SelectCount<T(!new)>(xs: seq<T>, keep: T -> bool, x: T)
    ensures multiset(Select(xs, keep))[x] == if keep(x) then multiset(xs)[x] else 0
  {
    if xs != [] {
      SelectCount(xs[1..], keep, x);
      assert xs == [xs[0]] + xs[1..];
      assert multiset(xs) == multiset([xs[0]]) + multiset(xs[1..]);
    }
  }

  /** The multiplicity statement of `SelectCount`, for every element at once. */
  lemma SelectCounts<T(!new)>(xs: seq<T>, keep: T -> bool)
    ensures forall x :: multiset(Select(xs, keep))[x] == if keep(x) then multiset(xs)[x] else 0
  {
    forall x
      ensures multiset(Select(xs, keep))[x] == if keep(x) then multiset(xs)[x] else 0
    {
      SelectCount(xs, keep, x);
    }
  }

  /** Selecting with `p` and then with `q` is selecting once with their conjunction `pq`. */
  lemma {:induction false} SelectSelect<T(!new)>(xs: seq<T>, p: T -> bool, q: T -> bool, pq: T -> bool)
    requires forall x :: pq(x) == (p(x) && q(x))
    ensures Select(Select(xs, p), q) == Select(xs, pq)
  {
    if xs != [] {
      var x, rest := xs[0], Select(xs[1..], p);
      var head := if p(x) then [x] else [];
      assert Select(xs, p) == head + rest;
      assert Select(xs, pq) == (if pq(x) then [x] else []) + Select(xs[1..], pq);
      SelectConcat(head, rest, q);
      SelectSelect(xs[1..], p, q, pq);
      assert Select(head, q) == if pq(x) then [x] else [] by {
        if p(x) {
          assert [x][1..] == [];
        }
      }
    }
  }

  /** Selection distributes over concatenation, so the relative order of kept elements is preserved. */
  lemma {:induction false} SelectConcat<T(!new)>(a: seq<T>, b: seq<T>, keep: T -> bool)
    ensures Select(a + b, keep) == Select(a, keep) + Select(b, keep)
  {
    if a == [] {
      assert a + b == b;
    } else {
      assert (a + b)[0] == a[0];
      assert (a + b)[1..] == a[1..] + b;
      SelectConcat(a[1..], b, keep);
      if keep(a[0]) {
        calc {
          Select(a + b, keep);
          [a[0]] + Select(a[1..] + b, keep);
          [a[0]] + (Select(a[1..], keep) + Select(b, keep));
          ([a[0]] + Select(a[1..], keep)) + Select(b, keep);
        }
      }
    }
  }

  /** A list whose elements are all accepted is selected whole. */
  lemma {:induction false} SelectAllKept<T(!new)>(xs: seq<T>, keep: T -> bool)
    requires forall i :: 0 <= i < |xs| ==> keep(xs[i])
    ensures Select(xs, keep) == xs
  {
    if xs != [] {
      SelectAllKept(xs[1..], keep);
    }
  }

  /** A list none of whose elements is accepted selects to nothing. */
  lemma {:induction false} SelectNoneKept<T(!new)>(xs: seq<T>, keep: T -> bool)
    requires forall i :: 0 <= i < |xs| ==> !keep(xs[i])
    ensures Select(xs, keep) == []
  {
    if xs != [] {
      SelectNoneKept(xs[1..], keep);
    }
  }

  /** Selecting twice with the same test is selecting once. */
  lemma SelectIdempotent<T(!new)>(xs: seq<T>, keep: T -> bool)
    ensures Select(Select(xs, keep), keep) == Select(xs, keep)
  {
    var r := Select(xs, keep);
    assert forall i :: 0 <= i < |r| ==> r[i] in r;
    SelectAllKept(r, keep);
  }

  /** `f` applied to every element, position for position. */
  function Map<A, B>(xs: seq<A>, f: A -> B): (r: seq<B>)
    ensures |r| == |xs|
    ensures forall i :: 0 <= i < |xs| ==> r[i] == f(xs[i])
  {
    seq(|xs|, i requires 0 <= i < |xs| => f(xs[i]))
  }

  /** Mapping a list with one more element at the end adds that element's image at the end. */
  lemma MapSnoc<A, B>(xs: seq<A>, x: A, f: A -> B)
    ensures Map(xs + [x], f) == Map(xs, f) + [f(x)]
  {
    var l, r := Map(xs + [x], f), Map(xs, f) + [f(x)];
    forall i | 0 <= i < |l|
      ensures l[i] == r[i]
    {
      if i < |xs| {
        assert (xs + [x])[i] == xs[i];
      } else {
        assert (xs + [x])[i] == x;
      }
    }
  }

  /** Concatenation is associative. */
  lemma SeqAssoc<T>(x: seq<T>, y: seq<T>, z: seq<T>)
    ensures x + (y + z) == (x + y) + z
  {
  }

  /** Cutting `a + b` around a position inside `a`. */
  lemma SlicesOfAppend<T>(a: seq<T>, b: seq<T>, n: nat)
    requires n < |a|
    ensures (a + b)[..n] == a[..n]
    ensures (a + b)[n + 1..] == a[n + 1..] + b
  {
  }
}
