/** Sequence utilities shared by the table operations: boolean-mask selection,
    element-wise mapping, de-duplication in first-appearance order, sums and
    arithmetic means. Every recursive definition here peels the LAST element,
    so that appending a record unfolds in one step. */
module Seqs {

  datatype Option<T> = None | Some(value: T)

  datatype Result<T, E> = Ok(value: T) | Err(error: E)

  function Last<T>(xs: seq<T>): T
    requires |xs| > 0
  {
    xs[|xs| - 1]
  }

  function Init<T>(xs: seq<T>): seq<T>
    requires |xs| > 0
  {
    xs[..|xs| - 1]
  }

  lemma InitLast<T>(xs: seq<T>)
    requires |xs| > 0
    ensures xs == Init(xs) + [Last(xs)]
  {
  }

  lemma SnocParts<T>(xs: seq<T>, x: T)
    ensures Init(xs + [x]) == xs && Last(xs + [x]) == x
  {
    assert (xs + [x])[..|xs|] == xs;
  }

  /** The elements of `xs` satisfying `p`, in their original order
      (a boolean-mask selection `df[mask]`). */
  function Filter<T>(xs: seq<T>, p: T -> bool): (r: seq<T>)
    ensures |r| <= |xs|
  {
    if xs == [] then []
    else Filter(Init(xs), p) + (if p(Last(xs)) then [Last(xs)] else [])
  }

  /** The selection holds exactly the elements of `xs` that satisfy `p`. */
  lemma {:induction false} FilterMembers<T>(xs: seq<T>, p: T -> bool, x: T)
    ensures x in Filter(xs, p) <==> x in xs && p(x)
    decreases |xs|
  {
    if xs != [] {
      InitLast(xs);
      FilterMembers(Init(xs), p, x);
    }
  }

  /** An element of the selection sits in `xs` at some index. */
  lemma FilterIndex<T>(xs: seq<T>, p: T -> bool, a: int) returns (j: int)
    requires 0 <= a < |Filter(xs, p)|
    ensures 0 <= j < |xs| && xs[j] == Filter(xs, p)[a] && p(xs[j])
  {
    FilterMembers(xs, p, Filter(xs, p)[a]);
    j :| 0 <= j < |xs| && xs[j] == Filter(xs, p)[a];
  }

  /** An element of `xs` that satisfies `p` sits in the selection at some index. */
  lemma IndexFilter<T>(xs: seq<T>, p: T -> bool, j: int) returns (a: int)
    requires 0 <= j < |xs| && p(xs[j])
    ensures 0 <= a < |Filter(xs, p)| && Filter(xs, p)[a] == xs[j]
  {
    FilterMembers(xs, p, xs[j]);
    a :| 0 <= a < |Filter(xs, p)| && Filter(xs, p)[a] == xs[j];
  }

  lemma FilterSnoc<T>(xs: seq<T>, x: T, p: T -> bool)
    ensures Filter(xs + [x], p) == Filter(xs, p) + (if p(x) then [x] else [])
  {
    SnocParts(xs, x);
  }

  lemma {:induction false} FilterAppend<T>(xs: seq<T>, ys: seq<T>, p: T -> bool)
    ensures Filter(xs + ys, p) == Filter(xs, p) + Filter(ys, p)
    decreases |ys|
  {
    if ys == [] {
      assert xs + ys == xs;
    } else {
      var tail := if p(Last(ys)) then [Last(ys)] else [];
      InitLast(ys);
      assert xs + ys == (xs + Init(ys)) + [Last(ys)];
      FilterSnoc(xs + Init(ys), Last(ys), p);
      FilterAppend(xs, Init(ys), p);
      calc {
        Filter(xs + ys, p);
        Filter(xs + Init(ys), p) + tail;
        (Filter(xs, p) + Filter(Init(ys), p)) + tail;
        Filter(xs, p) + (Filter(Init(ys), p) + tail);
        Filter(xs, p) + Filter(ys, p);
      }
    }
  }

  /** The selection is empty exactly when nothing in `xs` satisfies `p`. */
  lemma FilterEmpty<T>(xs: seq<T>, p: T -> bool)
    ensures Filter(xs, p) == [] <==> forall i :: 0 <= i < |xs| ==> !p(xs[i])
  {
    if Filter(xs, p) != [] {
      var j := FilterIndex(xs, p, 0);
    } else {
      forall i | 0 <= i < |xs| ensures !p(xs[i]) {
        if p(xs[i]) {
          var a := IndexFilter(xs, p, i);
        }
      }
    }
  }

  /** A non-empty selection starts with the first element of `xs` that
      satisfies `p` (what `.values[0]` reads). */
  lemma {:induction false} FilterFirst<T>(xs: seq<T>, p: T -> bool) returns (i: int)
    requires Filter(xs, p) != []
    ensures 0 <= i < |xs| && p(xs[i]) && Filter(xs, p)[0] == xs[i]
    ensures forall j :: 0 <= j < i ==> !p(xs[j])
    decreases |xs|
  {
    var ys := Init(xs);
    var tail := if p(Last(xs)) then [Last(xs)] else [];
    InitLast(xs);
    assert Filter(xs, p) == Filter(ys, p) + tail;
    if Filter(ys, p) != [] {
      i := FilterFirst(ys, p);
      assert xs[i] == ys[i];
      assert forall j :: 0 <= j < i ==> xs[j] == ys[j];
    } else {
      FilterEmpty(ys, p);
      i := |xs| - 1;
      assert forall j :: 0 <= j < i ==> xs[j] == ys[j];
    }
  }

  /** Number of elements equal to `v`. */
  function Count<T(==)>(xs: seq<T>, v: T): nat
  {
    |Filter(xs, EqualTo(v))|
  }

  /** The test "equals `v`", as one named predicate value. */
  function EqualTo<T(==)>(v: T): T -> bool
  {
    x => x == v
  }

  function MapSeq<T, U>(xs: seq<T>, f: T -> U): seq<U>
  {
    seq(|xs|, i requires 0 <= i < |xs| => f(xs[i]))
  }

  lemma MapSeqAppend<T, U>(xs: seq<T>, ys: seq<T>, f: T -> U)
    ensures MapSeq(xs + ys, f) == MapSeq(xs, f) + MapSeq(ys, f)
  {
  }

  ghost predicate NoDuplicates<T>(s: seq<T>)
  {
    forall i, j :: 0 <= i < j < |s| ==> s[i] != s[j]
  }

  lemma AppendFresh<T>(xs: seq<T>, x: T)
    requires NoDuplicates(xs) && x !in xs
    ensures NoDuplicates(xs + [x])
  {
  }

  lemma AppendDisjoint<T>(xs: seq<T>, ys: seq<T>)
    requires NoDuplicates(xs) && NoDuplicates(ys)
    requires forall x :: x in xs ==> x !in ys
    ensures NoDuplicates(xs + ys)
  {
    var zs := xs + ys;
    forall i, j | 0 <= i < j < |zs| ensures zs[i] != zs[j] {
      if i < |xs| && |xs| <= j {
        assert zs[i] in xs && zs[j] == ys[j - |xs|];
      } else if |xs| <= i {
        assert zs[i] == ys[i - |xs|] && zs[j] == ys[j - |xs|];
      }
    }
  }

  /** The distinct elements of `xs` in order of first appearance
      (`unique()` / `drop_duplicates()`). */
  function Dedup<T(==)>(xs: seq<T>): (r: seq<T>)
    ensures NoDuplicates(r)
    ensures forall x | x in r :: x in xs
    ensures forall x | x in xs :: x in r
  {
    if xs == [] then []
    else
      InitLast(xs);
      var d := Dedup(Init(xs));
      if Last(xs) in d then d else d + [Last(xs)]
  }

  /** The index of the first occurrence of `x` in `xs`. */
  function FirstIndexOf<T(==)>(xs: seq<T>, x: T): (i: nat)
    requires x in xs
    ensures i < |xs| && xs[i] == x
    ensures forall j :: 0 <= j < i ==> xs[j] != x
  {
    InitLast(xs);
    if x in Init(xs) then FirstIndexOf(Init(xs), x) else |xs| - 1
  }

  /** `Dedup` lists the distinct elements in the order of their first
      occurrence in `xs`. */
  lemma {:induction false} DedupOrder<T>(xs: seq<T>, i: int, j: int)
    requires 0 <= i < j < |Dedup(xs)|
    ensures FirstIndexOf(xs, Dedup(xs)[i]) < FirstIndexOf(xs, Dedup(xs)[j])
    decreases |xs|
  {
    var init, x := Init(xs), Last(xs);
    InitLast(xs);
    var d := Dedup(init);
    var a, b := Dedup(xs)[i], Dedup(xs)[j];
    assert a in d;
    FirstIndexInInit(xs, a);
    if j < |d| {
      assert a == d[i] && b == d[j];
      FirstIndexInInit(xs, b);
      DedupOrder(init, i, j);
    } else {
      assert b == x && x !in d;
      assert x !in init;
    }
  }

  /** An element of `Init(xs)` has its first occurrence there. */
  lemma FirstIndexInInit<T>(xs: seq<T>, x: T)
    requires |xs| > 0 && x in Init(xs)
    ensures FirstIndexOf(xs, x) == FirstIndexOf(Init(xs), x)
  {
  }

  lemma {:induction false} FilterNoDuplicates<T>(xs: seq<T>, p: T -> bool)
    requires NoDuplicates(xs)
    ensures NoDuplicates(Filter(xs, p))
    decreases |xs|
  {
    if xs != [] {
      InitLast(xs);
      FilterNoDuplicates(Init(xs), p);
      assert Last(xs) !in Init(xs);
      FilterMembers(Init(xs), p, Last(xs));
    }
  }

  function Sum(xs: seq<real>): real
  {
    if xs == [] then 0.0 else Sum(Init(xs)) + Last(xs)
  }

  /** The arithmetic mean, as pandas' `mean` aggregation computes it. */
  function Mean(xs: seq<real>): real
    requires |xs| > 0
  {
    Sum(xs) / (|xs| as real)
  }
}
