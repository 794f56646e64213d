/** The `std::sort` of a distance row and the first-minimum choice of the
    median loop. */
module Sorting {

  predicate Sorted(s: seq<int>)
  {
    forall i, j :: 0 <= i < j < |s| ==> s[i] <= s[j]
  }

  /** Insertion of one value into a sorted sequence. */
  function Insert(x: int, s: seq<int>): (r: seq<int>)
    ensures |r| == |s| + 1
  {
    if s == [] then [x]
    else if x <= s[0] then [x] + s
    else [s[0]] + Insert(x, s[1..])
  }

  /** Insertion adds exactly the one value. */
  lemma {:induction false} InsertMultiset(x: int, s: seq<int>)
    ensures multiset(Insert(x, s)) == multiset(s) + multiset{x}
  {
    if s != [] && x > s[0] {
      InsertMultiset(x, s[1..]);
      assert s == [s[0]] + s[1..];
    }
  }

  /** A lower bound of the value and of the sequence bounds the insertion. */
  lemma {:induction false} InsertBounded(x: int, s: seq<int>, lo: int)
    requires lo <= x && forall i :: 0 <= i < |s| ==> lo <= s[i]
    ensures forall i :: 0 <= i < |Insert(x, s)| ==> lo <= Insert(x, s)[i]
  {
    if s != [] && x > s[0] {
      InsertBounded(x, s[1..], lo);
    }
  }

  /** Insertion into a sorted sequence keeps it sorted. */
  lemma {:induction false} InsertSorted(x: int, s: seq<int>)
    requires Sorted(s)
    ensures Sorted(Insert(x, s))
  {
    if s != [] && x > s[0] {
      InsertSorted(x, s[1..]);
      InsertBounded(x, s[1..], s[0]);
    }
  }

  /** Ascending order of a row: sorted and a permutation of it. */
  function Sort(s: seq<int>): (r: seq<int>)
    ensures Sorted(r) && multiset(r) == multiset(s) && |r| == |s|
  {
    if s == [] then []
    else
      var t := Sort(s[..|s| - 1]);
      InsertMultiset(s[|s| - 1], t);
      InsertSorted(s[|s| - 1], t);
      assert s == s[..|s| - 1] + [s[|s| - 1]];
      Insert(s[|s| - 1], t)
  }

  /** Position `i` holds the smallest value and no earlier position ties it.
      This is the whole-row choice of the median loop: it skips no position
      and starts from `INT_MAX`, above every median, so a non-empty row
      always has one. `Selection.FirstMinExcept` is the choice of the
      candidate loops instead: it also drops skipped candidates and one
      excluded position, and a candidate counts only when it beats a start
      bound, so there may be none. */
  ghost predicate IsFirstMin(v: seq<int>, i: int)
  {
    && 0 <= i < |v|
    && (forall k :: 0 <= k < |v| ==> v[i] <= v[k])
    && (forall k :: 0 <= k < i ==> v[i] < v[k])
  }

  /** Only one position is the first minimum. */
  lemma FirstMinUnique(v: seq<int>, i: int, j: int)
    requires IsFirstMin(v, i) && IsFirstMin(v, j)
    ensures i == j
  {
    assert v[i] <= v[j] && v[j] <= v[i];
  }

  /** The position of the first smallest value. */
  function ArgFirstMin(v: seq<int>): (i: nat)
    requires v != []
    ensures IsFirstMin(v, i)
  {
    if |v| == 1 then 0
    else
      var j := ArgFirstMin(v[..|v| - 1]);
      if v[|v| - 1] < v[j] then |v| - 1 else j
  }
}
