/** Shared vocabulary of the association core: optional values, the matching
    thresholds and a count of the occupied entries of a slot vector. */
module Common {

  /** A nullable value: a landmark slot, an optional reference keyframe. */
  datatype Option<T> = None | Some(value: T)

  /** Landmarks and keyframes are referred to by integer id. */
  type PointId = nat
  type KfId = nat

  /** Descriptor-distance acceptance thresholds and the histogram size. */
  const TH_HIGH: int := 100
  const TH_LOW: int := 50
  const HISTO_LENGTH: int := 30

  /** The largest `int` of the source (initial "best distance" in three matchers). */
  const INT_MAX: int := 0x7fff_ffff

  /** The positions of `s` that hold something other than `none`. */
  function Assigned<T(==)>(s: seq<T>, none: T): (r: set<nat>)
    ensures forall k :: k in r <==> 0 <= k < |s| && s[k] != none
  {
    set k | 0 <= k < |s| && s[k] != none
  }

  /** Writing one entry adds it to, or removes it from, the occupied positions. */
  lemma AssignedUpdate<T>(s: seq<T>, k: nat, v: T, none: T)
    requires k < |s|
    ensures Assigned(s[k := v], none) == if v == none then Assigned(s, none) - {k} else Assigned(s, none) + {k}
    ensures v == none && s[k] != none ==> |Assigned(s[k := v], none)| == |Assigned(s, none)| - 1
    ensures v != none && s[k] == none ==> |Assigned(s[k := v], none)| == |Assigned(s, none)| + 1
    ensures (v == none) == (s[k] == none) ==> |Assigned(s[k := v], none)| == |Assigned(s, none)|
  {
    var a, b := Assigned(s, none), Assigned(s[k := v], none);
    if v == none && s[k] != none {
      assert a == b + {k};
    } else if v != none && s[k] == none {
      assert b == a + {k};
    } else {
      assert a == b;
    }
  }

  /** An all-`none` vector occupies nothing. */
  lemma AssignedNone<T>(n: nat, none: T)
    ensures Assigned(seq(n, _ => none), none) == {}
  {
  }

  /** A sequence without repeated elements. */
  predicate Distinct<T(==)>(s: seq<T>)
  {
    forall i, j :: 0 <= i < j < |s| ==> s[i] != s[j]
  }

  /** A sequence without repeats has as many elements as its set. */
  lemma {:induction false} DistinctCard<T>(s: seq<T>)
    requires Distinct(s)
    ensures |set x | x in s| == |s|
  {
    if s != [] {
      var t := s[..|s| - 1];
      var x := s[|s| - 1];
      DistinctCard(t);
      assert (set y | y in s) == (set y | y in t) + {x};
      assert x !in (set y | y in t);
    }
  }

  /** A set of naturals bounded below by `lo` and holding `w` has a least
      element; the search climbs from `lo` towards `w`. */
  lemma {:induction false} HasMinAbove(s: set<nat>, w: nat, lo: nat)
    requires w in s && lo <= w
    requires forall k :: k in s ==> lo <= k
    ensures exists m :: m in s && forall k :: k in s ==> m <= k
    decreases w - lo
  {
    if lo !in s {
      HasMinAbove(s, w, lo + 1);
    } else {
      assert lo in s && forall k :: k in s ==> lo <= k;
    }
  }

  /** Every non-empty set of naturals has a least element. */
  lemma HasMin(s: set<nat>)
    requires s != {}
    ensures exists m :: m in s && forall k :: k in s ==> m <= k
  {
    var w :| w in s;
    HasMinAbove(s, w, 0);
  }

  /** The least element of a non-empty set of naturals. */
  ghost function MinKey(s: set<nat>): (m: nat)
    requires s != {}
    ensures m in s && forall k :: k in s ==> m <= k
  {
    HasMin(s);
    var m :| m in s && forall k :: k in s ==> m <= k;
    m
  }

  /** Extending a prefix by one entry adds that entry when it is occupied. */
  lemma AssignedPrefix<T>(s: seq<T>, i: nat, none: T)
    requires i < |s|
    ensures |Assigned(s[..i + 1], none)| == |Assigned(s[..i], none)| + (if s[i] != none then 1 else 0)
  {
    var a, b := Assigned(s[..i], none), Assigned(s[..i + 1], none);
    assert i !in a;
    if s[i] != none {
      assert b == a + {i};
    } else {
      assert b == a;
    }
  }
}
