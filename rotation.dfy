/** The rotation-consistency filter: every accepted match records the index it
    wrote into one of HISTO_LENGTH buckets chosen by the difference of the two
    keypoint orientations; afterwards only the three fullest buckets survive
    (a bucket below a tenth of the fullest one is dropped too) and every match
    recorded elsewhere is undone. */
module Rotation {
  import opened Common

  /** The bucket of the rotation between two keypoint angles (degrees in
      [0, 360)), as written: `rot += 360` when negative, then
      `round(rot * (1 / HISTO_LENGTH))`, where 30 wraps to 0. Float rounding is
      not modelled. */
  function RotationBin(angle1: real, angle2: real): (bin: int)
    requires 0.0 <= angle1 < 360.0 && 0.0 <= angle2 < 360.0
    ensures 0 <= bin < HISTO_LENGTH
  {
    var rot := if angle1 - angle2 < 0.0 then angle1 - angle2 + 360.0 else angle1 - angle2;
    var b := (rot * (1.0 / HISTO_LENGTH as real) + 0.5).Floor;
    if b == HISTO_LENGTH then 0 else b
  }

  /** With `factor = 1 / HISTO_LENGTH` a bucket is 30 degrees wide, so only the
      buckets 0..12 are ever used and the wrap of bucket 30 never fires. */
  lemma RotationBinAtMost12(angle1: real, angle2: real)
    requires 0.0 <= angle1 < 360.0 && 0.0 <= angle2 < 360.0
    ensures RotationBin(angle1, angle2) <= 12
  {
    var rot := if angle1 - angle2 < 0.0 then angle1 - angle2 + 360.0 else angle1 - angle2;
    assert rot < 360.0;
    assert rot * (1.0 / 30.0) + 0.5 < 12.5;
  }

  /** Appending the index of an accepted match to its bucket. */
  function Record(hist: seq<seq<nat>>, bin: int, idx: nat): (h: seq<seq<nat>>)
    requires 0 <= bin < |hist|
    ensures |h| == |hist| && h[bin] == hist[bin] + [idx]
    ensures forall b :: 0 <= b < |hist| && b != bin ==> h[b] == hist[b]
  {
    hist[bin := hist[bin] + [idx]]
  }

  /** Bucket `a` ranks before bucket `b`: more entries, or as many and a lower
      index (a strictly greater count is needed to displace a maximum). */
  ghost predicate Beats(hist: seq<seq<nat>>, a: int, b: int)
    requires 0 <= a < |hist| && 0 <= b < |hist|
  {
    |hist[a]| > |hist[b]| || (|hist[a]| == |hist[b]| && a < b)
  }

  /** `ind1`, `ind2`, `ind3` are the three fullest buckets in the ranking of
      `Beats`, -1 where absent, with `ind2` and `ind3` dropped when below a
      tenth of the fullest (`ind2 == -1` drops `ind3`). */
  ghost predicate ThreeMaxima(hist: seq<seq<nat>>, ind1: int, ind2: int, ind3: int)
  {
    && (ind1 == -1 <==> forall j :: 0 <= j < |hist| ==> |hist[j]| == 0)
    && (ind1 != -1 ==> (
          0 <= ind1 < |hist| && |hist[ind1]| > 0
            && forall j :: 0 <= j < |hist| && j != ind1 ==> Beats(hist, ind1, j)))
    && (ind2 != -1 ==> (
          ind1 != -1 && 0 <= ind2 < |hist| && ind2 != ind1 && 10 * |hist[ind2]| >= |hist[ind1]|
            && forall j :: 0 <= j < |hist| && j != ind1 && j != ind2 ==> Beats(hist, ind2, j)))
    && (ind1 != -1 && ind2 == -1 ==>
          forall j :: 0 <= j < |hist| && j != ind1 ==> 10 * |hist[j]| < |hist[ind1]|)
    && (ind3 != -1 ==> (
          ind2 != -1 && 0 <= ind3 < |hist| && ind3 != ind1 && ind3 != ind2
            && 10 * |hist[ind3]| >= |hist[ind1]|
            && forall j :: 0 <= j < |hist| && j != ind1 && j != ind2 && j != ind3 ==> Beats(hist, ind3, j)))
    && (ind2 != -1 && ind3 == -1 ==>
          forall j :: 0 <= j < |hist| && j != ind1 && j != ind2 ==> 10 * |hist[j]| < |hist[ind1]|)
  }

  /** The three maxima are determined by the histogram: two triples that both
      satisfy `ThreeMaxima` are equal, so the filter's outcome is too. */
  lemma ThreeMaximaUnique(hist: seq<seq<nat>>, a1: int, a2: int, a3: int, b1: int, b2: int, b3: int)
    requires ThreeMaxima(hist, a1, a2, a3) && ThreeMaxima(hist, b1, b2, b3)
    ensures a1 == b1 && a2 == b2 && a3 == b3
  {
    if a1 != -1 && b1 != -1 {
      BeatsAsymmetric(hist, a1, b1);
    }
    if a2 != -1 && b2 != -1 {
      BeatsAsymmetric(hist, a2, b2);
    }
    if a3 != -1 && b3 != -1 {
      BeatsAsymmetric(hist, a3, b3);
    }
  }

  /** No two buckets beat each other. */
  lemma BeatsAsymmetric(hist: seq<seq<nat>>, a: int, b: int)
    requires 0 <= a < |hist| && 0 <= b < |hist|
    ensures Beats(hist, a, b) ==> !Beats(hist, b, a)
  {
  }

  /** `ComputeThreeMaxima`: the indices of the three fullest buckets in the
      ranking of `Beats`, -1 where absent. `ind2` and `ind3` are dropped when
      their count is below a tenth of the fullest (`ind2 == -1` drops `ind3`);
      with every bucket empty all three stay at their initial -1. */
  method ComputeThreeMaxima(hist: seq<seq<nat>>) returns (ind1: int, ind2: int, ind3: int)
    ensures ind1 == -1 <==> forall j :: 0 <= j < |hist| ==> |hist[j]| == 0
    ensures ind1 != -1 ==> (
      0 <= ind1 < |hist| && |hist[ind1]| > 0
        && forall j :: 0 <= j < |hist| && j != ind1 ==> Beats(hist, ind1, j))
    ensures ind2 != -1 ==> (
      ind1 != -1 && 0 <= ind2 < |hist| && ind2 != ind1 && 10 * |hist[ind2]| >= |hist[ind1]|
        && forall j :: 0 <= j < |hist| && j != ind1 && j != ind2 ==> Beats(hist, ind2, j))
    ensures ind1 != -1 && ind2 == -1 ==>
      forall j :: 0 <= j < |hist| && j != ind1 ==> 10 * |hist[j]| < |hist[ind1]|
    ensures ind3 != -1 ==> (
      ind2 != -1 && 0 <= ind3 < |hist| && ind3 != ind1 && ind3 != ind2
        && 10 * |hist[ind3]| >= |hist[ind1]|
        && forall j :: 0 <= j < |hist| && j != ind1 && j != ind2 && j != ind3 ==> Beats(hist, ind3, j))
    ensures ind2 != -1 && ind3 == -1 ==>
      forall j :: 0 <= j < |hist| && j != ind1 && j != ind2 ==> 10 * |hist[j]| < |hist[ind1]|
    ensures ThreeMaxima(hist, ind1, ind2, ind3)
  {
    var max1, max2, max3 := 0, 0, 0;
    ind1, ind2, ind3 := -1, -1, -1;
    for i := 0 to |hist|
      invariant forall j :: 0 <= j < i ==> |hist[j]| <= max1
      invariant forall j :: 0 <= j < i && j != ind1 ==> |hist[j]| <= max2
      invariant forall j :: 0 <= j < i && j != ind1 && j != ind2 ==> |hist[j]| <= max3
      invariant ind1 == -1 <==> forall j :: 0 <= j < i ==> |hist[j]| == 0
      invariant ind1 == -1 ==> max1 == 0
      invariant ind1 != -1 ==> (
        0 <= ind1 < i && max1 == |hist[ind1]| > 0
          && forall j :: 0 <= j < i && j != ind1 ==> Beats(hist, ind1, j))
      invariant ind2 == -1 <==> ind1 == -1 || forall j :: 0 <= j < i && j != ind1 ==> |hist[j]| == 0
      invariant ind2 == -1 ==> max2 == 0
      invariant ind2 != -1 ==> (
        0 <= ind2 < i && ind2 != ind1 && max2 == |hist[ind2]| > 0
          && forall j :: 0 <= j < i && j != ind1 && j != ind2 ==> Beats(hist, ind2, j))
      invariant ind3 == -1 <==> (
        ind2 == -1 || forall j :: 0 <= j < i && j != ind1 && j != ind2 ==> |hist[j]| == 0)
      invariant ind3 == -1 ==> max3 == 0
      invariant ind3 != -1 ==> (
        0 <= ind3 < i && ind3 != ind1 && ind3 != ind2 && max3 == |hist[ind3]| > 0
          && forall j :: 0 <= j < i && j != ind1 && j != ind2 && j != ind3 ==> Beats(hist, ind3, j))
    {
      var s := |hist[i]|;
      if s > max1 {
        max3, max2, max1 := max2, max1, s;
        ind3, ind2, ind1 := ind2, ind1, i;
      } else if s > max2 {
        max3, max2 := max2, s;
        ind3, ind2 := ind2, i;
      } else if s > max3 {
        max3 := s;
        ind3 := i;
      }
    }
    if (max2 as real) < 0.1 * (max1 as real) {
      assert 10 * max2 < max1;
      ind2, ind3 := -1, -1;
    } else if (max3 as real) < 0.1 * (max1 as real) {
      assert 10 * max2 >= max1 && 10 * max3 < max1;
      ind3 := -1;
    } else {
      assert 10 * max2 >= max1 && 10 * max3 >= max1;
    }
  }

  /** A bucket survives the filter. */
  predicate Kept(b: int, ind1: int, ind2: int, ind3: int)
  {
    b == ind1 || b == ind2 || b == ind3
  }

  /** The entries of the buckets below `m` that do not survive, in the order the
      source walks them. */
  function Discarded(hist: seq<seq<nat>>, ind1: int, ind2: int, ind3: int, m: nat): seq<nat>
    requires m <= |hist|
  {
    if m == 0 then [] else
    Discarded(hist, ind1, ind2, ind3, m - 1) + (if Kept(m - 1, ind1, ind2, ind3) then [] else hist[m - 1])
  }

  /** Every recorded index is a position of an output vector of length `n`. */
  ghost predicate InRange(hist: seq<seq<nat>>, n: int)
  {
    forall b, j :: 0 <= b < |hist| && 0 <= j < |hist[b]| ==> hist[b][j] < n
  }

  /** The undo loop of every rotation-checked matcher: each index recorded in a
      discarded bucket has its output entry reset to `none`, and the match count
      drops by one per recorded entry. */
  method DiscardInconsistent<T>(s: seq<T>, hist: seq<seq<nat>>, ind1: int, ind2: int, ind3: int,
                                none: T, nmatches: int) returns (s': seq<T>, n: int)
    requires InRange(hist, |s|)
    ensures |s'| == |s|
    ensures forall x :: 0 <= x < |s| ==>
      s'[x] == if x in Discarded(hist, ind1, ind2, ind3, |hist|) then none else s[x]
    ensures n == nmatches - |Discarded(hist, ind1, ind2, ind3, |hist|)|
  {
    s', n := s, nmatches;
    for i := 0 to |hist|
      invariant |s'| == |s|
      invariant forall x :: 0 <= x < |s| ==>
        s'[x] == if x in Discarded(hist, ind1, ind2, ind3, i) then none else s[x]
      invariant n == nmatches - |Discarded(hist, ind1, ind2, ind3, i)|
    {
      if Kept(i, ind1, ind2, ind3) {
        continue;
      }
      ghost var before := Discarded(hist, ind1, ind2, ind3, i);
      for j := 0 to |hist[i]|
        invariant |s'| == |s|
        invariant forall x :: 0 <= x < |s| ==>
          s'[x] == if x in before + hist[i][..j] then none else s[x]
        invariant n == nmatches - |before| - j
      {
        assert hist[i][..j + 1] == hist[i][..j] + [hist[i][j]];
        s' := s'[hist[i][j] := none];
        n := n - 1;
      }
      assert hist[i][..|hist[i]|] == hist[i];
    }
  }

  /** The block that ends every rotation-checked matcher: the three fullest
      buckets are found and every match recorded in another bucket is undone.
      When the records are distinct occupied entries and the count was the
      number of occupied entries, it still is. */
  method RotationConsistency<T(==)>(s: seq<T>, hist: seq<seq<nat>>, none: T, nmatches: int)
    returns (s': seq<T>, n: int, ghost dropped: seq<nat>, ind1: int, ind2: int, ind3: int)
    requires InRange(hist, |s|)
    ensures ThreeMaxima(hist, ind1, ind2, ind3) && dropped == Discarded(hist, ind1, ind2, ind3, |hist|)
    ensures |s'| == |s|
    ensures forall x :: 0 <= x < |s| ==> s'[x] == if x in dropped then none else s[x]
    ensures forall x :: x in dropped ==> x in Recorded(hist)
    ensures n == nmatches - |dropped|
    ensures EntriesDistinct(hist) && RecordsAssigned(hist, s, none) ==>
      |Assigned(s', none)| == |Assigned(s, none)| - |dropped|
  {
    ind1, ind2, ind3 := ComputeThreeMaxima(hist);
    dropped := Discarded(hist, ind1, ind2, ind3, |hist|);
    s', n := DiscardInconsistent(s, hist, ind1, ind2, ind3, none, nmatches);
    forall x | x in dropped
      ensures x in Recorded(hist)
    {
      DiscardedFrom(hist, ind1, ind2, ind3, |hist|, x);
    }
    if EntriesDistinct(hist) && RecordsAssigned(hist, s, none) {
      DiscardKeepsCount(s, s', hist, ind1, ind2, ind3, none, |Assigned(s, none)|);
    }
  }

  /** Every index recorded in some bucket. */
  ghost function Recorded(hist: seq<seq<nat>>): set<nat>
  {
    set b, j | 0 <= b < |hist| && 0 <= j < |hist[b]| :: hist[b][j]
  }

  /** The empty histogram of `HISTO_LENGTH` buckets every matcher starts from. */
  function EmptyHistogram(): (h: seq<seq<nat>>)
    ensures |h| == HISTO_LENGTH && forall b :: 0 <= b < |h| ==> h[b] == []
  {
    seq(HISTO_LENGTH, _ => [])
  }

  /** An empty histogram records nothing. */
  lemma EmptyRecords<T>(h: seq<seq<nat>>, s: seq<T>, none: T)
    requires forall b :: 0 <= b < |h| ==> h[b] == []
    ensures Recorded(h) == {} && EntriesDistinct(h) && RecordsAssigned(h, s, none)
    ensures forall n :: InRange(h, n)
  {
  }

  /** Recording an index below `n` keeps every record below `n`. */
  lemma RecordInRange(hist: seq<seq<nat>>, bin: int, x: nat, n: int)
    requires 0 <= bin < |hist| && InRange(hist, n) && x < n
    ensures InRange(Record(hist, bin, x), n)
    ensures Recorded(Record(hist, bin, x)) == Recorded(hist) + {x}
  {
    var h := Record(hist, bin, x);
    assert h[bin][|hist[bin]|] == x;
    forall y | y in Recorded(h)
      ensures y in Recorded(hist) + {x}
    {
      var b, j :| 0 <= b < |h| && 0 <= j < |h[b]| && h[b][j] == y;
      if b != bin || j < |hist[bin]| {
        assert hist[b][j] == y;
      }
    }
    forall y | y in Recorded(hist)
      ensures y in Recorded(h)
    {
      var b, j :| 0 <= b < |hist| && 0 <= j < |hist[b]| && hist[b][j] == y;
      assert h[b][j] == y;
    }
  }

  /** Recording a newly filled entry keeps the records distinct and occupied. */
  lemma RecordFresh<T>(hist: seq<seq<nat>>, bin: int, x: nat, s: seq<T>, none: T, v: T)
    requires 0 <= bin < |hist| && x < |s| && s[x] == none && v != none
    requires EntriesDistinct(hist) && RecordsAssigned(hist, s, none)
    ensures EntriesDistinct(Record(hist, bin, x)) && RecordsAssigned(Record(hist, bin, x), s[x := v], none)
  {
    var h := Record(hist, bin, x);
    forall b, j | 0 <= b < |h| && 0 <= j < |h[b]|
      ensures h[b][j] < |s| && s[x := v][h[b][j]] != none
      ensures h[b][j] == x ==> b == bin && j == |hist[bin]|
    {
      if b != bin || j < |hist[bin]| {
        assert h[b][j] == hist[b][j];
      }
    }
  }

  /** Filling an entry keeps the records occupied. */
  lemma AssignKeepsRecords<T>(hist: seq<seq<nat>>, s: seq<T>, x: nat, v: T, none: T)
    requires x < |s| && v != none && RecordsAssigned(hist, s, none)
    ensures RecordsAssigned(hist, s[x := v], none)
  {
  }

  /** The recorded entries are pairwise distinct (each output position is
      recorded at most once). */
  ghost predicate EntriesDistinct(hist: seq<seq<nat>>)
  {
    forall b1, j1, b2, j2 ::
      (0 <= b1 < |hist| && 0 <= j1 < |hist[b1]| && 0 <= b2 < |hist| && 0 <= j2 < |hist[b2]|
        && (b1 != b2 || j1 != j2)) ==> hist[b1][j1] != hist[b2][j2]
  }

  /** Every recorded entry marks an occupied output position. */
  ghost predicate RecordsAssigned<T>(hist: seq<seq<nat>>, s: seq<T>, none: T)
  {
    forall b, j :: 0 <= b < |hist| && 0 <= j < |hist[b]| ==> hist[b][j] < |s| && s[hist[b][j]] != none
  }

  lemma {:induction false} DiscardedFrom(hist: seq<seq<nat>>, ind1: int, ind2: int, ind3: int, m: nat, x: nat)
    requires m <= |hist| && x in Discarded(hist, ind1, ind2, ind3, m)
    ensures exists b, j :: 0 <= b < m && 0 <= j < |hist[b]| && hist[b][j] == x
  {
    if m > 0 {
      var tail := if Kept(m - 1, ind1, ind2, ind3) then [] else hist[m - 1];
      if x in Discarded(hist, ind1, ind2, ind3, m - 1) {
        DiscardedFrom(hist, ind1, ind2, ind3, m - 1, x);
      } else {
        assert x in tail;
        var j :| 0 <= j < |tail| && tail[j] == x;
        assert hist[m - 1][j] == x;
      }
    }
  }

  lemma {:induction false} DiscardedDistinct(hist: seq<seq<nat>>, ind1: int, ind2: int, ind3: int, m: nat)
    requires m <= |hist| && EntriesDistinct(hist)
    ensures Distinct(Discarded(hist, ind1, ind2, ind3, m))
  {
    if m > 0 {
      DiscardedDistinct(hist, ind1, ind2, ind3, m - 1);
      var d := Discarded(hist, ind1, ind2, ind3, m - 1);
      if !Kept(m - 1, ind1, ind2, ind3) {
        var t := hist[m - 1];
        forall i, j | 0 <= i < j < |d + t|
          ensures (d + t)[i] != (d + t)[j]
        {
          if j >= |d| && i < |d| {
            DiscardedFrom(hist, ind1, ind2, ind3, m - 1, d[i]);
            assert (d + t)[j] == hist[m - 1][j - |d|];
          } else if i >= |d| {
            assert (d + t)[i] == hist[m - 1][i - |d|];
            assert (d + t)[j] == hist[m - 1][j - |d|];
          }
        }
      }
    }
  }

  /** After the undo loop, a count that equalled the number of occupied
      entries still does: each discarded record frees exactly one entry. */
  lemma DiscardKeepsCount<T>(s: seq<T>, s': seq<T>, hist: seq<seq<nat>>, ind1: int, ind2: int, ind3: int,
                                 none: T, nmatches: int)
    requires EntriesDistinct(hist) && RecordsAssigned(hist, s, none)
    requires nmatches == |Assigned(s, none)|
    requires |s'| == |s|
    requires forall x :: 0 <= x < |s| ==>
      s'[x] == if x in Discarded(hist, ind1, ind2, ind3, |hist|) then none else s[x]
    ensures nmatches - |Discarded(hist, ind1, ind2, ind3, |hist|)| == |Assigned(s', none)|
  {
    var d := Discarded(hist, ind1, ind2, ind3, |hist|);
    var ds := set x | x in d;
    forall x | x in ds ensures x in Assigned(s, none) {
      DiscardedFrom(hist, ind1, ind2, ind3, |hist|, x);
    }
    assert Assigned(s', none) == Assigned(s, none) - ds;
    DiscardedDistinct(hist, ind1, ind2, ind3, |hist|);
    DistinctCard(d);
    assert Assigned(s, none) == Assigned(s', none) + ds;
  }
}
