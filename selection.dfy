/** The candidate-selection loops shared by all matchers. A matcher hands over,
    position by position, the candidate keypoint indices returned by the spatial
    or vocabulary query, whether the candidate is skipped (slot already taken,
    octave outside the band, ...) and its descriptor distance; the loop picks the
    winner with the source's strict comparisons. */
module Selection {

  /** Candidate at position `q` competes: it is not skipped and beats `init`. */
  ghost predicate Competes(skip: seq<bool>, dists: seq<int>, init: int, q: int)
    requires |skip| == |dists|
  {
    0 <= q < |dists| && !skip[q] && dists[q] < init
  }

  /** Position `p` holds the smallest competing distance among the positions
      below `m` other than `x`, and no earlier position ties it. */
  ghost predicate FirstMinExcept(skip: seq<bool>, dists: seq<int>, init: int, m: int, x: int, p: int)
    requires |skip| == |dists| && m <= |dists|
  {
    && 0 <= p < m && p != x && Competes(skip, dists, init, p)
    && (forall q :: 0 <= q < m && q != x && !skip[q] ==> dists[p] <= dists[q])
    && (forall q :: 0 <= q < p && q != x && !skip[q] ==> dists[p] < dists[q])
  }

  /** No position below `m` other than `x` competes. */
  ghost predicate NoneCompetes(skip: seq<bool>, dists: seq<int>, init: int, m: int, x: int)
    requires |skip| == |dists| && m <= |dists|
  {
    forall q :: 0 <= q < m && q != x && !skip[q] ==> dists[q] >= init
  }

  /** The position of the first smallest competing distance among the
      positions below `m` other than `x`; -1 when none competes. This is the
      outcome every single- and two-best loop is proved to reach. */
  ghost function FirstMin(skip: seq<bool>, dists: seq<int>, init: int, m: nat, x: int): (p: int)
    requires |skip| == |dists| && m <= |dists|
    ensures p == -1 <==> NoneCompetes(skip, dists, init, m, x)
    ensures p != -1 ==> FirstMinExcept(skip, dists, init, m, x, p)
    decreases m
  {
    if m == 0 then -1
    else
      var p := FirstMin(skip, dists, init, m - 1, x);
      if m - 1 != x && !skip[m - 1] && dists[m - 1] < (if p == -1 then init else dists[p]) then m - 1 else p
  }

  /** At most one position is the first smallest competing distance. */
  lemma FirstMinUnique(skip: seq<bool>, dists: seq<int>, init: int, m: nat, x: int, p: int, p': int)
    requires |skip| == |dists| && m <= |dists|
    requires FirstMinExcept(skip, dists, init, m, x, p) && FirstMinExcept(skip, dists, init, m, x, p')
    ensures p == p'
  {
  }

  /** The single-best pick: the candidate at the first smallest competing
      distance below `init`, taken when that distance is within `th`; -1
      otherwise. */
  ghost function PickBest(cands: seq<nat>, skip: seq<bool>, dists: seq<int>, init: int, th: int): (r: int)
    requires |cands| == |skip| == |dists|
    ensures r == -1 || exists k :: 0 <= k < |cands| && !skip[k] && cands[k] == r
  {
    var p := FirstMin(skip, dists, init, |dists|, -1);
    if p != -1 && dists[p] <= th then cands[p] else -1
  }

  /** With a threshold below the start value, the single-best pick finds a
      candidate exactly when some candidate that is not skipped lies within
      the threshold, and what it finds is the first closest of them. */
  lemma PickBestFound(cands: seq<nat>, skip: seq<bool>, dists: seq<int>, init: int, th: int)
    requires |cands| == |skip| == |dists| && th < init
    ensures PickBest(cands, skip, dists, init, th) != -1 <==>
      exists k :: 0 <= k < |dists| && !skip[k] && dists[k] <= th
    ensures PickBest(cands, skip, dists, init, th) != -1 ==>
      exists p :: FirstMinExcept(skip, dists, init, |dists|, -1, p) && dists[p] <= th
                  && PickBest(cands, skip, dists, init, th) == cands[p]
  {
    var p := FirstMin(skip, dists, init, |dists|, -1);
    if p == -1 {
      forall k | 0 <= k < |dists| && !skip[k]
        ensures dists[k] > th
      {
      }
    } else if dists[p] > th {
      forall k | 0 <= k < |dists| && !skip[k]
        ensures dists[k] > th
      {
        assert dists[p] <= dists[k];
      }
    }
  }

  /** Single best candidate (`dist < bestDist`, so the first of equal
      distances wins); `bestIdx == -1` and `bestDist == init` when nothing
      beats `init`. */
  method SelectBest(cands: seq<nat>, skip: seq<bool>, dists: seq<int>, init: int)
    returns (bestDist: int, bestIdx: int, ghost pos: int)
    requires |cands| == |skip| == |dists|
    ensures bestIdx == -1 <==> NoneCompetes(skip, dists, init, |cands|, -1)
    ensures bestIdx == -1 ==> bestDist == init && pos == -1
    ensures bestIdx != -1 ==> (
      FirstMinExcept(skip, dists, init, |cands|, -1, pos)
        && bestIdx == cands[pos] && bestDist == dists[pos])
    ensures pos == FirstMin(skip, dists, init, |cands|, -1)
  {
    bestDist, bestIdx, pos := init, -1, -1;
    for k := 0 to |cands|
      invariant pos == -1 <==> NoneCompetes(skip, dists, init, k, -1)
      invariant pos == -1 ==> bestDist == init && bestIdx == -1
      invariant pos != -1 ==> (
        FirstMinExcept(skip, dists, init, k, -1, pos)
          && bestIdx == cands[pos] && bestDist == dists[pos])
    {
      if skip[k] {
        continue;
      }
      if dists[k] < bestDist {
        bestDist, bestIdx, pos := dists[k], cands[k], k;
      }
    }
    if pos != -1 {
      FirstMinUnique(skip, dists, init, |cands|, -1, pos, FirstMin(skip, dists, init, |cands|, -1));
    }
  }

  /** Best and second-best candidate with their octaves, as in the ratio-test
      matchers: the second best is the first smallest distance among the other
      competing candidates (it may equal the best); without one, `bestDist2`
      stays `init` and `bestLevel2` stays -1. */
  method SelectBestTwo(cands: seq<nat>, skip: seq<bool>, dists: seq<int>, levels: seq<int>, init: int)
    returns (bestDist: int, bestIdx: int, bestLevel: int, bestDist2: int, bestLevel2: int,
             ghost pos: int, ghost pos2: int)
    requires |cands| == |skip| == |dists| == |levels|
    ensures bestIdx == -1 <==> NoneCompetes(skip, dists, init, |cands|, -1)
    ensures bestIdx == -1 ==> bestDist == init && bestLevel == -1 && pos == -1
    ensures bestIdx != -1 ==> (
      FirstMinExcept(skip, dists, init, |cands|, -1, pos)
        && bestIdx == cands[pos] && bestDist == dists[pos] && bestLevel == levels[pos])
    ensures pos2 == -1 <==> pos == -1 || NoneCompetes(skip, dists, init, |cands|, pos)
    ensures pos2 == -1 ==> bestDist2 == init && bestLevel2 == -1
    ensures pos2 != -1 ==> (
      pos != -1 && FirstMinExcept(skip, dists, init, |cands|, pos, pos2)
        && bestDist2 == dists[pos2] && bestLevel2 == levels[pos2])
    ensures pos == FirstMin(skip, dists, init, |cands|, -1)
    ensures pos2 == if pos == -1 then -1 else FirstMin(skip, dists, init, |cands|, pos)
  {
    bestDist, bestIdx, bestLevel, pos := init, -1, -1, -1;
    bestDist2, bestLevel2, pos2 := init, -1, -1;
    for k := 0 to |cands|
      invariant pos == -1 <==> NoneCompetes(skip, dists, init, k, -1)
      invariant pos == -1 ==> bestDist == init && bestIdx == -1 && bestLevel == -1
      invariant pos != -1 ==> (
        FirstMinExcept(skip, dists, init, k, -1, pos)
          && bestIdx == cands[pos] && bestDist == dists[pos] && bestLevel == levels[pos])
      invariant pos2 == -1 <==> pos == -1 || NoneCompetes(skip, dists, init, k, pos)
      invariant pos2 == -1 ==> bestDist2 == init && bestLevel2 == -1
      invariant pos2 != -1 ==> (
        pos != -1 && FirstMinExcept(skip, dists, init, k, pos, pos2)
          && bestDist2 == dists[pos2] && bestLevel2 == levels[pos2])
    {
      if skip[k] {
        continue;
      }
      if dists[k] < bestDist {
        bestDist2, bestLevel2, pos2 := bestDist, bestLevel, pos;
        bestDist, bestIdx, bestLevel, pos := dists[k], cands[k], levels[k], k;
      } else if dists[k] < bestDist2 {
        bestDist2, bestLevel2, pos2 := dists[k], levels[k], k;
      }
    }
    if pos != -1 {
      FirstMinUnique(skip, dists, init, |cands|, -1, pos, FirstMin(skip, dists, init, |cands|, -1));
      if pos2 != -1 {
        FirstMinUnique(skip, dists, init, |cands|, pos, pos2, FirstMin(skip, dists, init, |cands|, pos));
      }
    }
  }

  /** Position `p` holds the smallest distance within `hi` among the positions
      below `m` that pass `ok`, and no later position ties it. */
  ghost predicate LastMinAt(ok: seq<bool>, dists: seq<int>, hi: int, m: int, p: int)
    requires |ok| == |dists| && m <= |dists|
  {
    && 0 <= p < m && ok[p] && dists[p] <= hi
    && (forall q :: 0 <= q < m && ok[q] ==> dists[p] <= dists[q] || dists[q] > hi)
    && (forall q :: p < q < m && ok[q] ==> dists[p] < dists[q])
  }

  /** The position of the last smallest distance within `hi` among those
      passing `ok` below `m`; -1 when every such distance exceeds `hi`. */
  ghost function LastMin(ok: seq<bool>, dists: seq<int>, hi: int, m: nat): (p: int)
    requires |ok| == |dists| && m <= |dists|
    ensures p == -1 <==> forall q :: 0 <= q < m && ok[q] ==> dists[q] > hi
    ensures p != -1 ==> LastMinAt(ok, dists, hi, m, p)
    decreases m
  {
    if m == 0 then -1
    else
      var p := LastMin(ok, dists, hi, m - 1);
      if ok[m - 1] && dists[m - 1] <= (if p == -1 then hi else dists[p]) then m - 1 else p
  }

  /** At most one position is the last smallest distance. */
  lemma LastMinUnique(ok: seq<bool>, dists: seq<int>, hi: int, m: nat, p: int, p': int)
    requires |ok| == |dists| && m <= |dists|
    requires LastMinAt(ok, dists, hi, m, p) && LastMinAt(ok, dists, hi, m, p')
    ensures p == p'
  {
  }

  /** The epipolar search of `SearchForTriangulation`: the running best starts
      at `hi` and a candidate is taken when `dist <= bestDist`, so among equal
      distances the LAST one wins; `ok` is the outcome of the geometric tests. */
  method SelectLastMin(cands: seq<nat>, ok: seq<bool>, dists: seq<int>, hi: int)
    returns (bestDist: int, bestIdx: int, ghost pos: int)
    requires |cands| == |ok| == |dists|
    ensures bestIdx == -1 <==> forall q :: 0 <= q < |cands| && ok[q] ==> dists[q] > hi
    ensures bestIdx == -1 ==> bestDist == hi && pos == -1
    ensures bestIdx != -1 ==> (
      0 <= pos < |cands| && ok[pos] && bestIdx == cands[pos]
        && bestDist == dists[pos] <= hi
        && (forall q :: 0 <= q < |cands| && ok[q] ==> dists[pos] <= dists[q] || dists[q] > hi)
        && (forall q :: pos < q < |cands| && ok[q] ==> dists[pos] < dists[q]))
    ensures pos == LastMin(ok, dists, hi, |cands|)
  {
    bestDist, bestIdx, pos := hi, -1, -1;
    for k := 0 to |cands|
      invariant pos == -1 <==> forall q :: 0 <= q < k && ok[q] ==> dists[q] > hi
      invariant pos == -1 ==> bestDist == hi && bestIdx == -1
      invariant pos != -1 ==> (
        0 <= pos < k && ok[pos] && bestIdx == cands[pos]
          && bestDist == dists[pos] <= hi
          && (forall q :: 0 <= q < k && ok[q] ==> dists[pos] <= dists[q] || dists[q] > hi)
          && (forall q :: pos < q < k && ok[q] ==> dists[pos] < dists[q]))
    {
      if !ok[k] || dists[k] > hi || dists[k] > bestDist {
        continue;
      }
      bestDist, bestIdx, pos := dists[k], cands[k], k;
    }
    if pos != -1 {
      LastMinUnique(ok, dists, hi, |cands|, pos, LastMin(ok, dists, hi, |cands|));
    }
  }

  /** A distance within the acceptance threshold, strictly below it when
      `strict`. */
  predicate Within(d: int, th: int, strict: bool)
  {
    if strict then d < th else d <= th
  }

  /** The ratio test: a best distance is accepted against the second-best
      when it is below `nnRatio` times it, compared as reals. */
  predicate BelowRatio(bestDist: int, second: int, nnRatio: real)
  {
    (bestDist as real) < nnRatio * (second as real)
  }

  /** The ratio-test pick: the first closest candidate below the start value
      `init`, taken when it is within `th` and below `nnRatio` times the
      distance of the first closest of the other candidates (`init` without
      one); -1 otherwise. */
  ghost function PickRatio(cands: seq<nat>, skip: seq<bool>, dists: seq<int>, init: int, th: int, strict: bool,
                           nnRatio: real): (r: int)
    requires |cands| == |skip| == |dists|
    ensures r == -1 || exists k :: 0 <= k < |cands| && !skip[k] && cands[k] == r
  {
    var p := FirstMin(skip, dists, init, |dists|, -1);
    var p2 := if p == -1 then -1 else FirstMin(skip, dists, init, |dists|, p);
    var second := if p2 == -1 then init else dists[p2];
    if p != -1 && Within(dists[p], th, strict) && BelowRatio(dists[p], second, nnRatio) then cands[p] else -1
  }

  /** Position `p` wins the ratio test: it is the first closest candidate,
      within `th`, below `nnRatio` times `init` and below `nnRatio` times the
      distance of every other competing candidate. */
  ghost predicate RatioWinner(skip: seq<bool>, dists: seq<int>, init: int, th: int, strict: bool, nnRatio: real, p: int)
    requires |skip| == |dists|
  {
    && FirstMinExcept(skip, dists, init, |dists|, -1, p)
    && Within(dists[p], th, strict) && BelowRatio(dists[p], init, nnRatio)
    && forall j :: 0 <= j < |dists| && j != p && !skip[j] && dists[j] < init ==> BelowRatio(dists[p], dists[j], nnRatio)
  }

  /** A best distance below the ratio of one second-best stays below the
      ratio of any larger one. */
  lemma BelowRatioMono(d: int, a: int, b: int, nnRatio: real)
    requires 0.0 <= nnRatio && a <= b && BelowRatio(d, a, nnRatio)
    ensures BelowRatio(d, b, nnRatio)
  {
    assert nnRatio * (a as real) <= nnRatio * (b as real);
  }

  /** For a non-negative ratio, the ratio-test pick takes a candidate exactly
      when some position wins the ratio test against every competitor, and
      then it takes that candidate. */
  lemma PickRatioWinner(cands: seq<nat>, skip: seq<bool>, dists: seq<int>, init: int, th: int, strict: bool, nnRatio: real)
    requires |cands| == |skip| == |dists| && 0.0 <= nnRatio
    ensures PickRatio(cands, skip, dists, init, th, strict, nnRatio) != -1 <==>
      exists p :: RatioWinner(skip, dists, init, th, strict, nnRatio, p)
    ensures forall p :: RatioWinner(skip, dists, init, th, strict, nnRatio, p) ==>
      PickRatio(cands, skip, dists, init, th, strict, nnRatio) == cands[p]
  {
    var p := FirstMin(skip, dists, init, |dists|, -1);
    if p != -1 {
      var p2 := FirstMin(skip, dists, init, |dists|, p);
      var second := if p2 == -1 then init else dists[p2];
      if p2 != -1 {
        if BelowRatio(dists[p], second, nnRatio) {
          BelowRatioMono(dists[p], second, init, nnRatio);
          forall j | 0 <= j < |dists| && j != p && !skip[j] && dists[j] < init
            ensures BelowRatio(dists[p], dists[j], nnRatio)
          {
            BelowRatioMono(dists[p], second, dists[j], nnRatio);
          }
        }
      }
      if Within(dists[p], th, strict) && BelowRatio(dists[p], second, nnRatio) {
        assert RatioWinner(skip, dists, init, th, strict, nnRatio, p);
      }
    }
    forall q | RatioWinner(skip, dists, init, th, strict, nnRatio, q)
      ensures PickRatio(cands, skip, dists, init, th, strict, nnRatio) == cands[q]
    {
      FirstMinUnique(skip, dists, init, |dists|, -1, p, q);
    }
  }

  /** The refusal of the local-map search: the runner-up lies on the octave
      of the best and `bestDist > nnRatio * bestDist2`. */
  predicate LevelRefuses(bestDist: int, bestLevel: int, bestDist2: int, bestLevel2: int, nnRatio: real)
  {
    bestLevel == bestLevel2 && (bestDist as real) > nnRatio * (bestDist2 as real)
  }

  /** The octave-aware pick: the first closest candidate below 256, taken
      when within `th` unless the first closest of the others (octave -1 and
      distance 256 without one) refuses it by `LevelRefuses`; -1 otherwise. */
  ghost function PickLevelRatio(cands: seq<nat>, skip: seq<bool>, dists: seq<int>, levels: seq<int>, th: int,
                                nnRatio: real): (r: int)
    requires |cands| == |skip| == |dists| == |levels|
    ensures r == -1 || exists k :: 0 <= k < |cands| && !skip[k] && cands[k] == r
  {
    var q := FirstMin(skip, dists, 256, |dists|, -1);
    var q2 := if q == -1 then -1 else FirstMin(skip, dists, 256, |dists|, q);
    if q == -1 || dists[q] > th then -1
    else if LevelRefuses(dists[q], levels[q], if q2 == -1 then 256 else dists[q2],
                         if q2 == -1 then -1 else levels[q2], nnRatio) then -1
    else cands[q]
  }

  /** Positions `q` and `q2` refuse the pick: `q` is the first closest
      candidate, within `th`, and `q2`, the first closest of the others, is
      on its octave and below it by the ratio. */
  ghost predicate RunnerUpRefuses(skip: seq<bool>, dists: seq<int>, levels: seq<int>, th: int, nnRatio: real,
                                  q: int, q2: int)
    requires |skip| == |dists| == |levels|
  {
    && FirstMinExcept(skip, dists, 256, |dists|, -1, q) && dists[q] <= th
    && FirstMinExcept(skip, dists, 256, |dists|, q, q2)
    && LevelRefuses(dists[q], levels[q], dists[q2], levels[q2], nnRatio)
  }

  /** The octave-aware pick is the single-best pick within `th` or nothing,
      and with non-negative octaves it is nothing while the single-best pick
      is something exactly when a runner-up refuses it. */
  lemma PickLevelRatioRefuses(cands: seq<nat>, skip: seq<bool>, dists: seq<int>, levels: seq<int>, th: int,
                              nnRatio: real)
    requires |cands| == |skip| == |dists| == |levels|
    requires forall k :: 0 <= k < |levels| ==> levels[k] >= 0
    ensures var r := PickLevelRatio(cands, skip, dists, levels, th, nnRatio);
      r != -1 ==> r == PickBest(cands, skip, dists, 256, th)
    ensures PickLevelRatio(cands, skip, dists, levels, th, nnRatio) == -1 && PickBest(cands, skip, dists, 256, th) != -1
      <==> exists q, q2 :: RunnerUpRefuses(skip, dists, levels, th, nnRatio, q, q2)
  {
    var q := FirstMin(skip, dists, 256, |dists|, -1);
    if q != -1 && dists[q] <= th {
      var q2 := FirstMin(skip, dists, 256, |dists|, q);
      if q2 != -1 && LevelRefuses(dists[q], levels[q], dists[q2], levels[q2], nnRatio) {
        assert RunnerUpRefuses(skip, dists, levels, th, nnRatio, q, q2);
      }
    }
    forall a, b | RunnerUpRefuses(skip, dists, levels, th, nnRatio, a, b)
      ensures a == q && b == FirstMin(skip, dists, 256, |dists|, a)
    {
      FirstMinUnique(skip, dists, 256, |dists|, -1, a, q);
      FirstMinUnique(skip, dists, 256, |dists|, a, b, FirstMin(skip, dists, 256, |dists|, a));
    }
  }

  /** The ratio-test pick of the bag-of-words matchers: the best candidate
      is taken when its distance is within `th` and below `nnRatio` times the
      second-best distance (`init` without a runner-up); -1 otherwise. Octaves
      play no part, so they are not passed on to `SelectBestTwo`. */
  method RatioMatch(cands: seq<nat>, skip: seq<bool>, dists: seq<int>, init: int, th: int, strict: bool, nnRatio: real)
    returns (x: int, ghost pos: int, ghost pos2: int, ghost second: int)
    requires |cands| == |skip| == |dists|
    ensures pos == -1 <==> NoneCompetes(skip, dists, init, |cands|, -1)
    ensures pos != -1 ==> FirstMinExcept(skip, dists, init, |cands|, -1, pos)
    ensures pos2 == -1 <==> pos == -1 || NoneCompetes(skip, dists, init, |cands|, pos)
    ensures pos2 == -1 ==> second == init
    ensures pos2 != -1 ==> pos != -1 && FirstMinExcept(skip, dists, init, |cands|, pos, pos2) && second == dists[pos2]
    ensures x == if pos != -1 && Within(dists[pos], th, strict) && BelowRatio(dists[pos], second, nnRatio)
                 then cands[pos] else -1
    ensures x == PickRatio(cands, skip, dists, init, th, strict, nnRatio)
  {
    var levels := seq(|cands|, _ => 0);
    var bestDist, bestIdx, bestLevel, bestDist2, bestLevel2;
    bestDist, bestIdx, bestLevel, bestDist2, bestLevel2, pos, pos2 := SelectBestTwo(cands, skip, dists, levels, init);
    second := bestDist2;
    x := -1;
    if Within(bestDist, th, strict) && BelowRatio(bestDist, bestDist2, nnRatio) {
      x := bestIdx;
    }
  }
}
