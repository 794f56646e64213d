/** The bag-of-words matchers: only keypoints filed under the same vocabulary
    node of the two feature vectors are compared. The node pairs come from
    `MergeWalk`; each node pair is handled by its own method so that the
    bookkeeping of one walk stays small. */
module BoWMatching {
  import opened Common
  import opened Descriptors
  import opened Features
  import opened MapPoints
  import opened Matching
  import opened Selection
  import opened Rotation

  /** Keypoint `i` of the first vector and keypoint `j` of the second are filed
      under the same vocabulary node. */
  ghost predicate SameWord(fv1: FeatureVector, fv2: FeatureVector, i: nat, j: nat)
  {
    exists a, b :: 0 <= a < |fv1| && 0 <= b < |fv2| && fv1[a].node == fv2[b].node
      && i in fv1[a].indices && j in fv2[b].indices
  }

  lemma SameWordAt(fv1: FeatureVector, fv2: FeatureVector, a: nat, b: nat, i: nat, j: nat)
    requires a < |fv1| && b < |fv2| && fv1[a].node == fv2[b].node
    requires i < |fv1[a].indices| && j < |fv2[b].indices|
    ensures SameWord(fv1, fv2, fv1[a].indices[i], fv2[b].indices[j])
  {
  }

  /** No keypoint filed at position `i1` or later of entry `a`, or in a later
      entry, has its output entry set yet. */
  ghost predicate UntouchedFrom<T>(fv: FeatureVector, a: nat, i1: nat, m: seq<T>, none: T)
  {
    forall a', j :: 0 <= a' < |fv| && 0 <= j < |fv[a'].indices| && (a' > a || (a' == a && j >= i1)) ==>
      fv[a'].indices[j] < |m| && m[fv[a'].indices[j]] == none
  }

  /** Setting the entry of the keypoint at (`a`, `i1`) leaves every later
      keypoint untouched: a keypoint is filed only once. */
  lemma UntouchedWrite<T>(fv: FeatureVector, n: nat, a: nat, i1: nat, m: seq<T>, none: T, v: T)
    requires FeatureVectorValid(fv, n) && |m| == n
    requires a < |fv| && i1 < |fv[a].indices| && UntouchedFrom(fv, a, i1, m, none)
    ensures UntouchedFrom(fv, a, i1 + 1, m[fv[a].indices[i1] := v], none)
  {
  }

  /** Past the last keypoint of entry `a`, the next entries are untouched. */
  lemma UntouchedNext<T>(fv: FeatureVector, a: nat, a2: nat, m: seq<T>, none: T)
    requires a < |fv| && a < a2 && UntouchedFrom(fv, a, |fv[a].indices|, m, none)
    ensures UntouchedFrom(fv, a2, 0, m, none)
  {
  }

  // ---------------------------------------------------------------- keyframe to frame

  /** Frame keypoint `x` took the landmark of keyframe keypoint `i`: a live
      landmark, the same vocabulary node and a distance within `TH_LOW`
      between the two keypoint descriptors. */
  ghost predicate FromKeyFrame(pts: map<PointId, Landmark>, kch: Channel, kslots: seq<Option<PointId>>,
                               fch: Channel, i: int, x: nat)
  {
    && 0 <= i < |kslots| && i < |kch.descriptors| && x < |fch.descriptors|
    && kslots[i].Some? && kslots[i].value in pts && !pts[kslots[i].value].bad
    && Comparable(kch.descriptors[i], fch)
    && Distance(kch.descriptors[i], fch.descriptors[x]) <= TH_LOW
    && SameWord(kch.featVec, fch.featVec, i, x)
  }

  /** The output of the keyframe-to-frame matcher: each filled entry `x`
      names the keyframe keypoint `from[x]` whose landmark it holds. */
  ghost predicate FrameMatches(pts: map<PointId, Landmark>, kch: Channel, kslots: seq<Option<PointId>>,
                               fch: Channel, m: seq<Option<PointId>>, from: seq<int>)
  {
    && |m| == |from| == |fch.descriptors|
    && forall x :: 0 <= x < |m| ==>
         && (m[x].Some? <==> from[x] >= 0)
         && (from[x] >= 0 ==> FromKeyFrame(pts, kch, kslots, fch, from[x], x) && m[x] == kslots[from[x]])
  }

  /** Writing an admissible pair keeps the output a keyframe-to-frame match. */
  lemma FrameMatchesWrite(pts: map<PointId, Landmark>, kch: Channel, kslots: seq<Option<PointId>>,
                          fch: Channel, m: seq<Option<PointId>>, from: seq<int>, i: int, x: nat)
    requires FrameMatches(pts, kch, kslots, fch, m, from) && FromKeyFrame(pts, kch, kslots, fch, i, x)
    ensures FrameMatches(pts, kch, kslots, fch, m[x := kslots[i]], from[x := i])
  {
  }

  /** Preconditions shared by the keyframe-to-frame walk and its node step. */
  ghost predicate FrameInputs(pts: map<PointId, Landmark>, kch: Channel, kslots: seq<Option<PointId>>, fch: Channel)
  {
    && Oriented(kch) && Oriented(fch) && |kslots| == |kch.descriptors|
    && FeatureVectorValid(kch.featVec, |kch.descriptors|) && FeatureVectorValid(fch.featVec, |fch.descriptors|)
    && (forall i :: 0 <= i < |kch.descriptors| ==> Comparable(kch.descriptors[i], fch))
    && SlotsIn(kslots, pts)
  }

  /** The keyframe keypoint at position `i` of node `a` in the
      keyframe-to-frame walk, applied to state `st`: a live landmark takes
      the ratio-test pick within `TH_LOW` (see `PickRatioWinner`) among the
      frame keypoints of node `b` whose entry is still empty; with
      `checkOri` the match enters the bucket of the rotation from the
      keyframe's keypoint to the frame's. */
  ghost function FrameTurn(pts: map<PointId, Landmark>, kch: Channel, kslots: seq<Option<PointId>>, fch: Channel,
                           nnRatio: real, checkOri: bool, a: nat, b: nat, i: nat,
                           st: Pass<Option<PointId>>): (st': Pass<Option<PointId>>)
    requires FrameInputs(pts, kch, kslots, fch) && a < |kch.featVec| && b < |fch.featVec|
    requires i < |kch.featVec[a].indices| && |st.out| == fch.N() && |st.hist| == HISTO_LENGTH
    ensures |st'.out| == fch.N() && |st'.hist| == HISTO_LENGTH
  {
    var idx, cands := kch.featVec[a].indices[i], fch.featVec[b].indices;
    var pMP := kslots[idx];
    if pMP.None? || pts[pMP.value].bad then st
    else
      var x := PickRatio(cands, Filled(st.out, cands), Distances(kch.descriptors[idx], fch, cands),
                         256, TH_LOW, false, nnRatio);
      if x == -1 then st
      else
        Pass(st.out[x := pMP],
             if checkOri then Record(st.hist, RotationBin(kch.angles[idx], fch.angles[x]), x) else st.hist,
             st.n + 1)
  }

  /** The node pair (`a`, `b`) of the keyframe-to-frame walk after its first
      `i` keyframe keypoints, started from state `st0`. */
  ghost function FrameNode(pts: map<PointId, Landmark>, kch: Channel, kslots: seq<Option<PointId>>, fch: Channel,
                           nnRatio: real, checkOri: bool, a: nat, b: nat, st0: Pass<Option<PointId>>,
                           i: nat): (st: Pass<Option<PointId>>)
    requires FrameInputs(pts, kch, kslots, fch) && a < |kch.featVec| && b < |fch.featVec|
    requires i <= |kch.featVec[a].indices| && |st0.out| == fch.N() && |st0.hist| == HISTO_LENGTH
    ensures |st.out| == fch.N() && |st.hist| == HISTO_LENGTH
  {
    if i == 0 then st0
    else
      FrameTurn(pts, kch, kslots, fch, nnRatio, checkOri, a, b, i - 1,
                FrameNode(pts, kch, kslots, fch, nnRatio, checkOri, a, b, st0, i - 1))
  }

  /** The keyframe-to-frame walk after its first `k` node pairs, started
      from an empty match vector, an empty histogram and no match. */
  ghost function FrameWalk(pts: map<PointId, Landmark>, kch: Channel, kslots: seq<Option<PointId>>, fch: Channel,
                           nnRatio: real, checkOri: bool, pairs: seq<(nat, nat)>, k: nat): (st: Pass<Option<PointId>>)
    requires FrameInputs(pts, kch, kslots, fch) && NodePairs(kch.featVec, fch.featVec, pairs) && k <= |pairs|
    ensures |st.out| == fch.N() && |st.hist| == HISTO_LENGTH
  {
    if k == 0 then Pass(seq(fch.N(), _ => None), EmptyHistogram(), 0)
    else
      FrameNode(pts, kch, kslots, fch, nnRatio, checkOri, pairs[k - 1].0, pairs[k - 1].1,
                FrameWalk(pts, kch, kslots, fch, nnRatio, checkOri, pairs, k - 1),
                |kch.featVec[pairs[k - 1].0].indices|)
  }

  /** One node pair of the keyframe-to-frame walk: every live landmark of the
      keyframe keypoints of node `a` goes to the ratio-test winner among the
      still unmatched frame keypoints of node `b`; the new state is
      `FrameNode` of the old one. */
  method MatchNodeKeyFrameToFrame(pts: map<PointId, Landmark>, kch: Channel, kslots: seq<Option<PointId>>,
                                  fch: Channel, a: nat, b: nat, nnRatio: real, checkOri: bool,
                                  m: seq<Option<PointId>>, ghost from: seq<int>, hist: seq<seq<nat>>, n: int)
    returns (m': seq<Option<PointId>>, ghost from': seq<int>, hist': seq<seq<nat>>, n': int)
    requires FrameInputs(pts, kch, kslots, fch)
    requires a < |kch.featVec| && b < |fch.featVec| && kch.featVec[a].node == fch.featVec[b].node
    requires FrameMatches(pts, kch, kslots, fch, m, from) && n == |Assigned(m, None)|
    requires |hist| == HISTO_LENGTH && InRange(hist, |m|) && EntriesDistinct(hist) && RecordsAssigned(hist, m, None)
    ensures FrameMatches(pts, kch, kslots, fch, m', from') && n' == |Assigned(m', None)|
    ensures |hist'| == HISTO_LENGTH && InRange(hist', |m'|) && EntriesDistinct(hist') && RecordsAssigned(hist', m', None)
    ensures Pass(m', hist', n') ==
      FrameNode(pts, kch, kslots, fch, nnRatio, checkOri, a, b, Pass(m, hist, n), |kch.featVec[a].indices|)
  {
    m', from', hist', n' := m, from, hist, n;
    for i := 0 to |kch.featVec[a].indices|
      invariant FrameMatches(pts, kch, kslots, fch, m', from') && n' == |Assigned(m', None)|
      invariant |hist'| == HISTO_LENGTH && InRange(hist', |m'|) && EntriesDistinct(hist') && RecordsAssigned(hist', m', None)
      invariant Pass(m', hist', n') == FrameNode(pts, kch, kslots, fch, nnRatio, checkOri, a, b, Pass(m, hist, n), i)
    {
      m', from', hist', n' := FrameQuery(pts, kch, kslots, fch, nnRatio, checkOri, a, b, i, m', from', hist', n');
    }
  }

  /** One keyframe keypoint of `MatchNodeKeyFrameToFrame`: the new state is
      `FrameTurn` of the old one, and the invariants carry over. */
  method FrameQuery(pts: map<PointId, Landmark>, kch: Channel, kslots: seq<Option<PointId>>, fch: Channel,
                    nnRatio: real, checkOri: bool, a: nat, b: nat, i: nat,
                    m: seq<Option<PointId>>, ghost from: seq<int>, hist: seq<seq<nat>>, n: int)
    returns (m': seq<Option<PointId>>, ghost from': seq<int>, hist': seq<seq<nat>>, n': int)
    requires FrameInputs(pts, kch, kslots, fch)
    requires a < |kch.featVec| && b < |fch.featVec| && kch.featVec[a].node == fch.featVec[b].node
    requires i < |kch.featVec[a].indices|
    requires FrameMatches(pts, kch, kslots, fch, m, from) && n == |Assigned(m, None)|
    requires |hist| == HISTO_LENGTH && InRange(hist, |m|) && EntriesDistinct(hist) && RecordsAssigned(hist, m, None)
    ensures FrameMatches(pts, kch, kslots, fch, m', from') && n' == |Assigned(m', None)|
    ensures |hist'| == HISTO_LENGTH && InRange(hist', |m'|) && EntriesDistinct(hist') && RecordsAssigned(hist', m', None)
    ensures Pass(m', hist', n') == FrameTurn(pts, kch, kslots, fch, nnRatio, checkOri, a, b, i, Pass(m, hist, n))
  {
    m', from', hist', n' := m, from, hist, n;
    var realIdxKF, idxF := kch.featVec[a].indices[i], fch.featVec[b].indices;
    var pMP := kslots[realIdxKF];
    if pMP.None? || pts[pMP.value].bad {
      return;
    }
    var skip := Filled(m, idxF);
    var dists := Distances(kch.descriptors[realIdxKF], fch, idxF);
    var x, pos, pos2, second := RatioMatch(idxF, skip, dists, 256, TH_LOW, false, nnRatio);
    if x != -1 {
      SameWordAt(kch.featVec, fch.featVec, a, b, i, pos);
      AssignedUpdate(m, x, pMP, None);
      if checkOri {
        var bin := RotationBin(kch.angles[realIdxKF], fch.angles[x]);
        RecordInRange(hist, bin, x, |m|);
        RecordFresh(hist, bin, x, m, None, pMP);
        hist' := Record(hist, bin, x);
      } else {
        AssignKeepsRecords(hist, m, x, pMP, None);
      }
      assert FromKeyFrame(pts, kch, kslots, fch, realIdxKF, x);
      FrameMatchesWrite(pts, kch, kslots, fch, m, from, realIdxKF, x);
      m' := m[x := pMP];
      from' := from[x := realIdxKF];
      n' := n + 1;
    }
  }


  /** Relocalisation and tracking against the reference keyframe: the frame's
      match vector starts empty; each live landmark of the keyframe goes to
      the frame keypoint of the same vocabulary node that passes the ratio
      test with distance at most `TH_LOW`, among those not matched yet. `mid`,
      the match vector before the rotation filter, is the outcome of
      `FrameWalk` over the node pairs `walk`; with `checkOri` the filter then
      undoes the matches outside the three dominant rotations `ind1`..`ind3`.
      The count is the number of filled entries. */
  method SearchByBoWKeyFrameToFrame(pts: map<PointId, Landmark>, kch: Channel, kslots: seq<Option<PointId>>,
                                    fch: Channel, nnRatio: real, checkOri: bool)
    returns (matches: seq<Option<PointId>>, n: int, ghost mid: seq<Option<PointId>>, ghost from: seq<int>,
             ghost dropped: seq<nat>, ghost walk: seq<(nat, nat)>, ghost ind1: int, ghost ind2: int, ghost ind3: int)
    requires FrameInputs(pts, kch, kslots, fch)
    ensures |matches| == fch.N()
    ensures FrameMatches(pts, kch, kslots, fch, mid, from)
    ensures forall x :: 0 <= x < |mid| ==> matches[x] == if x in dropped then None else mid[x]
    ensures !checkOri ==> dropped == []
    ensures n == |Assigned(matches, None)|
    ensures NodePairs(kch.featVec, fch.featVec, walk)
    ensures var R := FrameWalk(pts, kch, kslots, fch, nnRatio, checkOri, walk, |walk|);
      && mid == R.out && n == R.n - |dropped|
      && (checkOri ==> ThreeMaxima(R.hist, ind1, ind2, ind3) && dropped == Discarded(R.hist, ind1, ind2, ind3, HISTO_LENGTH))
  {
    var m, hist;
    m, from, hist, n, walk := WalkFrame(pts, kch, kslots, fch, nnRatio, checkOri);
    mid := m;
    if checkOri {
      matches, n, dropped, ind1, ind2, ind3 := RotationConsistency(m, hist, None, n);
    } else {
      matches, dropped, ind1, ind2, ind3 := m, [], -1, -1, -1;
    }
  }

  /** The node-pair walk of `SearchByBoWKeyFrameToFrame`, before the rotation
      filter: its outcome is `FrameWalk` over the node pairs `walk`. */
  method WalkFrame(pts: map<PointId, Landmark>, kch: Channel, kslots: seq<Option<PointId>>,
                   fch: Channel, nnRatio: real, checkOri: bool)
    returns (m: seq<Option<PointId>>, ghost from: seq<int>, hist: seq<seq<nat>>, n: int, ghost walk: seq<(nat, nat)>)
    requires FrameInputs(pts, kch, kslots, fch)
    ensures FrameMatches(pts, kch, kslots, fch, m, from) && n == |Assigned(m, None)|
    ensures InRange(hist, |m|) && EntriesDistinct(hist) && RecordsAssigned(hist, m, None)
    ensures NodePairs(kch.featVec, fch.featVec, walk)
    ensures var R := FrameWalk(pts, kch, kslots, fch, nnRatio, checkOri, walk, |walk|);
      m == R.out && hist == R.hist && n == R.n
  {
    var pairs := MergeWalk(kch.featVec, fch.featVec);
    walk := pairs;
    m := seq(fch.N(), _ => None);
    from := seq(fch.N(), _ => -1);
    hist := EmptyHistogram();
    EmptyRecords(hist, m, None);
    AssignedNone<Option<PointId>>(fch.N(), None);
    n := 0;
    for k := 0 to |pairs|
      invariant FrameMatches(pts, kch, kslots, fch, m, from) && n == |Assigned(m, None)|
      invariant |hist| == HISTO_LENGTH && InRange(hist, |m|) && EntriesDistinct(hist) && RecordsAssigned(hist, m, None)
      invariant Pass(m, hist, n) == FrameWalk(pts, kch, kslots, fch, nnRatio, checkOri, pairs, k)
    {
      m, from, hist, n := MatchNodeKeyFrameToFrame(pts, kch, kslots, fch, pairs[k].0, pairs[k].1, nnRatio,
                                                  checkOri, m, from, hist, n);
    }
  }

  // ---------------------------------------------------------------- keyframe to keyframe

  /** Keypoint `x` of the first keyframe took the landmark of keypoint `j` of
      the second: both slots hold live landmarks, the two keypoints share a
      vocabulary node and their descriptors are closer than `TH_LOW`. */
  ghost predicate FromPair(pts: map<PointId, Landmark>, ch1: Channel, slots1: seq<Option<PointId>>,
                           ch2: Channel, slots2: seq<Option<PointId>>, x: nat, j: int)
  {
    && x < |slots1| && x < |ch1.descriptors| && 0 <= j < |slots2| && j < |ch2.descriptors|
    && slots1[x].Some? && slots1[x].value in pts && !pts[slots1[x].value].bad
    && slots2[j].Some? && slots2[j].value in pts && !pts[slots2[j].value].bad
    && Comparable(ch1.descriptors[x], ch2)
    && Distance(ch1.descriptors[x], ch2.descriptors[j]) < TH_LOW
    && SameWord(ch1.featVec, ch2.featVec, x, j)
  }

  /** The output of the keyframe-to-keyframe matcher: each filled entry `x`
      names the keypoint `from[x]` of the second keyframe whose landmark it
      holds, and no keypoint of the second keyframe is named twice. */
  ghost predicate PairMatches(pts: map<PointId, Landmark>, ch1: Channel, slots1: seq<Option<PointId>>,
                              ch2: Channel, slots2: seq<Option<PointId>>, m: seq<Option<PointId>>, from: seq<int>)
  {
    && |m| == |from| == |slots1|
    && (forall x :: 0 <= x < |m| ==>
          && (m[x].Some? <==> from[x] >= 0)
          && (from[x] >= 0 ==> FromPair(pts, ch1, slots1, ch2, slots2, x, from[x]) && m[x] == slots2[from[x]]))
    && (forall x, y :: 0 <= x < y < |m| && from[x] >= 0 ==> from[x] != from[y])
  }

  /** `vbMatched2` flags exactly the keypoints of the second keyframe some
      entry names. */
  ghost predicate Flags(from: seq<int>, matched2: seq<bool>)
  {
    forall j :: 0 <= j < |matched2| ==> (matched2[j] <==> j in from)
  }

  /** Preconditions shared by the keyframe-to-keyframe walk and its node step. */
  ghost predicate PairInputs(pts: map<PointId, Landmark>, ch1: Channel, slots1: seq<Option<PointId>>,
                             ch2: Channel, slots2: seq<Option<PointId>>)
  {
    && Oriented(ch1) && Oriented(ch2) && |slots1| == |ch1.descriptors| && |slots2| == |ch2.descriptors|
    && FeatureVectorValid(ch1.featVec, |ch1.descriptors|) && FeatureVectorValid(ch2.featVec, |ch2.descriptors|)
    && (forall i :: 0 <= i < |ch1.descriptors| ==> Comparable(ch1.descriptors[i], ch2))
    && SlotsIn(slots1, pts) && SlotsIn(slots2, pts)
  }

  /** The candidates of the second keyframe that are ruled out: already
      matched, empty slot or bad landmark. */
  function Taken(pts: map<PointId, Landmark>, slots2: seq<Option<PointId>>, matched2: seq<bool>,
                 cands: seq<nat>): (r: seq<bool>)
    requires SlotsIn(slots2, pts) && |matched2| == |slots2|
    requires forall k :: 0 <= k < |cands| ==> cands[k] < |slots2|
    ensures |r| == |cands|
    ensures forall k :: 0 <= k < |cands| ==>
      (r[k] <==> matched2[cands[k]] || slots2[cands[k]].None? || pts[slots2[cands[k]].value].bad)
  {
    seq(|cands|, k requires 0 <= k < |cands| =>
      matched2[cands[k]] || slots2[cands[k]].None? || pts[slots2[cands[k]].value].bad)
  }

  /** A newly recorded pair keeps `PairMatches`: `x` was empty and `j` was not
      yet named. */
  lemma PairMatchesStep(pts: map<PointId, Landmark>, ch1: Channel, slots1: seq<Option<PointId>>,
                        ch2: Channel, slots2: seq<Option<PointId>>, m: seq<Option<PointId>>,
                        from: seq<int>, matched2: seq<bool>, x: nat, j: nat)
    requires PairMatches(pts, ch1, slots1, ch2, slots2, m, from) && Flags(from, matched2)
    requires x < |m| && m[x].None? && j < |matched2| && !matched2[j]
    requires FromPair(pts, ch1, slots1, ch2, slots2, x, j)
    ensures PairMatches(pts, ch1, slots1, ch2, slots2, m[x := slots2[j]], from[x := j])
    ensures Flags(from[x := j], matched2[j := true])
  {
    var from' := from[x := j];
    forall j' | 0 <= j' < |matched2|
      ensures matched2[j := true][j'] <==> j' in from'
    {
      if j' == j {
        assert from'[x] == j;
      } else {
        if j' in from' {
          var y :| 0 <= y < |from'| && from'[y] == j';
          assert y != x && from[y] == j';
        }
        if j' in from {
          var y :| 0 <= y < |from| && from[y] == j';
          assert from'[y] == j';
        }
      }
    }
  }

  /** What the keyframe-to-keyframe walk carries from one keypoint to the
      next: the match vector, the `vbMatched2` flags, the rotation histogram
      and the match count. */
  datatype PairPass = PairPass(out: seq<Option<PointId>>, matched2: seq<bool>, hist: seq<seq<nat>>, n: int)

  /** A state of the keyframe-to-keyframe walk over these slot vectors. */
  ghost predicate PairShaped(st: PairPass, slots1: seq<Option<PointId>>, slots2: seq<Option<PointId>>)
  {
    |st.out| == |slots1| && |st.matched2| == |slots2| && |st.hist| == HISTO_LENGTH
  }

  /** The keypoint at position `i` of node `a` of the first keyframe,
      applied to state `st`: a live landmark takes the landmark of the
      ratio-test pick strictly below `TH_LOW` (see `PickRatioWinner`) among
      the keypoints of node `b` of the second keyframe that are not flagged
      and hold a live landmark; the pick is then flagged, and with
      `checkOri` the match enters the bucket of its rotation. */
  ghost function PairTurn(pts: map<PointId, Landmark>, ch1: Channel, slots1: seq<Option<PointId>>, ch2: Channel,
                          slots2: seq<Option<PointId>>, nnRatio: real, checkOri: bool, a: nat, b: nat, i: nat,
                          st: PairPass): (st': PairPass)
    requires PairInputs(pts, ch1, slots1, ch2, slots2) && a < |ch1.featVec| && b < |ch2.featVec|
    requires i < |ch1.featVec[a].indices| && PairShaped(st, slots1, slots2)
    ensures PairShaped(st', slots1, slots2)
  {
    var idx1, cands := ch1.featVec[a].indices[i], ch2.featVec[b].indices;
    var pMP1 := slots1[idx1];
    if pMP1.None? || pts[pMP1.value].bad then st
    else
      var j := PickRatio(cands, Taken(pts, slots2, st.matched2, cands), Distances(ch1.descriptors[idx1], ch2, cands),
                         256, TH_LOW, true, nnRatio);
      if j == -1 then st
      else
        PairPass(st.out[idx1 := slots2[j]], st.matched2[j := true],
                 if checkOri then Record(st.hist, RotationBin(ch1.angles[idx1], ch2.angles[j]), idx1) else st.hist,
                 st.n + 1)
  }

  /** The node pair (`a`, `b`) of the keyframe-to-keyframe walk after its
      first `i` keypoints, started from state `st0`. */
  ghost function PairNode(pts: map<PointId, Landmark>, ch1: Channel, slots1: seq<Option<PointId>>, ch2: Channel,
                          slots2: seq<Option<PointId>>, nnRatio: real, checkOri: bool, a: nat, b: nat,
                          st0: PairPass, i: nat): (st: PairPass)
    requires PairInputs(pts, ch1, slots1, ch2, slots2) && a < |ch1.featVec| && b < |ch2.featVec|
    requires i <= |ch1.featVec[a].indices| && PairShaped(st0, slots1, slots2)
    ensures PairShaped(st, slots1, slots2)
  {
    if i == 0 then st0
    else
      PairTurn(pts, ch1, slots1, ch2, slots2, nnRatio, checkOri, a, b, i - 1,
               PairNode(pts, ch1, slots1, ch2, slots2, nnRatio, checkOri, a, b, st0, i - 1))
  }

  /** The keyframe-to-keyframe walk after its first `k` node pairs, started
      from an empty match vector, no flag, an empty histogram and no
      match. */
  ghost function PairWalk(pts: map<PointId, Landmark>, ch1: Channel, slots1: seq<Option<PointId>>, ch2: Channel,
                          slots2: seq<Option<PointId>>, nnRatio: real, checkOri: bool, pairs: seq<(nat, nat)>,
                          k: nat): (st: PairPass)
    requires PairInputs(pts, ch1, slots1, ch2, slots2) && NodePairs(ch1.featVec, ch2.featVec, pairs) && k <= |pairs|
    ensures PairShaped(st, slots1, slots2)
  {
    if k == 0 then PairPass(seq(|slots1|, _ => None), seq(|slots2|, _ => false), EmptyHistogram(), 0)
    else
      PairNode(pts, ch1, slots1, ch2, slots2, nnRatio, checkOri, pairs[k - 1].0, pairs[k - 1].1,
               PairWalk(pts, ch1, slots1, ch2, slots2, nnRatio, checkOri, pairs, k - 1),
               |ch1.featVec[pairs[k - 1].0].indices|)
  }

  /** One node pair of the keyframe-to-keyframe walk: each live landmark of
      the first keyframe's keypoints of node `a` takes the landmark of the
      ratio-test winner among the free keypoints of node `b`; the new state is
      `PairNode` of the old one. */
  method MatchNodeKeyFrames(pts: map<PointId, Landmark>, ch1: Channel, slots1: seq<Option<PointId>>,
                            ch2: Channel, slots2: seq<Option<PointId>>, a: nat, b: nat, nnRatio: real,
                            checkOri: bool, m: seq<Option<PointId>>, ghost from: seq<int>, matched2: seq<bool>,
                            hist: seq<seq<nat>>, n: int)
    returns (m': seq<Option<PointId>>, ghost from': seq<int>, matched2': seq<bool>, hist': seq<seq<nat>>, n': int)
    requires PairInputs(pts, ch1, slots1, ch2, slots2)
    requires a < |ch1.featVec| && b < |ch2.featVec| && ch1.featVec[a].node == ch2.featVec[b].node
    requires PairMatches(pts, ch1, slots1, ch2, slots2, m, from) && Flags(from, matched2) && |matched2| == |slots2| && n == |Assigned(m, None)|
    requires UntouchedFrom(ch1.featVec, a, 0, m, None)
    requires |hist| == HISTO_LENGTH && InRange(hist, |m|) && EntriesDistinct(hist) && RecordsAssigned(hist, m, None)
    ensures PairMatches(pts, ch1, slots1, ch2, slots2, m', from') && Flags(from', matched2') && |matched2'| == |slots2| && n' == |Assigned(m', None)|
    ensures UntouchedFrom(ch1.featVec, a, |ch1.featVec[a].indices|, m', None)
    ensures |hist'| == HISTO_LENGTH && InRange(hist', |m'|) && EntriesDistinct(hist') && RecordsAssigned(hist', m', None)
    ensures PairPass(m', matched2', hist', n') ==
      PairNode(pts, ch1, slots1, ch2, slots2, nnRatio, checkOri, a, b, PairPass(m, matched2, hist, n),
               |ch1.featVec[a].indices|)
  {
    m', from', matched2', hist', n' := m, from, matched2, hist, n;
    for i1 := 0 to |ch1.featVec[a].indices|
      invariant PairMatches(pts, ch1, slots1, ch2, slots2, m', from') && Flags(from', matched2') && |matched2'| == |slots2| && n' == |Assigned(m', None)|
      invariant UntouchedFrom(ch1.featVec, a, i1, m', None)
      invariant |hist'| == HISTO_LENGTH && InRange(hist', |m'|) && EntriesDistinct(hist') && RecordsAssigned(hist', m', None)
      invariant PairPass(m', matched2', hist', n') ==
        PairNode(pts, ch1, slots1, ch2, slots2, nnRatio, checkOri, a, b, PairPass(m, matched2, hist, n), i1)
    {
      m', from', matched2', hist', n' :=
        PairQuery(pts, ch1, slots1, ch2, slots2, nnRatio, checkOri, a, b, i1, m', from', matched2', hist', n');
    }
  }

  /** One keypoint of `MatchNodeKeyFrames`: the new state is `PairTurn` of
      the old one, and the invariants carry over. */
  method PairQuery(pts: map<PointId, Landmark>, ch1: Channel, slots1: seq<Option<PointId>>, ch2: Channel,
                   slots2: seq<Option<PointId>>, nnRatio: real, checkOri: bool, a: nat, b: nat, i1: nat,
                   m: seq<Option<PointId>>, ghost from: seq<int>, matched2: seq<bool>, hist: seq<seq<nat>>, n: int)
    returns (m': seq<Option<PointId>>, ghost from': seq<int>, matched2': seq<bool>, hist': seq<seq<nat>>, n': int)
    requires PairInputs(pts, ch1, slots1, ch2, slots2)
    requires a < |ch1.featVec| && b < |ch2.featVec| && ch1.featVec[a].node == ch2.featVec[b].node
    requires i1 < |ch1.featVec[a].indices|
    requires PairMatches(pts, ch1, slots1, ch2, slots2, m, from) && Flags(from, matched2) && |matched2| == |slots2| && n == |Assigned(m, None)|
    requires UntouchedFrom(ch1.featVec, a, i1, m, None)
    requires |hist| == HISTO_LENGTH && InRange(hist, |m|) && EntriesDistinct(hist) && RecordsAssigned(hist, m, None)
    ensures PairMatches(pts, ch1, slots1, ch2, slots2, m', from') && Flags(from', matched2') && |matched2'| == |slots2| && n' == |Assigned(m', None)|
    ensures UntouchedFrom(ch1.featVec, a, i1 + 1, m', None)
    ensures |hist'| == HISTO_LENGTH && InRange(hist', |m'|) && EntriesDistinct(hist') && RecordsAssigned(hist', m', None)
    ensures PairPass(m', matched2', hist', n') ==
      PairTurn(pts, ch1, slots1, ch2, slots2, nnRatio, checkOri, a, b, i1, PairPass(m, matched2, hist, n))
  {
    m', from', matched2', hist', n' := m, from, matched2, hist, n;
    var idx1, idx2s := ch1.featVec[a].indices[i1], ch2.featVec[b].indices;
    var pMP1 := slots1[idx1];
    if pMP1.None? || pts[pMP1.value].bad {
      return;
    }
    var skip := Taken(pts, slots2, matched2, idx2s);
    var dists := Distances(ch1.descriptors[idx1], ch2, idx2s);
    var idx2, pos, pos2, second := RatioMatch(idx2s, skip, dists, 256, TH_LOW, true, nnRatio);
    if idx2 != -1 {
      SameWordAt(ch1.featVec, ch2.featVec, a, b, i1, pos);
      PairMatchesStep(pts, ch1, slots1, ch2, slots2, m, from, matched2, idx1, idx2);
      UntouchedWrite(ch1.featVec, |ch1.descriptors|, a, i1, m, None, slots2[idx2]);
      AssignedUpdate(m, idx1, slots2[idx2], None);
      if checkOri {
        var bin := RotationBin(ch1.angles[idx1], ch2.angles[idx2]);
        RecordInRange(hist, bin, idx1, |m|);
        RecordFresh(hist, bin, idx1, m, None, slots2[idx2]);
        hist' := Record(hist, bin, idx1);
      } else {
        AssignKeepsRecords(hist, m, idx1, slots2[idx2], None);
      }
      m' := m[idx1 := slots2[idx2]];
      from' := from[idx1 := idx2];
      matched2' := matched2[idx2 := true];
      n' := n + 1;
    }
  }

  /** Loop closing: the match vector of the first keyframe starts empty; each
      live landmark of the first keyframe takes the landmark of the keypoint
      of the second keyframe, in the same vocabulary node, that passes the
      ratio test with distance below `TH_LOW`; each keypoint of the second
      keyframe is given out at most once. `mid`, the match vector before the
      rotation filter, is the outcome of `PairWalk` over the node pairs
      `walk`; with `checkOri` the filter then undoes the matches outside the
      three dominant rotations `ind1`..`ind3`. The count is the number of
      filled entries. */
  method SearchByBoWKeyFrames(pts: map<PointId, Landmark>, ch1: Channel, slots1: seq<Option<PointId>>,
                              ch2: Channel, slots2: seq<Option<PointId>>, nnRatio: real, checkOri: bool)
    returns (matches12: seq<Option<PointId>>, n: int, ghost mid: seq<Option<PointId>>, ghost from: seq<int>,
             ghost dropped: seq<nat>, ghost walk: seq<(nat, nat)>, ghost ind1: int, ghost ind2: int, ghost ind3: int)
    requires PairInputs(pts, ch1, slots1, ch2, slots2)
    ensures |matches12| == |slots1|
    ensures PairMatches(pts, ch1, slots1, ch2, slots2, mid, from)
    ensures forall x :: 0 <= x < |mid| ==> matches12[x] == if x in dropped then None else mid[x]
    ensures !checkOri ==> dropped == []
    ensures n == |Assigned(matches12, None)|
    ensures NodePairs(ch1.featVec, ch2.featVec, walk)
    ensures var R := PairWalk(pts, ch1, slots1, ch2, slots2, nnRatio, checkOri, walk, |walk|);
      && mid == R.out && n == R.n - |dropped|
      && (checkOri ==> ThreeMaxima(R.hist, ind1, ind2, ind3) && dropped == Discarded(R.hist, ind1, ind2, ind3, HISTO_LENGTH))
  {
    var m, hist;
    m, from, hist, n, walk := WalkKeyFrames(pts, ch1, slots1, ch2, slots2, nnRatio, checkOri);
    mid := m;
    if checkOri {
      matches12, n, dropped, ind1, ind2, ind3 := RotationConsistency(m, hist, None, n);
    } else {
      matches12, dropped, ind1, ind2, ind3 := m, [], -1, -1, -1;
    }
  }

  /** The node-pair walk of `SearchByBoWKeyFrames`, before the rotation
      filter: its outcome is `PairWalk` over the node pairs `walk`. */
  method WalkKeyFrames(pts: map<PointId, Landmark>, ch1: Channel, slots1: seq<Option<PointId>>,
                       ch2: Channel, slots2: seq<Option<PointId>>, nnRatio: real, checkOri: bool)
    returns (m: seq<Option<PointId>>, ghost from: seq<int>, hist: seq<seq<nat>>, n: int, ghost walk: seq<(nat, nat)>)
    requires PairInputs(pts, ch1, slots1, ch2, slots2)
    ensures PairMatches(pts, ch1, slots1, ch2, slots2, m, from) && n == |Assigned(m, None)|
    ensures InRange(hist, |m|) && EntriesDistinct(hist) && RecordsAssigned(hist, m, None)
    ensures NodePairs(ch1.featVec, ch2.featVec, walk)
    ensures var R := PairWalk(pts, ch1, slots1, ch2, slots2, nnRatio, checkOri, walk, |walk|);
      m == R.out && hist == R.hist && n == R.n
  {
    var pairs := MergeWalk(ch1.featVec, ch2.featVec);
    walk := pairs;
    m := seq(|slots1|, _ => None);
    from := seq(|slots1|, _ => -1);
    var matched2 := seq(|slots2|, _ => false);
    hist := EmptyHistogram();
    EmptyRecords(hist, m, None);
    AssignedNone<Option<PointId>>(|slots1|, None);
    n := 0;
    for k := 0 to |pairs|
      invariant PairMatches(pts, ch1, slots1, ch2, slots2, m, from) && Flags(from, matched2) && |matched2| == |slots2| && n == |Assigned(m, None)|
      invariant k < |pairs| ==> UntouchedFrom(ch1.featVec, pairs[k].0, 0, m, None)
      invariant |hist| == HISTO_LENGTH && InRange(hist, |m|) && EntriesDistinct(hist) && RecordsAssigned(hist, m, None)
      invariant PairPass(m, matched2, hist, n) == PairWalk(pts, ch1, slots1, ch2, slots2, nnRatio, checkOri, pairs, k)
    {
      m, from, matched2, hist, n := MatchNodeKeyFrames(pts, ch1, slots1, ch2, slots2, pairs[k].0, pairs[k].1,
                                                      nnRatio, checkOri, m, from, matched2, hist, n);
      if k + 1 < |pairs| {
        UntouchedNext(ch1.featVec, pairs[k].0, pairs[k + 1].0, m, None);
      }
    }
  }

  // ---------------------------------------------------------------- triangulation

  /** Keypoint `i` of the first keyframe may be paired with keypoint `j` of
      the second: neither has a landmark, both are stereo when only stereo
      pairs are wanted, the pair passes the geometric tests, the descriptors
      are within `TH_LOW` and the keypoints share a vocabulary node. */
  ghost predicate TriangulationPair(ch1: Channel, slots1: seq<Option<PointId>>, ch2: Channel,
                                    slots2: seq<Option<PointId>>, geo: seq<seq<bool>>, onlyStereo: bool,
                                    i: int, j: int)
  {
    && 0 <= i < |slots1| && i < |ch1.descriptors| && i < |ch1.uRight| && i < |geo|
    && 0 <= j < |slots2| && j < |ch2.descriptors| && j < |ch2.uRight| && j < |geo[i]|
    && slots1[i].None? && slots2[j].None?
    && (onlyStereo ==> ch1.uRight[i] >= 0.0 && ch2.uRight[j] >= 0.0)
    && geo[i][j]
    && Comparable(ch1.descriptors[i], ch2)
    && Distance(ch1.descriptors[i], ch2.descriptors[j]) <= TH_LOW
    && SameWord(ch1.featVec, ch2.featVec, i, j)
  }

  /** `vMatches12`: -1 or the partner of each keypoint of the first keyframe. */
  ghost predicate TriangulationMatches(ch1: Channel, slots1: seq<Option<PointId>>, ch2: Channel,
                                       slots2: seq<Option<PointId>>, geo: seq<seq<bool>>, onlyStereo: bool,
                                       m12: seq<int>)
  {
    && |m12| == |slots1|
    && forall i :: 0 <= i < |m12| ==>
         m12[i] >= -1 && (m12[i] >= 0 ==> TriangulationPair(ch1, slots1, ch2, slots2, geo, onlyStereo, i, m12[i]))
  }

  /** Preconditions shared by the triangulation walk and its node step;
      `geo[i][j]` is the outcome of the epipole-distance test (applied when
      both keypoints are monocular) and of the epipolar-line test. */
  ghost predicate TriangulationInputs(ch1: Channel, slots1: seq<Option<PointId>>, ch2: Channel,
                                      slots2: seq<Option<PointId>>, geo: seq<seq<bool>>)
  {
    && Oriented(ch1) && Oriented(ch2)
    && |slots1| == |ch1.descriptors| == |ch1.uRight| == |geo|
    && |slots2| == |ch2.descriptors| == |ch2.uRight|
    && (forall i :: 0 <= i < |geo| ==> |geo[i]| == |slots2|)
    && FeatureVectorValid(ch1.featVec, |ch1.descriptors|) && FeatureVectorValid(ch2.featVec, |ch2.descriptors|)
    && (forall i :: 0 <= i < |ch1.descriptors| ==> Comparable(ch1.descriptors[i], ch2))
  }

  /** The candidates of node `b` that pass the slot, stereo and geometric
      tests for keypoint `idx1`. */
  function Admissible(ch2: Channel, slots2: seq<Option<PointId>>, row: seq<bool>, onlyStereo: bool,
                      cands: seq<nat>): (r: seq<bool>)
    requires |slots2| == |ch2.uRight| == |row| && forall k :: 0 <= k < |cands| ==> cands[k] < |slots2|
    ensures |r| == |cands|
    ensures forall k :: 0 <= k < |cands| ==>
      (r[k] <==> slots2[cands[k]].None? && (onlyStereo ==> ch2.uRight[cands[k]] >= 0.0) && row[cands[k]])
  {
    seq(|cands|, k requires 0 <= k < |cands| =>
      slots2[cands[k]].None? && (onlyStereo ==> ch2.uRight[cands[k]] >= 0.0) && row[cands[k]])
  }

  /** The keypoint at position `i` of node `a` of the first keyframe in the
      triangulation walk, applied to state `st`: a keypoint without a
      landmark (and stereo when only stereo pairs are wanted) is paired with
      the last closest admissible keypoint of node `b` within `TH_LOW` (see
      `LastMin`); with `checkOri` the pair enters the bucket of its
      rotation. */
  ghost function TriangulationTurn(ch1: Channel, slots1: seq<Option<PointId>>, ch2: Channel,
                                   slots2: seq<Option<PointId>>, geo: seq<seq<bool>>, onlyStereo: bool,
                                   checkOri: bool, a: nat, b: nat, i: nat, st: Pass<int>): (st': Pass<int>)
    requires TriangulationInputs(ch1, slots1, ch2, slots2, geo) && a < |ch1.featVec| && b < |ch2.featVec|
    requires i < |ch1.featVec[a].indices| && |st.out| == |slots1| && |st.hist| == HISTO_LENGTH
    ensures |st'.out| == |slots1| && |st'.hist| == HISTO_LENGTH
  {
    var idx1, cands := ch1.featVec[a].indices[i], ch2.featVec[b].indices;
    if slots1[idx1].Some? || (onlyStereo && !(ch1.uRight[idx1] >= 0.0)) then st
    else
      var q := LastMin(Admissible(ch2, slots2, geo[idx1], onlyStereo, cands),
                       Distances(ch1.descriptors[idx1], ch2, cands), TH_LOW, |cands|);
      if q == -1 then st
      else
        Pass(st.out[idx1 := cands[q]],
             if checkOri then Record(st.hist, RotationBin(ch1.angles[idx1], ch2.angles[cands[q]]), idx1) else st.hist,
             st.n + 1)
  }

  /** The node pair (`a`, `b`) of the triangulation walk after its first `i`
      keypoints, started from state `st0`. */
  ghost function TriangulationNode(ch1: Channel, slots1: seq<Option<PointId>>, ch2: Channel,
                                   slots2: seq<Option<PointId>>, geo: seq<seq<bool>>, onlyStereo: bool,
                                   checkOri: bool, a: nat, b: nat, st0: Pass<int>, i: nat): (st: Pass<int>)
    requires TriangulationInputs(ch1, slots1, ch2, slots2, geo) && a < |ch1.featVec| && b < |ch2.featVec|
    requires i <= |ch1.featVec[a].indices| && |st0.out| == |slots1| && |st0.hist| == HISTO_LENGTH
    ensures |st.out| == |slots1| && |st.hist| == HISTO_LENGTH
  {
    if i == 0 then st0
    else
      TriangulationTurn(ch1, slots1, ch2, slots2, geo, onlyStereo, checkOri, a, b, i - 1,
                        TriangulationNode(ch1, slots1, ch2, slots2, geo, onlyStereo, checkOri, a, b, st0, i - 1))
  }

  /** The triangulation walk after its first `k` node pairs, started from
      `vMatches12` all -1, an empty histogram and no pair. */
  ghost function TriangulationWalk(ch1: Channel, slots1: seq<Option<PointId>>, ch2: Channel,
                                   slots2: seq<Option<PointId>>, geo: seq<seq<bool>>, onlyStereo: bool,
                                   checkOri: bool, pairs: seq<(nat, nat)>, k: nat): (st: Pass<int>)
    requires TriangulationInputs(ch1, slots1, ch2, slots2, geo) && NodePairs(ch1.featVec, ch2.featVec, pairs)
    requires k <= |pairs|
    ensures |st.out| == |slots1| && |st.hist| == HISTO_LENGTH
  {
    if k == 0 then Pass(seq(|slots1|, _ => -1), EmptyHistogram(), 0)
    else
      TriangulationNode(ch1, slots1, ch2, slots2, geo, onlyStereo, checkOri, pairs[k - 1].0, pairs[k - 1].1,
                        TriangulationWalk(ch1, slots1, ch2, slots2, geo, onlyStereo, checkOri, pairs, k - 1),
                        |ch1.featVec[pairs[k - 1].0].indices|)
  }

  /** One node pair of the triangulation walk: each keypoint of node `a`
      without a landmark is paired with the admissible keypoint of node `b`
      at the smallest distance, at most `TH_LOW` (the last of equal ones);
      the new state is `TriangulationNode` of the old one. */
  method MatchNodeTriangulation(ch1: Channel, slots1: seq<Option<PointId>>, ch2: Channel,
                                slots2: seq<Option<PointId>>, geo: seq<seq<bool>>, onlyStereo: bool,
                                a: nat, b: nat, checkOri: bool, m12: seq<int>, hist: seq<seq<nat>>, n: int)
    returns (m12': seq<int>, hist': seq<seq<nat>>, n': int)
    requires TriangulationInputs(ch1, slots1, ch2, slots2, geo)
    requires a < |ch1.featVec| && b < |ch2.featVec| && ch1.featVec[a].node == ch2.featVec[b].node
    requires TriangulationMatches(ch1, slots1, ch2, slots2, geo, onlyStereo, m12) && n == |Assigned(m12, -1)|
    requires UntouchedFrom(ch1.featVec, a, 0, m12, -1)
    requires |hist| == HISTO_LENGTH && InRange(hist, |m12|) && EntriesDistinct(hist) && RecordsAssigned(hist, m12, -1)
    ensures TriangulationMatches(ch1, slots1, ch2, slots2, geo, onlyStereo, m12') && n' == |Assigned(m12', -1)|
    ensures UntouchedFrom(ch1.featVec, a, |ch1.featVec[a].indices|, m12', -1)
    ensures |hist'| == HISTO_LENGTH && InRange(hist', |m12'|) && EntriesDistinct(hist') && RecordsAssigned(hist', m12', -1)
    ensures Pass(m12', hist', n') ==
      TriangulationNode(ch1, slots1, ch2, slots2, geo, onlyStereo, checkOri, a, b, Pass(m12, hist, n),
                        |ch1.featVec[a].indices|)
  {
    m12', hist', n' := m12, hist, n;
    for i1 := 0 to |ch1.featVec[a].indices|
      invariant TriangulationMatches(ch1, slots1, ch2, slots2, geo, onlyStereo, m12') && n' == |Assigned(m12', -1)|
      invariant UntouchedFrom(ch1.featVec, a, i1, m12', -1)
      invariant |hist'| == HISTO_LENGTH && InRange(hist', |m12'|) && EntriesDistinct(hist') && RecordsAssigned(hist', m12', -1)
      invariant Pass(m12', hist', n') ==
        TriangulationNode(ch1, slots1, ch2, slots2, geo, onlyStereo, checkOri, a, b, Pass(m12, hist, n), i1)
    {
      m12', hist', n' := TriangulationQuery(ch1, slots1, ch2, slots2, geo, onlyStereo, checkOri, a, b, i1, m12', hist', n');
    }
  }

  /** One keypoint of `MatchNodeTriangulation`: the new state is
      `TriangulationTurn` of the old one, and the invariants carry over. */
  method TriangulationQuery(ch1: Channel, slots1: seq<Option<PointId>>, ch2: Channel,
                            slots2: seq<Option<PointId>>, geo: seq<seq<bool>>, onlyStereo: bool, checkOri: bool,
                            a: nat, b: nat, i1: nat, m12: seq<int>, hist: seq<seq<nat>>, n: int)
    returns (m12': seq<int>, hist': seq<seq<nat>>, n': int)
    requires TriangulationInputs(ch1, slots1, ch2, slots2, geo)
    requires a < |ch1.featVec| && b < |ch2.featVec| && ch1.featVec[a].node == ch2.featVec[b].node
    requires i1 < |ch1.featVec[a].indices|
    requires TriangulationMatches(ch1, slots1, ch2, slots2, geo, onlyStereo, m12) && n == |Assigned(m12, -1)|
    requires UntouchedFrom(ch1.featVec, a, i1, m12, -1)
    requires |hist| == HISTO_LENGTH && InRange(hist, |m12|) && EntriesDistinct(hist) && RecordsAssigned(hist, m12, -1)
    ensures TriangulationMatches(ch1, slots1, ch2, slots2, geo, onlyStereo, m12') && n' == |Assigned(m12', -1)|
    ensures UntouchedFrom(ch1.featVec, a, i1 + 1, m12', -1)
    ensures |hist'| == HISTO_LENGTH && InRange(hist', |m12'|) && EntriesDistinct(hist') && RecordsAssigned(hist', m12', -1)
    ensures Pass(m12', hist', n') ==
      TriangulationTurn(ch1, slots1, ch2, slots2, geo, onlyStereo, checkOri, a, b, i1, Pass(m12, hist, n))
  {
    m12', hist', n' := m12, hist, n;
    var idx1, idx2s := ch1.featVec[a].indices[i1], ch2.featVec[b].indices;
    if slots1[idx1].Some? {
      return;
    }
    var stereo1 := ch1.uRight[idx1] >= 0.0;
    if onlyStereo && !stereo1 {
      return;
    }
    var ok := Admissible(ch2, slots2, geo[idx1], onlyStereo, idx2s);
    var dists := Distances(ch1.descriptors[idx1], ch2, idx2s);
    var bestDist, bestIdx2, pos := SelectLastMin(idx2s, ok, dists, TH_LOW);
    if bestIdx2 >= 0 {
      SameWordAt(ch1.featVec, ch2.featVec, a, b, i1, pos);
      assert TriangulationPair(ch1, slots1, ch2, slots2, geo, onlyStereo, idx1, bestIdx2);
      m12', hist', n' := TriangulationWrite(ch1, slots1, ch2, slots2, geo, onlyStereo, checkOri, a, i1, bestIdx2,
                                            m12, hist, n);
    }
  }

  /** Recording the pair of the keypoint at position `i1` of node `a` with
      keypoint `j`: the invariants of the triangulation walk carry over. */
  method TriangulationWrite(ch1: Channel, slots1: seq<Option<PointId>>, ch2: Channel,
                            slots2: seq<Option<PointId>>, geo: seq<seq<bool>>, onlyStereo: bool, checkOri: bool,
                            a: nat, i1: nat, j: nat, m12: seq<int>, hist: seq<seq<nat>>, n: int)
    returns (m12': seq<int>, hist': seq<seq<nat>>, n': int)
    requires TriangulationInputs(ch1, slots1, ch2, slots2, geo)
    requires a < |ch1.featVec| && i1 < |ch1.featVec[a].indices|
    requires TriangulationPair(ch1, slots1, ch2, slots2, geo, onlyStereo, ch1.featVec[a].indices[i1], j)
    requires TriangulationMatches(ch1, slots1, ch2, slots2, geo, onlyStereo, m12) && n == |Assigned(m12, -1)|
    requires UntouchedFrom(ch1.featVec, a, i1, m12, -1)
    requires |hist| == HISTO_LENGTH && InRange(hist, |m12|) && EntriesDistinct(hist) && RecordsAssigned(hist, m12, -1)
    ensures TriangulationMatches(ch1, slots1, ch2, slots2, geo, onlyStereo, m12') && n' == |Assigned(m12', -1)|
    ensures UntouchedFrom(ch1.featVec, a, i1 + 1, m12', -1)
    ensures |hist'| == HISTO_LENGTH && InRange(hist', |m12'|) && EntriesDistinct(hist') && RecordsAssigned(hist', m12', -1)
    ensures var idx1 := ch1.featVec[a].indices[i1];
      && m12' == m12[idx1 := j] && n' == n + 1
      && hist' == if checkOri then Record(hist, RotationBin(ch1.angles[idx1], ch2.angles[j]), idx1) else hist
  {
    var idx1 := ch1.featVec[a].indices[i1];
    UntouchedWrite(ch1.featVec, |ch1.descriptors|, a, i1, m12, -1, j);
    AssignedUpdate(m12, idx1, j, -1);
    hist' := hist;
    if checkOri {
      var bin := RotationBin(ch1.angles[idx1], ch2.angles[j]);
      RecordInRange(hist, bin, idx1, |m12|);
      RecordFresh(hist, bin, idx1, m12, -1, j);
      hist' := Record(hist, bin, idx1);
    } else {
      AssignKeepsRecords(hist, m12, idx1, j, -1);
    }
    m12' := m12[idx1 := j];
    n' := n + 1;
  }

  /** New-point triangulation in local mapping: pairs of keypoints without a
      landmark, one per keyframe, that share a vocabulary node, pass the
      geometric tests and are within `TH_LOW`; each keypoint of the first
      keyframe keeps the closest admissible partner. With `checkOri` the
      rotation filter undoes the pairs outside the three dominant rotations.
      The pairs are listed in increasing order of the first keypoint, exactly
      the entries `m12` keeps, and the count is their number. */
  method SearchForTriangulation(ch1: Channel, slots1: seq<Option<PointId>>, ch2: Channel,
                                slots2: seq<Option<PointId>>, geo: seq<seq<bool>>, onlyStereo: bool,
                                checkOri: bool)
    returns (pairs: seq<(nat, nat)>, n: int, ghost mid: seq<int>, ghost m12: seq<int>, ghost dropped: seq<nat>,
             ghost walk: seq<(nat, nat)>, ghost ind1: int, ghost ind2: int, ghost ind3: int)
    requires TriangulationInputs(ch1, slots1, ch2, slots2, geo)
    ensures TriangulationMatches(ch1, slots1, ch2, slots2, geo, onlyStereo, mid)
    ensures |m12| == |mid| && forall x :: 0 <= x < |mid| ==> m12[x] == if x in dropped then -1 else mid[x]
    ensures !checkOri ==> dropped == []
    ensures forall i: nat, j: nat :: (i, j) in pairs <==> i < |m12| && m12[i] == j
    ensures forall k, l :: 0 <= k < l < |pairs| ==> pairs[k].0 < pairs[l].0
    ensures n == |pairs|
    ensures NodePairs(ch1.featVec, ch2.featVec, walk)
    ensures var R := TriangulationWalk(ch1, slots1, ch2, slots2, geo, onlyStereo, checkOri, walk, |walk|);
      && mid == R.out && n == R.n - |dropped|
      && (checkOri ==> ThreeMaxima(R.hist, ind1, ind2, ind3) && dropped == Discarded(R.hist, ind1, ind2, ind3, HISTO_LENGTH))
  {
    var m, hist;
    m, hist, n, walk := WalkTriangulation(ch1, slots1, ch2, slots2, geo, onlyStereo, checkOri);
    mid := m;
    if checkOri {
      m, n, dropped, ind1, ind2, ind3 := RotationConsistency(m, hist, -1, n);
    } else {
      dropped, ind1, ind2, ind3 := [], -1, -1, -1;
    }
    m12 := m;
    pairs := ListPairs(m);
  }

  /** The node-pair walk of `SearchForTriangulation`, before the rotation
      filter: its outcome is `TriangulationWalk` over the node pairs
      `walk`. */
  method WalkTriangulation(ch1: Channel, slots1: seq<Option<PointId>>, ch2: Channel,
                           slots2: seq<Option<PointId>>, geo: seq<seq<bool>>, onlyStereo: bool, checkOri: bool)
    returns (m: seq<int>, hist: seq<seq<nat>>, n: int, ghost walk: seq<(nat, nat)>)
    requires TriangulationInputs(ch1, slots1, ch2, slots2, geo)
    ensures TriangulationMatches(ch1, slots1, ch2, slots2, geo, onlyStereo, m) && n == |Assigned(m, -1)|
    ensures InRange(hist, |m|) && EntriesDistinct(hist) && RecordsAssigned(hist, m, -1)
    ensures NodePairs(ch1.featVec, ch2.featVec, walk)
    ensures Pass(m, hist, n) == TriangulationWalk(ch1, slots1, ch2, slots2, geo, onlyStereo, checkOri, walk, |walk|)
  {
    var fpairs := MergeWalk(ch1.featVec, ch2.featVec);
    walk := fpairs;
    m := seq(|slots1|, _ => -1);
    hist := EmptyHistogram();
    EmptyRecords(hist, m, -1);
    AssignedNone(|slots1|, -1);
    n := 0;
    for k := 0 to |fpairs|
      invariant TriangulationMatches(ch1, slots1, ch2, slots2, geo, onlyStereo, m) && n == |Assigned(m, -1)|
      invariant k < |fpairs| ==> UntouchedFrom(ch1.featVec, fpairs[k].0, 0, m, -1)
      invariant |hist| == HISTO_LENGTH && InRange(hist, |m|) && EntriesDistinct(hist) && RecordsAssigned(hist, m, -1)
      invariant Pass(m, hist, n) == TriangulationWalk(ch1, slots1, ch2, slots2, geo, onlyStereo, checkOri, fpairs, k)
    {
      m, hist, n := MatchNodeTriangulation(ch1, slots1, ch2, slots2, geo, onlyStereo, fpairs[k].0, fpairs[k].1,
                                          checkOri, m, hist, n);
      if k + 1 < |fpairs| {
        UntouchedNext(ch1.featVec, fpairs[k].0, fpairs[k + 1].0, m, -1);
      }
    }
  }

  /** The closing loop: the pairs (i, m12[i]) for every entry that is not
      -1, in increasing order of i; there are as many as occupied entries. */
  method ListPairs(m12: seq<int>) returns (pairs: seq<(nat, nat)>)
    requires forall i :: 0 <= i < |m12| ==> m12[i] >= -1
    ensures forall i: nat, j: nat :: (i, j) in pairs <==> i < |m12| && m12[i] == j
    ensures forall k, l :: 0 <= k < l < |pairs| ==> pairs[k].0 < pairs[l].0
    ensures |pairs| == |Assigned(m12, -1)|
  {
    pairs := [];
    for i := 0 to |m12|
      invariant forall x: nat, j: nat :: (x, j) in pairs <==> x < i && m12[x] == j
      invariant forall k :: 0 <= k < |pairs| ==> pairs[k].0 < i
      invariant forall k, l :: 0 <= k < l < |pairs| ==> pairs[k].0 < pairs[l].0
      invariant |pairs| == |Assigned(m12[..i], -1)|
    {
      AssignedPrefix(m12, i, -1);
      if m12[i] < 0 {
        continue;
      }
      pairs := pairs + [(i, m12[i])];
    }
    assert m12[..|m12|] == m12;
  }
}
