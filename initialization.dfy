/** `SearchForInitialization`: the monocular map initialisation. Every keypoint
    of the first frame on the finest octave is matched into a window of the
    second frame around its previous match; a keypoint of the second frame
    taken by an earlier query is handed over to a strictly closer one. */
module Initialization {
  import opened Common
  import opened Descriptors
  import opened Features
  import opened Matching
  import opened Rotation
  import opened Selection

  /** What the caller hands over: two oriented channels, and one probe per
      keypoint of the first frame (the window `GetFeaturesInArea` returns
      around its previous match, restricted to the keypoint's own octave). */
  ghost predicate InitInputs(ch1: Channel, ch2: Channel, probes: seq<Probe>)
  {
    && Oriented(ch1) && Oriented(ch2)
    && |probes| == ch1.N()
    && (forall i :: 0 <= i < |probes| ==> ProbeFor(probes[i], ch2.N()))
    && (forall i :: 0 <= i < |ch1.descriptors| ==> Comparable(ch1.descriptors[i], ch2))
  }

  /** Keypoint `i` of the first frame may be paired with keypoint `j` of the
      second: `i` lies on an octave not above 0, `j` is in its window and the
      descriptors are within `TH_LOW`. */
  ghost predicate InitPair(ch1: Channel, ch2: Channel, probes: seq<Probe>, i: int, j: int)
  {
    && 0 <= i < |probes| && i < |ch1.descriptors| && i < |ch1.octaves| && ch1.octaves[i] <= 0
    && 0 <= j < |ch2.descriptors| && j in probes[i].cands
    && Comparable(ch1.descriptors[i], ch2)
    && Distance(ch1.descriptors[i], ch2.descriptors[j]) <= TH_LOW
  }

  /** No keypoint of the second frame is the partner of two keypoints. */
  ghost predicate Injective(m: seq<int>)
  {
    forall i, k :: 0 <= i < |m| && 0 <= k < |m| && i != k && m[i] >= 0 ==> m[i] != m[k]
  }

  /** `vnMatches12`: -1 or an admissible partner for every keypoint of the
      first frame, no partner used twice. */
  ghost predicate InitMatches(ch1: Channel, ch2: Channel, probes: seq<Probe>, m: seq<int>)
  {
    && |m| == ch1.N()
    && (forall i :: 0 <= i < |m| ==> m[i] >= -1 && (m[i] >= 0 ==> InitPair(ch1, ch2, probes, i, m[i])))
    && Injective(m)
  }

  /** `vnMatches12` and `vnMatches21` point at each other. */
  ghost predicate Mutual(m12: seq<int>, m21: seq<int>)
  {
    && (forall i :: 0 <= i < |m12| && m12[i] >= 0 ==> m12[i] < |m21| && m21[m12[i]] == i)
    && (forall j :: 0 <= j < |m21| ==> m21[j] >= -1 && (m21[j] >= 0 ==> m21[j] < |m12| && m12[m21[j]] == j))
  }

  lemma MutualInjective(m12: seq<int>, m21: seq<int>)
    requires Mutual(m12, m21)
    ensures Injective(m12)
  {
    forall i, k | 0 <= i < |m12| && 0 <= k < |m12| && i != k && m12[i] >= 0
      ensures m12[i] != m12[k]
    {
      assert m21[m12[i]] == i;
    }
  }

  /** The candidates whose keypoint already holds a match at a distance not
      above the candidate's own (`vMatchedDistance[i2] <= dist`). */
  function Settled(md: seq<int>, cands: seq<nat>, dists: seq<int>): (r: seq<bool>)
    requires |cands| == |dists| && forall k :: 0 <= k < |cands| ==> cands[k] < |md|
    ensures |r| == |cands| && forall k :: 0 <= k < |cands| ==> (r[k] <==> md[cands[k]] <= dists[k])
  {
    seq(|cands|, k requires 0 <= k < |cands| => md[cands[k]] <= dists[k])
  }

  /** One query of the first loop: the best and second-best candidates not
      settled more cheaply (starting from `INT_MAX`); the best is taken when
      it is within `TH_LOW` and below `nnRatio` times the second-best, which
      is the ratio-test pick `PickRatio` (see `PickRatioWinner`). */
  method MatchInitQuery(d1: Descriptor, ch2: Channel, pr: Probe, md: seq<int>, nnRatio: real)
    returns (best: int, bestDist: int, second: int, ghost pos: int)
    requires Comparable(d1, ch2) && ProbeFor(pr, ch2.N()) && |md| == ch2.N()
    ensures pos == -1 <==> NoneCompetes(Settled(md, pr.cands, Distances(d1, ch2, pr.cands)),
                                        Distances(d1, ch2, pr.cands), INT_MAX, |pr.cands|, -1)
    ensures pos != -1 ==> FirstMinExcept(Settled(md, pr.cands, Distances(d1, ch2, pr.cands)),
                                        Distances(d1, ch2, pr.cands), INT_MAX, |pr.cands|, -1, pos)
    ensures pos != -1 ==> (
      (second == INT_MAX && NoneCompetes(Settled(md, pr.cands, Distances(d1, ch2, pr.cands)),
                                         Distances(d1, ch2, pr.cands), INT_MAX, |pr.cands|, pos))
      || exists p2 :: FirstMinExcept(Settled(md, pr.cands, Distances(d1, ch2, pr.cands)),
                                     Distances(d1, ch2, pr.cands), INT_MAX, |pr.cands|, pos, p2)
                      && second == Distance(d1, ch2.descriptors[pr.cands[p2]]))
    ensures best == if pos != -1 && bestDist <= TH_LOW && BelowRatio(bestDist, second, nnRatio)
                    then pr.cands[pos] else -1
    ensures pos != -1 ==> bestDist == Distance(d1, ch2.descriptors[pr.cands[pos]]) && md[pr.cands[pos]] > bestDist
    ensures best == PickRatio(pr.cands, Settled(md, pr.cands, Distances(d1, ch2, pr.cands)), Distances(d1, ch2, pr.cands),
                              INT_MAX, TH_LOW, false, nnRatio)
  {
    var dists := Distances(d1, ch2, pr.cands);
    var skip := Settled(md, pr.cands, dists);
    var levels := seq(|pr.cands|, _ => 0);
    var bestIdx, bestLevel, bestLevel2;
    ghost var pos2;
    bestDist, bestIdx, bestLevel, second, bestLevel2, pos, pos2 := SelectBestTwo(pr.cands, skip, dists, levels, INT_MAX);
    if pos2 != -1 {
      assert second == Distance(d1, ch2.descriptors[pr.cands[pos2]]);
    }
    if pos != -1 {
      assert bestDist == Distance(d1, ch2.descriptors[pr.cands[pos]]) && !skip[pos];
    }
    var passes := bestDist <= TH_LOW && BelowRatio(bestDist, second, nnRatio);
    assert pos != -1 ==> bestIdx == pr.cands[pos];
    best := if bestIdx != -1 && passes then bestIdx else -1;
  }

  /** The rotation filter of this matcher: like the shared one, except that a
      recorded keypoint whose match was handed over meanwhile is already -1,
      and only entries still matched lower the count. */
  method DiscardMatched(s: seq<int>, hist: seq<seq<nat>>, nmatches: int)
    returns (s': seq<int>, n: int, ghost dropped: seq<nat>, ind1: int, ind2: int, ind3: int)
    requires InRange(hist, |s|) && forall x :: 0 <= x < |s| ==> s[x] >= -1
    ensures ThreeMaxima(hist, ind1, ind2, ind3) && dropped == Discarded(hist, ind1, ind2, ind3, |hist|)
    ensures |s'| == |s|
    ensures forall x :: 0 <= x < |s| ==> s'[x] == if x in dropped then -1 else s[x]
    ensures forall x :: x in dropped ==> x in Recorded(hist)
    ensures n - |Assigned(s', -1)| == nmatches - |Assigned(s, -1)|
  {
    ind1, ind2, ind3 := ComputeThreeMaxima(hist);
    dropped := Discarded(hist, ind1, ind2, ind3, |hist|);
    s', n := s, nmatches;
    for i := 0 to |hist|
      invariant |s'| == |s|
      invariant forall x :: 0 <= x < |s| ==>
        s'[x] == if x in Discarded(hist, ind1, ind2, ind3, i) then -1 else s[x]
      invariant n - |Assigned(s', -1)| == nmatches - |Assigned(s, -1)|
    {
      if Kept(i, ind1, ind2, ind3) {
        continue;
      }
      assert forall k :: 0 <= k < |hist[i]| ==> hist[i][k] < |s|;
      s', n := DiscardBucket(s, nmatches, Discarded(hist, ind1, ind2, ind3, i), hist[i], s', n);
    }
    forall x | x in dropped
      ensures x in Recorded(hist)
    {
      DiscardedFrom(hist, ind1, ind2, ind3, |hist|, x);
    }
  }

  /** One discarded bucket of `DiscardMatched`: every recorded keypoint still
      matched is unmatched and lowers the count. `s0` is the state before the
      filter and `before` the entries already undone. */
  method DiscardBucket(ghost s0: seq<int>, ghost n0: int, ghost before: seq<nat>, bucket: seq<nat>,
                       s: seq<int>, nmatches: int) returns (s': seq<int>, n: int)
    requires |s| == |s0| && (forall x :: 0 <= x < |s0| ==> s0[x] >= -1)
    requires forall k :: 0 <= k < |bucket| ==> bucket[k] < |s|
    requires forall x :: 0 <= x < |s0| ==> s[x] == if x in before then -1 else s0[x]
    requires nmatches - |Assigned(s, -1)| == n0 - |Assigned(s0, -1)|
    ensures |s'| == |s0|
    ensures forall x :: 0 <= x < |s0| ==> s'[x] == if x in before + bucket then -1 else s0[x]
    ensures n - |Assigned(s', -1)| == n0 - |Assigned(s0, -1)|
  {
    s', n := s, nmatches;
    for j := 0 to |bucket|
      invariant |s'| == |s0|
      invariant forall x :: 0 <= x < |s0| ==> s'[x] == if x in before + bucket[..j] then -1 else s0[x]
      invariant n - |Assigned(s', -1)| == n0 - |Assigned(s0, -1)|
    {
      assert bucket[..j + 1] == bucket[..j] + [bucket[j]];
      var idx1 := bucket[j];
      if s'[idx1] >= 0 {
        AssignedUpdate(s', idx1, -1, -1);
        s' := s'[idx1 := -1];
        n := n - 1;
      }
    }
    assert bucket[..|bucket|] == bucket;
  }

  /** The closing loop: every matched keypoint of the first frame takes the
      position of its partner as its new previous match. */
  method UpdatePrevMatched<P>(m12: seq<int>, prev: seq<P>, pos2: seq<P>) returns (prev': seq<P>)
    requires |m12| <= |prev| && forall i :: 0 <= i < |m12| ==> m12[i] < |pos2|
    ensures |prev'| == |prev|
    ensures forall i :: 0 <= i < |prev| ==>
      prev'[i] == if i < |m12| && m12[i] >= 0 then pos2[m12[i]] else prev[i]
  {
    prev' := prev;
    for i1 := 0 to |m12|
      invariant |prev'| == |prev|
      invariant forall i :: 0 <= i < |prev| ==>
        prev'[i] == if i < i1 && m12[i] >= 0 then pos2[m12[i]] else prev[i]
    {
      if m12[i1] >= 0 {
        prev' := prev'[i1 := pos2[m12[i1]]];
      }
    }
  }

  /** The state of the matching loop before query `i1`: only earlier
      keypoints are paired, admissibly, and the two vectors agree. */
  ghost predicate Pairing(ch1: Channel, ch2: Channel, probes: seq<Probe>, i1: int, m: seq<int>, m21: seq<int>)
  {
    && |m| == ch1.N() && |m21| == ch2.N()
    && (forall i :: 0 <= i < |m| ==> m[i] >= -1 && (m[i] >= 0 ==> i < i1 && InitPair(ch1, ch2, probes, i, m[i])))
    && Mutual(m, m21)
  }

  /** Accepting pair (`i1`, `best`): the previous partner of `best`, if any,
      loses its match (and the count drops), then the pair is written in both
      directions. */
  method HandOver(ghost ch1: Channel, ghost ch2: Channel, ghost probes: seq<Probe>,
                  m: seq<int>, m21: seq<int>, n: int, i1: nat, best: nat)
    returns (m': seq<int>, m21': seq<int>, n': int)
    requires Pairing(ch1, ch2, probes, i1, m, m21) && n == |Assigned(m, -1)|
    requires InitPair(ch1, ch2, probes, i1, best)
    ensures m' == (if m21[best] >= 0 then m[m21[best] := -1] else m)[i1 := best]
    ensures m21' == m21[best := i1]
    ensures n' == (if m21[best] >= 0 then n - 1 else n) + 1
    ensures Pairing(ch1, ch2, probes, i1 + 1, m', m21') && n' == |Assigned(m', -1)|
  {
    HandOverPairing(ch1, ch2, probes, m, m21, i1, best);
    m', n' := m, n;
    var prev := m21[best];
    if prev >= 0 {
      AssignedUpdate(m', prev, -1, -1);
      m' := m'[prev := -1];
      n' := n' - 1;
    }
    AssignedUpdate(m', i1, best, -1);
    m' := m'[i1 := best];
    m21' := m21[best := i1];
    n' := n' + 1;
  }

  /** The hand-over keeps the loop state: `i1` was unmatched and nothing
      pointed at it, and the only entry pointing at `best` is cleared. */
  lemma HandOverPairing(ch1: Channel, ch2: Channel, probes: seq<Probe>,
                        m: seq<int>, m21: seq<int>, i1: nat, best: nat)
    requires Pairing(ch1, ch2, probes, i1, m, m21)
    requires InitPair(ch1, ch2, probes, i1, best)
    ensures Pairing(ch1, ch2, probes, i1 + 1,
                    (if m21[best] >= 0 then m[m21[best] := -1] else m)[i1 := best], m21[best := i1])
  {
    var prev := m21[best];
    var a := if prev >= 0 then m[prev := -1] else m;
    var m', m21' := a[i1 := best], m21[best := i1];
    assert m[i1] == -1;
    forall i | 0 <= i < |m'| && m'[i] >= 0
      ensures m'[i] < |m21'| && m21'[m'[i]] == i
    {
      if i != i1 {
        assert m'[i] == m[i] && m[i] != best;
      }
    }
    forall j | 0 <= j < |m21'|
      ensures m21'[j] >= -1 && (m21'[j] >= 0 ==> m21'[j] < |m'| && m'[m21'[j]] == j)
    {
      if j != best && m21[j] >= 0 {
        assert m21[j] != i1 && m21[j] != prev;
      }
    }
    forall i | 0 <= i < |m'|
      ensures m'[i] >= -1 && (m'[i] >= 0 ==> i < i1 + 1 && InitPair(ch1, ch2, probes, i, m'[i]))
    {
      if i != i1 && i != prev {
        assert m'[i] == m[i];
      }
    }
  }

  /** What the matching loop carries from one query to the next:
      `vMatchedDistance`, `vnMatches12`, `vnMatches21`, the rotation
      histogram and the match count. */
  datatype InitState = InitState(md: seq<int>, m: seq<int>, m21: seq<int>, hist: seq<seq<nat>>, n: int)

  /** A state of the matching loop over these channels. */
  ghost predicate InitShaped(ch1: Channel, ch2: Channel, st: InitState)
  {
    && |st.md| == ch2.N() && |st.m| == ch1.N() && |st.m21| == ch2.N() && |st.hist| == HISTO_LENGTH
    && forall j :: 0 <= j < |st.m21| ==> -1 <= st.m21[j] < |st.m|
  }

  /** The pick of query `i1` against the matched distances `md`: the
      ratio-test pick (see `PickRatioWinner`) from `INT_MAX`, within
      `TH_LOW`, among its window's keypoints not already matched at a
      distance not above their own. */
  ghost function InitPick(ch1: Channel, ch2: Channel, probes: seq<Probe>, i1: nat, md: seq<int>, nnRatio: real): (r: int)
    requires InitInputs(ch1, ch2, probes) && i1 < ch1.N() && |md| == ch2.N()
    ensures r == -1 || r in probes[i1].cands
  {
    var pr := probes[i1];
    var dists := Distances(ch1.descriptors[i1], ch2, pr.cands);
    PickRatio(pr.cands, Settled(md, pr.cands, dists), dists, INT_MAX, TH_LOW, false, nnRatio)
  }

  /** Query `i1` of the matching loop applied to state `st`: a keypoint of
      the first frame on the finest octave takes its `InitPick`; the previous
      partner of the picked keypoint loses its match, the pair is written in
      both directions, its distance recorded and, with `checkOri`, the
      rotation of the pair enters its bucket. */
  ghost function InitTurn(ch1: Channel, ch2: Channel, probes: seq<Probe>, nnRatio: real, checkOri: bool,
                          i1: nat, st: InitState): (st': InitState)
    requires InitInputs(ch1, ch2, probes) && i1 < ch1.N() && InitShaped(ch1, ch2, st)
    ensures InitShaped(ch1, ch2, st')
  {
    if ch1.octaves[i1] > 0 then st
    else
      var x := InitPick(ch1, ch2, probes, i1, st.md, nnRatio);
      if x == -1 then st
      else InitAccept(ch1, ch2, checkOri, i1, x, st)
  }

  /** Accepting pair (`i1`, `x`) in state `st`: the previous partner of `x`
      loses its match, the pair is written in both directions, its distance
      recorded and, with `checkOri`, the rotation of the pair enters its
      bucket. */
  ghost function InitAccept(ch1: Channel, ch2: Channel, checkOri: bool, i1: nat, x: nat, st: InitState): (st': InitState)
    requires Oriented(ch1) && Oriented(ch2) && i1 < ch1.N() && x < ch2.N() && InitShaped(ch1, ch2, st)
    requires Comparable(ch1.descriptors[i1], ch2)
    ensures InitShaped(ch1, ch2, st')
  {
    var prev := st.m21[x];
    InitState(st.md[x := Distance(ch1.descriptors[i1], ch2.descriptors[x])],
              (if prev >= 0 then st.m[prev := -1] else st.m)[i1 := x],
              st.m21[x := i1],
              if checkOri then Record(st.hist, RotationBin(ch1.angles[i1], ch2.angles[x]), i1) else st.hist,
              (if prev >= 0 then st.n - 1 else st.n) + 1)
  }

  /** `InitAccept` of the matching loop's state, with the loop's invariants
      carried over to `i1 + 1`. */
  method Accept(ch1: Channel, ch2: Channel, probes: seq<Probe>, i1: nat, md: seq<int>,
                m: seq<int>, m21: seq<int>, n: int, hist: seq<seq<nat>>, checkOri: bool, best: nat, bestDist: int)
    returns (md': seq<int>, m': seq<int>, m21': seq<int>, n': int, hist': seq<seq<nat>>)
    requires InitInputs(ch1, ch2, probes) && i1 < ch1.N() && |md| == ch2.N()
    requires Pairing(ch1, ch2, probes, i1, m, m21) && n == |Assigned(m, -1)|
    requires |hist| == HISTO_LENGTH && InRange(hist, ch1.N())
    requires InitPair(ch1, ch2, probes, i1, best) && bestDist == Distance(ch1.descriptors[i1], ch2.descriptors[best])
    ensures |md'| == ch2.N()
    ensures Pairing(ch1, ch2, probes, i1 + 1, m', m21') && n' == |Assigned(m', -1)|
    ensures |hist'| == HISTO_LENGTH && InRange(hist', ch1.N())
    ensures InitState(md', m', m21', hist', n') == InitAccept(ch1, ch2, checkOri, i1, best, InitState(md, m, m21, hist, n))
  {
    m', m21', n' := HandOver(ch1, ch2, probes, m, m21, n, i1, best);
    md', hist' := md[best := bestDist], hist;
    if checkOri {
      var bin := RotationBin(ch1.angles[i1], ch2.angles[best]);
      RecordInRange(hist, bin, i1, ch1.N());
      hist' := Record(hist, bin, i1);
    }
  }

  /** The matching loop after its first `i` queries, started with every
      matched distance `INT_MAX`, no pair, an empty histogram and no match. */
  ghost function InitRun(ch1: Channel, ch2: Channel, probes: seq<Probe>, nnRatio: real, checkOri: bool,
                         i: nat): (st: InitState)
    requires InitInputs(ch1, ch2, probes) && i <= ch1.N()
    ensures InitShaped(ch1, ch2, st)
  {
    if i == 0 then InitState(seq(ch2.N(), _ => INT_MAX), seq(ch1.N(), _ => -1), seq(ch2.N(), _ => -1), EmptyHistogram(), 0)
    else InitTurn(ch1, ch2, probes, nnRatio, checkOri, i - 1, InitRun(ch1, ch2, probes, nnRatio, checkOri, i - 1))
  }

  /** One turn of the matching loop: keypoint `i1` of the first frame, when
      on the finest octave and with a non-empty window, is matched by
      `MatchInitQuery`; an accepted partner is handed over to it, its
      distance recorded, and with `checkOri` the pair enters the rotation
      histogram. The new state is `InitTurn` of the old one, and the loop's
      invariants carry over to `i1 + 1`. */
  method InitQuery(ch1: Channel, ch2: Channel, probes: seq<Probe>, i1: nat, md: seq<int>,
                   m: seq<int>, m21: seq<int>, n: int, hist: seq<seq<nat>>, nnRatio: real, checkOri: bool)
    returns (md': seq<int>, m': seq<int>, m21': seq<int>, n': int, hist': seq<seq<nat>>)
    requires InitInputs(ch1, ch2, probes) && i1 < ch1.N() && |md| == ch2.N()
    requires Pairing(ch1, ch2, probes, i1, m, m21) && n == |Assigned(m, -1)|
    requires |hist| == HISTO_LENGTH && InRange(hist, ch1.N())
    ensures |md'| == ch2.N()
    ensures Pairing(ch1, ch2, probes, i1 + 1, m', m21') && n' == |Assigned(m', -1)|
    ensures |hist'| == HISTO_LENGTH && InRange(hist', ch1.N())
    ensures InitState(md', m', m21', hist', n') == InitTurn(ch1, ch2, probes, nnRatio, checkOri, i1, InitState(md, m, m21, hist, n))
  {
    md', m', m21', n', hist' := md, m, m21, n, hist;
    if ch1.octaves[i1] > 0 || |probes[i1].cands| == 0 {
      return;
    }
    var best, bestDist, second, pos := MatchInitQuery(ch1.descriptors[i1], ch2, probes[i1], md, nnRatio);
    assert best == InitPick(ch1, ch2, probes, i1, md, nnRatio);
    if best == -1 {
      return;
    }
    assert InitPair(ch1, ch2, probes, i1, best);
    md', m', m21', n', hist' := Accept(ch1, ch2, probes, i1, md, m, m21, n, hist, checkOri, best, bestDist);
  }

  /** The state before the matching loop: every matched distance `INT_MAX`,
      no pair, an empty histogram and no match, which is where `InitRun`
      starts, and the loop's invariants hold. */
  method InitialState(ch1: Channel, ch2: Channel, probes: seq<Probe>, nnRatio: real, checkOri: bool)
    returns (md: seq<int>, m: seq<int>, m21: seq<int>, n: int, hist: seq<seq<nat>>)
    requires InitInputs(ch1, ch2, probes)
    ensures |md| == ch2.N()
    ensures Pairing(ch1, ch2, probes, 0, m, m21) && n == |Assigned(m, -1)|
    ensures |hist| == HISTO_LENGTH && InRange(hist, ch1.N())
    ensures InitState(md, m, m21, hist, n) == InitRun(ch1, ch2, probes, nnRatio, checkOri, 0)
  {
    m := seq(ch1.N(), _ => -1);
    hist := EmptyHistogram();
    EmptyRecords(hist, m, -1);
    md := seq(ch2.N(), _ => INT_MAX);
    m21 := seq(ch2.N(), _ => -1);
    AssignedNone(ch1.N(), -1);
    n := 0;
  }

  /** The matching loop of `SearchForInitialization`: it ends in the state
      `InitRun` reaches after every query, an admissible pairing that the two
      vectors record in both directions. */
  method MatchingLoop(ch1: Channel, ch2: Channel, probes: seq<Probe>, nnRatio: real, checkOri: bool)
    returns (m: seq<int>, m21: seq<int>, n: int, hist: seq<seq<nat>>)
    requires InitInputs(ch1, ch2, probes)
    ensures var R := InitRun(ch1, ch2, probes, nnRatio, checkOri, ch1.N());
      m == R.m && m21 == R.m21 && hist == R.hist && n == R.n
    ensures Pairing(ch1, ch2, probes, ch1.N(), m, m21) && n == |Assigned(m, -1)|
    ensures |hist| == HISTO_LENGTH && InRange(hist, ch1.N())
  {
    var md;
    md, m, m21, n, hist := InitialState(ch1, ch2, probes, nnRatio, checkOri);
    for i1 := 0 to ch1.N()
      invariant |md| == ch2.N()
      invariant Pairing(ch1, ch2, probes, i1, m, m21) && n == |Assigned(m, -1)|
      invariant |hist| == HISTO_LENGTH && InRange(hist, ch1.N())
      invariant InitState(md, m, m21, hist, n) == InitRun(ch1, ch2, probes, nnRatio, checkOri, i1)
    {
      md, m, m21, n, hist := InitQuery(ch1, ch2, probes, i1, md, m, m21, n, hist, nnRatio, checkOri);
    }
  }

  /** Monocular initialisation: `mid` is the pairing `InitRun` ends with, an
      admissible and injective one; with `checkOri` the rotation filter then
      undoes the pairs recorded outside the three dominant rotations. The
      count is the number of pairs kept, and every kept pair moves the previous
      match of its first keypoint to the position of its partner. */
  method SearchForInitialization<P>(ch1: Channel, ch2: Channel, probes: seq<Probe>, prevMatched: seq<P>,
                                    pos2: seq<P>, nnRatio: real, checkOri: bool)
    returns (m12: seq<int>, n: int, prevMatched': seq<P>, ghost mid: seq<int>, ghost dropped: seq<nat>,
             ghost ind1: int, ghost ind2: int, ghost ind3: int)
    requires InitInputs(ch1, ch2, probes) && |prevMatched| >= ch1.N() && |pos2| == ch2.N()
    ensures var R := InitRun(ch1, ch2, probes, nnRatio, checkOri, ch1.N());
      mid == R.m && (checkOri ==> ThreeMaxima(R.hist, ind1, ind2, ind3) && dropped == Discarded(R.hist, ind1, ind2, ind3, HISTO_LENGTH))
    ensures InitMatches(ch1, ch2, probes, mid)
    ensures |m12| == |mid| && forall x :: 0 <= x < |mid| ==> m12[x] == if x in dropped then -1 else mid[x]
    ensures !checkOri ==> dropped == []
    ensures InitMatches(ch1, ch2, probes, m12)
    ensures n == |Assigned(m12, -1)|
    ensures |prevMatched'| == |prevMatched|
    ensures forall i :: 0 <= i < |prevMatched| ==>
      prevMatched'[i] == if i < |m12| && m12[i] >= 0 then pos2[m12[i]] else prevMatched[i]
  {
    var m, m21, hist;
    m, m21, n, hist := MatchingLoop(ch1, ch2, probes, nnRatio, checkOri);
    MutualInjective(m, m21);
    mid := m;
    if checkOri {
      m, n, dropped, ind1, ind2, ind3 := DiscardMatched(m, hist, n);
    } else {
      dropped, ind1, ind2, ind3 := [], -1, -1, -1;
    }
    m12 := m;
    assert Injective(m12) by {
      forall i, k | 0 <= i < |m12| && 0 <= k < |m12| && i != k && m12[i] >= 0
        ensures m12[i] != m12[k]
      {
        assert mid[i] == m12[i];
      }
    }
    prevMatched' := UpdatePrevMatched(m12, prevMatched, pos2);
  }
}
