/** The four `SearchByProjection` matchers: landmarks projected into a frame
    or keyframe are matched to the closest keypoint of the search window. */
module Projection {
  import opened Common
  import opened Descriptors
  import opened Features
  import opened MapPoints
  import opened Frames
  import opened Matching
  import opened Selection
  import opened Rotation

  /** What the motion-model search reads for one channel: the current
      channel `ch`, the last frame's channel `lch` with its slots and outlier
      flags, and one probe per keypoint of the last frame. */
  ghost predicate LastFrameInputs(pts: map<PointId, Landmark>, ch: Channel, lch: Channel,
                                  lslots: seq<Option<PointId>>, loutlier: seq<bool>, probes: seq<Probe>)
  {
    && Oriented(ch) && Oriented(lch)
    && |lslots| == |loutlier| == |probes| == lch.N()
    && (forall i :: 0 <= i < |probes| ==> ProbeFor(probes[i], ch.N()))
    && (forall i :: 0 <= i < |lslots| && lslots[i].Some? ==> Describes(pts, lslots[i].value, ch))
  }

  /** Query `i` of the motion-model search applied to state `st`: a landmark
      of the last frame that is not an outlier takes the single-best pick of
      its window (see `PickBestFound`) among the keypoints whose slot is not
      held by an observed landmark and that pass the stereo test, within
      `TH_HIGH`; with `checkOri` the match enters the bucket of the rotation
      from the last frame's keypoint to the current one. */
  ghost function LastFrameTurn(pts: map<PointId, Landmark>, ch: Channel, lch: Channel, lslots: seq<Option<PointId>>,
                               loutlier: seq<bool>, probes: seq<Probe>, checkOri: bool, i: nat,
                               st: Pass<Option<PointId>>): (st': Pass<Option<PointId>>)
    requires LastFrameInputs(pts, ch, lch, lslots, loutlier, probes) && i < |probes|
    requires |st.out| == ch.N() && SlotsIn(st.out, pts) && |st.hist| == HISTO_LENGTH
    ensures |st'.out| == ch.N() && SlotsIn(st'.out, pts) && |st'.hist| == HISTO_LENGTH
  {
    if lslots[i].None? || loutlier[i] then st
    else
      var p, pr := lslots[i].value, probes[i];
      var x := PickBest(pr.cands, Either(Observed(pts, st.out, pr.cands), Unfit(pr.fits)),
                        Distances(pts[p].descriptor, ch, pr.cands), 256, TH_HIGH);
      if x == -1 then st
      else
        Pass(st.out[x := Some(p)],
             if checkOri then Record(st.hist, RotationBin(lch.angles[i], ch.angles[x]), x) else st.hist,
             st.n + 1)
  }

  /** The motion-model search after its first `i` queries, started from slot
      vector `s0` with an empty histogram and no match. */
  ghost function LastFrameRun(pts: map<PointId, Landmark>, ch: Channel, lch: Channel, lslots: seq<Option<PointId>>,
                              loutlier: seq<bool>, probes: seq<Probe>, checkOri: bool, s0: seq<Option<PointId>>,
                              i: nat): (st: Pass<Option<PointId>>)
    requires LastFrameInputs(pts, ch, lch, lslots, loutlier, probes) && i <= |probes|
    requires |s0| == ch.N() && SlotsIn(s0, pts)
    ensures |st.out| == ch.N() && SlotsIn(st.out, pts) && |st.hist| == HISTO_LENGTH
  {
    if i == 0 then Pass(s0, EmptyHistogram(), 0)
    else
      LastFrameTurn(pts, ch, lch, lslots, loutlier, probes, checkOri, i - 1,
                    LastFrameRun(pts, ch, lch, lslots, loutlier, probes, checkOri, s0, i - 1))
  }

  /** One query of `SearchByProjectionLastFrame`: the new state is
      `LastFrameTurn` of the old one, and the loop's invariants carry over. */
  method LastFrameQuery(pts: map<PointId, Landmark>, ch: Channel, lch: Channel, lslots: seq<Option<PointId>>,
                        loutlier: seq<bool>, probes: seq<Probe>, checkOri: bool, i: nat,
                        ghost s0: seq<Option<PointId>>, s: seq<Option<PointId>>, hist: seq<seq<nat>>,
                        ghost writes: seq<nat>, n: int)
    returns (s': seq<Option<PointId>>, hist': seq<seq<nat>>, ghost writes': seq<nat>, n': int)
    requires LastFrameInputs(pts, ch, lch, lslots, loutlier, probes) && i < |probes|
    requires |s| == |s0| == ch.N() && SlotsIn(s, pts)
    requires |hist| == HISTO_LENGTH && InRange(hist, |s|)
    requires forall x :: x in Recorded(hist) ==> x in writes
    requires MatchedInto(pts, s0, s, writes, ch, TH_HIGH, Found(lslots)) && n == |writes|
    ensures |s'| == |s| && SlotsIn(s', pts)
    ensures |hist'| == HISTO_LENGTH && InRange(hist', |s'|)
    ensures forall x :: x in Recorded(hist') ==> x in writes'
    ensures MatchedInto(pts, s0, s', writes', ch, TH_HIGH, Found(lslots)) && n' == |writes'|
    ensures Pass(s', hist', n') == LastFrameTurn(pts, ch, lch, lslots, loutlier, probes, checkOri, i, Pass(s, hist, n))
  {
    s', hist', writes', n' := s, hist, writes, n;
    var pMP := lslots[i];
    if pMP.None? || loutlier[i] {
      return;
    }
    var p, pr := pMP.value, probes[i];
    if |pr.cands| == 0 {
      return;
    }
    var skip := Either(Observed(pts, s, pr.cands), Unfit(pr.fits));
    var dists := Distances(pts[p].descriptor, ch, pr.cands);
    var bestDist, bestIdx, pos := SelectBest(pr.cands, skip, dists, 256);
    if bestDist <= TH_HIGH {
      var x: nat := bestIdx;
      MatchStep(pts, s0, s, writes, ch, TH_HIGH, Found(lslots), x, p);
      s' := s[x := Some(p)];
      writes' := writes + [x];
      n' := n + 1;
      if checkOri {
        RecordInRange(hist, RotationBin(lch.angles[i], ch.angles[x]), x, |s|);
        hist' := Record(hist, RotationBin(lch.angles[i], ch.angles[x]), x);
      }
    }
  }

  /** Tracking with the motion model: each landmark of the last frame that is
      not an outlier goes to the closest keypoint of its window whose slot
      is not held by an observed landmark; a match needs distance at most
      `TH_HIGH`. `mid` is the slot vector before the rotation filter, and it
      is the outcome of `LastFrameRun`; `writes` lists the slots written in
      order, `ind1`..`ind3` are the dominant rotations of the run's histogram
      and `dropped` the entries the filter undid. */
  method SearchByProjectionLastFrame(cur: Frame, last: Frame, reg: Registry, c: nat, probes: seq<Probe>,
                                     checkOri: bool)
    returns (n: int, ghost mid: seq<Option<PointId>>, ghost writes: seq<nat>, ghost dropped: seq<nat>,
             ghost ind1: int, ghost ind2: int, ghost ind3: int)
    requires cur != last && cur.Valid() && last.Valid()
    requires c < |cur.channels| && c < |last.channels|
    requires LastFrameInputs(reg.points, cur.channels[c], last.channels[c], last.slots[c], last.outlier[c], probes)
    requires SlotsIn(cur.slots[c], reg.points)
    modifies cur
    ensures cur.Valid() && cur.slots == old(cur.slots)[c := cur.slots[c]]
    ensures |mid| == |cur.slots[c]| == |old(cur.slots[c])|
    ensures forall x :: 0 <= x < |mid| ==> cur.slots[c][x] == if x in dropped then None else mid[x]
    ensures MatchedInto(reg.points, old(cur.slots[c]), mid, writes, cur.channels[c], TH_HIGH, Found(last.slots[c]))
    ensures forall x :: x in dropped ==> x in writes
    ensures !checkOri ==> dropped == []
    ensures n == |writes| - |dropped|
    ensures var R := LastFrameRun(reg.points, cur.channels[c], last.channels[c], last.slots[c], last.outlier[c],
                                  probes, checkOri, old(cur.slots[c]), |probes|);
      && mid == R.out && n == R.n - |dropped|
      && (checkOri ==> ThreeMaxima(R.hist, ind1, ind2, ind3) && dropped == Discarded(R.hist, ind1, ind2, ind3, HISTO_LENGTH))
  {
    var pts := reg.points;
    var ch := cur.channels[c];
    var lch := last.channels[c];
    var lslots := last.slots[c];
    var loutlier := last.outlier[c];
    ghost var s0 := cur.slots[c];
    var s := cur.slots[c];
    var hist := EmptyHistogram();
    EmptyRecords(hist, s, None);
    MatchedNone(pts, s, ch, TH_HIGH, Found(lslots));
    n, writes := 0, [];
    for i := 0 to |probes|
      invariant cur.slots == old(cur.slots)
      invariant |s| == |s0| && SlotsIn(s, pts)
      invariant |hist| == HISTO_LENGTH && InRange(hist, |s|)
      invariant forall x :: x in Recorded(hist) ==> x in writes
      invariant MatchedInto(pts, s0, s, writes, ch, TH_HIGH, Found(lslots)) && n == |writes|
      invariant Pass(s, hist, n) == LastFrameRun(pts, ch, lch, lslots, loutlier, probes, checkOri, s0, i)
    {
      s, hist, writes, n := LastFrameQuery(pts, ch, lch, lslots, loutlier, probes, checkOri, i, s0, s, hist, writes, n);
    }
    mid := s;
    if checkOri {
      s, n, dropped, ind1, ind2, ind3 := RotationConsistency(s, hist, None, n);
    } else {
      dropped, ind1, ind2, ind3 := [], -1, -1, -1;
    }
    cur.slots := cur.slots[c := s];
  }

  /** What the local-map search reads: the channels of the frame, and for
      each query landmark its frustum verdict and probe. */
  ghost predicate LocalMapInputs(pts: map<PointId, Landmark>, chans: seq<Channel>, queries: seq<PointId>,
                                 inView: seq<bool>, probes: seq<Probe>)
  {
    && |inView| == |probes| == |queries|
    && (forall i :: 0 <= i < |queries| ==> queries[i] in pts)
    && (forall i :: 0 <= i < |queries| && inView[i] && !pts[queries[i]].bad ==>
      && pts[queries[i]].ftype < |chans|
      && |chans[pts[queries[i]].ftype].octaves| == |chans[pts[queries[i]].ftype].descriptors|
      && ProbeFor(probes[i], chans[pts[queries[i]].ftype].N())
      && Comparable(pts[queries[i]].descriptor, chans[pts[queries[i]].ftype]))
  }

  /** One slot vector per channel, as long as the channel, naming landmarks
      of `pts`. */
  ghost predicate Shaped(S: seq<seq<Option<PointId>>>, chans: seq<Channel>, pts: map<PointId, Landmark>)
  {
    |S| == |chans| && forall c :: 0 <= c < |S| ==> |S[c]| == chans[c].N() && SlotsIn(S[c], pts)
  }

  /** Query `i` of the local-map search applied to state `st`: a landmark in
      view and not bad takes the octave-aware ratio pick within `TH_HIGH`
      (see `PickLevelRatioRefuses`) of its window in the channel of its
      feature type, among the keypoints whose slot is not held by an
      observed landmark and that pass the stereo test. */
  ghost function LocalMapTurn(pts: map<PointId, Landmark>, chans: seq<Channel>, queries: seq<PointId>,
                              inView: seq<bool>, probes: seq<Probe>, nnRatio: real, i: nat,
                              st: Tally<seq<seq<Option<PointId>>>>): (st': Tally<seq<seq<Option<PointId>>>>)
    requires LocalMapInputs(pts, chans, queries, inView, probes) && i < |queries|
    requires Shaped(st.out, chans, pts)
    ensures Shaped(st'.out, chans, pts)
  {
    var p := queries[i];
    if !inView[i] || pts[p].bad then st
    else
      var c := pts[p].ftype;
      var pr := probes[i];
      var x := PickLevelRatio(pr.cands, Either(Observed(pts, st.out[c], pr.cands), Unfit(pr.fits)),
                              Distances(pts[p].descriptor, chans[c], pr.cands), Levels(chans[c].octaves, pr.cands),
                              TH_HIGH, nnRatio);
      if x == -1 then st else Tally(st.out[c := st.out[c][x := Some(p)]], st.n + 1)
  }

  /** The local-map search after its first `i` queries, started from the
      slot vectors `S0` and no match. */
  ghost function LocalMapRun(pts: map<PointId, Landmark>, chans: seq<Channel>, queries: seq<PointId>,
                             inView: seq<bool>, probes: seq<Probe>, nnRatio: real, S0: seq<seq<Option<PointId>>>,
                             i: nat): (st: Tally<seq<seq<Option<PointId>>>>)
    requires LocalMapInputs(pts, chans, queries, inView, probes) && i <= |queries|
    requires Shaped(S0, chans, pts)
    ensures Shaped(st.out, chans, pts)
  {
    if i == 0 then Tally(S0, 0)
    else
      LocalMapTurn(pts, chans, queries, inView, probes, nnRatio, i - 1,
                   LocalMapRun(pts, chans, queries, inView, probes, nnRatio, S0, i - 1))
  }

  /** Tracking against the local map: every query landmark the frustum test
      marked in view and that is not bad is matched, in the channel of its
      feature type, by `MatchInWindow`; the new slots are the outcome of
      `LocalMapRun`. `writes` lists the (channel, slot) pairs written, in
      order. */
  method SearchByProjectionLocalMap(F: Frame, pts: map<PointId, Landmark>, queries: seq<PointId>,
                                    inView: seq<bool>, probes: seq<Probe>, nnRatio: real)
    returns (n: int, ghost writes: seq<(nat, nat)>)
    requires F.Valid()
    requires forall c :: 0 <= c < |F.slots| ==> SlotsIn(F.slots[c], pts)
    requires LocalMapInputs(pts, F.channels, queries, inView, probes)
    modifies F
    ensures F.Valid()
    ensures MatchedIntoAll(pts, old(F.slots), F.slots, writes, F.channels, TH_HIGH, Live(pts, InView(queries, inView), {}))
    ensures forall w :: w in writes ==> pts[F.slots[w.0][w.1].value].ftype == w.0
    ensures n == |writes|
    ensures Tally(F.slots, n) == LocalMapRun(pts, F.channels, queries, inView, probes, nnRatio, old(F.slots), |queries|)
  {
    var S;
    S, writes, n := LocalMapLoop(pts, F.channels, queries, inView, probes, nnRatio, F.slots);
    F.slots := S;
  }

  /** The query loop of `SearchByProjectionLocalMap` over the slot vectors
      `S0`: it ends in the state `LocalMapRun` reaches after every query. */
  method LocalMapLoop(pts: map<PointId, Landmark>, chans: seq<Channel>, queries: seq<PointId>, inView: seq<bool>,
                      probes: seq<Probe>, nnRatio: real, S0: seq<seq<Option<PointId>>>)
    returns (S: seq<seq<Option<PointId>>>, ghost writes: seq<(nat, nat)>, n: int)
    requires LocalMapInputs(pts, chans, queries, inView, probes) && Shaped(S0, chans, pts)
    ensures Shaped(S, chans, pts)
    ensures MatchedIntoAll(pts, S0, S, writes, chans, TH_HIGH, Live(pts, InView(queries, inView), {}))
    ensures forall w :: w in writes ==> pts[S[w.0][w.1].value].ftype == w.0
    ensures n == |writes|
    ensures Tally(S, n) == LocalMapRun(pts, chans, queries, inView, probes, nnRatio, S0, |queries|)
  {
    S := S0;
    n, writes := 0, [];
    for i := 0 to |queries|
      invariant LocalMapSound(pts, chans, queries, inView, S0, S, writes)
      invariant n == |writes|
      invariant Tally(S, n) == LocalMapRun(pts, chans, queries, inView, probes, nnRatio, S0, i)
    {
      S, writes, n := LocalMapQuery(pts, chans, queries, inView, probes, nnRatio, i, S0, S, writes, n);
    }
  }

  /** The invariant of the local-map search: the slot vectors keep their
      shape, grew from `S0` by matches of live landmarks in view only, and
      each written slot lies in the channel of its landmark's feature type. */
  ghost predicate LocalMapSound(pts: map<PointId, Landmark>, chans: seq<Channel>, queries: seq<PointId>,
                                inView: seq<bool>, S0: seq<seq<Option<PointId>>>, S: seq<seq<Option<PointId>>>,
                                writes: seq<(nat, nat)>)
  {
    && Shaped(S, chans, pts) && |inView| == |queries|
    && MatchedIntoAll(pts, S0, S, writes, chans, TH_HIGH, Live(pts, InView(queries, inView), {}))
    && forall w :: w in writes ==> pts[S[w.0][w.1].value].ftype == w.0
  }

  /** One query of `SearchByProjectionLocalMap`: the new state is
      `LocalMapTurn` of the old one, and the loop's invariants carry over. */
  method LocalMapQuery(pts: map<PointId, Landmark>, chans: seq<Channel>, queries: seq<PointId>, inView: seq<bool>,
                       probes: seq<Probe>, nnRatio: real, i: nat, ghost S0: seq<seq<Option<PointId>>>,
                       S: seq<seq<Option<PointId>>>, ghost writes: seq<(nat, nat)>, n: int)
    returns (S': seq<seq<Option<PointId>>>, ghost writes': seq<(nat, nat)>, n': int)
    requires LocalMapInputs(pts, chans, queries, inView, probes) && i < |queries|
    requires LocalMapSound(pts, chans, queries, inView, S0, S, writes) && n == |writes|
    ensures LocalMapSound(pts, chans, queries, inView, S0, S', writes') && n' == |writes'|
    ensures Tally(S', n') == LocalMapTurn(pts, chans, queries, inView, probes, nnRatio, i, Tally(S, n))
  {
    S', writes', n' := S, writes, n;
    var p := queries[i];
    if !inView[i] || pts[p].bad {
      return;
    }
    var c := pts[p].ftype;
    var x := MatchInWindow(pts, S[c], chans[c], p, probes[i], nnRatio);
    if x != -1 {
      assert p in InView(queries, inView);
      LocalMapWrite(pts, S0, S, writes, chans, Live(pts, InView(queries, inView), {}), c, x, p);
      S' := S[c := S[c][x := Some(p)]];
      writes' := writes + [(c, x)];
      n' := n + 1;
    }
  }

  /** Writing landmark `p` into a free slot of the channel of its feature
      type keeps the local-map search's invariants. */
  lemma LocalMapWrite(pts: map<PointId, Landmark>, S0: seq<seq<Option<PointId>>>, S: seq<seq<Option<PointId>>>,
                      writes: seq<(nat, nat)>, chans: seq<Channel>, src: set<PointId>, c: nat, x: nat, p: PointId)
    requires Shaped(S, chans, pts) && MatchedIntoAll(pts, S0, S, writes, chans, TH_HIGH, src)
    requires forall w :: w in writes ==> pts[S[w.0][w.1].value].ftype == w.0
    requires c < |S| && x < |S[c]| && Free(pts, S[c][x]) && Close(pts, Some(p), chans[c], x, TH_HIGH)
    requires p in src && pts[p].ftype == c
    ensures var S' := S[c := S[c][x := Some(p)]];
      && Shaped(S', chans, pts) && MatchedIntoAll(pts, S0, S', writes + [(c, x)], chans, TH_HIGH, src)
      && forall w :: w in writes + [(c, x)] ==> pts[S'[w.0][w.1].value].ftype == w.0
  {
    MatchStepAll(pts, S0, S, writes, chans, TH_HIGH, src, c, x, p);
  }

  /** The window search of `SearchByProjectionLocalMap` for landmark `p` in
      one channel: the octave-aware ratio pick within `TH_HIGH` among the
      keypoints whose slot is not held by an observed landmark and that pass
      the stereo test; what it returns is a free slot within `TH_HIGH` of the
      landmark. */
  method MatchInWindow(pts: map<PointId, Landmark>, s: seq<Option<PointId>>, ch: Channel, p: PointId,
                       pr: Probe, nnRatio: real) returns (x: int)
    requires SlotsIn(s, pts) && |s| == |ch.descriptors| == |ch.octaves|
    requires ProbeFor(pr, |s|) && Describes(pts, p, ch)
    ensures x == -1 || (0 <= x < |s| && Free(pts, s[x]) && Close(pts, Some(p), ch, x, TH_HIGH))
    ensures x == PickLevelRatio(pr.cands, Either(Observed(pts, s, pr.cands), Unfit(pr.fits)),
                                Distances(pts[p].descriptor, ch, pr.cands), Levels(ch.octaves, pr.cands), TH_HIGH, nnRatio)
  {
    if |pr.cands| == 0 {
      return -1;
    }
    var skip := Either(Observed(pts, s, pr.cands), Unfit(pr.fits));
    var dists := Distances(pts[p].descriptor, ch, pr.cands);
    var levels := Levels(ch.octaves, pr.cands);
    var bestDist, bestIdx, bestLevel, bestDist2, bestLevel2, pos, pos2 :=
      SelectBestTwo(pr.cands, skip, dists, levels, 256);
    x := -1;
    if bestDist <= TH_HIGH {
      if LevelRefuses(bestDist, bestLevel, bestDist2, bestLevel2, nnRatio) {
        return -1;
      }
      x := bestIdx;
    }
  }

  /** What the loop-detection projection reads: the channel, and for each
      query landmark its probe into a slot vector of `m` entries. */
  ghost predicate Sim3Inputs(pts: map<PointId, Landmark>, ch: Channel, queries: seq<PointId>, probes: seq<Probe>,
                             m: nat)
  {
    && m == |ch.descriptors| == |ch.octaves| && |probes| == |queries|
    && (forall i :: 0 <= i < |probes| ==> ProbeFor(probes[i], m))
    && (forall i :: 0 <= i < |queries| ==> Describes(pts, queries[i], ch))
  }

  /** Query `i` of the loop-detection projection applied to state `st`: a
      landmark that is not bad and not in `found` takes the single-best pick
      within `TH_LOW` among the keypoints whose entry is still empty and
      whose octave lies in `[level - 1, level]`. */
  ghost function Sim3Turn(pts: map<PointId, Landmark>, ch: Channel, queries: seq<PointId>, probes: seq<Probe>,
                          found: set<PointId>, i: nat, st: Tally<seq<Option<PointId>>>): (st': Tally<seq<Option<PointId>>>)
    requires Sim3Inputs(pts, ch, queries, probes, |st.out|) && i < |queries|
    ensures |st'.out| == |st.out|
  {
    var p, pr := queries[i], probes[i];
    if pts[p].bad || p in found then st
    else
      var x := PickBest(pr.cands, Either(Filled(st.out, pr.cands), OutOfBand(ch.octaves, pr.cands, pr.level - 1, pr.level)),
                        Distances(pts[p].descriptor, ch, pr.cands), 256, TH_LOW);
      if x == -1 then st else Tally(st.out[x := Some(p)], st.n + 1)
  }

  /** The loop-detection projection after its first `i` queries, started
      from `matched` (whose landmarks form `found`) and no match. */
  ghost function Sim3Run(pts: map<PointId, Landmark>, ch: Channel, queries: seq<PointId>, probes: seq<Probe>,
                         matched: seq<Option<PointId>>, i: nat): (st: Tally<seq<Option<PointId>>>)
    requires Sim3Inputs(pts, ch, queries, probes, |matched|) && i <= |queries|
    ensures |st.out| == |matched|
  {
    if i == 0 then Tally(matched, 0)
    else Sim3Turn(pts, ch, queries, probes, Found(matched), i - 1, Sim3Run(pts, ch, queries, probes, matched, i - 1))
  }

  /** Loop detection: each query landmark that is not bad and was not already
      matched on entry goes to the closest keypoint of its window whose entry
      of `matched` is still empty and whose octave lies in
      `[level - 1, level]`; the match needs distance at most `TH_LOW`. The
      result is the outcome of `Sim3Run`; it fills only empty entries, so it
      has exactly `n` more. */
  method SearchByProjectionSim3(pts: map<PointId, Landmark>, ch: Channel, queries: seq<PointId>,
                                probes: seq<Probe>, matched: seq<Option<PointId>>)
    returns (matched': seq<Option<PointId>>, n: int, ghost writes: seq<nat>)
    requires Sim3Inputs(pts, ch, queries, probes, |matched|)
    ensures MatchedInto(pts, matched, matched', writes, ch, TH_LOW, Live(pts, (set q | q in queries), Found(matched)))
    ensures forall x :: x in writes ==> matched[x] == None
    ensures n == |writes| && |Assigned(matched', None)| == |Assigned(matched, None)| + n
    ensures Tally(matched', n) == Sim3Run(pts, ch, queries, probes, matched, |queries|)
  {
    var alreadyFound := Found(matched);
    ghost var src := Live(pts, (set q | q in queries), alreadyFound);
    MatchedNone(pts, matched, ch, TH_LOW, src);
    matched', n, writes := matched, 0, [];
    for i := 0 to |queries|
      invariant |matched'| == |matched|
      invariant MatchedInto(pts, matched, matched', writes, ch, TH_LOW, src)
      invariant forall x :: x in writes ==> matched[x] == None
      invariant n == |writes| && |Assigned(matched', None)| == |Assigned(matched, None)| + n
      invariant Tally(matched', n) == Sim3Run(pts, ch, queries, probes, matched, i)
    {
      matched', writes, n := Sim3Query(pts, ch, queries, probes, matched, alreadyFound, i, matched', writes, n);
    }
  }

  /** One query of `SearchByProjectionSim3`: the new state is `Sim3Turn` of
      the old one, and the loop's invariants carry over. */
  method Sim3Query(pts: map<PointId, Landmark>, ch: Channel, queries: seq<PointId>, probes: seq<Probe>,
                   matched: seq<Option<PointId>>, alreadyFound: set<PointId>, i: nat, s: seq<Option<PointId>>,
                   ghost writes: seq<nat>, n: int)
    returns (s': seq<Option<PointId>>, ghost writes': seq<nat>, n': int)
    requires Sim3Inputs(pts, ch, queries, probes, |matched|) && i < |queries|
    requires alreadyFound == Found(matched) && |s| == |matched|
    requires MatchedInto(pts, matched, s, writes, ch, TH_LOW, Live(pts, (set q | q in queries), alreadyFound))
    requires forall x :: x in writes ==> matched[x] == None
    requires n == |writes| && |Assigned(s, None)| == |Assigned(matched, None)| + n
    ensures |s'| == |s|
    ensures MatchedInto(pts, matched, s', writes', ch, TH_LOW, Live(pts, (set q | q in queries), alreadyFound))
    ensures forall x :: x in writes' ==> matched[x] == None
    ensures n' == |writes'| && |Assigned(s', None)| == |Assigned(matched, None)| + n'
    ensures Tally(s', n') == Sim3Turn(pts, ch, queries, probes, alreadyFound, i, Tally(s, n))
  {
    s', writes', n' := s, writes, n;
    var p, pr := queries[i], probes[i];
    if pts[p].bad || p in alreadyFound || |pr.cands| == 0 {
      return;
    }
    var best := Sim3Pick(pts, ch, queries, probes, i, s);
    if best != -1 {
      var x: nat := best;
      MatchStep(pts, matched, s, writes, ch, TH_LOW, Live(pts, (set q | q in queries), alreadyFound), x, p);
      AssignedUpdate(s, x, Some(p), None);
      s' := s[x := Some(p)];
      writes' := writes + [x];
      n' := n + 1;
    }
  }

  /** The window search of query `i` of `SearchByProjectionSim3`: the
      closest keypoint among those whose entry of `s` is empty and whose
      octave is in band, if it lies within `TH_LOW`. The pick is `Sim3Turn`'s
      (see `PickBestFound`), and a pick names an empty entry close to the
      query's landmark. */
  method Sim3Pick(pts: map<PointId, Landmark>, ch: Channel, queries: seq<PointId>, probes: seq<Probe>,
                  i: nat, s: seq<Option<PointId>>) returns (x: int)
    requires Sim3Inputs(pts, ch, queries, probes, |s|) && i < |queries|
    ensures var pr := probes[i];
      x == PickBest(pr.cands, Either(Filled(s, pr.cands), OutOfBand(ch.octaves, pr.cands, pr.level - 1, pr.level)),
                    Distances(pts[queries[i]].descriptor, ch, pr.cands), 256, TH_LOW)
    ensures x != -1 ==> 0 <= x < |s| && s[x] == None && Close(pts, Some(queries[i]), ch, x, TH_LOW)
  {
    var p, pr := queries[i], probes[i];
    var skip := Either(Filled(s, pr.cands), OutOfBand(ch.octaves, pr.cands, pr.level - 1, pr.level));
    var dists := Distances(pts[p].descriptor, ch, pr.cands);
    var bestDist, bestIdx, pos := SelectBest(pr.cands, skip, dists, 256);
    assert PickBest(pr.cands, skip, dists, 256, TH_LOW) == if bestDist <= TH_LOW then bestIdx else -1;
    x := if bestDist <= TH_LOW then bestIdx else -1;
  }

  /** What the relocalisation search reads: the frame's channel `ch`, the
      keyframe's channel `kch` with its slots `queries`, and one probe per
      keyframe keypoint. */
  ghost predicate KeyFrameInputs(pts: map<PointId, Landmark>, ch: Channel, kch: Channel,
                                 queries: seq<Option<PointId>>, probes: seq<Probe>)
  {
    && Oriented(ch) && Oriented(kch)
    && |queries| == |probes| == kch.N()
    && (forall i :: 0 <= i < |probes| ==> ProbeFor(probes[i], ch.N()))
    && (forall i :: 0 <= i < |queries| && queries[i].Some? ==> Describes(pts, queries[i].value, ch))
  }

  /** Query `i` of the relocalisation search applied to state `st`: a
      landmark of the keyframe that is not bad and not in `alreadyFound`
      takes the single-best pick within `orbDist` among the keypoints whose
      slot is still empty; with `checkOri` the match enters the bucket of the
      rotation from the keyframe's keypoint to the frame's. */
  ghost function KeyFrameTurn(pts: map<PointId, Landmark>, ch: Channel, kch: Channel, queries: seq<Option<PointId>>,
                              probes: seq<Probe>, alreadyFound: set<PointId>, orbDist: int, checkOri: bool, i: nat,
                              st: Pass<Option<PointId>>): (st': Pass<Option<PointId>>)
    requires KeyFrameInputs(pts, ch, kch, queries, probes) && i < |queries|
    requires |st.out| == ch.N() && |st.hist| == HISTO_LENGTH
    ensures |st'.out| == ch.N() && |st'.hist| == HISTO_LENGTH
  {
    if queries[i].None? || pts[queries[i].value].bad || queries[i].value in alreadyFound then st
    else
      var p, pr := queries[i].value, probes[i];
      var x := PickBest(pr.cands, Filled(st.out, pr.cands), Distances(pts[p].descriptor, ch, pr.cands), 256, orbDist);
      if x == -1 then st
      else
        Pass(st.out[x := Some(p)],
             if checkOri then Record(st.hist, RotationBin(kch.angles[i], ch.angles[x]), x) else st.hist,
             st.n + 1)
  }

  /** The relocalisation search after its first `i` queries, started from
      slot vector `s0` with an empty histogram and no match. */
  ghost function KeyFrameRun(pts: map<PointId, Landmark>, ch: Channel, kch: Channel, queries: seq<Option<PointId>>,
                             probes: seq<Probe>, alreadyFound: set<PointId>, orbDist: int, checkOri: bool,
                             s0: seq<Option<PointId>>, i: nat): (st: Pass<Option<PointId>>)
    requires KeyFrameInputs(pts, ch, kch, queries, probes) && i <= |queries| && |s0| == ch.N()
    ensures |st.out| == ch.N() && |st.hist| == HISTO_LENGTH
  {
    if i == 0 then Pass(s0, EmptyHistogram(), 0)
    else
      KeyFrameTurn(pts, ch, kch, queries, probes, alreadyFound, orbDist, checkOri, i - 1,
                   KeyFrameRun(pts, ch, kch, queries, probes, alreadyFound, orbDist, checkOri, s0, i - 1))
  }

  /** One query of `SearchByProjectionKeyFrame`: the new state is
      `KeyFrameTurn` of the old one, and the loop's invariants carry over. */
  method KeyFrameQuery(pts: map<PointId, Landmark>, ch: Channel, kch: Channel, queries: seq<Option<PointId>>,
                       probes: seq<Probe>, alreadyFound: set<PointId>, orbDist: int, checkOri: bool, i: nat,
                       ghost s0: seq<Option<PointId>>, s: seq<Option<PointId>>, hist: seq<seq<nat>>,
                       ghost writes: seq<nat>, n: int)
    returns (s': seq<Option<PointId>>, hist': seq<seq<nat>>, ghost writes': seq<nat>, n': int)
    requires KeyFrameInputs(pts, ch, kch, queries, probes) && i < |queries|
    requires |s| == ch.N()
    requires |hist| == HISTO_LENGTH && InRange(hist, |s|)
    requires forall x :: x in Recorded(hist) ==> x in writes
    requires EntriesDistinct(hist) && RecordsAssigned(hist, s, None)
    requires MatchedInto(pts, s0, s, writes, ch, orbDist, Live(pts, Found(queries), alreadyFound))
    requires forall x :: x in writes ==> s0[x] == None
    requires n == |writes| && |Assigned(s, None)| == |Assigned(s0, None)| + n
    ensures |s'| == |s| && |hist'| == HISTO_LENGTH && InRange(hist', |s'|)
    ensures forall x :: x in Recorded(hist') ==> x in writes'
    ensures EntriesDistinct(hist') && RecordsAssigned(hist', s', None)
    ensures MatchedInto(pts, s0, s', writes', ch, orbDist, Live(pts, Found(queries), alreadyFound))
    ensures forall x :: x in writes' ==> s0[x] == None
    ensures n' == |writes'| && |Assigned(s', None)| == |Assigned(s0, None)| + n'
    ensures Pass(s', hist', n') ==
      KeyFrameTurn(pts, ch, kch, queries, probes, alreadyFound, orbDist, checkOri, i, Pass(s, hist, n))
  {
    s', hist', writes', n' := s, hist, writes, n;
    var pMP := queries[i];
    if pMP.None? {
      return;
    }
    var p, pr := pMP.value, probes[i];
    if pts[p].bad || p in alreadyFound {
      return;
    }
    if |pr.cands| == 0 {
      assert PickBest(pr.cands, Filled(s, pr.cands), Distances(pts[p].descriptor, ch, pr.cands), 256, orbDist) == -1;
      return;
    }
    var skip := Filled(s, pr.cands);
    var dists := Distances(pts[p].descriptor, ch, pr.cands);
    var bestDist, bestIdx, pos := SelectBest(pr.cands, skip, dists, 256);
    assert PickBest(pr.cands, skip, dists, 256, orbDist) == if bestDist <= orbDist then bestIdx else -1;
    if bestDist <= orbDist {
      if bestIdx == -1 {
        // `orbDist >= 256` lets the source write through index -1.
        return;
      }
      var x: nat := bestIdx;
      MatchStep(pts, s0, s, writes, ch, orbDist, Live(pts, Found(queries), alreadyFound), x, p);
      AssignedUpdate(s, x, Some(p), None);
      if checkOri {
        var bin := RotationBin(kch.angles[i], ch.angles[x]);
        RecordInRange(hist, bin, x, |s|);
        RecordFresh(hist, bin, x, s, None, Some(p));
        hist' := Record(hist, bin, x);
      } else {
        AssignKeepsRecords(hist, s, x, Some(p), None);
      }
      s' := s[x := Some(p)];
      writes' := writes + [x];
      n' := n + 1;
    }
  }

  /** Relocalisation: each landmark of the keyframe's channel that is not bad
      and not in `alreadyFound` goes to the closest keypoint of its window
      whose frame slot is still empty; the match needs distance at most
      `orbDist`. `mid`, the slot vector before the rotation filter, is the
      outcome of `KeyFrameRun`; with `checkOri` the filter then undoes the
      matches outside the three dominant rotations `ind1`..`ind3`. Only
      empty slots are filled, so the frame ends with exactly `n` more filled
      slots. */
  method SearchByProjectionKeyFrame(cur: Frame, reg: Registry, kf: KfId, c: nat, probes: seq<Probe>,
                                    alreadyFound: set<PointId>, orbDist: int, checkOri: bool)
    returns (n: int, ghost mid: seq<Option<PointId>>, ghost writes: seq<nat>, ghost dropped: seq<nat>,
             ghost ind1: int, ghost ind2: int, ghost ind3: int)
    requires cur.Valid() && c < |cur.channels|
    requires kf in reg.slots && kf in reg.keyframes
    requires c < |reg.slots[kf]| && c < |reg.keyframes[kf].channels|
    requires KeyFrameInputs(reg.points, cur.channels[c], reg.keyframes[kf].channels[c], reg.slots[kf][c], probes)
    modifies cur
    ensures cur.Valid() && cur.slots == old(cur.slots)[c := cur.slots[c]]
    ensures |mid| == |cur.slots[c]| == |old(cur.slots[c])|
    ensures forall x :: 0 <= x < |mid| ==> cur.slots[c][x] == if x in dropped then None else mid[x]
    ensures MatchedInto(reg.points, old(cur.slots[c]), mid, writes, cur.channels[c], orbDist,
                        Live(reg.points, Found(reg.slots[kf][c]), alreadyFound))
    ensures forall x :: x in writes ==> old(cur.slots[c][x]) == None
    ensures forall x :: x in dropped ==> x in writes
    ensures !checkOri ==> dropped == []
    ensures n == |writes| - |dropped|
    ensures n == |Assigned(cur.slots[c], None)| - |Assigned(old(cur.slots[c]), None)|
    ensures var R := KeyFrameRun(reg.points, cur.channels[c], reg.keyframes[kf].channels[c], reg.slots[kf][c],
                                 probes, alreadyFound, orbDist, checkOri, old(cur.slots[c]), |probes|);
      && mid == R.out && n == R.n - |dropped|
      && (checkOri ==> ThreeMaxima(R.hist, ind1, ind2, ind3) && dropped == Discarded(R.hist, ind1, ind2, ind3, HISTO_LENGTH))
  {
    var s, hist;
    s, hist, writes, n := KeyFrameLoop(reg.points, cur.channels[c], reg.keyframes[kf].channels[c], reg.slots[kf][c],
                                       probes, alreadyFound, orbDist, checkOri, cur.slots[c]);
    mid := s;
    if checkOri {
      s, n, dropped, ind1, ind2, ind3 := RotationConsistency(s, hist, None, n);
    } else {
      dropped, ind1, ind2, ind3 := [], -1, -1, -1;
    }
    cur.slots := cur.slots[c := s];
  }

  /** The query loop of `SearchByProjectionKeyFrame` over the slots `s0` of
      the frame: it ends in the state `KeyFrameRun` reaches after every
      query, with the histogram recording only written slots, each once. */
  method KeyFrameLoop(pts: map<PointId, Landmark>, ch: Channel, kch: Channel, queries: seq<Option<PointId>>,
                      probes: seq<Probe>, alreadyFound: set<PointId>, orbDist: int, checkOri: bool,
                      s0: seq<Option<PointId>>)
    returns (s: seq<Option<PointId>>, hist: seq<seq<nat>>, ghost writes: seq<nat>, n: int)
    requires KeyFrameInputs(pts, ch, kch, queries, probes) && |s0| == ch.N()
    ensures |s| == |s0| && |hist| == HISTO_LENGTH && InRange(hist, |s|)
    ensures forall x :: x in Recorded(hist) ==> x in writes
    ensures EntriesDistinct(hist) && RecordsAssigned(hist, s, None)
    ensures MatchedInto(pts, s0, s, writes, ch, orbDist, Live(pts, Found(queries), alreadyFound))
    ensures forall x :: x in writes ==> s0[x] == None
    ensures n == |writes| && |Assigned(s, None)| == |Assigned(s0, None)| + n
    ensures Pass(s, hist, n) == KeyFrameRun(pts, ch, kch, queries, probes, alreadyFound, orbDist, checkOri, s0, |probes|)
  {
    ghost var src := Live(pts, Found(queries), alreadyFound);
    s := s0;
    hist := EmptyHistogram();
    EmptyRecords(hist, s, None);
    MatchedNone(pts, s, ch, orbDist, src);
    n, writes := 0, [];
    for i := 0 to |queries|
      invariant |s| == |s0|
      invariant |hist| == HISTO_LENGTH && InRange(hist, |s|)
      invariant forall x :: x in Recorded(hist) ==> x in writes
      invariant EntriesDistinct(hist) && RecordsAssigned(hist, s, None)
      invariant MatchedInto(pts, s0, s, writes, ch, orbDist, src)
      invariant forall x :: x in writes ==> s0[x] == None
      invariant n == |writes| && |Assigned(s, None)| == |Assigned(s0, None)| + n
      invariant Pass(s, hist, n) == KeyFrameRun(pts, ch, kch, queries, probes, alreadyFound, orbDist, checkOri, s0, i)
    {
      s, hist, writes, n := KeyFrameQuery(pts, ch, kch, queries, probes, alreadyFound, orbDist, checkOri, i, s0, s, hist, writes, n);
    }
  }

  /** The query landmarks the frustum test marked in view. */
  ghost function InView(queries: seq<PointId>, inView: seq<bool>): set<PointId>
    requires |inView| == |queries|
  {
    set i | 0 <= i < |queries| && inView[i] :: queries[i]
  }
}
