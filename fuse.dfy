/** The two `Fuse` operations of the local mapping and the loop closing:
    landmarks are projected into a keyframe and matched against its
    keypoints. A match with an empty keypoint adds the landmark to the
    keyframe; a match with a keypoint that already holds a landmark merges the
    two through `Replace` (local mapping) or records that landmark as the
    replacement candidate (loop closing). */
module Fusion {
  import opened Common
  import opened Descriptors
  import opened Features
  import opened MapPoints
  import opened Matching
  import opened Selection

  /** The slots of channel `c` of `kf` hold landmarks of that channel. */
  ghost predicate Typed(points: map<PointId, Landmark>, slots: map<KfId, seq<seq<Option<PointId>>>>, kf: KfId, c: nat)
  {
    && kf in slots && c < |slots[kf]|
    && forall i :: 0 <= i < |slots[kf][c]| && slots[kf][c][i].Some? ==>
         slots[kf][c][i].value in points && points[slots[kf][c][i].value].ftype == c
  }

  /** From `p0` to `p1` no landmark disappears, changes channel or loses its
      descriptor. */
  ghost predicate Kept(p0: map<PointId, Landmark>, p1: map<PointId, Landmark>)
  {
    && p0.Keys <= p1.Keys
    && forall q :: q in p0 ==> p1[q].ftype == p0[q].ftype && (|p0[q].descriptor| > 0 ==> |p1[q].descriptor| > 0)
  }

  lemma KeptTrans(p0: map<PointId, Landmark>, p1: map<PointId, Landmark>, p2: map<PointId, Landmark>)
    requires Kept(p0, p1) && Kept(p1, p2)
    ensures Kept(p0, p2)
  {
  }

  /** A valid registry in which channel `c` of keyframe `kf` has an octave
      per keypoint. */
  ghost predicate FuseInputs(reg: Registry, kf: KfId, c: nat)
    reads reg
  {
    && reg.Valid() && kf in reg.keyframes && c < |reg.widths|
    && |reg.keyframes[kf].channels[c].octaves| == reg.keyframes[kf].channels[c].N()
  }

  /** A landmark `Fuse` may be handed: of channel `c`, with a descriptor. */
  ghost predicate Fusable(points: map<PointId, Landmark>, p: PointId, c: nat)
  {
    p in points && points[p].ftype == c && |points[p].descriptor| > 0
  }

  /** Some candidate that passes the tests `skip` lies within `TH_LOW` of `d`. */
  ghost predicate InReach(d: Descriptor, ch: Channel, cands: seq<nat>, skip: seq<bool>)
    requires Comparable(d, ch)
  {
    exists k :: 0 <= k < |cands| && k < |skip| && !skip[k] && cands[k] < |ch.descriptors|
      && Distance(d, ch.descriptors[cands[k]]) <= TH_LOW
  }

  /** The candidate at `pos` is the first closest of those passing `skip`,
      within `TH_LOW`. */
  ghost predicate ClosestInReach(d: Descriptor, ch: Channel, cands: seq<nat>, skip: seq<bool>, pos: int)
    requires Comparable(d, ch) && |skip| == |cands| && forall k :: 0 <= k < |cands| ==> cands[k] < |ch.descriptors|
  {
    && FirstMinExcept(skip, Distances(d, ch, cands), INT_MAX, |cands|, -1, pos)
    && Distance(d, ch.descriptors[cands[pos]]) <= TH_LOW
  }

  /** The outcome of the single-best search of both overloads: a candidate is
      found within `TH_LOW` exactly when one is in reach, and it is the first
      closest. `init` is 256 in the local mapping and `INT_MAX` in the loop
      closing; below `TH_LOW` the two agree. */
  method ClosestCandidate(d: Descriptor, ch: Channel, cands: seq<nat>, skip: seq<bool>, init: int)
    returns (found: bool, best: int, ghost pos: int)
    requires Comparable(d, ch) && |skip| == |cands| && forall k :: 0 <= k < |cands| ==> cands[k] < |ch.descriptors|
    requires init > TH_LOW
    ensures found <==> InReach(d, ch, cands, skip)
    ensures found ==> ClosestInReach(d, ch, cands, skip, pos) && best == cands[pos]
  {
    var dists := Distances(d, ch, cands);
    var bestDist;
    bestDist, best, pos := SelectBest(cands, skip, dists, init);
    found := bestDist <= TH_LOW;
    if found {
      assert pos != -1;
      assert Distance(d, ch.descriptors[cands[pos]]) == dists[pos];
      forall q | 0 <= q < |cands| && !skip[q]
        ensures dists[pos] <= dists[q]
      {
      }
    } else if pos == -1 {
      assert !InReach(d, ch, cands, skip) by {
        forall k | 0 <= k < |cands| && !skip[k]
          ensures Distance(d, ch.descriptors[cands[k]]) > TH_LOW
        {
          assert dists[k] >= init;
        }
      }
    } else {
      assert !InReach(d, ch, cands, skip) by {
        forall k | 0 <= k < |cands| && !skip[k]
          ensures Distance(d, ch.descriptors[cands[k]]) > TH_LOW
        {
          assert dists[pos] <= dists[k];
        }
      }
    }
  }

  /** The effect of `a->Replace(b)` from state `(p0, s0, in0)` to
      `(p1, s1, in1)`, as `Registry.Replace` states it. */
  ghost predicate ReplacedBy(reg: Registry, p0: map<PointId, Landmark>, s0: map<KfId, seq<seq<Option<PointId>>>>,
                             in0: set<PointId>, p1: map<PointId, Landmark>, s1: map<KfId, seq<seq<Option<PointId>>>>,
                             in1: set<PointId>, a: PointId, b: PointId)
  {
    && a in p0 && b in p0
    && if a == b then p1 == p0 && s1 == s0 && in1 == in0
       else
         && reg.KeyFramesWellFormed() && reg.ObsInRange(p0[a].obs, p0[b].ftype)
         && reg.ObsInRange(reg.Merged(p0[a], p0[b]).obs, p0[b].ftype)
         && p1 == p0[a := reg.Retired(p0[a], b)]
                    [b := reg.Merged(p0[a], p0[b]).(descriptor := reg.Representative(reg.Merged(p0[a], p0[b])))]
         && s1 == RedirectSlots(s0, p0[a].obs, p0[b].obs, p0[a].obs.Keys, p0[a].ftype, b)
         && in1 == in0 - {a}
  }

  /** `Replace` between two good landmarks of channel `c`: the registry stays
      valid, the slots of `kf` keep holding channel-`c` landmarks, and no
      landmark loses its descriptor. */
  method Merge(reg: Registry, kf: KfId, c: nat, a: PointId, b: PointId)
    requires FuseInputs(reg, kf, c) && Typed(reg.points, reg.slots, kf, c)
    requires a in reg.points && b in reg.points && !reg.points[b].bad
    requires reg.points[a].ftype == c && reg.points[b].ftype == c
    modifies reg
    ensures FuseInputs(reg, kf, c) && Typed(reg.points, reg.slots, kf, c) && Kept(old(reg.points), reg.points)
    ensures ReplacedBy(reg, old(reg.points), old(reg.slots), old(reg.inMap), reg.points, reg.slots, reg.inMap, a, b)
    ensures reg.nextId == old(reg.nextId)
  {
    ghost var p0, s0, in0 := reg.points, reg.slots, reg.inMap;
    if a != b {
      assert reg.PointValid(p0[a], p0.Keys) && reg.PointValid(p0[b], p0.Keys);
      reg.ObsInRangeUnion(p0[a].obs, p0[b].obs, c);
      assert ChannelShaped(reg.keyframes[kf].channels[c], reg.widths[c]);
    }
    reg.Replace(a, b);
    assert ReplacedBy(reg, p0, s0, in0, reg.points, reg.slots, reg.inMap, a, b);
    ReplacedTyped(reg, p0, s0, in0, reg.points, reg.slots, reg.inMap, a, b, kf, c);
  }

  /** After a `Replace` between landmarks of channel `c` the slots of `kf`
      still hold channel-`c` landmarks and every descriptor survives. */
  lemma ReplacedTyped(reg: Registry, p0: map<PointId, Landmark>, s0: map<KfId, seq<seq<Option<PointId>>>>,
                      in0: set<PointId>, p1: map<PointId, Landmark>, s1: map<KfId, seq<seq<Option<PointId>>>>,
                      in1: set<PointId>, a: PointId, b: PointId, kf: KfId, c: nat)
    requires ReplacedBy(reg, p0, s0, in0, p1, s1, in1, a, b) && Typed(p0, s0, kf, c)
    requires p0[a].ftype == c && p0[b].ftype == c && c < |reg.widths| && reg.widths[c] > 0
    ensures Typed(p1, s1, kf, c) && Kept(p0, p1)
  {
    if a != b {
      var la, lb := p0[a], p0[b];
      MergedKeeps(reg, la, lb);
      assert p1[a].ftype == c && p1[a].descriptor == la.descriptor;
      assert p1[b].ftype == c && (|lb.descriptor| > 0 ==> |p1[b].descriptor| > 0);
      RedirectRow(s0, la.obs, lb.obs, la.obs.Keys, c, b, kf, c);
      var r0, r1 := s0[kf][c], s1[kf][c];
      forall i | 0 <= i < |r1| && r1[i].Some?
        ensures r1[i].value in p1 && p1[r1[i].value].ftype == c
      {
        if r1[i] != Some(b) {
          assert r1[i] == r0[i];
        }
      }
    }
  }

  /** The surviving landmark of a `Replace` keeps its channel, and a
      descriptor when it had one. */
  lemma MergedKeeps(reg: Registry, la: Landmark, lb: Landmark)
    requires reg.KeyFramesWellFormed() && reg.ObsInRange(la.obs, lb.ftype)
    requires reg.ObsInRange(reg.Merged(la, lb).obs, lb.ftype) && lb.ftype < |reg.widths| && reg.widths[lb.ftype] > 0
    ensures reg.Merged(la, lb).ftype == lb.ftype
    ensures |lb.descriptor| > 0 ==> |reg.Representative(reg.Merged(la, lb))| > 0
  {
  }

  /** `AddObservation` and `AddMapPoint`: the landmark records its keypoint
      `idx` in `kf` unless `kf` already observes it, and the slot holds the
      landmark. */
  method AddToKeyFrame(reg: Registry, kf: KfId, c: nat, p: PointId, idx: nat)
    requires FuseInputs(reg, kf, c) && Typed(reg.points, reg.slots, kf, c)
    requires p in reg.points && !reg.points[p].bad && reg.points[p].ftype == c
    requires idx < reg.keyframes[kf].channels[c].N()
    modifies reg
    ensures FuseInputs(reg, kf, c) && Typed(reg.points, reg.slots, kf, c) && Kept(old(reg.points), reg.points)
    ensures idx < |reg.keyframes[kf].channels[c].uRight|
    ensures reg.points == if kf in old(reg.points[p].obs) then old(reg.points)
                          else old(reg.points)[p := reg.Added(old(reg.points[p]), kf, idx)]
    ensures reg.slots == old(reg.slots)[kf := old(reg.slots[kf])[c := old(reg.slots[kf][c])[idx := Some(p)]]]
    ensures reg.inMap == old(reg.inMap) && reg.nextId == old(reg.nextId)
  {
    assert ChannelShaped(reg.keyframes[kf].channels[c], reg.widths[c]);
    ghost var p0, s0 := reg.points, reg.slots;
    if kf !in reg.points[p].obs {
      reg.AddValid(reg.points, reg.slots, reg.inMap, reg.nextId, p, kf, idx);
    }
    reg.AddObservation(p, kf, idx);
    reg.SetSlotValid(reg.points, reg.slots, reg.inMap, reg.nextId, kf, c, idx, Some(p));
    reg.SetMapPointMatch(kf, c, idx, p);
    AddedTyped(reg, p0, s0, reg.points, p, kf, c, idx);
  }

  /** Adding a channel-`c` landmark to an empty-or-not slot of `kf` keeps the
      slots typed, and the landmark keeps its channel and descriptor. */
  lemma AddedTyped(reg: Registry, p0: map<PointId, Landmark>, s0: map<KfId, seq<seq<Option<PointId>>>>,
                   p1: map<PointId, Landmark>, p: PointId, kf: KfId, c: nat, idx: nat)
    requires Typed(p0, s0, kf, c) && p in p0 && p0[p].ftype == c && idx < |s0[kf][c]|
    requires kf in reg.keyframes && c < |reg.keyframes[kf].channels| && idx < |reg.keyframes[kf].channels[c].uRight|
    requires p1 == if kf in p0[p].obs then p0 else p0[p := reg.Added(p0[p], kf, idx)]
    ensures Typed(p1, s0[kf := s0[kf][c := s0[kf][c][idx := Some(p)]]], kf, c) && Kept(p0, p1)
  {
    var s1: map<KfId, seq<seq<Option<PointId>>>> := s0[kf := s0[kf][c := s0[kf][c][idx := Some(p)]]];
    forall i | 0 <= i < |s1[kf][c]| && s1[kf][c][i].Some?
      ensures s1[kf][c][i].value in p1 && p1[s1[kf][c][i].value].ftype == c
    {
      if i != idx {
        assert s1[kf][c][i] == s0[kf][c][i];
      }
    }
  }

  /** The local-mapping decision for a landmark `p` matched to keypoint
      `idx`: an empty slot receives `p`; a good landmark in the slot is merged
      with `p`, the one with more observations surviving (`p` on a tie); a bad
      one is left alone. */
  ghost predicate FusedAt(reg: Registry, p0: map<PointId, Landmark>, s0: map<KfId, seq<seq<Option<PointId>>>>,
                          in0: set<PointId>, p1: map<PointId, Landmark>, s1: map<KfId, seq<seq<Option<PointId>>>>,
                          in1: set<PointId>, kf: KfId, c: nat, p: PointId, idx: nat)
  {
    && p in p0 && kf in s0 && c < |s0[kf]| && idx < |s0[kf][c]|
    && kf in reg.keyframes && p0[p].ftype < |reg.keyframes[kf].channels|
    && idx < |reg.keyframes[kf].channels[p0[p].ftype].uRight|
    && var v := s0[kf][c][idx];
       if v.None? then
         && p1 == p0[p := reg.Added(p0[p], kf, idx)]
         && s1 == s0[kf := s0[kf][c := s0[kf][c][idx := Some(p)]]] && in1 == in0
       else
         && v.value in p0
         && if p0[v.value].bad then p1 == p0 && s1 == s0 && in1 == in0
            else if p0[v.value].nObs > p0[p].nObs then ReplacedBy(reg, p0, s0, in0, p1, s1, in1, p, v.value)
            else ReplacedBy(reg, p0, s0, in0, p1, s1, in1, v.value, p)
  }

  /** The candidates of a local-mapping query: octave in
      `[level - 1, level]` and passing the reprojection test. */
  function LocalSkip(ch: Channel, pr: Probe): (r: seq<bool>)
    requires |ch.octaves| == ch.N() && ProbeFor(pr, ch.N())
    ensures |r| == |pr.cands|
    ensures forall k :: 0 <= k < |pr.cands| ==>
      (r[k] <==> ch.octaves[pr.cands[k]] < pr.level - 1 || ch.octaves[pr.cands[k]] > pr.level || !pr.fits[k])
  {
    Either(OutOfBand(ch.octaves, pr.cands, pr.level - 1, pr.level), Unfit(pr.fits))
  }

  /** One landmark of the local-mapping `Fuse`: a good landmark not yet in
      `kf` is fused exactly when a candidate in its window is within
      `TH_LOW`, with the first closest one; then `FusedAt` says what
      happened. Otherwise nothing changes. */
  method FuseOne(reg: Registry, kf: KfId, c: nat, p: PointId, pr: Probe) returns (fused: bool, ghost best: int)
    requires FuseInputs(reg, kf, c) && Typed(reg.points, reg.slots, kf, c) && Fusable(reg.points, p, c)
    requires ProbeFor(pr, reg.keyframes[kf].channels[c].N())
    modifies reg
    ensures FuseInputs(reg, kf, c) && Typed(reg.points, reg.slots, kf, c) && Kept(old(reg.points), reg.points)
    ensures fused <==> && !old(reg.points[p].bad) && kf !in old(reg.points[p].obs)
                       && InReach(old(reg.points[p].descriptor), reg.keyframes[kf].channels[c], pr.cands,
                                  LocalSkip(reg.keyframes[kf].channels[c], pr))
    ensures !fused ==> reg.points == old(reg.points) && reg.slots == old(reg.slots) && reg.inMap == old(reg.inMap)
    ensures fused ==> exists pos :: ClosestInReach(old(reg.points[p].descriptor), reg.keyframes[kf].channels[c],
                                                   pr.cands, LocalSkip(reg.keyframes[kf].channels[c], pr), pos)
                                    && best == pr.cands[pos]
    ensures fused ==> FusedAt(reg, old(reg.points), old(reg.slots), old(reg.inMap), reg.points, reg.slots, reg.inMap,
                              kf, c, p, best)
  {
    var ch := reg.keyframes[kf].channels[c];
    assert ChannelShaped(ch, reg.widths[c]);
    fused, best := false, -1;
    if reg.IsBad(p) || reg.IsInKeyFrame(p, kf) {
      return;
    }
    if |pr.cands| == 0 {
      return;
    }
    var d := reg.points[p].descriptor;
    var found, bestIdx, pos := ClosestCandidate(d, ch, pr.cands, LocalSkip(ch, pr), 256);
    if !found {
      return;
    }
    fused, best := true, bestIdx;
    var inKF := reg.slots[kf][c][bestIdx];
    if inKF.Some? {
      var q := inKF.value;
      if !reg.IsBad(q) {
        if reg.Observations(q) > reg.Observations(p) {
          Merge(reg, kf, c, p, q);
        } else {
          Merge(reg, kf, c, q, p);
        }
      }
    } else {
      AddToKeyFrame(reg, kf, c, p, bestIdx);
    }
  }

  /** `Fuse` of the local mapping: each given landmark is fused into `kf` in
      turn as `FuseOne` states, on the registry as the previous ones left it.
      The registry stays valid, the slots of `kf` keep holding landmarks of
      channel `c`, and the count lies between 0 and the number of given
      landmarks. */
  method Fuse(reg: Registry, kf: KfId, c: nat, queries: seq<Option<PointId>>, probes: seq<Probe>)
    returns (nFused: int)
    requires FuseInputs(reg, kf, c) && Typed(reg.points, reg.slots, kf, c)
    requires |probes| == |queries| && forall i :: 0 <= i < |probes| ==> ProbeFor(probes[i], reg.keyframes[kf].channels[c].N())
    requires forall i :: 0 <= i < |queries| && queries[i].Some? ==> Fusable(reg.points, queries[i].value, c)
    modifies reg
    ensures FuseInputs(reg, kf, c) && Typed(reg.points, reg.slots, kf, c) && Kept(old(reg.points), reg.points)
    ensures 0 <= nFused <= |queries|
  {
    nFused := 0;
    for i := 0 to |queries|
      invariant FuseInputs(reg, kf, c) && Typed(reg.points, reg.slots, kf, c) && Kept(old(reg.points), reg.points)
      invariant 0 <= nFused <= i
    {
      var pMP := queries[i];
      var fused := false;
      if pMP.Some? {
        ghost var p0 := reg.points;
        assert Fusable(old(reg.points), pMP.value, c);
        ghost var best;
        fused, best := FuseOne(reg, kf, c, pMP.value, probes[i]);
        KeptTrans(old(reg.points), p0, reg.points);
      }
      if fused {
        nFused := nFused + 1;
      }
    }
  }

  /** The candidates of a loop-closing query: octave in `[level - 1, level]`
      (no reprojection test here). */
  function LoopSkip(ch: Channel, pr: Probe): (r: seq<bool>)
    requires |ch.octaves| == ch.N() && ProbeFor(pr, ch.N())
    ensures |r| == |pr.cands|
    ensures forall k :: 0 <= k < |pr.cands| ==>
      (r[k] <==> ch.octaves[pr.cands[k]] < pr.level - 1 || ch.octaves[pr.cands[k]] > pr.level)
  {
    OutOfBand(ch.octaves, pr.cands, pr.level - 1, pr.level)
  }

  /** One landmark of the loop-closing `Fuse`: a good landmark not among the
      landmarks `kf` held on entry is fused exactly when a candidate in its
      window is within `TH_LOW`. At the first closest candidate, a good
      landmark in the slot is reported as the replacement and nothing
      changes; a bad one changes nothing either; an empty slot receives the
      landmark. */
  method FuseOneReporting(reg: Registry, kf: KfId, c: nat, p: PointId, pr: Probe, alreadyFound: set<PointId>)
    returns (fused: bool, report: Option<PointId>, ghost best: int)
    requires FuseInputs(reg, kf, c) && Typed(reg.points, reg.slots, kf, c) && Fusable(reg.points, p, c)
    requires ProbeFor(pr, reg.keyframes[kf].channels[c].N())
    modifies reg
    ensures FuseInputs(reg, kf, c) && Typed(reg.points, reg.slots, kf, c) && Kept(old(reg.points), reg.points)
    ensures fused <==> && !old(reg.points[p].bad) && p !in alreadyFound
                       && InReach(old(reg.points[p].descriptor), reg.keyframes[kf].channels[c], pr.cands,
                                  LoopSkip(reg.keyframes[kf].channels[c], pr))
    ensures fused ==> exists pos :: ClosestInReach(old(reg.points[p].descriptor), reg.keyframes[kf].channels[c],
                                                   pr.cands, LoopSkip(reg.keyframes[kf].channels[c], pr), pos)
                                    && best == pr.cands[pos]
    ensures report.Some? ==> fused && 0 <= best < |old(reg.slots[kf][c])| && old(reg.slots[kf][c][best]) == report
                             && report.value in reg.points && !reg.points[report.value].bad
    ensures fused && 0 <= best < |old(reg.slots[kf][c])| && old(reg.slots[kf][c][best]).Some?
            && old(reg.slots[kf][c][best].value in reg.points && !reg.points[reg.slots[kf][c][best].value].bad) ==>
              report == old(reg.slots[kf][c][best])
    ensures fused && report.None? && 0 <= best < |old(reg.slots[kf][c])| && old(reg.slots[kf][c][best]).None? ==> (
      && best < |reg.keyframes[kf].channels[c].uRight|
      && reg.points == (if kf in old(reg.points[p].obs) then old(reg.points)
                        else old(reg.points)[p := reg.Added(old(reg.points[p]), kf, best)])
      && reg.slots == old(reg.slots)[kf := old(reg.slots[kf])[c := old(reg.slots[kf][c])[best := Some(p)]]])
    ensures !(fused && report.None? && 0 <= best < |old(reg.slots[kf][c])| && old(reg.slots[kf][c][best]).None?) ==>
      reg.points == old(reg.points) && reg.slots == old(reg.slots)
    ensures reg.inMap == old(reg.inMap) && reg.nextId == old(reg.nextId)
    ensures Evolved(old(reg.points), old(reg.slots), reg.points, reg.slots, kf, c, {p})
  {
    var ch := reg.keyframes[kf].channels[c];
    assert ChannelShaped(ch, reg.widths[c]);
    fused, report, best := false, None, -1;
    EvolvedRefl(reg.points, reg.slots, kf, c, {p});
    if reg.IsBad(p) || p in alreadyFound {
      return;
    }
    if |pr.cands| == 0 {
      return;
    }
    var d := reg.points[p].descriptor;
    var found, bestIdx, pos := ClosestCandidate(d, ch, pr.cands, LoopSkip(ch, pr), INT_MAX);
    if !found {
      return;
    }
    fused, best := true, bestIdx;
    var inKF := reg.slots[kf][c][bestIdx];
    if inKF.Some? {
      if !reg.IsBad(inKF.value) {
        report := inKF;
      }
    } else {
      ghost var p0, s0 := reg.points, reg.slots;
      AddToKeyFrame(reg, kf, c, p, bestIdx);
      AddedEvolved(reg, p0, s0, p, kf, c, bestIdx);
    }
  }

  /** Filling an empty slot of channel `c` of `kf` with landmark `p` is an
      evolution with `{p}`. */
  lemma AddedEvolved(reg: Registry, p0: map<PointId, Landmark>, s0: map<KfId, seq<seq<Option<PointId>>>>,
                     p: PointId, kf: KfId, c: nat, idx: nat)
    requires p in p0 && kf in s0 && c < |s0[kf]| && idx < |s0[kf][c]| && s0[kf][c][idx].None?
    requires kf in reg.keyframes && p0[p].ftype < |reg.keyframes[kf].channels|
    requires idx < |reg.keyframes[kf].channels[p0[p].ftype].uRight|
    ensures Evolved(p0, s0, if kf in p0[p].obs then p0 else p0[p := reg.Added(p0[p], kf, idx)],
                    s0[kf := s0[kf][c := s0[kf][c][idx := Some(p)]]], kf, c, {p})
  {
    GrownStep(s0, kf, c, {p}, idx, p);
  }

  /** `Fuse` of the loop closing under a similarity transform: the landmarks
      `kf` held on entry are not fused again; every other landmark is fused
      in turn as `FuseOneReporting` states. An entry `i` of the replacement
      vector that changes takes a good landmark held by a slot of channel `c`
      of `kf`, and landmark `i` was not among those `kf` held on entry; no
      landmark is merged, created or made bad, every changed slot was empty
      and now holds one of the given landmarks, and the count lies between 0
      and the number of given landmarks. */
  method FuseWithSim3(reg: Registry, kf: KfId, c: nat, queries: seq<PointId>, probes: seq<Probe>,
                      replace: seq<Option<PointId>>)
    returns (replace': seq<Option<PointId>>, nFused: int)
    requires FuseInputs(reg, kf, c) && Typed(reg.points, reg.slots, kf, c)
    requires |probes| == |queries| == |replace|
    requires forall i :: 0 <= i < |probes| ==> ProbeFor(probes[i], reg.keyframes[kf].channels[c].N())
    requires forall i :: 0 <= i < |queries| ==> Fusable(reg.points, queries[i], c)
    modifies reg
    ensures FuseInputs(reg, kf, c) && Typed(reg.points, reg.slots, kf, c)
    ensures Evolved(old(reg.points), old(reg.slots), reg.points, reg.slots, kf, c, set q | q in queries)
    ensures reg.inMap == old(reg.inMap) && reg.nextId == old(reg.nextId)
    ensures Reported(queries, replace, replace', reg.points, reg.slots[kf][c], Found(old(reg.slots[kf][c])))
    ensures 0 <= nFused <= |queries|
  {
    var alreadyFound := Found(reg.slots[kf][c]);
    ghost var ids := set q | q in queries;
    replace', nFused := replace, 0;
    EvolvedRefl(reg.points, reg.slots, kf, c, ids);
    for i := 0 to |queries|
      invariant FuseInputs(reg, kf, c) && Typed(reg.points, reg.slots, kf, c)
      invariant Evolved(old(reg.points), old(reg.slots), reg.points, reg.slots, kf, c, ids)
      invariant reg.inMap == old(reg.inMap) && reg.nextId == old(reg.nextId)
      invariant Reported(queries, replace, replace', reg.points, reg.slots[kf][c], alreadyFound)
      invariant 0 <= nFused <= i
    {
      var fused, report;
      ghost var best;
      replace', fused, report, best := FuseWithSim3Step(reg, kf, c, queries, probes[i], alreadyFound,
                                                        old(reg.points), old(reg.slots), ids, replace, replace', i);
      if fused {
        nFused := nFused + 1;
      }
    }
  }

  /** One landmark of the loop-closing `Fuse`, as the loop sees it: the
      registry keeps evolving from `(P, S)`, `report` is the good landmark
      found in the slot `best` of the first closest candidate, if any, and
      entry `i` of the replacement vector takes it while every other entry
      stays. */
  method FuseWithSim3Step(reg: Registry, kf: KfId, c: nat, queries: seq<PointId>, pr: Probe,
                          alreadyFound: set<PointId>,
                          ghost P: map<PointId, Landmark>, ghost S: map<KfId, seq<seq<Option<PointId>>>>,
                          ghost ids: set<PointId>, ghost replace: seq<Option<PointId>>,
                          replace': seq<Option<PointId>>, i: int)
    returns (replace'': seq<Option<PointId>>, fused: bool, report: Option<PointId>, ghost best: int)
    requires FuseInputs(reg, kf, c) && Typed(reg.points, reg.slots, kf, c)
    requires 0 <= i < |queries| && queries[i] in ids
    requires Evolved(P, S, reg.points, reg.slots, kf, c, ids) && Fusable(P, queries[i], c)
    requires ProbeFor(pr, reg.keyframes[kf].channels[c].N())
    requires Reported(queries, replace, replace', reg.points, reg.slots[kf][c], alreadyFound)
    modifies reg
    ensures FuseInputs(reg, kf, c) && Typed(reg.points, reg.slots, kf, c)
    ensures Evolved(P, S, reg.points, reg.slots, kf, c, ids)
    ensures reg.inMap == old(reg.inMap) && reg.nextId == old(reg.nextId)
    ensures fused <==> && !old(reg.points[queries[i]].bad) && queries[i] !in alreadyFound
                       && InReach(old(reg.points[queries[i]].descriptor), reg.keyframes[kf].channels[c], pr.cands,
                                  LoopSkip(reg.keyframes[kf].channels[c], pr))
    ensures report.Some? ==> && fused && 0 <= best < |reg.slots[kf][c]| && reg.slots[kf][c][best] == report
                             && report.value in reg.points && !reg.points[report.value].bad
    ensures fused && 0 <= best < |old(reg.slots[kf][c])| && old(reg.slots[kf][c][best]).Some?
            && old(reg.slots[kf][c][best].value in reg.points && !reg.points[reg.slots[kf][c][best].value].bad) ==>
              report == old(reg.slots[kf][c][best])
    ensures replace'' == if report.Some? then replace'[i := report] else replace'
    ensures Reported(queries, replace, replace'', reg.points, reg.slots[kf][c], alreadyFound)
  {
    ghost var p0, s0 := reg.points, reg.slots;
    KeptFusable(P, p0, queries[i], c);
    fused, report, best := FuseOneReporting(reg, kf, c, queries[i], pr, alreadyFound);
    EvolvedTrans(P, S, p0, s0, reg.points, reg.slots, kf, c, ids, {queries[i]});
    ReportedStep(queries, replace, replace', p0, s0, reg.points, reg.slots, kf, c, {queries[i]}, alreadyFound,
                 i, report);
    replace'' := replace';
    if report.Some? {
      replace'' := replace'[i := report];
    }
  }

  /** A landmark `Fuse` may take keeps being one as landmarks evolve. */
  lemma KeptFusable(p0: map<PointId, Landmark>, p1: map<PointId, Landmark>, p: PointId, c: nat)
    requires Kept(p0, p1) && Fusable(p0, p, c)
    ensures Fusable(p1, p, c)
  {
  }

  /** Every entry of the replacement vector that differs from `replace` is a
      good landmark held by a slot of `row`, reported for a landmark that was
      not among `alreadyFound`. */
  ghost predicate Reported(queries: seq<PointId>, replace: seq<Option<PointId>>, replace': seq<Option<PointId>>,
                           points: map<PointId, Landmark>, row: seq<Option<PointId>>, alreadyFound: set<PointId>)
  {
    && |replace'| == |replace| == |queries|
    && forall i :: 0 <= i < |replace| && replace'[i] != replace[i] ==>
         && replace'[i].Some? && replace'[i].value in points && !points[replace'[i].value].bad
         && replace'[i] in row && queries[i] !in alreadyFound
  }

  /** The replacement vector stays `Reported` as the landmarks evolve and the
      row of `kf` grows, and when entry `i` takes a good landmark of the grown
      row reported for landmark `i`. */
  lemma ReportedStep(queries: seq<PointId>, replace: seq<Option<PointId>>, replace': seq<Option<PointId>>,
                     p0: map<PointId, Landmark>, s0: map<KfId, seq<seq<Option<PointId>>>>,
                     p1: map<PointId, Landmark>, s1: map<KfId, seq<seq<Option<PointId>>>>,
                     kf: KfId, c: nat, ids: set<PointId>, alreadyFound: set<PointId>, i: int, report: Option<PointId>)
    requires Evolved(p0, s0, p1, s1, kf, c, ids) && 0 <= i < |replace|
    requires Reported(queries, replace, replace', p0, s0[kf][c], alreadyFound)
    requires report.Some? ==> && report.value in p1 && !p1[report.value].bad && report in s1[kf][c]
                              && queries[i] !in alreadyFound
    ensures Reported(queries, replace, if report.Some? then replace'[i := report] else replace', p1, s1[kf][c],
                     alreadyFound)
  {
    forall j | 0 <= j < |replace| && replace'[j] != replace[j]
      ensures replace'[j] in s1[kf][c]
    {
      var k :| 0 <= k < |s0[kf][c]| && s0[kf][c][k] == replace'[j];
      assert s1[kf][c][k] == s0[kf][c][k];
    }
  }

  /** The loop-closing `Fuse` only adds: no landmark disappears, appears,
      changes channel, loses its descriptor or turns bad, and every slot that
      differs was a slot of channel `c` of `kf` that was empty and now holds
      a landmark of `ids`. */
  ghost predicate Evolved(p0: map<PointId, Landmark>, s0: map<KfId, seq<seq<Option<PointId>>>>,
                          p1: map<PointId, Landmark>, s1: map<KfId, seq<seq<Option<PointId>>>>,
                          kf: KfId, c: nat, ids: set<PointId>)
  {
    && Kept(p0, p1) && p1.Keys == p0.Keys
    && (forall q :: q in p0 && !p0[q].bad ==> !p1[q].bad)
    && Grown(s0, s1, kf, c, ids)
  }

  lemma EvolvedRefl(p0: map<PointId, Landmark>, s0: map<KfId, seq<seq<Option<PointId>>>>, kf: KfId, c: nat,
                    ids: set<PointId>)
    requires kf in s0 && c < |s0[kf]|
    ensures Evolved(p0, s0, p0, s0, kf, c, ids)
  {
  }

  lemma EvolvedTrans(p0: map<PointId, Landmark>, s0: map<KfId, seq<seq<Option<PointId>>>>,
                     p1: map<PointId, Landmark>, s1: map<KfId, seq<seq<Option<PointId>>>>,
                     p2: map<PointId, Landmark>, s2: map<KfId, seq<seq<Option<PointId>>>>,
                     kf: KfId, c: nat, ids: set<PointId>, ids': set<PointId>)
    requires Evolved(p0, s0, p1, s1, kf, c, ids) && Evolved(p1, s1, p2, s2, kf, c, ids') && ids' <= ids
    ensures Evolved(p0, s0, p2, s2, kf, c, ids)
  {
    GrownRowTrans(s0[kf][c], s1[kf][c], s2[kf][c], ids, ids');
  }

  lemma GrownRowTrans(r0: seq<Option<PointId>>, r1: seq<Option<PointId>>, r2: seq<Option<PointId>>,
                      ids: set<PointId>, ids': set<PointId>)
    requires GrownRow(r0, r1, ids) && GrownRow(r1, r2, ids') && ids' <= ids
    ensures GrownRow(r0, r2, ids)
  {
    forall i | 0 <= i < |r2| && r2[i] != r0[i]
      ensures r0[i].None? && r2[i].Some? && r2[i].value in ids
    {
      if r1[i] == r0[i] {
        assert r2[i] != r1[i];
      }
    }
  }

  /** Every entry of row `r` that differs from `r0` was empty and now holds a
      landmark of `ids`. */
  ghost predicate GrownRow(r0: seq<Option<PointId>>, r: seq<Option<PointId>>, ids: set<PointId>)
  {
    |r| == |r0| && forall i :: 0 <= i < |r| && r[i] != r0[i] ==> r0[i].None? && r[i].Some? && r[i].value in ids
  }

  /** Only the slots of channel `c` of `kf` differ from `s0`, and they grow
      from `s0` with landmarks of `ids`. */
  ghost predicate Grown(s0: map<KfId, seq<seq<Option<PointId>>>>, s: map<KfId, seq<seq<Option<PointId>>>>,
                        kf: KfId, c: nat, ids: set<PointId>)
  {
    && s.Keys == s0.Keys && kf in s0 && c < |s0[kf]| && |s[kf]| == |s0[kf]|
    && (forall k :: k in s0 && k != kf ==> s[k] == s0[k])
    && (forall c' :: 0 <= c' < |s0[kf]| && c' != c ==> s[kf][c'] == s0[kf][c'])
    && GrownRow(s0[kf][c], s[kf][c], ids)
  }

  /** Filling one empty slot of channel `c` of `kf` with a landmark of
      `ids` keeps the slots grown from themselves. */
  lemma GrownStep(s: map<KfId, seq<seq<Option<PointId>>>>, kf: KfId, c: nat, ids: set<PointId>, idx: int, q: PointId)
    requires q in ids
    requires kf in s && 0 <= c < |s[kf]| && 0 <= idx < |s[kf][c]| && s[kf][c][idx].None?
    ensures Grown(s, s[kf := s[kf][c := s[kf][c][idx := Some(q)]]], kf, c, ids)
  {
  }
}
