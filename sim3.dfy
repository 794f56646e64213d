/** `SearchBySim3`: loop-closure matching of two keyframes under a similarity
    transform. Each landmark of one keyframe is projected into the other and
    matched there; a pair is kept only when both directions agree. */
module Sim3Matching {
  import opened Common
  import opened Descriptors
  import opened Features
  import opened MapPoints
  import opened Matching
  import opened Selection

  /** The window search of one direction for landmark `p`: the single-best
      pick (see `PickBestFound`) among the candidates whose octave lies in
      `[level - 1, level]`, within `TH_HIGH`; -1 when there is none. */
  ghost function WindowPick(pts: map<PointId, Landmark>, p: PointId, ch: Channel, pr: Probe): (r: int)
    requires Describes(pts, p, ch) && |ch.octaves| == |ch.descriptors| && ProbeFor(pr, |ch.descriptors|)
    ensures r == -1 || r in pr.cands
  {
    PickBest(pr.cands, OutOfBand(ch.octaves, pr.cands, pr.level - 1, pr.level),
             Distances(pts[p].descriptor, ch, pr.cands), INT_MAX, TH_HIGH)
  }

  /** The window search finds a keypoint exactly when some in-band candidate
      lies within `TH_HIGH`, and what it finds is such a keypoint. */
  lemma WindowPickFound(pts: map<PointId, Landmark>, p: PointId, ch: Channel, pr: Probe)
    requires Describes(pts, p, ch) && |ch.octaves| == |ch.descriptors| && ProbeFor(pr, |ch.descriptors|)
    ensures WindowPick(pts, p, ch, pr) != -1 <==>
      exists k :: 0 <= k < |pr.cands| && pr.level - 1 <= ch.octaves[pr.cands[k]] <= pr.level
                  && Distance(pts[p].descriptor, ch.descriptors[pr.cands[k]]) <= TH_HIGH
    ensures WindowPick(pts, p, ch, pr) != -1 ==>
      var x := WindowPick(pts, p, ch, pr);
      Close(pts, Some(p), ch, x, TH_HIGH) && pr.level - 1 <= ch.octaves[x] <= pr.level
  {
    var skip := OutOfBand(ch.octaves, pr.cands, pr.level - 1, pr.level);
    var dists := Distances(pts[p].descriptor, ch, pr.cands);
    PickBestFound(pr.cands, skip, dists, INT_MAX, TH_HIGH);
  }

  /** One direction's window search for landmark `p`, as `WindowPick`. */
  method ProjectAndMatch(pts: map<PointId, Landmark>, p: PointId, ch: Channel, pr: Probe) returns (best: int)
    requires Describes(pts, p, ch) && |ch.octaves| == |ch.descriptors| && ProbeFor(pr, |ch.descriptors|)
    ensures best == WindowPick(pts, p, ch, pr)
  {
    if |pr.cands| == 0 {
      return -1;
    }
    var skip := OutOfBand(ch.octaves, pr.cands, pr.level - 1, pr.level);
    var dists := Distances(pts[p].descriptor, ch, pr.cands);
    var bestDist, bestIdx, pos := SelectBest(pr.cands, skip, dists, INT_MAX);
    assert PickBest(pr.cands, skip, dists, INT_MAX, TH_HIGH) == if bestDist <= TH_HIGH then bestIdx else -1;
    best := -1;
    if bestDist <= TH_HIGH {
      best := bestIdx;
    }
  }

  /** Keypoint `i` of one keyframe is a projection source: its slot holds a
      landmark that is not bad and it was not matched on entry. */
  ghost predicate Source(pts: map<PointId, Landmark>, slots: seq<Option<PointId>>, already: seq<bool>, i: int)
  {
    0 <= i < |slots| && i < |already| && slots[i].Some? && slots[i].value in pts
      && !pts[slots[i].value].bad && !already[i]
  }

  /** `vnMatch1` / `vnMatch2`: each entry is -1 or a keypoint of the other
      keyframe whose descriptor is within `TH_HIGH` of the source landmark. */
  ghost predicate Projected(pts: map<PointId, Landmark>, slots: seq<Option<PointId>>, already: seq<bool>,
                            other: Channel, m: seq<int>)
  {
    && |m| == |slots|
    && forall i :: 0 <= i < |m| ==>
         m[i] >= -1 && (m[i] >= 0 ==> Source(pts, slots, already, i) && Close(pts, slots[i], other, m[i], TH_HIGH))
  }

  /** Entry `i` of one direction's result: the `WindowPick` of a source
      landmark, -1 for every other keypoint. */
  ghost function DirectionEntry(pts: map<PointId, Landmark>, slots: seq<Option<PointId>>, already: seq<bool>,
                                other: Channel, probes: seq<Probe>, i: int): (r: int)
    requires |already| == |probes| == |slots| && SlotsIn(slots, pts) && |other.octaves| == |other.descriptors|
    requires forall i :: 0 <= i < |probes| ==> ProbeFor(probes[i], |other.descriptors|)
    requires forall i :: 0 <= i < |slots| && slots[i].Some? ==> Comparable(pts[slots[i].value].descriptor, other)
    ensures r != -1 ==> Source(pts, slots, already, i)
  {
    if Source(pts, slots, already, i) then WindowPick(pts, slots[i].value, other, probes[i]) else -1
  }

  /** One direction of the search: every source landmark of `slots` takes
      its `WindowPick` in the other keyframe's channel `other`, every other
      entry stays -1. */
  method SearchDirection(pts: map<PointId, Landmark>, slots: seq<Option<PointId>>, already: seq<bool>,
                         other: Channel, probes: seq<Probe>) returns (m: seq<int>)
    requires |already| == |probes| == |slots| && SlotsIn(slots, pts) && |other.octaves| == |other.descriptors|
    requires forall i :: 0 <= i < |probes| ==> ProbeFor(probes[i], |other.descriptors|)
    requires forall i :: 0 <= i < |slots| && slots[i].Some? ==> Comparable(pts[slots[i].value].descriptor, other)
    ensures Projected(pts, slots, already, other, m)
    ensures forall i :: 0 <= i < |m| ==> m[i] == DirectionEntry(pts, slots, already, other, probes, i)
  {
    m := seq(|slots|, _ => -1);
    for i := 0 to |slots|
      invariant Projected(pts, slots, already, other, m)
      invariant forall x :: 0 <= x < |m| ==> m[x] == if x < i then DirectionEntry(pts, slots, already, other, probes, x) else -1
    {
      var pMP := slots[i];
      if pMP.None? || already[i] {
        continue;
      }
      if pts[pMP.value].bad {
        continue;
      }
      var best := ProjectAndMatch(pts, pMP.value, other, probes[i]);
      WindowPickFound(pts, pMP.value, other, probes[i]);
      if best >= 0 {
        m := m[i := best];
      }
    }
  }

  /** Keypoint `i1` and its partner agree in both directions. */
  ghost predicate Agrees(m1: seq<int>, m2: seq<int>, i1: int)
  {
    0 <= i1 < |m1| && 0 <= m1[i1] < |m2| && m2[m1[i1]] == i1
  }

  /** The keypoints of the first keyframe below `k` whose match agrees. */
  ghost function AgreedBelow(m1: seq<int>, m2: seq<int>, k: int): set<nat>
  {
    set i: nat | i < k && Agrees(m1, m2, i)
  }

  lemma AgreedStep(m1: seq<int>, m2: seq<int>, k: nat)
    ensures |AgreedBelow(m1, m2, k + 1)| == |AgreedBelow(m1, m2, k)| + (if Agrees(m1, m2, k) then 1 else 0)
  {
    var a, b := AgreedBelow(m1, m2, k), AgreedBelow(m1, m2, k + 1);
    assert k !in a;
    if Agrees(m1, m2, k) {
      assert b == a + {k};
    } else {
      assert b == a;
    }
  }

  /** The flags `vbAlreadyMatched1/2`: an entry of `matches12` marks its own
      keypoint, and the keypoint its landmark has in the second keyframe. */
  method AlreadyMatched(reg: Registry, kf2: KfId, matches12: seq<Option<PointId>>, n2: nat)
    returns (already1: seq<bool>, already2: seq<bool>)
    requires SlotsIn(matches12, reg.points)
    ensures |already1| == |matches12| && |already2| == n2
    ensures forall i :: 0 <= i < |matches12| ==> (already1[i] <==> matches12[i].Some?)
    ensures forall j :: 0 <= j < n2 ==>
      (already2[j] <==> exists i :: 0 <= i < |matches12| && matches12[i].Some? && reg.GetIndexInKeyFrame(matches12[i].value, kf2) == j)
  {
    already1 := seq(|matches12|, _ => false);
    already2 := seq(n2, _ => false);
    for i := 0 to |matches12|
      invariant |already1| == |matches12| && |already2| == n2
      invariant forall x :: 0 <= x < |matches12| ==> (already1[x] <==> x < i && matches12[x].Some?)
      invariant forall j :: 0 <= j < n2 ==>
        (already2[j] <==> exists x :: 0 <= x < i && matches12[x].Some? && reg.GetIndexInKeyFrame(matches12[x].value, kf2) == j)
    {
      var pMP := matches12[i];
      if pMP.Some? {
        already1 := already1[i := true];
        var idx2 := reg.GetIndexInKeyFrame(pMP.value, kf2);
        if idx2 >= 0 && idx2 < n2 {
          already2 := already2[idx2 := true];
        }
      }
    }
  }

  /** Loop closing under a similarity transform: the landmarks of keyframe 1
      not matched on entry are projected into keyframe 2 and matched (the
      closest keypoint of the window, octave in `[level - 1, level]`, distance
      at most `TH_HIGH`), and the same from keyframe 2 into keyframe 1;
      `matches12[i1]` takes the landmark of keyframe 2 exactly when the two
      searches agree. Each direction's result is pinned entry by entry to
      `WindowPick`; other entries are unchanged and the count is the number
      of agreements. */
  method SearchBySim3(reg: Registry, kf1: KfId, kf2: KfId, c: nat, matches12: seq<Option<PointId>>,
                      probes1: seq<Probe>, probes2: seq<Probe>)
    returns (matches12': seq<Option<PointId>>, nFound: int, m1: seq<int>, m2: seq<int>,
             already1: seq<bool>, already2: seq<bool>)
    requires kf1 in reg.keyframes && kf2 in reg.keyframes && kf1 in reg.slots && kf2 in reg.slots
    requires c < |reg.keyframes[kf1].channels| && c < |reg.keyframes[kf2].channels|
    requires c < |reg.slots[kf1]| && c < |reg.slots[kf2]|
    requires |reg.slots[kf1][c]| == |matches12| == |probes1| && |reg.slots[kf2][c]| == |probes2|
    requires |reg.slots[kf1][c]| == reg.keyframes[kf1].channels[c].N() && |reg.slots[kf2][c]| == reg.keyframes[kf2].channels[c].N()
    requires SlotsIn(matches12, reg.points) && SlotsIn(reg.slots[kf1][c], reg.points) && SlotsIn(reg.slots[kf2][c], reg.points)
    requires |reg.keyframes[kf1].channels[c].octaves| == |reg.keyframes[kf1].channels[c].descriptors|
    requires |reg.keyframes[kf2].channels[c].octaves| == |reg.keyframes[kf2].channels[c].descriptors|
    requires forall i :: 0 <= i < |probes1| ==> ProbeFor(probes1[i], reg.keyframes[kf2].channels[c].N())
    requires forall i :: 0 <= i < |probes2| ==> ProbeFor(probes2[i], reg.keyframes[kf1].channels[c].N())
    requires forall i :: 0 <= i < |reg.slots[kf1][c]| && reg.slots[kf1][c][i].Some? ==>
      Comparable(reg.points[reg.slots[kf1][c][i].value].descriptor, reg.keyframes[kf2].channels[c])
    requires forall i :: 0 <= i < |reg.slots[kf2][c]| && reg.slots[kf2][c][i].Some? ==>
      Comparable(reg.points[reg.slots[kf2][c][i].value].descriptor, reg.keyframes[kf1].channels[c])
    ensures |already1| == |matches12| && |already2| == |reg.slots[kf2][c]|
    ensures forall i :: 0 <= i < |matches12| ==> (already1[i] <==> matches12[i].Some?)
    ensures forall j :: 0 <= j < |already2| ==>
      (already2[j] <==> exists i :: 0 <= i < |matches12| && matches12[i].Some? && reg.GetIndexInKeyFrame(matches12[i].value, kf2) == j)
    ensures Projected(reg.points, reg.slots[kf1][c], already1, reg.keyframes[kf2].channels[c], m1)
    ensures Projected(reg.points, reg.slots[kf2][c], already2, reg.keyframes[kf1].channels[c], m2)
    ensures |m1| == |matches12| && forall i :: 0 <= i < |m1| ==>
      m1[i] == DirectionEntry(reg.points, reg.slots[kf1][c], already1, reg.keyframes[kf2].channels[c], probes1, i)
    ensures |m2| == |already2| && forall i :: 0 <= i < |m2| ==>
      m2[i] == DirectionEntry(reg.points, reg.slots[kf2][c], already2, reg.keyframes[kf1].channels[c], probes2, i)
    ensures |matches12'| == |matches12|
    ensures forall i :: 0 <= i < |matches12| ==>
      matches12'[i] == if Agrees(m1, m2, i) then reg.slots[kf2][c][m1[i]] else matches12[i]
    ensures nFound == |AgreedBelow(m1, m2, |m1|)|
  {
    var ch1, ch2 := reg.keyframes[kf1].channels[c], reg.keyframes[kf2].channels[c];
    var slots1, slots2 := reg.slots[kf1][c], reg.slots[kf2][c];
    already1, already2 := AlreadyMatched(reg, kf2, matches12, |slots2|);
    m1 := SearchDirection(reg.points, slots1, already1, ch2, probes1);
    m2 := SearchDirection(reg.points, slots2, already2, ch1, probes2);
    matches12', nFound := Agreement(m1, m2, slots2, matches12);
  }

  /** The final pass of `SearchBySim3`: entry `i1` takes the landmark of its
      partner in keyframe 2 exactly when the two directions agree. */
  method Agreement(m1: seq<int>, m2: seq<int>, slots2: seq<Option<PointId>>, matches12: seq<Option<PointId>>)
    returns (matches12': seq<Option<PointId>>, nFound: int)
    requires |m1| == |matches12| && |m2| == |slots2| && forall i :: 0 <= i < |m1| ==> -1 <= m1[i] < |m2|
    ensures |matches12'| == |matches12|
    ensures forall i :: 0 <= i < |matches12| ==>
      matches12'[i] == if Agrees(m1, m2, i) then slots2[m1[i]] else matches12[i]
    ensures nFound == |AgreedBelow(m1, m2, |m1|)|
  {
    matches12', nFound := matches12, 0;
    for i1 := 0 to |m1|
      invariant |matches12'| == |matches12|
      invariant forall i :: 0 <= i < |matches12| ==>
        matches12'[i] == if i < i1 && Agrees(m1, m2, i) then slots2[m1[i]] else matches12[i]
      invariant nFound == |AgreedBelow(m1, m2, i1)|
    {
      AgreedStep(m1, m2, i1);
      var idx2 := m1[i1];
      if idx2 >= 0 {
        var idx1 := m2[idx2];
        if idx1 == i1 {
          matches12' := matches12'[i1 := slots2[idx2]];
          nFound := nFound + 1;
        }
      }
    }
  }

  /** Agreement only fills entries that were empty on entry, with a landmark
      of keyframe 2 that is not bad. */
  lemma AgreementFillsEmpty(pts: map<PointId, Landmark>, slots1: seq<Option<PointId>>, already1: seq<bool>,
                            ch2: Channel, slots2: seq<Option<PointId>>, already2: seq<bool>, ch1: Channel,
                            m1: seq<int>, m2: seq<int>, matches12: seq<Option<PointId>>, i: nat)
    requires Projected(pts, slots1, already1, ch2, m1) && Projected(pts, slots2, already2, ch1, m2)
    requires |already1| == |matches12| && forall x :: 0 <= x < |matches12| ==> (already1[x] <==> matches12[x].Some?)
    requires Agrees(m1, m2, i)
    ensures i < |matches12| && matches12[i].None?
    ensures slots2[m1[i]].Some? && slots2[m1[i]].value in pts && !pts[slots2[m1[i]].value].bad
  {
    assert Source(pts, slots1, already1, i);
    assert Source(pts, slots2, already2, m1[i]);
  }
}
