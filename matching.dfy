/** What the matchers share: the outcome of the floating-point geometry for
    one query, the distances from a query descriptor to the candidate
    keypoints and the per-candidate skip tests on landmark slots. */
module Matching {
  import opened Common
  import opened Descriptors
  import opened Features
  import opened MapPoints

  /** The geometry of one query, reduced to its outcome: the candidate
      keypoints the spatial query `GetFeaturesInArea` returns (empty when the
      projection, depth, in-image, distance or viewing-angle test already
      failed), whether each candidate passes the matcher's per-candidate
      geometric test (stereo reprojection error, chi-square bound; true where
      the matcher has none), and the level `PredictScale` predicts. */
  datatype Probe = Probe(cands: seq<nat>, fits: seq<bool>, level: int)

  /** A probe into a channel with `n` keypoints. */
  ghost predicate ProbeFor(pr: Probe, n: nat)
  {
    |pr.fits| == |pr.cands| && forall k :: 0 <= k < |pr.cands| ==> pr.cands[k] < n
  }

  /** What a matcher carries from one query to the next: the output vector,
      the rotation histogram and the match count. */
  datatype Pass<T> = Pass(out: seq<T>, hist: seq<seq<nat>>, n: int)

  /** The same for a matcher without a rotation filter. */
  datatype Tally<T> = Tally(out: T, n: int)

  /** Every filled slot names a landmark of `pts`. */
  ghost predicate SlotsIn(s: seq<Option<PointId>>, pts: map<PointId, Landmark>)
  {
    forall i :: 0 <= i < |s| && s[i].Some? ==> s[i].value in pts
  }

  /** Descriptor `d` has the width of every descriptor of the channel. */
  ghost predicate Comparable(d: Descriptor, ch: Channel)
  {
    |d| > 0 && forall i :: 0 <= i < |ch.descriptors| ==> |ch.descriptors[i]| == |d|
  }

  /** The landmark has a descriptor comparable with the channel. */
  ghost predicate Describes(pts: map<PointId, Landmark>, p: PointId, ch: Channel)
  {
    p in pts && Comparable(pts[p].descriptor, ch)
  }

  /** Angles in [0, 360) and an octave for every keypoint. */
  ghost predicate Oriented(ch: Channel)
  {
    && |ch.angles| == |ch.octaves| == |ch.descriptors|
    && forall i :: 0 <= i < |ch.angles| ==> 0.0 <= ch.angles[i] < 360.0
  }

  /** A slot a matcher may take over: empty, or holding a landmark no keyframe
      observes. */
  ghost predicate Free(pts: map<PointId, Landmark>, v: Option<PointId>)
  {
    v.None? || (v.value in pts && pts[v.value].nObs <= 0)
  }

  /** A landmark within distance `th` of keypoint `x` of the channel. */
  ghost predicate Close(pts: map<PointId, Landmark>, v: Option<PointId>, ch: Channel, x: nat, th: int)
  {
    && v.Some? && v.value in pts && x < |ch.descriptors| && Comparable(pts[v.value].descriptor, ch)
    && Distance(pts[v.value].descriptor, ch.descriptors[x]) <= th
  }

  /** Slot vector `s` grew from `s0` by matches only: every changed slot is
      among `writes`, and every written slot was free on entry and now holds
      a landmark of `src` within `th` of its keypoint. */
  ghost predicate MatchedInto(pts: map<PointId, Landmark>, s0: seq<Option<PointId>>, s: seq<Option<PointId>>,
                              writes: seq<nat>, ch: Channel, th: int, src: set<PointId>)
  {
    && |s| == |s0|
    && (forall x :: 0 <= x < |s| && s[x] != s0[x] ==> x in writes)
    && (forall x :: x in writes ==>
          x < |s| && Free(pts, s0[x]) && Close(pts, s[x], ch, x, th) && s[x].value in src)
  }

  /** Nothing is matched yet. */
  lemma MatchedNone(pts: map<PointId, Landmark>, s: seq<Option<PointId>>, ch: Channel, th: int, src: set<PointId>)
    ensures MatchedInto(pts, s, s, [], ch, th, src)
  {
  }

  /** Writing one more match into a free slot. */
  lemma MatchStep(pts: map<PointId, Landmark>, s0: seq<Option<PointId>>, s: seq<Option<PointId>>,
                  writes: seq<nat>, ch: Channel, th: int, src: set<PointId>, x: nat, p: PointId)
    requires MatchedInto(pts, s0, s, writes, ch, th, src)
    requires x < |s| && Free(pts, s[x]) && Close(pts, Some(p), ch, x, th) && p in src
    ensures MatchedInto(pts, s0, s[x := Some(p)], writes + [x], ch, th, src)
  {
  }

  /** The same over every channel of a frame: `writes` holds (channel, slot)
      pairs. */
  ghost predicate MatchedIntoAll(pts: map<PointId, Landmark>, S0: seq<seq<Option<PointId>>>,
                                 S: seq<seq<Option<PointId>>>, writes: seq<(nat, nat)>, chans: seq<Channel>,
                                 th: int, src: set<PointId>)
  {
    && |S| == |S0| == |chans|
    && (forall c :: 0 <= c < |S| ==> |S[c]| == |S0[c]|)
    && (forall c, x :: 0 <= c < |S| && 0 <= x < |S[c]| && S[c][x] != S0[c][x] ==> (c, x) in writes)
    && (forall w :: w in writes ==>
          && w.0 < |S| && w.1 < |S[w.0]| && Free(pts, S0[w.0][w.1])
          && Close(pts, S[w.0][w.1], chans[w.0], w.1, th) && S[w.0][w.1].value in src)
  }

  /** Writing one more match into a free slot of channel `c`. */
  lemma MatchStepAll(pts: map<PointId, Landmark>, S0: seq<seq<Option<PointId>>>, S: seq<seq<Option<PointId>>>,
                     writes: seq<(nat, nat)>, chans: seq<Channel>, th: int, src: set<PointId>,
                     c: nat, x: nat, p: PointId)
    requires MatchedIntoAll(pts, S0, S, writes, chans, th, src)
    requires c < |S| && x < |S[c]| && Free(pts, S[c][x]) && Close(pts, Some(p), chans[c], x, th) && p in src
    ensures MatchedIntoAll(pts, S0, S[c := S[c][x := Some(p)]], writes + [(c, x)], chans, th, src)
  {
    var S' := S[c := S[c][x := Some(p)]];
    forall d, y | 0 <= d < |S'| && 0 <= y < |S'[d]| && S'[d][y] != S0[d][y]
      ensures (d, y) in writes + [(c, x)]
    {
      if (d, y) != (c, x) {
        assert S'[d][y] == S[d][y];
      }
    }
  }

  /** The live landmarks among `qs`: known, not bad and not excluded. */
  ghost function Live(pts: map<PointId, Landmark>, qs: set<PointId>, excluded: set<PointId>): set<PointId>
  {
    set p | p in qs && p in pts && !pts[p].bad && p !in excluded
  }

  /** The landmarks named by the filled slots (`set(begin, end)` minus `NULL`). */
  function Found(s: seq<Option<PointId>>): (r: set<PointId>)
    ensures forall p :: p in r <==> Some(p) in s
  {
    set i | 0 <= i < |s| && s[i].Some? :: s[i].value
  }

  /** `DescriptorDistance` from `d` to each candidate keypoint. */
  function Distances(d: Descriptor, ch: Channel, cands: seq<nat>): (r: seq<int>)
    requires Comparable(d, ch) && forall k :: 0 <= k < |cands| ==> cands[k] < |ch.descriptors|
    ensures |r| == |cands|
    ensures forall k :: 0 <= k < |cands| ==> r[k] == Distance(d, ch.descriptors[cands[k]])
  {
    seq(|cands|, k requires 0 <= k < |cands| => Distance(d, ch.descriptors[cands[k]]))
  }

  /** The candidates whose slot is filled. */
  function Filled(s: seq<Option<PointId>>, cands: seq<nat>): (r: seq<bool>)
    requires forall k :: 0 <= k < |cands| ==> cands[k] < |s|
    ensures |r| == |cands| && forall k :: 0 <= k < |cands| ==> (r[k] <==> s[cands[k]].Some?)
  {
    seq(|cands|, k requires 0 <= k < |cands| => s[cands[k]].Some?)
  }

  /** The candidates whose slot holds a landmark some keyframe observes
      (`Observations() > 0`): those slots are never taken over. */
  function Observed(pts: map<PointId, Landmark>, s: seq<Option<PointId>>, cands: seq<nat>): (r: seq<bool>)
    requires SlotsIn(s, pts) && forall k :: 0 <= k < |cands| ==> cands[k] < |s|
    ensures |r| == |cands|
    ensures forall k :: 0 <= k < |cands| ==> (r[k] <==> s[cands[k]].Some? && pts[s[cands[k]].value].nObs > 0)
  {
    seq(|cands|, k requires 0 <= k < |cands| => s[cands[k]].Some? && pts[s[cands[k]].value].nObs > 0)
  }

  /** The octave of each candidate keypoint. */
  function Levels(octaves: seq<int>, cands: seq<nat>): (r: seq<int>)
    requires forall k :: 0 <= k < |cands| ==> cands[k] < |octaves|
    ensures |r| == |cands| && forall k :: 0 <= k < |cands| ==> r[k] == octaves[cands[k]]
  {
    seq(|cands|, k requires 0 <= k < |cands| => octaves[cands[k]])
  }

  /** The candidates whose octave lies outside `[lo, hi]`. */
  function OutOfBand(octaves: seq<int>, cands: seq<nat>, lo: int, hi: int): (r: seq<bool>)
    requires forall k :: 0 <= k < |cands| ==> cands[k] < |octaves|
    ensures |r| == |cands|
    ensures forall k :: 0 <= k < |cands| ==> (r[k] <==> octaves[cands[k]] < lo || octaves[cands[k]] > hi)
  {
    seq(|cands|, k requires 0 <= k < |cands| => octaves[cands[k]] < lo || octaves[cands[k]] > hi)
  }

  /** A candidate skipped by either test. */
  function Either(a: seq<bool>, b: seq<bool>): (r: seq<bool>)
    requires |a| == |b|
    ensures |r| == |a| && forall k :: 0 <= k < |a| ==> (r[k] <==> a[k] || b[k])
  {
    seq(|a|, k requires 0 <= k < |a| => a[k] || b[k])
  }

  /** The candidates that fail the geometric test. */
  function Unfit(fits: seq<bool>): (r: seq<bool>)
    ensures |r| == |fits| && forall k :: 0 <= k < |fits| ==> (r[k] <==> !fits[k])
  {
    seq(|fits|, k requires 0 <= k < |fits| => !fits[k])
  }

  /** `RadiusByViewingCos`: the search-window factor of the local-map search,
      narrow for a point seen almost head-on. */
  function RadiusByViewingCos(viewCos: real): (r: real)
    ensures viewCos > 0.998 ==> r == 2.5
    ensures viewCos <= 0.998 ==> r == 4.0
  {
    if viewCos > 0.998 then 2.5 else 4.0
  }

  /** The window never widens as the point is seen more nearly head-on. */
  lemma RadiusNarrowsHeadOn(a: real, b: real)
    requires a <= b
    ensures RadiusByViewingCos(b) <= RadiusByViewingCos(a)
  {
  }
}
