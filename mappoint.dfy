/** The landmark lifecycle of `MapPoint`: a registry of landmarks keyed by id,
    the keyframes they are observed in and the keyframes' landmark slots.
    A landmark keeps the observing keyframes with the keypoint index in each,
    the observation weight `nObs` (2 for a stereo keypoint, 1 for a monocular
    one), the visible/found counters, an irreversible bad flag, the landmark
    that replaced it and its representative descriptor. */
module MapPoints {
  import opened Common
  import opened Descriptors
  import opened Features
  import opened Sorting

  /** The part of a keyframe this core reads: its feature channels and
      whether it is bad. */
  datatype KeyFrame = KeyFrame(channels: seq<Channel>, bad: bool)

  /** The state of one landmark. */
  datatype Landmark = Landmark(
    ftype: nat,                 // feature channel it belongs to
    obs: map<KfId, nat>,        // observing keyframe -> keypoint index
    nObs: int,
    visible: int,
    found: int,
    bad: bool,
    replaced: Option<PointId>,
    refKF: Option<KfId>,
    firstKF: int,               // id of the creating keyframe, -1 when created from a frame
    descriptor: Descriptor)     // empty until computed, for a keyframe-created landmark

  /** The landmark slots of all keyframes as `EraseMapPointMatch` leaves them
      after the observations `obs` of a channel-`c` landmark by the keyframes
      `keys` are dropped. */
  function EraseSlots(slots: map<KfId, seq<seq<Option<PointId>>>>, obs: map<KfId, nat>, keys: set<KfId>, c: nat)
    : (r: map<KfId, seq<seq<Option<PointId>>>>)
    ensures r.Keys == slots.Keys
  {
    map kf | kf in slots ::
      if kf in keys && kf in obs && c < |slots[kf]| && obs[kf] < |slots[kf][c]|
      then slots[kf][c := slots[kf][c][obs[kf] := None]]
      else slots[kf]
  }

  /** Every observation in `obs` of a channel-`c` landmark names an existing
      slot. */
  ghost predicate ObserversIn(slots: map<KfId, seq<seq<Option<PointId>>>>, obs: map<KfId, nat>, c: nat)
  {
    forall kf :: kf in obs ==> kf in slots && c < |slots[kf]| && obs[kf] < |slots[kf][c]|
  }

  /** The slots of keyframes that hold no landmark yet: one empty slot per
      keypoint of every channel. */
  function EmptySlots(keyframes: map<KfId, KeyFrame>): (r: map<KfId, seq<seq<Option<PointId>>>>)
    ensures r.Keys == keyframes.Keys
    ensures forall kf :: kf in r ==> |r[kf]| == |keyframes[kf].channels|
    ensures forall kf, c :: kf in r && 0 <= c < |r[kf]| ==> |r[kf][c]| == keyframes[kf].channels[c].N()
    ensures forall kf, c, i :: kf in r && 0 <= c < |r[kf]| && 0 <= i < |r[kf][c]| ==> r[kf][c][i] == None
  {
    map kf | kf in keyframes ::
      seq(|keyframes[kf].channels|, c requires 0 <= c < |keyframes[kf].channels| =>
        seq(keyframes[kf].channels[c].N(), _ => None))
  }

  /** The first key of an observation map in the model's key order, the
      least id. The source's map is ordered by keyframe address, an order
      the model replaces by id. */
  method FirstKey(keys: set<nat>) returns (m: nat)
    requires keys != {}
    ensures m == MinKey(keys)
  {
    HasMin(keys);
    m :| m in keys && forall k :: k in keys ==> m <= k;
  }

  /** A second write to the same key overrides the first. */
  lemma UpdateTwice<K, V>(m: map<K, V>, k: K, x: V, y: V)
    ensures m[k := x][k := y] == m[k := y]
  {
  }

  /** The part of `Channel.WellFormed` the registry relies on. */
  ghost predicate ChannelShaped(ch: Channel, width: nat)
  {
    && width > 0
    && |ch.uRight| == |ch.descriptors|
    && (forall i :: 0 <= i < |ch.descriptors| ==> |ch.descriptors[i]| == width)
  }

  /** Erasing one more observer's slot. */
  lemma EraseSlotsStep(s: map<KfId, seq<seq<Option<PointId>>>>, obs: map<KfId, nat>, done: set<KfId>, kf: KfId, c: nat)
    requires kf !in done && kf in obs && kf in s && c < |s[kf]| && obs[kf] < |s[kf][c]|
    ensures EraseSlots(s, obs, done, c)[kf] == s[kf]
    ensures EraseSlots(s, obs, done + {kf}, c)
      == EraseSlots(s, obs, done, c)[kf := s[kf][c := s[kf][c][obs[kf] := None]]]
  {
  }

  /** Erasing keeps the shape and touches no filled slot other than by
      emptying it. */
  lemma EraseSlotsShape(s: map<KfId, seq<seq<Option<PointId>>>>, obs: map<KfId, nat>, keys: set<KfId>, c: nat)
    ensures SameShape(EraseSlots(s, obs, keys, c), s)
    ensures forall kf, c', i ::
      (kf in s && 0 <= c' < |EraseSlots(s, obs, keys, c)[kf]| && 0 <= i < |EraseSlots(s, obs, keys, c)[kf][c']|
        && EraseSlots(s, obs, keys, c)[kf][c'][i].Some?)
        ==> EraseSlots(s, obs, keys, c)[kf][c'][i] == s[kf][c'][i]
  {
  }

  /** Two slot tables of the same keyframes and lengths. */
  ghost predicate SameShape(s1: map<KfId, seq<seq<Option<PointId>>>>, s2: map<KfId, seq<seq<Option<PointId>>>>)
  {
    && s1.Keys == s2.Keys
    && forall kf :: kf in s1 ==> (
      |s1[kf]| == |s2[kf]| && forall c :: 0 <= c < |s1[kf]| ==> |s1[kf][c]| == |s2[kf][c]|)
  }

  /** The slots after the transfer loop of `Replace` has visited the former
      observers `keys`: each visited keyframe's slot of a channel-`c` landmark
      now holds `b`, or is emptied where `b` was already observed (`obsB`). */
  function RedirectSlots(slots: map<KfId, seq<seq<Option<PointId>>>>, obsA: map<KfId, nat>,
                         obsB: map<KfId, nat>, keys: set<KfId>, c: nat, b: PointId)
    : (r: map<KfId, seq<seq<Option<PointId>>>>)
    ensures r.Keys == slots.Keys
  {
    map kf | kf in slots ::
      if kf in keys && kf in obsA && c < |slots[kf]| && obsA[kf] < |slots[kf][c]|
      then slots[kf][c := slots[kf][c][obsA[kf] := if kf in obsB then None else Some(b)]]
      else slots[kf]
  }

  /** Redirecting one more former observer's slot. */
  lemma RedirectSlotsStep(s: map<KfId, seq<seq<Option<PointId>>>>, obsA: map<KfId, nat>, obsB: map<KfId, nat>,
                          done: set<KfId>, kf: KfId, c: nat, b: PointId)
    requires kf !in done && kf in obsA && kf in s && c < |s[kf]| && obsA[kf] < |s[kf][c]|
    ensures RedirectSlots(s, obsA, obsB, done, c, b)[kf] == s[kf]
    ensures RedirectSlots(s, obsA, obsB, done + {kf}, c, b)
      == RedirectSlots(s, obsA, obsB, done, c, b)[kf := s[kf][c := s[kf][c][obsA[kf] := if kf in obsB then None else Some(b)]]]
  {
  }

  /** Redirecting keeps the shape, and every filled slot either is unchanged
      or holds `b`. */
  lemma RedirectSlotsShape(s: map<KfId, seq<seq<Option<PointId>>>>, obsA: map<KfId, nat>, obsB: map<KfId, nat>,
                           keys: set<KfId>, c: nat, b: PointId)
    ensures SameShape(RedirectSlots(s, obsA, obsB, keys, c, b), s)
    ensures forall kf, c', i ::
      (kf in s && 0 <= c' < |RedirectSlots(s, obsA, obsB, keys, c, b)[kf]|
        && 0 <= i < |RedirectSlots(s, obsA, obsB, keys, c, b)[kf][c']|
        && RedirectSlots(s, obsA, obsB, keys, c, b)[kf][c'][i].Some?)
        ==> (RedirectSlots(s, obsA, obsB, keys, c, b)[kf][c'][i] == s[kf][c'][i]
          || RedirectSlots(s, obsA, obsB, keys, c, b)[kf][c'][i] == Some(b))
  {
  }

  /** One row of the redirected slots: the same length, and every entry is
      unchanged, emptied or `b`. */
  lemma RedirectRow(s: map<KfId, seq<seq<Option<PointId>>>>, obsA: map<KfId, nat>, obsB: map<KfId, nat>,
                    keys: set<KfId>, c: nat, b: PointId, kf: KfId, c': nat)
    requires kf in s && c' < |s[kf]|
    ensures |RedirectSlots(s, obsA, obsB, keys, c, b)[kf]| == |s[kf]|
    ensures |RedirectSlots(s, obsA, obsB, keys, c, b)[kf][c']| == |s[kf][c']|
    ensures forall i :: 0 <= i < |s[kf][c']| ==>
      var v := RedirectSlots(s, obsA, obsB, keys, c, b)[kf][c'][i];
      v == s[kf][c'][i] || v == None || v == Some(b)
  {
  }

  /** `PredictScale`'s clamp of the predicted level into [0, nLevels - 1]. */
  function ClampScale(nScale: int, nLevels: int): (r: int)
    ensures nLevels >= 1 ==> 0 <= r < nLevels
    ensures 0 <= nScale < nLevels ==> r == nScale
    ensures nScale < 0 ==> r == 0
    ensures 0 <= nScale && nScale >= nLevels ==> r == nLevels - 1
  {
    if nScale < 0 then 0
    else if nScale >= nLevels then nLevels - 1
    else nScale
  }

  /** The distance-matrix entry of two observed descriptors (0 on the
      diagonal, as the source writes it). */
  function Dist(ds: seq<Descriptor>, i: nat, j: nat): int
    requires i < |ds| && j < |ds| && 0 < |ds[i]| == |ds[j]|
  {
    if i == j then 0 else Distance(ds[i], ds[j])
  }

  ghost predicate SameWidth(ds: seq<Descriptor>)
  {
    forall i :: 0 <= i < |ds| ==> 0 < |ds[i]| == |ds[0]|
  }

  /** Row `i` of the distance matrix. */
  function Row(ds: seq<Descriptor>, i: nat): (r: seq<int>)
    requires SameWidth(ds) && i < |ds|
    ensures |r| == |ds|
  {
    seq(|ds|, j requires 0 <= j < |ds| => Dist(ds, i, j))
  }

  /** The element at position (N-1)/2 of the sorted row (index `0.5 * (N-1)`
      truncated). */
  function Median(ds: seq<Descriptor>, i: nat): int
    requires SameWidth(ds) && i < |ds|
  {
    Sort(Row(ds, i))[(|ds| - 1) / 2]
  }

  /** The median distance of every observed descriptor to the others. */
  function Medians(ds: seq<Descriptor>): (m: seq<int>)
    requires SameWidth(ds)
    ensures |m| == |ds| && forall k :: 0 <= k < |ds| ==> m[k] == Median(ds, k)
  {
    seq(|ds|, k requires 0 <= k < |ds| => Median(ds, k))
  }

  /** The index the median loop picks: the least median distance, the
      earliest on ties. */
  function MedoidIndex(ds: seq<Descriptor>): (i: nat)
    requires SameWidth(ds) && ds != []
    ensures IsFirstMin(Medians(ds), i)
  {
    ArgFirstMin(Medians(ds))
  }

  /** Every median is a distance, so at most 256 and below `INT_MAX`. */
  lemma MedianBound(ds: seq<Descriptor>, i: nat)
    requires SameWidth(ds) && i < |ds|
    ensures 0 <= Median(ds, i) <= 256
  {
    var row := Row(ds, i);
    var sorted := Sort(row);
    var m := sorted[(|ds| - 1) / 2];
    assert m in multiset(sorted);
    assert m in multiset(row);
    var j :| 0 <= j < |row| && row[j] == m;
    if i != j {
      DistanceBound(ds[i], ds[j]);
    }
  }

  /** The distance matrix of `ComputeDistinctiveDescriptors`: zero on the
      diagonal, each pair's distance computed once and stored both ways. */
  method DistanceMatrix(ds: seq<Descriptor>) returns (d: array2<int>)
    requires SameWidth(ds)
    ensures fresh(d) && d.Length0 == |ds| && d.Length1 == |ds|
    ensures forall i, j :: 0 <= i < |ds| && 0 <= j < |ds| ==> d[i, j] == Dist(ds, i, j)
  {
    var n := |ds|;
    d := new int[n, n];
    for i := 0 to n
      invariant forall a, b :: 0 <= a < n && 0 <= b < n && (a < i || b < i) ==> d[a, b] == Dist(ds, a, b)
    {
      d[i, i] := 0;
      for j := i + 1 to n
        invariant d[i, i] == 0
        invariant forall a, b :: 0 <= a < n && 0 <= b < n && (a < i || b < i) ==> d[a, b] == Dist(ds, a, b)
        invariant forall b :: i < b < j ==> d[i, b] == Dist(ds, i, b) && d[b, i] == Dist(ds, b, i)
      {
        var dist := DescriptorDistance(ds[i], ds[j]);
        DistanceSymmetric(ds[i], ds[j]);
        d[i, j] := dist;
        d[j, i] := dist;
      }
    }
  }

  /** Row `i` of the matrix, sorted, at position (N-1)/2. */
  method RowMedian(d: array2<int>, ghost ds: seq<Descriptor>, i: nat) returns (median: int)
    requires SameWidth(ds) && i < |ds|
    requires d.Length0 == |ds| && d.Length1 == |ds|
    requires forall a, b :: 0 <= a < |ds| && 0 <= b < |ds| ==> d[a, b] == Dist(ds, a, b)
    ensures median == Median(ds, i)
  {
    var row := seq(d.Length1, j requires 0 <= j < d.Length1 reads d => d[i, j]);
    assert row == Row(ds, i);
    var sorted := Sort(row);
    median := sorted[(d.Length1 - 1) / 2];
  }

  /** The state of the median loop after `i` rows: `best` is the first
      minimum of the first `i` medians and `bestV` its median, or index 0
      and `INT_MAX` before the first row. */
  ghost predicate FirstMinSoFar(v: seq<int>, i: nat, best: nat, bestV: int)
  {
    && i <= |v|
    && (i == 0 ==> best == 0 && bestV == INT_MAX)
    && (i > 0 ==> best < i && bestV == v[best])
    && (forall k :: 0 <= k < i ==> v[best] <= v[k])
    && (forall k :: 0 <= k < best ==> v[best] < v[k])
  }

  /** One more row: a strictly smaller median takes over. */
  lemma FirstMinSoFarStep(v: seq<int>, i: nat, best: nat, bestV: int)
    requires FirstMinSoFar(v, i, best, bestV) && i < |v| && v[i] < INT_MAX
    ensures v[i] < bestV ==> FirstMinSoFar(v, i + 1, i, v[i])
    ensures v[i] >= bestV ==> FirstMinSoFar(v, i + 1, best, bestV)
  {
  }

  /** After the last row the running best is the first minimum. */
  lemma FirstMinSoFarDone(v: seq<int>, best: nat, bestV: int)
    requires v != [] && FirstMinSoFar(v, |v|, best, bestV)
    ensures IsFirstMin(v, best)
  {
  }

  /** The median loop: a strictly smaller median replaces the running best,
      which starts at `INT_MAX` and index 0. It picks `MedoidIndex`. */
  method BestMedianIndex(d: array2<int>, ghost ds: seq<Descriptor>) returns (best: nat)
    requires SameWidth(ds) && ds != []
    requires d.Length0 == |ds| && d.Length1 == |ds|
    requires forall i, j :: 0 <= i < |ds| && 0 <= j < |ds| ==> d[i, j] == Dist(ds, i, j)
    ensures best == MedoidIndex(ds)
  {
    var n := d.Length0;
    var bestMedian := INT_MAX;
    best := 0;
    ghost var meds := Medians(ds);
    for i := 0 to n
      invariant FirstMinSoFar(meds, i, best, bestMedian)
    {
      var median := RowMedian(d, ds, i);
      MedianBound(ds, i);
      FirstMinSoFarStep(meds, i, best, bestMedian);
      if median < bestMedian {
        bestMedian, best := median, i;
      }
    }
    FirstMinSoFarDone(meds, best, bestMedian);
    FirstMinUnique(meds, best, MedoidIndex(ds));
  }

  class Registry {
    /** Descriptor width of each feature channel. */
    const widths: seq<nat>
    /** The keyframes by id. */
    const keyframes: map<KfId, KeyFrame>
    /** The landmark slots `mvpMapPoints` of each keyframe, per channel. */
    var slots: map<KfId, seq<seq<Option<PointId>>>>
    /** The landmarks by id. */
    var points: map<PointId, Landmark>
    /** The landmarks the map holds. */
    var inMap: set<PointId>
    /** The static id counter `nNextId`. */
    var nextId: nat

    /** Each keyframe has one channel per feature type, and each channel
        parallel right coordinates and descriptors of its type's width. */
    ghost predicate KeyFramesWellFormed()
    {
      && (forall kf :: kf in keyframes ==> |keyframes[kf].channels| == |widths|)
      && (forall kf, c {:trigger keyframes[kf].channels[c]} :: kf in keyframes && 0 <= c < |widths| ==>
            ChannelShaped(keyframes[kf].channels[c], widths[c]))
    }

    /** Every observation names a keyframe and a keypoint of channel `ftype`. */
    ghost predicate ObsInRange(obs: map<KfId, nat>, ftype: nat)
    {
      ftype < |widths|
        && forall kf :: kf in obs ==> (
          && kf in keyframes && ftype < |keyframes[kf].channels|
          && obs[kf] < keyframes[kf].channels[ftype].N()
          && obs[kf] < |keyframes[kf].channels[ftype].uRight|)
    }

    /** The weight one observation adds to `nObs`: 2 for a stereo keypoint
        (right coordinate not negative), 1 for a monocular one. */
    ghost function ObsWeight(kf: KfId, idx: nat, ftype: nat): (w: int)
      requires kf in keyframes && ftype < |keyframes[kf].channels|
      requires idx < |keyframes[kf].channels[ftype].uRight|
      ensures w == 1 || w == 2
    {
      if keyframes[kf].channels[ftype].uRight[idx] >= 0.0 then 2 else 1
    }

    /** The observations made with a stereo keypoint. */
    ghost function StereoObs(obs: map<KfId, nat>, ftype: nat): (r: set<KfId>)
      requires ObsInRange(obs, ftype)
      ensures r <= obs.Keys
    {
      set kf | kf in obs && keyframes[kf].channels[ftype].uRight[obs[kf]] >= 0.0
    }

    /** The total weight of a set of observations: one per observation and
        one more per stereo observation. */
    ghost function Weight(obs: map<KfId, nat>, ftype: nat): int
      requires ObsInRange(obs, ftype)
    {
      |obs| + |StereoObs(obs, ftype)|
    }

    /** Dropping an observation keeps the rest in range. */
    lemma ObsInRangeMinus(obs: map<KfId, nat>, kf: KfId, ftype: nat)
      requires ObsInRange(obs, ftype)
      ensures ObsInRange(obs - {kf}, ftype) && (obs - {kf}).Keys == obs.Keys - {kf}
    {
    }

    /** Removing one observation takes away exactly its own weight. */
    lemma WeightRemove(obs: map<KfId, nat>, kf: KfId, ftype: nat)
      requires ObsInRange(obs, ftype) && kf in obs
      ensures ObsInRange(obs - {kf}, ftype)
      ensures Weight(obs, ftype) == ObsWeight(kf, obs[kf], ftype) + Weight(obs - {kf}, ftype)
    {
      ObsInRangeMinus(obs, kf, ftype);
      assert StereoObs(obs - {kf}, ftype) == StereoObs(obs, ftype) - {kf};
      assert |obs - {kf}| == |(obs - {kf}).Keys| == |obs.Keys| - 1;
    }

    /** No observations weigh nothing. */
    lemma WeightEmpty(ftype: nat)
      requires ftype < |widths|
      ensures Weight(map[], ftype) == 0
    {
      assert StereoObs(map[], ftype) == {};
    }

    /** Adding a new observation adds exactly its own weight. */
    lemma WeightAdd(obs: map<KfId, nat>, kf: KfId, idx: nat, ftype: nat)
      requires ObsInRange(obs, ftype) && kf !in obs
      requires kf in keyframes && ftype < |keyframes[kf].channels|
      requires idx < keyframes[kf].channels[ftype].N() && idx < |keyframes[kf].channels[ftype].uRight|
      ensures ObsInRange(obs[kf := idx], ftype)
      ensures Weight(obs[kf := idx], ftype) == Weight(obs, ftype) + ObsWeight(kf, idx, ftype)
    {
      WeightRemove(obs[kf := idx], kf, ftype);
      assert obs[kf := idx] - {kf} == obs;
    }

    /** Observations in range stay in range when put together. */
    lemma ObsInRangeUnion(a: map<KfId, nat>, b: map<KfId, nat>, ftype: nat)
      requires ObsInRange(a, ftype) && ObsInRange(b, ftype)
      ensures ObsInRange(a + b, ftype)
    {
    }

    /** The stereo observers of two disjoint observation sets put together. */
    lemma StereoUnion(a: map<KfId, nat>, b: map<KfId, nat>, ftype: nat)
      requires ObsInRange(a, ftype) && ObsInRange(b, ftype) && ObsInRange(a + b, ftype) && a.Keys !! b.Keys
      ensures StereoObs(a + b, ftype) == StereoObs(a, ftype) + StereoObs(b, ftype)
    {
    }

    /** The weight of observations by two disjoint sets of keyframes is the
        sum of their weights. */
    lemma WeightUnion(a: map<KfId, nat>, b: map<KfId, nat>, ftype: nat)
      requires ObsInRange(a, ftype) && ObsInRange(b, ftype) && a.Keys !! b.Keys
      ensures ObsInRange(a + b, ftype)
      ensures Weight(a + b, ftype) == Weight(a, ftype) + Weight(b, ftype)
    {
      ObsInRangeUnion(a, b, ftype);
      MapUnionSize(a, b);
      StereoUnion(a, b, ftype);
      SetUnionSize(StereoObs(a, ftype), StereoObs(b, ftype));
    }

    /** `nObs` is the weight of the observations of a landmark that is not
        bad. */
    ghost predicate Counted(l: Landmark)
    {
      ObsInRange(l.obs, l.ftype) && (!l.bad ==> l.nObs == Weight(l.obs, l.ftype))
    }

    /** Every landmark is counted. */
    ghost predicate AllCounted(points: map<PointId, Landmark>)
    {
      forall p :: p in points ==> Counted(points[p])
    }

    /** One landmark's invariant, given the ids in use. */
    ghost predicate PointValid(l: Landmark, ids: set<PointId>)
    {
      && ObsInRange(l.obs, l.ftype)
      && (l.bad ==> l.obs == map[])
      && (l.replaced.Some? ==> l.bad && l.replaced.value in ids)
      && (|l.descriptor| == 0 || |l.descriptor| == widths[l.ftype])
    }

    /** Slot tables shaped like the keyframes' channels. */
    ghost predicate SlotsShaped(s: map<KfId, seq<seq<Option<PointId>>>>)
    {
      && s.Keys == keyframes.Keys
      && (forall kf :: kf in s ==> |s[kf]| == |keyframes[kf].channels|)
      && (forall kf, c :: kf in s && 0 <= c < |s[kf]| ==> |s[kf][c]| == keyframes[kf].channels[c].N())
    }

    /** Every filled slot names a landmark in use. */
    ghost predicate SlotsKnown(s: map<KfId, seq<seq<Option<PointId>>>>, ids: set<PointId>)
    {
      forall kf, c, i ::
        (kf in s && 0 <= c < |s[kf]| && 0 <= i < |s[kf][c]| && s[kf][c][i].Some?)
          ==> s[kf][c][i].value in ids
    }

    /** The registry invariant: ids below the counter, bad landmarks without
        observations, observations in range, keyframe slots shaped like the
        keyframes' channels and naming known landmarks, and the map holding
        only good landmarks. */
    ghost predicate Valid()
      reads this
    {
      StateValid(points, slots, inMap, nextId)
    }

    /** `Valid` on the values of the mutable fields. */
    ghost predicate StateValid(points: map<PointId, Landmark>, slots: map<KfId, seq<seq<Option<PointId>>>>,
                               inMap: set<PointId>, nextId: nat)
    {
      && KeyFramesWellFormed()
      && (forall p :: p in points ==> p < nextId)
      && (forall p :: 0 <= p < nextId ==> p in points)
      && (forall p :: p in points ==> PointValid(points[p], points.Keys))
      && AllCounted(points)
      && SlotsShaped(slots)
      && SlotsKnown(slots, points.Keys)
      && inMap <= points.Keys
      && (forall p :: p in inMap ==> !points[p].bad)
    }

    /** Replacing one landmark's state by a valid one keeps the registry valid. */
    lemma UpdateValid(points: map<PointId, Landmark>, slots: map<KfId, seq<seq<Option<PointId>>>>,
                      inMap: set<PointId>, nextId: nat, p: PointId, l: Landmark)
      requires StateValid(points, slots, inMap, nextId) && p in points
      requires PointValid(l, points.Keys) && Counted(l) && (p in inMap ==> !l.bad)
      ensures StateValid(points[p := l], slots, inMap, nextId)
    {
      assert points[p := l].Keys == points.Keys;
    }

    /** Writing a slot with nothing or a landmark in use keeps the registry
        valid. */
    lemma SetSlotValid(points: map<PointId, Landmark>, slots: map<KfId, seq<seq<Option<PointId>>>>,
                       inMap: set<PointId>, nextId: nat, kf: KfId, c: nat, idx: nat, v: Option<PointId>)
      requires StateValid(points, slots, inMap, nextId)
      requires kf in slots && c < |slots[kf]| && idx < |slots[kf][c]|
      requires v.Some? ==> v.value in points
      ensures StateValid(points, slots[kf := slots[kf][c := slots[kf][c][idx := v]]], inMap, nextId)
    {
      SetSlotKnown(slots, kf, c, idx, v, points.Keys);
      SlotsValid(points, slots, slots[kf := slots[kf][c := slots[kf][c][idx := v]]], inMap, nextId);
    }

    /** Writing one slot keeps the shape, and the slots known if the new
        value is. */
    lemma SetSlotKnown(s: map<KfId, seq<seq<Option<PointId>>>>, kf: KfId, c: nat, idx: nat, v: Option<PointId>,
                       ids: set<PointId>)
      requires SlotsKnown(s, ids) && kf in s && c < |s[kf]| && idx < |s[kf][c]|
      requires v.Some? ==> v.value in ids
      ensures SameShape(s[kf := s[kf][c := s[kf][c][idx := v]]], s)
      ensures SlotsKnown(s[kf := s[kf][c := s[kf][c][idx := v]]], ids)
    {
      var s': map<KfId, seq<seq<Option<PointId>>>> := s[kf := s[kf][c := s[kf][c][idx := v]]];
      forall k: KfId, c': int, i: int | k in s' && 0 <= c' < |s'[k]| && 0 <= i < |s'[k][c']| && s'[k][c'][i].Some?
        ensures s'[k][c'][i].value in ids
      {
        if k != kf || c' != c || i != idx {
          assert s'[k][c'][i] == s[k][c'][i];
        }
      }
    }

    /** A new landmark under the next id, valid with it, keeps the registry
        valid. */
    lemma GrowValid(points: map<PointId, Landmark>, slots: map<KfId, seq<seq<Option<PointId>>>>,
                    inMap: set<PointId>, nextId: nat, l: Landmark)
      requires StateValid(points, slots, inMap, nextId) && PointValid(l, points.Keys + {nextId}) && Counted(l)
      ensures StateValid(points[nextId := l], slots, inMap, nextId + 1)
    {
      var p' := points[nextId := l];
      assert p'.Keys == points.Keys + {nextId};
      KnownMono(slots, points.Keys, p'.Keys);
      GrowPoints(points, p', nextId, l, inMap);
      CountedUpdate(points, nextId, l);
      GrowIds(points, p', nextId, l);
    }

    /** The ids in use grow by the next one. */
    lemma GrowIds(points: map<PointId, Landmark>, p': map<PointId, Landmark>, nextId: nat, l: Landmark)
      requires p' == points[nextId := l]
      requires (forall p :: p in points ==> p < nextId) && (forall p :: 0 <= p < nextId ==> p in points)
      ensures (forall p :: p in p' ==> p < nextId + 1) && (forall p :: 0 <= p < nextId + 1 ==> p in p')
    {
    }

    /** Every landmark stays counted when a counted one is put under `id`. */
    lemma CountedUpdate(points: map<PointId, Landmark>, id: PointId, l: Landmark)
      requires AllCounted(points) && Counted(l)
      ensures AllCounted(points[id := l])
    {
    }

    /** The landmarks, and the good ones of the map, stay valid when a new
        landmark valid with it joins under an unused id. */
    lemma GrowPoints(points: map<PointId, Landmark>, p': map<PointId, Landmark>, id: PointId, l: Landmark,
                     inMap: set<PointId>)
      requires p' == points[id := l] && id !in points && PointValid(l, points.Keys + {id})
      requires forall p :: p in points ==> PointValid(points[p], points.Keys)
      requires inMap <= points.Keys && forall p :: p in inMap ==> !points[p].bad
      ensures forall p :: p in p' ==> PointValid(p'[p], p'.Keys)
      ensures forall p :: p in inMap ==> !p'[p].bad
    {
      assert p'.Keys == points.Keys + {id};
      PointsMono(points, p'.Keys);
      forall p | p in p'
        ensures PointValid(p'[p], p'.Keys)
      {
        if p != id {
          assert p'[p] == points[p];
        }
      }
      forall p | p in inMap
        ensures !p'[p].bad
      {
        assert p != id && p'[p] == points[p];
      }
    }

    /** More ids in use keep the slots known. */
    lemma KnownMono(s: map<KfId, seq<seq<Option<PointId>>>>, ids: set<PointId>, ids': set<PointId>)
      requires SlotsKnown(s, ids) && ids <= ids'
      ensures SlotsKnown(s, ids')
    {
    }

    /** More ids in use keep the landmarks valid. */
    lemma PointsMono(points: map<PointId, Landmark>, ids: set<PointId>)
      requires (forall p :: p in points ==> PointValid(points[p], points.Keys)) && points.Keys <= ids
      ensures forall p :: p in points ==> PointValid(points[p], ids)
    {
    }

    /** New slot tables of the same shape whose filled slots name landmarks
        in use keep the registry valid. */
    lemma SlotsValid(points: map<PointId, Landmark>, slots: map<KfId, seq<seq<Option<PointId>>>>,
                     s': map<KfId, seq<seq<Option<PointId>>>>, inMap: set<PointId>, nextId: nat)
      requires StateValid(points, slots, inMap, nextId)
      requires SameShape(s', slots) && SlotsKnown(s', points.Keys)
      ensures StateValid(points, s', inMap, nextId)
    {
      ShapedFrom(s', slots);
    }

    /** A table of the same shape as a well-shaped one is well shaped. */
    lemma ShapedFrom(s': map<KfId, seq<seq<Option<PointId>>>>, s: map<KfId, seq<seq<Option<PointId>>>>)
      requires SlotsShaped(s) && SameShape(s', s)
      ensures SlotsShaped(s')
    {
    }

    /** Emptying slots leaves only known landmarks. */
    lemma ErasedKnown(s: map<KfId, seq<seq<Option<PointId>>>>, obs: map<KfId, nat>, keys: set<KfId>, c: nat,
                      ids: set<PointId>)
      requires SlotsKnown(s, ids)
      ensures SameShape(EraseSlots(s, obs, keys, c), s) && SlotsKnown(EraseSlots(s, obs, keys, c), ids)
    {
      EraseSlotsShape(s, obs, keys, c);
    }

    /** Redirecting slots to a known landmark leaves only known landmarks. */
    lemma RedirectedKnown(s: map<KfId, seq<seq<Option<PointId>>>>, obsA: map<KfId, nat>, obsB: map<KfId, nat>,
                          keys: set<KfId>, c: nat, b: PointId, ids: set<PointId>)
      requires SlotsKnown(s, ids) && b in ids
      ensures SameShape(RedirectSlots(s, obsA, obsB, keys, c, b), s)
      ensures SlotsKnown(RedirectSlots(s, obsA, obsB, keys, c, b), ids)
    {
      RedirectSlotsShape(s, obsA, obsB, keys, c, b);
    }

    /** A registry over the given keyframes with no landmarks yet. */
    constructor (widths: seq<nat>, keyframes: map<KfId, KeyFrame>)
      requires forall kf :: kf in keyframes ==> |keyframes[kf].channels| == |widths|
      requires forall kf, c :: kf in keyframes && 0 <= c < |widths| ==> ChannelShaped(keyframes[kf].channels[c], widths[c])
      ensures Valid()
      ensures this.widths == widths && this.keyframes == keyframes
      ensures points == map[] && inMap == {} && nextId == 0
      ensures forall kf, c, i :: kf in slots && 0 <= c < |slots[kf]| && 0 <= i < |slots[kf][c]| ==> slots[kf][c][i] == None
    {
      this.widths := widths;
      this.keyframes := keyframes;
      slots := EmptySlots(keyframes);
      points := map[];
      inMap := {};
      nextId := 0;
    }

    /** A fresh landmark: no observations, `nObs` 0, both counters 1, not
        bad, no replacement. */
    ghost function Fresh(ftype: nat, refKF: Option<KfId>, firstKF: int, descriptor: Descriptor): (l: Landmark)
      ensures l.obs == map[] && l.nObs == 0 && l.visible == 1 && l.found == 1 && !l.bad && l.replaced == None
    {
      Landmark(ftype, map[], 0, 1, 1, false, None, refKF, firstKF, descriptor)
    }

    /** A fresh landmark is counted and, with a descriptor of its channel's
        width or none, valid under the next id. */
    lemma FreshValid(points: map<PointId, Landmark>, slots: map<KfId, seq<seq<Option<PointId>>>>,
                     inMap: set<PointId>, nextId: nat, ftype: nat, refKF: Option<KfId>, firstKF: int, d: Descriptor)
      requires StateValid(points, slots, inMap, nextId) && ftype < |widths|
      requires |d| == 0 || |d| == widths[ftype]
      ensures Counted(Fresh(ftype, refKF, firstKF, d))
      ensures StateValid(points[nextId := Fresh(ftype, refKF, firstKF, d)], slots, inMap, nextId + 1)
    {
      WeightEmpty(ftype);
      assert PointValid(Fresh(ftype, refKF, firstKF, d), points.Keys + {nextId});
      GrowValid(points, slots, inMap, nextId, Fresh(ftype, refKF, firstKF, d));
    }

    /** The keyframe constructor: a fresh landmark with the creating keyframe
        as reference, no descriptor yet, and the next id. */
    method CreateFromKeyFrame(refKF: KfId, ftype: nat) returns (id: PointId)
      requires Valid() && refKF in keyframes && ftype < |widths|
      modifies this
      ensures Valid()
      ensures id == old(nextId) && nextId == old(nextId) + 1 && id !in old(points)
      ensures points == old(points)[id := Fresh(ftype, Some(refKF), refKF, [])]
      ensures slots == old(slots) && inMap == old(inMap)
    {
      FreshValid(points, slots, inMap, nextId, ftype, Some(refKF), refKF, []);
      id := nextId;
      points := points[id := Landmark(ftype, map[], 0, 1, 1, false, None, Some(refKF), refKF, [])];
      nextId := nextId + 1;
    }

    /** The frame constructor: as above but without a reference keyframe,
        `mnFirstKFid` -1, and the descriptor of keypoint `idxF` of the frame. */
    method CreateFromFrame(frame: Channel, idxF: nat, ftype: nat) returns (id: PointId)
      requires Valid() && ftype < |widths| && frame.WellFormed(widths[ftype]) && idxF < frame.N()
      modifies this
      ensures Valid()
      ensures id == old(nextId) && nextId == old(nextId) + 1 && id !in old(points)
      ensures points == old(points)[id := Fresh(ftype, None, -1, frame.descriptors[idxF])]
      ensures slots == old(slots) && inMap == old(inMap)
    {
      FreshValid(points, slots, inMap, nextId, ftype, None, -1, frame.descriptors[idxF]);
      id := nextId;
      points := points[id := Landmark(ftype, map[], 0, 1, 1, false, None, None, -1, frame.descriptors[idxF])];
      nextId := nextId + 1;
    }

    /** `Map::AddMapPoint`. */
    method AddToMap(p: PointId)
      requires Valid() && p in points && !points[p].bad
      modifies this
      ensures Valid()
      ensures inMap == old(inMap) + {p}
      ensures points == old(points) && slots == old(slots) && nextId == old(nextId)
    {
      inMap := inMap + {p};
    }

    /** `isBad`: in a valid registry a bad landmark has no observations left
        and is no longer in the map. */
    function IsBad(p: PointId): (r: bool)
      requires p in points
      reads this
      ensures r <==> points[p].bad
      ensures Valid() && r ==> points[p].obs == map[] && p !in inMap
    {
      points[p].bad
    }

    /** `Observations`: the observation weight `nObs`. */
    function Observations(p: PointId): (r: int)
      requires p in points
      reads this
      ensures Valid() && !points[p].bad ==> r == Weight(points[p].obs, points[p].ftype)
    {
      points[p].nObs
    }

    /** The stored keypoint index, or -1 for a keyframe that does not observe
        it; in a valid registry the index names a keypoint of the landmark's
        channel in that keyframe. */
    function GetIndexInKeyFrame(p: PointId, kf: KfId): (r: int)
      requires p in points
      reads this
      ensures r == -1 <==> kf !in points[p].obs
      ensures r != -1 ==> r == points[p].obs[kf] && r >= 0
      ensures Valid() && r != -1 ==>
        kf in keyframes && points[p].ftype < |keyframes[kf].channels| && r < keyframes[kf].channels[points[p].ftype].N()
    {
      if kf in points[p].obs then points[p].obs[kf] else -1
    }

    /** Whether keyframe `kf` observes the landmark. */
    function IsInKeyFrame(p: PointId, kf: KfId): (r: bool)
      requires p in points
      reads this
      ensures r <==> kf in points[p].obs
    {
      kf in points[p].obs
    }

    /** The two queries agree: a keyframe observes the landmark exactly when
        it has an index in it. */
    lemma InKeyFrameIffIndex(p: PointId, kf: KfId)
      requires p in points
      ensures IsInKeyFrame(p, kf) <==> GetIndexInKeyFrame(p, kf) >= 0
    {
    }

    /** A landmark with one more observation, and its weight added. */
    ghost function Added(l: Landmark, kf: KfId, idx: nat): (l': Landmark)
      requires kf in keyframes && l.ftype < |keyframes[kf].channels|
      requires idx < |keyframes[kf].channels[l.ftype].uRight|
      ensures kf in l'.obs && l'.obs[kf] == idx && l'.obs.Keys == l.obs.Keys + {kf}
    {
      l.(obs := l.obs[kf := idx], nObs := l.nObs + ObsWeight(kf, idx, l.ftype))
    }

    /** Adding a new observation keeps `nObs` the weight of the observations. */
    lemma AddedCounted(l: Landmark, kf: KfId, idx: nat)
      requires Counted(l) && kf !in l.obs
      requires kf in keyframes && l.ftype < |keyframes[kf].channels|
      requires idx < keyframes[kf].channels[l.ftype].N() && idx < |keyframes[kf].channels[l.ftype].uRight|
      ensures Counted(Added(l, kf, idx))
    {
      WeightAdd(l.obs, kf, idx, l.ftype);
    }

    /** A good landmark that gains a new observation stays valid. */
    lemma AddValid(points: map<PointId, Landmark>, slots: map<KfId, seq<seq<Option<PointId>>>>,
                   inMap: set<PointId>, nextId: nat, p: PointId, kf: KfId, idx: nat)
      requires StateValid(points, slots, inMap, nextId) && p in points && !points[p].bad && kf !in points[p].obs
      requires kf in keyframes && idx < keyframes[kf].channels[points[p].ftype].N()
      ensures StateValid(points[p := Added(points[p], kf, idx)], slots, inMap, nextId)
    {
      var l := points[p];
      assert ChannelShaped(keyframes[kf].channels[l.ftype], widths[l.ftype]);
      AddedPointValid(l, kf, idx, points.Keys);
      AddedCounted(l, kf, idx);
      UpdateValid(points, slots, inMap, nextId, p, Added(l, kf, idx));
    }

    /** In a valid registry a good landmark may gain an observation of any
        keypoint with a `uRight` entry. */
    lemma AddGoodValid(p: PointId, kf: KfId, idx: nat)
      requires Valid() && p in points && !points[p].bad && kf !in points[p].obs
      requires kf in keyframes && points[p].ftype < |keyframes[kf].channels|
      requires idx < |keyframes[kf].channels[points[p].ftype].uRight|
      ensures StateValid(points[p := Added(points[p], kf, idx)], slots, inMap, nextId)
    {
      assert PointValid(points[p], points.Keys);
      assert ChannelShaped(keyframes[kf].channels[points[p].ftype], widths[points[p].ftype]);
      AddValid(points, slots, inMap, nextId, p, kf, idx);
    }

    /** A good landmark's new observation of a keypoint in range keeps it
        valid. */
    lemma AddedPointValid(l: Landmark, kf: KfId, idx: nat, ids: set<PointId>)
      requires PointValid(l, ids) && !l.bad && kf !in l.obs
      requires kf in keyframes && l.ftype < |keyframes[kf].channels|
      requires idx < keyframes[kf].channels[l.ftype].N() && idx < |keyframes[kf].channels[l.ftype].uRight|
      ensures PointValid(Added(l, kf, idx), ids)
    {
    }

    /** A keyframe already observing the landmark changes nothing; otherwise
        the observation is recorded and `nObs` grows by 2 for a stereo
        keypoint and by 1 for a monocular one. The registry stays valid when
        the landmark is good; the source does not check the flag, and a bad
        landmark that gains an observation breaks "bad implies no
        observations". */
    method AddObservation(p: PointId, kf: KfId, idx: nat)
      requires p in points && kf in keyframes && points[p].ftype < |keyframes[kf].channels|
      requires idx < |keyframes[kf].channels[points[p].ftype].uRight|
      modifies this
      ensures old(kf in points[p].obs) ==> points == old(points)
      ensures old(kf !in points[p].obs) ==> points == old(points)[p := Added(old(points[p]), kf, idx)]
      ensures slots == old(slots) && inMap == old(inMap) && nextId == old(nextId)
      ensures old(Valid()) && !old(points[p].bad) ==> Valid()
    {
      var l := points[p];
      if kf in l.obs {
        return;
      }
      var w := if keyframes[kf].channels[l.ftype].uRight[idx] >= 0.0 then 2 else 1;
      assert l.(obs := l.obs[kf := idx], nObs := l.nObs + w) == Added(l, kf, idx);
      if Valid() && !l.bad {
        AddGoodValid(p, kf, idx);
      }
      points := points[p := l.(obs := l.obs[kf := idx], nObs := l.nObs + w)];
    }

    /** `KeyFrame::EraseMapPointMatch`: slot `idx` of channel `c` of `kf` is
        emptied. */
    method EraseMapPointMatch(kf: KfId, c: nat, idx: nat)
      requires kf in slots && c < |slots[kf]| && idx < |slots[kf][c]|
      modifies this
      ensures slots == old(slots)[kf := old(slots[kf])[c := old(slots[kf][c])[idx := None]]]
      ensures points == old(points) && inMap == old(inMap) && nextId == old(nextId)
    {
      slots := slots[kf := slots[kf][c := slots[kf][c][idx := None]]];
    }

    /** `KeyFrame::ReplaceMapPointMatch` / `AddMapPoint`: slot `idx` of
        channel `c` of `kf` now holds `p`. */
    method SetMapPointMatch(kf: KfId, c: nat, idx: nat, p: PointId)
      requires kf in slots && c < |slots[kf]| && idx < |slots[kf][c]|
      modifies this
      ensures slots == old(slots)[kf := old(slots[kf])[c := old(slots[kf][c])[idx := Some(p)]]]
      ensures points == old(points) && inMap == old(inMap) && nextId == old(nextId)
    {
      slots := slots[kf := slots[kf][c := slots[kf][c][idx := Some(p)]]];
    }

    /** The loop of `SetBadFlag` over the copied observations: each observer's
        slot of channel `c` is emptied, in whatever order the map is walked. */
    method EraseObserverSlots(obs: map<KfId, nat>, c: nat)
      requires ObserversIn(slots, obs, c)
      modifies this
      ensures slots == EraseSlots(old(slots), obs, obs.Keys, c)
      ensures points == old(points) && inMap == old(inMap) && nextId == old(nextId)
    {
      ghost var s0 := slots;
      var todo := obs.Keys;
      ghost var done: set<KfId> := {};
      EraseNone(s0, obs, c);
      while todo != {}
        invariant todo <= obs.Keys && done == obs.Keys - todo
        invariant slots == EraseSlots(s0, obs, done, c)
        invariant points == old(points) && inMap == old(inMap) && nextId == old(nextId)
        decreases |todo|
      {
        var kf :| kf in todo;
        MoveOne(obs.Keys, done, todo, kf);
        EraseSlotsStep(s0, obs, done, kf, c);
        EraseMapPointMatch(kf, c, obs[kf]);
        done := done + {kf};
        todo := todo - {kf};
      }
      MinusNothing(obs.Keys, todo);
    }

    /** Setting a landmark bad, emptying its former observers' slots and
        taking it out of the map keeps the registry valid; the bad landmark
        is counted. */
    lemma BadValid(points: map<PointId, Landmark>, slots: map<KfId, seq<seq<Option<PointId>>>>,
                   inMap: set<PointId>, nextId: nat, p: PointId)
      requires StateValid(points, slots, inMap, nextId) && p in points
      ensures Counted(points[p].(bad := true, obs := map[]))
      ensures ObserversIn(slots, points[p].obs, points[p].ftype)
      ensures StateValid(points[p := points[p].(bad := true, obs := map[])],
                         EraseSlots(slots, points[p].obs, points[p].obs.Keys, points[p].ftype), inMap - {p}, nextId)
    {
      var l := points[p];
      var p' := points[p := l.(bad := true, obs := map[])];
      UpdateValid(points, slots, inMap - {p}, nextId, p, l.(bad := true, obs := map[]));
      assert p'.Keys == points.Keys;
      ErasedKnown(slots, l.obs, l.obs.Keys, l.ftype, p'.Keys);
      SlotsValid(p', slots, EraseSlots(slots, l.obs, l.obs.Keys, l.ftype), inMap - {p}, nextId);
      ObservedSlots(points, slots, inMap, nextId, p);
    }

    /** The landmark becomes bad with no observations, every former observer's
        slot is emptied and the map no longer holds it. */
    method SetBadFlag(p: PointId)
      requires Valid() && p in points
      modifies this
      ensures Valid()
      ensures points == old(points)[p := old(points[p]).(bad := true, obs := map[])]
      ensures slots == EraseSlots(old(slots), old(points[p].obs), old(points[p].obs).Keys, old(points[p].ftype))
      ensures inMap == old(inMap) - {p} && nextId == old(nextId)
    {
      var l := points[p];
      BadValid(points, slots, inMap, nextId, p);
      points := points[p := l.(bad := true, obs := map[])];
      EraseObserverSlots(l.obs, l.ftype);
      inMap := inMap - {p};
    }

    /** `IncreaseVisible`: the visible counter grows by `n`, and the registry stays
        valid. */
    method IncreaseVisible(p: PointId, n: int)
      requires p in points
      modifies this
      ensures points == old(points)[p := old(points[p]).(visible := old(points[p].visible) + n)]
      ensures slots == old(slots) && inMap == old(inMap) && nextId == old(nextId)
      ensures old(Valid()) ==> Valid()
    {
      var l := points[p];
      if Valid() {
        UpdateValid(points, slots, inMap, nextId, p, l.(visible := l.visible + n));
      }
      points := points[p := l.(visible := l.visible + n)];
    }

    /** `IncreaseFound`: the found counter grows by `n`, and the registry stays
        valid. */
    method IncreaseFound(p: PointId, n: int)
      requires p in points
      modifies this
      ensures points == old(points)[p := old(points[p]).(found := old(points[p].found) + n)]
      ensures slots == old(slots) && inMap == old(inMap) && nextId == old(nextId)
      ensures old(Valid()) ==> Valid()
    {
      var l := points[p];
      if Valid() {
        UpdateValid(points, slots, inMap, nextId, p, l.(found := l.found + n));
      }
      points := points[p := l.(found := l.found + n)];
    }

    /** The new reference keyframe after `kf` leaves the observations `obs'`:
        the remaining observer of least id (the source takes the least
        keyframe address), or none when no observer remains. */
    ghost function NextRefKF(refKF: Option<KfId>, kf: KfId, obs': map<KfId, nat>): (r: Option<KfId>)
      ensures refKF != Some(kf) ==> r == refKF
      ensures refKF == Some(kf) && obs' != map[] ==>
        r.Some? && r.value in obs' && forall k :: k in obs' ==> r.value <= k
      ensures refKF == Some(kf) && obs' == map[] ==> r == None
    {
      if refKF != Some(kf) then refKF
      else if obs' == map[] then None
      else Some(MinKey(obs'.Keys))
    }

    /** The landmark with `kf`'s observation removed: a smaller weight and
        the next reference keyframe. */
    ghost function Dropped(l: Landmark, kf: KfId): (l': Landmark)
      requires ObsInRange(l.obs, l.ftype) && kf in l.obs
      ensures l'.obs.Keys == l.obs.Keys - {kf}
    {
      var obs' := l.obs - {kf};
      l.(obs := obs', nObs := l.nObs - ObsWeight(kf, l.obs[kf], l.ftype), refKF := NextRefKF(l.refKF, kf, obs'))
    }

    /** Dropping an observation keeps `nObs` the weight of the observations. */
    lemma DroppedCounted(l: Landmark, kf: KfId)
      requires Counted(l) && kf in l.obs
      ensures Counted(Dropped(l, kf))
    {
      WeightRemove(l.obs, kf, l.ftype);
    }

    /** The removal in `EraseObservation`, computed as the source does: the
        weight of the keypoint comes off and a reference keyframe that leaves
        is replaced by the first remaining observer. */
    method DropFrom(l: Landmark, kf: KfId) returns (l': Landmark)
      requires ObsInRange(l.obs, l.ftype) && kf in l.obs
      ensures l' == Dropped(l, kf)
    {
      var idx := l.obs[kf];
      var w := if keyframes[kf].channels[l.ftype].uRight[idx] >= 0.0 then 2 else 1;
      var obs' := l.obs - {kf};
      var ref := l.refKF;
      if ref == Some(kf) {
        if obs' == map[] {
          ref := None;
        } else {
          var m := FirstKey(obs'.Keys);
          ref := Some(m);
        }
      }
      l' := l.(obs := obs', nObs := l.nObs - w, refKF := ref);
    }

    /** Dropping an observation keeps the registry valid. */
    lemma DropValid(points: map<PointId, Landmark>, slots: map<KfId, seq<seq<Option<PointId>>>>,
                    inMap: set<PointId>, nextId: nat, p: PointId, kf: KfId)
      requires StateValid(points, slots, inMap, nextId) && p in points && kf in points[p].obs
      ensures StateValid(points[p := Dropped(points[p], kf)], slots, inMap, nextId)
    {
      ObsInRangeMinus(points[p].obs, kf, points[p].ftype);
      DroppedCounted(points[p], kf);
      UpdateValid(points, slots, inMap, nextId, p, Dropped(points[p], kf));
    }

    /** The first half of `EraseObservation`, under the landmark's lock. */
    method DropObservation(p: PointId, kf: KfId)
      requires Valid() && p in points && kf in points[p].obs
      modifies this
      ensures Valid()
      ensures points == old(points)[p := Dropped(old(points[p]), kf)]
      ensures slots == old(slots) && inMap == old(inMap) && nextId == old(nextId)
    {
      var l' := DropFrom(points[p], kf);
      DropValid(points, slots, inMap, nextId, p, kf);
      points := points[p := l'];
    }

    /** Dropping keyframe `kf`'s observation: nothing happens when it does not
        observe the landmark; otherwise the observation and its weight go, the
        reference keyframe moves on if it was `kf`, and a landmark left with
        weight at most 2 is set bad. */
    method EraseObservation(p: PointId, kf: KfId)
      requires Valid() && p in points
      modifies this
      ensures Valid()
      ensures old(kf !in points[p].obs) ==> points == old(points) && slots == old(slots) && inMap == old(inMap)
      ensures old(kf in points[p].obs) && old(Dropped(points[p], kf)).nObs > 2 ==>
        && points == old(points)[p := old(Dropped(points[p], kf))]
        && slots == old(slots) && inMap == old(inMap)
      ensures old(kf in points[p].obs) && old(Dropped(points[p], kf)).nObs <= 2 ==>
        && points == old(points)[p := old(Dropped(points[p], kf)).(bad := true, obs := map[])]
        && slots == EraseSlots(old(slots), old(Dropped(points[p], kf)).obs, old(Dropped(points[p], kf)).obs.Keys, old(points[p].ftype))
        && inMap == old(inMap) - {p}
      ensures nextId == old(nextId)
    {
      if kf !in points[p].obs {
        return;
      }
      ghost var m0 := points;
      ghost var d := Dropped(points[p], kf);
      DropObservation(p, kf);
      if points[p].nObs <= 2 {
        SetBadFlag(p);
        UpdateTwice(m0, p, d, d.(bad := true, obs := map[]));
      }
    }

    /** The descriptors `ComputeDistinctiveDescriptors` gathers from the
        observations by `keys`: one per keyframe that is not bad, in
        ascending keyframe id (the source visits them by keyframe address). */
    ghost function ObservedDescriptors(obs: map<KfId, nat>, ftype: nat, keys: set<KfId>): (ds: seq<Descriptor>)
      requires KeyFramesWellFormed() && ObsInRange(obs, ftype) && keys <= obs.Keys
      ensures |ds| <= |keys|
      ensures forall i :: 0 <= i < |ds| ==> 0 < |ds[i]| == widths[ftype]
      decreases |keys|
    {
      if keys == {} then []
      else
        var k := MinKey(keys);
        (if keyframes[k].bad then [] else [keyframes[k].channels[ftype].descriptors[obs[k]]])
          + ObservedDescriptors(obs, ftype, keys - {k})
    }

    /** Nothing is gathered exactly when every observer in `keys` is bad. */
    lemma {:induction false} ObservedDescriptorsEmpty(obs: map<KfId, nat>, ftype: nat, keys: set<KfId>)
      requires KeyFramesWellFormed() && ObsInRange(obs, ftype) && keys <= obs.Keys
      ensures ObservedDescriptors(obs, ftype, keys) == [] <==> forall k :: k in keys ==> keyframes[k].bad
      decreases |keys|
    {
      if keys != {} {
        var k := MinKey(keys);
        ObservedDescriptorsEmpty(obs, ftype, keys - {k});
      }
    }

    /** Every gathered descriptor is the observed keypoint's descriptor in an
        observing keyframe that is not bad. */
    lemma {:induction false} ObservedDescriptorFrom(obs: map<KfId, nat>, ftype: nat, keys: set<KfId>, i: nat)
      requires KeyFramesWellFormed() && ObsInRange(obs, ftype) && keys <= obs.Keys
      requires i < |ObservedDescriptors(obs, ftype, keys)|
      ensures exists k :: (k in keys && !keyframes[k].bad
        && keyframes[k].channels[ftype].descriptors[obs[k]] == ObservedDescriptors(obs, ftype, keys)[i])
      decreases |keys|
    {
      var k := MinKey(keys);
      if keyframes[k].bad {
        ObservedDescriptorFrom(obs, ftype, keys - {k}, i);
      } else if i > 0 {
        ObservedDescriptorFrom(obs, ftype, keys - {k}, i - 1);
      }
    }

    /** The descriptor `ComputeDistinctiveDescriptors` leaves: the current one
        for a bad landmark or one whose observers are all bad, otherwise the
        gathered descriptor with the least median distance to the others (the
        first on ties). */
    ghost function Representative(l: Landmark): (d: Descriptor)
      requires KeyFramesWellFormed() && ObsInRange(l.obs, l.ftype)
      ensures |d| == |l.descriptor| || |d| == widths[l.ftype]
    {
      if l.bad then l.descriptor
      else
        var ds := ObservedDescriptors(l.obs, l.ftype, l.obs.Keys);
        if ds == [] then l.descriptor else ds[MedoidIndex(ds)]
    }

    /** A new representative is always the descriptor of one of the landmark's
        observations in a keyframe that is not bad. */
    lemma RepresentativeObserved(l: Landmark)
      requires KeyFramesWellFormed() && ObsInRange(l.obs, l.ftype)
      requires Representative(l) != l.descriptor
      ensures exists k :: (k in l.obs && !keyframes[k].bad
        && keyframes[k].channels[l.ftype].descriptors[l.obs[k]] == Representative(l))
    {
      var ds := ObservedDescriptors(l.obs, l.ftype, l.obs.Keys);
      ObservedDescriptorFrom(l.obs, l.ftype, l.obs.Keys, MedoidIndex(ds));
    }

    /** One step of the gathering loop: the least remaining observer's
        descriptor, unless its keyframe is bad. */
    lemma ObservedDescriptorsStep(obs: map<KfId, nat>, ftype: nat, keys: set<KfId>, k: KfId)
      requires KeyFramesWellFormed() && ObsInRange(obs, ftype) && keys <= obs.Keys
      requires keys != {} && k == MinKey(keys)
      ensures ObservedDescriptors(obs, ftype, keys)
        == (if keyframes[k].bad then [] else [keyframes[k].channels[ftype].descriptors[obs[k]]])
          + ObservedDescriptors(obs, ftype, keys - {k})
    {
    }

    /** The gathering loop over the observations in ascending keyframe id. */
    method CollectDescriptors(obs: map<KfId, nat>, ftype: nat) returns (ds: seq<Descriptor>)
      requires KeyFramesWellFormed() && ObsInRange(obs, ftype)
      ensures ds == ObservedDescriptors(obs, ftype, obs.Keys)
    {
      ds := [];
      var rest := obs.Keys;
      while rest != {}
        invariant rest <= obs.Keys
        invariant ObservedDescriptors(obs, ftype, obs.Keys) == ds + ObservedDescriptors(obs, ftype, rest)
        decreases |rest|
      {
        var k := FirstKey(rest);
        ObservedDescriptorsStep(obs, ftype, rest, k);
        ghost var next := if keyframes[k].bad then [] else [keyframes[k].channels[ftype].descriptors[obs[k]]];
        SeqAssoc(ds, next, ObservedDescriptors(obs, ftype, rest - {k}));
        if !keyframes[k].bad {
          ds := ds + [keyframes[k].channels[ftype].descriptors[obs[k]]];
        } else {
          assert ds + next == ds;
        }
        rest := rest - {k};
      }
    }

    /** The computation of `ComputeDistinctiveDescriptors`, with its early
        returns: bad, no observations, no observer that is not bad. */
    method DistinctiveDescriptor(l: Landmark) returns (d: Descriptor)
      requires KeyFramesWellFormed() && ObsInRange(l.obs, l.ftype)
      ensures d == Representative(l)
    {
      if l.bad {
        return l.descriptor;
      }
      if l.obs == map[] {
        return l.descriptor;
      }
      var ds := CollectDescriptors(l.obs, l.ftype);
      if ds == [] {
        return l.descriptor;
      }
      var dist := DistanceMatrix(ds);
      var best := BestMedianIndex(dist, ds);
      d := ds[best];
    }

    /** The landmark's descriptor becomes its `Representative`, and the
        registry stays valid. */
    method ComputeDistinctiveDescriptors(p: PointId)
      requires KeyFramesWellFormed() && p in points && ObsInRange(points[p].obs, points[p].ftype)
      modifies this
      ensures points == old(points)[p := old(points[p]).(descriptor := Representative(old(points[p])))]
      ensures slots == old(slots) && inMap == old(inMap) && nextId == old(nextId)
      ensures old(Valid()) ==> Valid()
    {
      var l := points[p];
      if Valid() {
        DescriptorValid(points, slots, inMap, nextId, p);
      }
      var d := DistinctiveDescriptor(l);
      points := points[p := l.(descriptor := d)];
    }

    /** The observations of `obsA` by the keyframes `keys`. */
    ghost function Restrict(obsA: map<KfId, nat>, keys: set<KfId>): (r: map<KfId, nat>)
      ensures r.Keys == obsA.Keys * keys && forall k :: k in r ==> r[k] == obsA[k]
    {
      map k | k in obsA && k in keys :: obsA[k]
    }

    /** Landmark `b` after taking over the observations of `obsA` by the
        keyframes `done`. */
    ghost function AbsorbedUpTo(lb: Landmark, obsA: map<KfId, nat>, done: set<KfId>): (l: Landmark)
      requires ObsInRange(obsA, lb.ftype)
    {
      ObsInRangeRestrict(obsA, done, lb.ftype);
      Absorbed(lb, Restrict(obsA, done))
    }

    /** Landmark `b` after taking over the observations `obsA`: it keeps its
        own keypoint where both observe, and gains the weight of the rest. */
    ghost function Absorbed(lb: Landmark, obsA: map<KfId, nat>): (l: Landmark)
      requires ObsInRange(obsA, lb.ftype)
      ensures l.obs.Keys == obsA.Keys + lb.obs.Keys
      ensures forall k :: k in lb.obs ==> l.obs[k] == lb.obs[k]
      ensures forall k :: k in obsA && k !in lb.obs ==> l.obs[k] == obsA[k]
    {
      lb.(obs := obsA + lb.obs, nObs := lb.nObs + Weight(obsA - lb.obs.Keys, lb.ftype))
    }

    /** Landmark `b` after `Replace` from `a`, before its descriptor is
        recomputed: `a`'s observations absorbed and its counters added. */
    ghost function Merged(la: Landmark, lb: Landmark): (l: Landmark)
      requires ObsInRange(la.obs, lb.ftype)
      ensures l.visible == lb.visible + la.visible && l.found == lb.found + la.found
    {
      Absorbed(lb, la.obs).(visible := lb.visible + la.visible, found := lb.found + la.found)
    }

    /** The observations of `obsA` by keyframes outside `keys`. */
    lemma ObsInRangeWithout(obsA: map<KfId, nat>, keys: set<KfId>, ftype: nat)
      requires ObsInRange(obsA, ftype)
      ensures ObsInRange(obsA - keys, ftype)
    {
      forall kf | kf in obsA - keys
        ensures (obsA - keys)[kf] == obsA[kf]
      {
      }
    }

    /** Absorbing observations keeps `nObs` the weight of the observations. */
    lemma AbsorbedCounted(lb: Landmark, obsA: map<KfId, nat>)
      requires Counted(lb) && ObsInRange(obsA, lb.ftype)
      ensures Counted(Absorbed(lb, obsA))
    {
      ObsInRangeWithout(obsA, lb.obs.Keys, lb.ftype);
      MapMinusUnion(obsA, lb.obs);
      WeightUnion(obsA - lb.obs.Keys, lb.obs, lb.ftype);
    }

    /** So does the whole merge of `Replace`, and its descriptor update. */
    lemma MergedCounted(la: Landmark, lb: Landmark, d: Descriptor)
      requires Counted(lb) && ObsInRange(la.obs, lb.ftype)
      ensures Counted(Merged(la, lb)) && Counted(Merged(la, lb).(descriptor := d))
    {
      AbsorbedCounted(lb, la.obs);
    }

    /** A restriction of observations in range is in range. */
    lemma ObsInRangeRestrict(obsA: map<KfId, nat>, keys: set<KfId>, ftype: nat)
      requires ObsInRange(obsA, ftype)
      ensures ObsInRange(Restrict(obsA, keys), ftype)
    {
    }

    /** Restricting to all the observers changes nothing. */
    lemma RestrictAll(obsA: map<KfId, nat>, keys: set<KfId>)
      requires obsA.Keys <= keys
      ensures Restrict(obsA, keys) == obsA
    {
    }

    /** Restricting to one more observer adds its observation. */
    lemma RestrictAdd(obsA: map<KfId, nat>, keys: set<KfId>, kf: KfId)
      requires kf in obsA
      ensures Restrict(obsA, keys + {kf}) == Restrict(obsA, keys)[kf := obsA[kf]]
    {
    }

    /** One more visited observer: absorbing it changes nothing where `b`
        already observed the keyframe, and adds it otherwise. */
    lemma AbsorbStep(lb: Landmark, obsA: map<KfId, nat>, done: set<KfId>, kf: KfId)
      requires ObsInRange(obsA, lb.ftype) && kf in obsA && kf !in done
      ensures ObsInRange(Restrict(obsA, done), lb.ftype) && ObsInRange(Restrict(obsA, done + {kf}), lb.ftype)
      ensures (kf in Absorbed(lb, Restrict(obsA, done)).obs) == (kf in lb.obs)
      ensures kf in lb.obs ==> Absorbed(lb, Restrict(obsA, done + {kf})) == Absorbed(lb, Restrict(obsA, done))
      ensures kf !in lb.obs ==>
        Absorbed(lb, Restrict(obsA, done + {kf})) == Added(Absorbed(lb, Restrict(obsA, done)), kf, obsA[kf])
    {
      var r, v, K := Restrict(obsA, done), obsA[kf], lb.obs.Keys;
      ObsInRangeRestrict(obsA, done, lb.ftype);
      ObsInRangeRestrict(obsA, done + {kf}, lb.ftype);
      RestrictAdd(obsA, done, kf);
      if kf in lb.obs {
        MapUpdateUnionShadowed(r, lb.obs, kf, v);
        MapUpdateMinusIn(r, K, kf, v);
      } else {
        AbsorbNew(lb, r, kf, v);
      }
    }

    /** The case of `AbsorbStep` where `b` did not observe the keyframe:
        absorbing one more observation `kf := v` is adding it. */
    lemma AbsorbNew(lb: Landmark, r: map<KfId, nat>, kf: KfId, v: nat)
      requires ObsInRange(r, lb.ftype) && ObsInRange(r[kf := v], lb.ftype)
      requires kf !in r && kf !in lb.obs
      ensures Absorbed(lb, r[kf := v]) == Added(Absorbed(lb, r), kf, v)
    {
      MapUpdateUnion(r, lb.obs, kf, v);
      AbsorbNewWeight(r, lb.obs.Keys, kf, v, lb.ftype);
    }

    /** The observation counted by the absorbed weight. */
    lemma AbsorbNewWeight(r: map<KfId, nat>, K: set<KfId>, kf: KfId, v: nat, ftype: nat)
      requires ObsInRange(r, ftype) && ObsInRange(r[kf := v], ftype)
      requires kf !in r && kf !in K
      ensures ObsInRange(r - K, ftype) && ObsInRange(r[kf := v] - K, ftype)
      ensures Weight(r[kf := v] - K, ftype) == Weight(r - K, ftype) + ObsWeight(kf, v, ftype)
    {
      ObsInRangeWithout(r, K, ftype);
      ObsInRangeWithout(r[kf := v], K, ftype);
      MapUpdateMinus(r, K, kf, v);
      WeightAdd(r - K, kf, v, ftype);
    }

    /** One iteration of the transfer loop of `Replace`: where `b` does not
        yet observe `kf`, the slot now holds `b` and `b` gains the
        observation; otherwise the slot is emptied. */
    method RedirectObserver(kf: KfId, c: nat, idx: nat, b: PointId)
      requires b in points && points[b].ftype == c
      requires kf in keyframes && c < |keyframes[kf].channels| && idx < |keyframes[kf].channels[c].uRight|
      requires kf in slots && c < |slots[kf]| && idx < |slots[kf][c]|
      modifies this
      ensures old(kf in points[b].obs) ==>
        && points == old(points)
        && slots == old(slots)[kf := old(slots[kf])[c := old(slots[kf][c])[idx := None]]]
      ensures old(kf !in points[b].obs) ==>
        && points == old(points)[b := Added(old(points[b]), kf, idx)]
        && slots == old(slots)[kf := old(slots[kf])[c := old(slots[kf][c])[idx := Some(b)]]]
      ensures inMap == old(inMap) && nextId == old(nextId)
    {
      if !IsInKeyFrame(b, kf) {
        SetMapPointMatch(kf, c, idx, b);
        AddObservation(b, kf, idx);
      } else {
        EraseMapPointMatch(kf, c, idx);
      }
    }

    /** One pass of the transfer loop of `Replace`, stated against the
        state before the loop (`p0`, `s0`) and the observers visited so far. */
    method TransferOne(obsA: map<KfId, nat>, b: PointId, ghost lb: Landmark,
                       ghost p0: map<PointId, Landmark>, ghost s0: map<KfId, seq<seq<Option<PointId>>>>,
                       ghost done: set<KfId>, kf: KfId)
      requires ObsInRange(obsA, lb.ftype) && kf in obsA && kf !in done
      requires kf in s0 && lb.ftype < |s0[kf]| && obsA[kf] < |s0[kf][lb.ftype]|
      requires points == p0[b := AbsorbedUpTo(lb, obsA, done)]
      requires slots == RedirectSlots(s0, obsA, lb.obs, done, lb.ftype, b)
      modifies this
      ensures points == p0[b := AbsorbedUpTo(lb, obsA, done + {kf})]
      ensures slots == RedirectSlots(s0, obsA, lb.obs, done + {kf}, lb.ftype, b)
      ensures inMap == old(inMap) && nextId == old(nextId)
    {
      AbsorbStep(lb, obsA, done, kf);
      RedirectSlotsStep(s0, obsA, lb.obs, done, kf, lb.ftype, b);
      RedirectObserver(kf, points[b].ftype, obsA[kf], b);
      if kf !in lb.obs {
        UpdateTwice(p0, b, AbsorbedUpTo(lb, obsA, done), AbsorbedUpTo(lb, obsA, done + {kf}));
      }
    }

    /** The transfer loop of `Replace` over the copied observations `obsA` of
        the landmark being replaced, visited in any order. */
    method TransferObservations(obsA: map<KfId, nat>, b: PointId)
      requires b in points && ObsInRange(obsA, points[b].ftype)
      requires forall kf :: kf in obsA ==> kf in slots && points[b].ftype < |slots[kf]| && obsA[kf] < |slots[kf][points[b].ftype]|
      modifies this
      ensures points == old(points)[b := Absorbed(old(points[b]), obsA)]
      ensures slots == RedirectSlots(old(slots), obsA, old(points[b].obs), obsA.Keys, old(points[b].ftype), b)
      ensures inMap == old(inMap) && nextId == old(nextId)
    {
      ghost var lb, p0, s0 := points[b], points, slots;
      var todo := obsA.Keys;
      ghost var done: set<KfId> := {};
      AbsorbNone(lb, obsA);
      RedirectNone(s0, obsA, lb.obs, lb.ftype, b);
      while todo != {}
        invariant todo <= obsA.Keys && done == obsA.Keys - todo
        invariant points == p0[b := AbsorbedUpTo(lb, obsA, done)]
        invariant slots == RedirectSlots(s0, obsA, lb.obs, done, lb.ftype, b)
        invariant inMap == old(inMap) && nextId == old(nextId)
        decreases |todo|
      {
        var kf :| kf in todo;
        MoveOne(obsA.Keys, done, todo, kf);
        TransferOne(obsA, b, lb, p0, s0, done, kf);
        done := done + {kf};
        todo := todo - {kf};
      }
      MinusNothing(obsA.Keys, todo);
      AbsorbAll(lb, obsA);
    }

    /** Once every observer is visited, all of `obsA` is absorbed. */
    lemma AbsorbAll(lb: Landmark, obsA: map<KfId, nat>)
      requires ObsInRange(obsA, lb.ftype)
      ensures AbsorbedUpTo(lb, obsA, obsA.Keys) == Absorbed(lb, obsA)
    {
      RestrictAll(obsA, obsA.Keys);
    }

    /** Before the loop nothing has been absorbed. */
    lemma AbsorbNone(lb: Landmark, obsA: map<KfId, nat>)
      requires ObsInRange(obsA, lb.ftype)
      ensures AbsorbedUpTo(lb, obsA, {}) == lb
    {
      var none := Restrict(obsA, {});
      WeightEmpty(lb.ftype);
      assert none == map[];
      assert none + lb.obs == lb.obs;
      assert none - lb.obs.Keys == none;
    }

    /** The landmark `a` after `Replace(b)`: bad, without observations and
        replaced by `b`. */
    ghost function Retired(la: Landmark, b: PointId): (l: Landmark)
      ensures l.bad && l.obs == map[] && l.replaced == Some(b)
    {
      la.(obs := map[], bad := true, replaced := Some(b))
    }

    /** Retiring `a` in favour of another landmark `b` and taking it out of
        the map keeps the registry valid. */
    lemma RetireValid(points: map<PointId, Landmark>, slots: map<KfId, seq<seq<Option<PointId>>>>,
                      inMap: set<PointId>, nextId: nat, a: PointId, b: PointId)
      requires StateValid(points, slots, inMap, nextId) && a in points && b in points
      ensures StateValid(points[a := Retired(points[a], b)], slots, inMap - {a}, nextId)
    {
      UpdateValid(points, slots, inMap - {a}, nextId, a, Retired(points[a], b));
    }

    /** A good landmark that takes over observations in range stays valid. */
    lemma MergeValid(points: map<PointId, Landmark>, slots: map<KfId, seq<seq<Option<PointId>>>>,
                     inMap: set<PointId>, nextId: nat, la: Landmark, b: PointId)
      requires StateValid(points, slots, inMap, nextId) && b in points && !points[b].bad
      requires ObsInRange(la.obs, points[b].ftype)
      ensures StateValid(points[b := Merged(la, points[b])], slots, inMap, nextId)
    {
      var lb := points[b];
      ObsInRangeUnion(la.obs, lb.obs, lb.ftype);
      assert PointValid(lb, points.Keys);
      MergedCounted(la, lb, lb.descriptor);
      UpdateValid(points, slots, inMap, nextId, b, Merged(la, lb));
    }

    /** Redirecting slots to a landmark in use keeps the registry valid. */
    lemma RedirectValid(points: map<PointId, Landmark>, slots: map<KfId, seq<seq<Option<PointId>>>>,
                        inMap: set<PointId>, nextId: nat, obsA: map<KfId, nat>, obsB: map<KfId, nat>,
                        keys: set<KfId>, c: nat, b: PointId)
      requires StateValid(points, slots, inMap, nextId) && b in points
      ensures StateValid(points, RedirectSlots(slots, obsA, obsB, keys, c, b), inMap, nextId)
    {
      RedirectedKnown(slots, obsA, obsB, keys, c, b, points.Keys);
      SlotsValid(points, slots, RedirectSlots(slots, obsA, obsB, keys, c, b), inMap, nextId);
    }

    /** Every observation of a landmark has its keyframe's slot. */
    lemma ObservedSlots(points: map<PointId, Landmark>, slots: map<KfId, seq<seq<Option<PointId>>>>,
                        inMap: set<PointId>, nextId: nat, p: PointId)
      requires StateValid(points, slots, inMap, nextId) && p in points
      ensures ObserversIn(slots, points[p].obs, points[p].ftype)
    {
    }

    /** The whole of `Replace` before the descriptor update keeps the
        registry valid. */
    lemma ReplaceValid(points: map<PointId, Landmark>, slots: map<KfId, seq<seq<Option<PointId>>>>,
                       inMap: set<PointId>, nextId: nat, a: PointId, b: PointId)
      requires StateValid(points, slots, inMap, nextId) && a in points && b in points && a != b
      requires !points[b].bad && points[b].ftype == points[a].ftype
      ensures StateValid(points[a := Retired(points[a], b)][b := Merged(points[a], points[b])],
                         RedirectSlots(slots, points[a].obs, points[b].obs, points[a].obs.Keys, points[a].ftype, b),
                         inMap - {a}, nextId)
    {
      var la, lb := points[a], points[b];
      var p1 := points[a := Retired(la, b)];
      RetireValid(points, slots, inMap, nextId, a, b);
      assert p1[b] == lb && PointValid(la, points.Keys);
      MergeValid(p1, slots, inMap - {a}, nextId, la, b);
      RedirectValid(p1[b := Merged(la, lb)], slots, inMap - {a}, nextId, la.obs, lb.obs, la.obs.Keys, la.ftype, b);
    }

    /** `Replace` up to the descriptor update: `a` retired, its observers
        redirected to `b`, its counters added to `b`'s, and the map without
        `a`. */
    method ReplaceCore(a: PointId, b: PointId)
      requires a in points && b in points && a != b && points[b].ftype == points[a].ftype
      requires ObsInRange(points[a].obs, points[a].ftype)
      requires ObserversIn(slots, points[a].obs, points[a].ftype)
      modifies this
      ensures points == old(points)[a := Retired(old(points[a]), b)][b := Merged(old(points[a]), old(points[b]))]
      ensures slots == RedirectSlots(old(slots), old(points[a].obs), old(points[b].obs), old(points[a].obs).Keys,
                                     old(points[a].ftype), b)
      ensures inMap == old(inMap) - {a} && nextId == old(nextId)
    {
      var la := points[a];
      points := points[a := la.(obs := map[], bad := true, replaced := Some(b))];
      inMap := inMap - {a};
      ghost var m0 := points;
      ghost var lb := points[b];
      assert lb == old(points[b]) && slots == old(slots) && m0 == old(points)[a := Retired(la, b)];
      TransferObservations(la.obs, b);
      ghost var ab := Absorbed(lb, la.obs);
      assert slots == RedirectSlots(old(slots), la.obs, lb.obs, la.obs.Keys, la.ftype, b);
      TakeCounters(b, la.found, la.visible, m0, ab);
      assert ab.(found := ab.found + la.found).(visible := ab.visible + la.visible) == Merged(la, lb);
      assert points == m0[b := Merged(la, lb)];
    }

    /** The counter step of `Replace`: `b`, now `lb`, takes over the found and
        visible counts of the retired landmark. */
    method TakeCounters(b: PointId, found: int, visible: int, ghost m0: map<PointId, Landmark>, ghost lb: Landmark)
      requires points == m0[b := lb]
      modifies this
      ensures points == m0[b := lb.(found := lb.found + found).(visible := lb.visible + visible)]
      ensures slots == old(slots) && inMap == old(inMap) && nextId == old(nextId)
    {
      IncreaseFound(b, found);
      UpdateTwice(m0, b, lb, lb.(found := lb.found + found));
      IncreaseVisible(b, visible);
      UpdateTwice(m0, b, lb.(found := lb.found + found), lb.(found := lb.found + found).(visible := lb.visible + visible));
    }

    /** Recomputing a landmark's descriptor keeps the registry valid. */
    lemma DescriptorValid(points: map<PointId, Landmark>, slots: map<KfId, seq<seq<Option<PointId>>>>,
                          inMap: set<PointId>, nextId: nat, p: PointId)
      requires StateValid(points, slots, inMap, nextId) && p in points
      ensures StateValid(points[p := points[p].(descriptor := Representative(points[p]))], slots, inMap, nextId)
    {
      UpdateValid(points, slots, inMap, nextId, p, points[p].(descriptor := Representative(points[p])));
    }

    /** `Replace(b)` on landmark `a`: nothing when they are the same landmark;
        otherwise `a` becomes bad and replaced by `b` without observations,
        `b` is where every former observer of `a` now points (keeping its own
        keypoint where it was already observed), takes over `a`'s counters and
        recomputes its descriptor, and the map drops `a`. */
    method Replace(a: PointId, b: PointId)
      requires Valid() && a in points && b in points
      requires a != b ==> !points[b].bad && points[b].ftype == points[a].ftype
      modifies this
      ensures Valid()
      ensures a == b ==> points == old(points) && slots == old(slots) && inMap == old(inMap)
      ensures a != b ==> (
        var la, lb := old(points[a]), old(points[b]);
        && points == old(points)[a := Retired(la, b)][b := Merged(la, lb).(descriptor := Representative(Merged(la, lb)))]
        && slots == RedirectSlots(old(slots), la.obs, lb.obs, la.obs.Keys, la.ftype, b)
        && inMap == old(inMap) - {a})
      ensures nextId == old(nextId)
    {
      if a == b {
        return;
      }
      ghost var la, lb := points[a], points[b];
      ReplaceValid(points, slots, inMap, nextId, a, b);
      ObservedSlots(points, slots, inMap, nextId, a);
      assert ObsInRange(la.obs, la.ftype);
      ReplaceCore(a, b);
      ghost var m1 := old(points)[a := Retired(la, b)];
      DescriptorValid(points, slots, inMap, nextId, b);
      ComputeDistinctiveDescriptors(b);
      UpdateTwice(m1, b, Merged(la, lb), Merged(la, lb).(descriptor := Representative(Merged(la, lb))));
    }
  }

  /** Maps over disjoint keys put together have the sum of their sizes. */
  lemma MapUnionSize<K, V>(a: map<K, V>, b: map<K, V>)
    requires a.Keys !! b.Keys
    ensures |a + b| == |a| + |b|
  {
    assert (a + b).Keys == a.Keys + b.Keys;
  }

  /** Disjoint sets put together have the sum of their sizes. */
  lemma SetUnionSize<T>(a: set<T>, b: set<T>)
    requires a !! b
    ensures |a + b| == |a| + |b|
  {
  }

  /** Taking `b`'s keys out of `a` first changes nothing when `b` overrides
      them anyway. */
  lemma MapMinusUnion<K, V>(a: map<K, V>, b: map<K, V>)
    ensures (a - b.Keys).Keys !! b.Keys
    ensures (a - b.Keys) + b == a + b
  {
  }

  /** Updating a key that `b` overrides anyway. */
  lemma MapUpdateUnionShadowed<K, V>(a: map<K, V>, b: map<K, V>, k: K, v: V)
    requires k in b
    ensures a[k := v] + b == a + b
  {
  }

  /** Updating a key that `b` does not hold commutes with putting `b` in. */
  lemma MapUpdateUnion<K, V>(a: map<K, V>, b: map<K, V>, k: K, v: V)
    requires k !in b
    ensures a[k := v] + b == (a + b)[k := v]
  {
  }

  /** Updating a key that is then taken out. */
  lemma MapUpdateMinusIn<K, V>(a: map<K, V>, ks: set<K>, k: K, v: V)
    requires k in ks
    ensures a[k := v] - ks == a - ks
  {
  }

  /** Updating a key that stays commutes with taking keys out. */
  lemma MapUpdateMinus<K, V>(a: map<K, V>, ks: set<K>, k: K, v: V)
    requires k !in ks
    ensures a[k := v] - ks == (a - ks)[k := v]
  {
  }

  /** Concatenation is associative. */
  lemma SeqAssoc<T>(a: seq<T>, b: seq<T>, c: seq<T>)
    ensures a + b + c == a + (b + c)
  {
  }

  /** Taking nothing away leaves the set as it was. */
  lemma MinusNothing<T>(a: set<T>, b: set<T>)
    requires b == {}
    ensures a - b == a
  {
  }

  /** A worklist step: one element moves from the keys still to visit to
      the visited ones. */
  lemma MoveOne<T>(all: set<T>, done: set<T>, todo: set<T>, x: T)
    requires todo <= all && done == all - todo && x in todo
    ensures x !in done && todo - {x} <= all && done + {x} == all - (todo - {x})
  {
  }

  /** Before the loop no slot has been redirected. */
  lemma RedirectNone(s: map<KfId, seq<seq<Option<PointId>>>>, obsA: map<KfId, nat>, obsB: map<KfId, nat>,
                     c: nat, b: PointId)
    ensures RedirectSlots(s, obsA, obsB, {}, c, b) == s
  {
  }

  /** Before the loop no slot has been erased. */
  lemma EraseNone(s: map<KfId, seq<seq<Option<PointId>>>>, obs: map<KfId, nat>, c: nat)
    ensures EraseSlots(s, obs, {}, c) == s
  {
  }
}
