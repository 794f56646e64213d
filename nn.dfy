/** The brute-force matchers `SearchByNN`: OpenCV's cross-checked Hamming
    matcher pairs descriptor rows; its output arrives as a list of `DMatch`
    triples and only the filtering of those triples is modelled. */
module NearestNeighbour {
  import opened Common
  import opened Features
  import opened MapPoints
  import opened Frames
  import opened Matching

  /** `cv::DMatch`: a query row, a train row and their distance. */
  datatype DMatch = DMatch(queryIdx: nat, trainIdx: nat, distance: real)

  /** Every query row is below `nq` and every train row below `nt`. */
  ghost predicate MatchesIn(ms: seq<DMatch>, nq: nat, nt: nat)
  {
    forall k :: 0 <= k < |ms| ==> ms[k].queryIdx < nq && ms[k].trainIdx < nt
  }

  /** Match `k` passes the filter: distance at most `th` and its query slot
      holds a landmark that is not bad. */
  ghost predicate Taken(pts: map<PointId, Landmark>, qslots: seq<Option<PointId>>, ms: seq<DMatch>, th: int, k: int)
  {
    && 0 <= k < |ms| && ms[k].distance <= th as real && ms[k].queryIdx < |qslots|
    && qslots[ms[k].queryIdx].Some? && qslots[ms[k].queryIdx].value in pts
    && !pts[qslots[ms[k].queryIdx].value].bad
  }

  /** After the matches below `i`: `src[x]` is the last taken match that wrote
      slot `x` (-1 for none, and then the slot is as it was); a taken match
      writes when `write` holds for its query row. */
  ghost predicate LastWriter(pts: map<PointId, Landmark>, qslots: seq<Option<PointId>>, write: seq<bool>,
                             ms: seq<DMatch>, th: int, i: int, s0: seq<Option<PointId>>,
                             s: seq<Option<PointId>>, src: seq<int>)
  {
    && |s| == |s0| == |src| && |write| == |qslots|
    && (forall x :: 0 <= x < |s| ==>
          && -1 <= src[x] < i
          && (src[x] == -1 ==> s[x] == s0[x])
          && (src[x] >= 0 ==>
                && Taken(pts, qslots, ms, th, src[x]) && ms[src[x]].trainIdx == x
                && write[ms[src[x]].queryIdx] && s[x] == qslots[ms[src[x]].queryIdx]))
    && (forall k :: 0 <= k < i && Taken(pts, qslots, ms, th, k) && write[ms[k].queryIdx] ==>
          ms[k].trainIdx < |src| && src[ms[k].trainIdx] >= k)
  }

  /** One more match processed: when taken and writing, it becomes the last
      writer of its train slot. */
  lemma LastWriterStep(pts: map<PointId, Landmark>, qslots: seq<Option<PointId>>, write: seq<bool>,
                       ms: seq<DMatch>, th: int, i: nat, s0: seq<Option<PointId>>,
                       s: seq<Option<PointId>>, src: seq<int>)
    requires LastWriter(pts, qslots, write, ms, th, i, s0, s, src)
    requires i < |ms| && MatchesIn(ms, |qslots|, |s|)
    ensures Taken(pts, qslots, ms, th, i) && write[ms[i].queryIdx] ==>
      LastWriter(pts, qslots, write, ms, th, i + 1, s0, s[ms[i].trainIdx := qslots[ms[i].queryIdx]],
                 src[ms[i].trainIdx := i])
    ensures !(Taken(pts, qslots, ms, th, i) && write[ms[i].queryIdx]) ==>
      LastWriter(pts, qslots, write, ms, th, i + 1, s0, s, src)
  {
  }

  /** `acc` lists, in increasing order, exactly the taken matches below `i`. */
  ghost predicate TakenList(pts: map<PointId, Landmark>, qslots: seq<Option<PointId>>, ms: seq<DMatch>, th: int,
                            i: int, acc: seq<nat>)
  {
    && (forall k :: k in acc <==> 0 <= k < i && Taken(pts, qslots, ms, th, k))
    && (forall a, b :: 0 <= a < b < |acc| ==> acc[a] < acc[b])
  }

  /** One more match processed: a taken one joins the list. */
  lemma TakenListStep(pts: map<PointId, Landmark>, qslots: seq<Option<PointId>>, ms: seq<DMatch>, th: int,
                      i: nat, acc: seq<nat>)
    requires TakenList(pts, qslots, ms, th, i, acc)
    ensures Taken(pts, qslots, ms, th, i) ==> TakenList(pts, qslots, ms, th, i + 1, acc + [i])
    ensures !Taken(pts, qslots, ms, th, i) ==> TakenList(pts, qslots, ms, th, i + 1, acc)
  {
    if Taken(pts, qslots, ms, th, i) {
      var acc' := acc + [i];
      forall a, b | 0 <= a < b < |acc'|
        ensures acc'[a] < acc'[b]
      {
        if b == |acc| {
          assert acc[a] in acc;
        }
      }
    }
  }

  /** Tracking with the last frame by brute force: every match with distance
      at most `TH_LOW` whose last-frame slot holds a landmark that is not bad
      is counted, and its landmark is written into the current frame's slot
      unless the last frame flagged it an outlier; a later match overwrites
      an earlier one. */
  method SearchByNNLastFrame(cur: Frame, last: Frame, pts: map<PointId, Landmark>, c: nat, ms: seq<DMatch>)
    returns (n: int, ghost acc: seq<nat>, ghost src: seq<int>)
    requires cur != last && cur.Valid() && last.Valid()
    requires c < |cur.channels| && c < |last.channels|
    requires MatchesIn(ms, |last.slots[c]|, |cur.slots[c]|) && SlotsIn(last.slots[c], pts)
    modifies cur
    ensures cur.Valid() && cur.slots == old(cur.slots)[c := cur.slots[c]]
    ensures LastWriter(pts, last.slots[c], seq(|last.outlier[c]|, q requires 0 <= q < |last.outlier[c]| => !last.outlier[c][q]),
                       ms, TH_LOW, |ms|, old(cur.slots[c]), cur.slots[c], src)
    ensures TakenList(pts, last.slots[c], ms, TH_LOW, |ms|, acc) && n == |acc|
  {
    var qslots := last.slots[c];
    var write := seq(|last.outlier[c]|, q requires 0 <= q < |last.outlier[c]| => !last.outlier[c][q]);
    ghost var s0 := cur.slots[c];
    var s := cur.slots[c];
    src := seq(|s|, _ => -1);
    n, acc := 0, [];
    for i := 0 to |ms|
      invariant cur.slots == old(cur.slots)
      invariant LastWriter(pts, qslots, write, ms, TH_LOW, i, s0, s, src)
      invariant TakenList(pts, qslots, ms, TH_LOW, i, acc) && n == |acc|
    {
      LastWriterStep(pts, qslots, write, ms, TH_LOW, i, s0, s, src);
      TakenListStep(pts, qslots, ms, TH_LOW, i, acc);
      var m := ms[i];
      if m.distance > TH_LOW as real {
        continue;
      }
      var pMP := qslots[m.queryIdx];
      if pMP.None? || pts[pMP.value].bad {
        continue;
      }
      if !last.outlier[c][m.queryIdx] {
        s := s[m.trainIdx := pMP];
        src := src[m.trainIdx := i];
      }
      acc := acc + [i];
      n := n + 1;
    }
    cur.slots := cur.slots[c := s];
  }

  /** Relocalisation by brute force against a keyframe: the frame's match
      vector starts empty and every match with distance at most `TH_HIGH`
      whose keyframe slot holds a landmark that is not bad writes that
      landmark into the frame slot and is counted. */
  method SearchByNNKeyFrame(pts: map<PointId, Landmark>, kslots: seq<Option<PointId>>, nF: nat, ms: seq<DMatch>)
    returns (matches: seq<Option<PointId>>, n: int, ghost acc: seq<nat>, ghost src: seq<int>)
    requires MatchesIn(ms, |kslots|, nF) && SlotsIn(kslots, pts)
    ensures |matches| == nF
    ensures LastWriter(pts, kslots, seq(|kslots|, _ => true), ms, TH_HIGH, |ms|, seq(nF, _ => None), matches, src)
    ensures TakenList(pts, kslots, ms, TH_HIGH, |ms|, acc) && n == |acc|
  {
    var write := seq(|kslots|, _ => true);
    ghost var s0: seq<Option<PointId>> := seq(nF, _ => None);
    matches := seq(nF, _ => None);
    src := seq(nF, _ => -1);
    n, acc := 0, [];
    for i := 0 to |ms|
      invariant LastWriter(pts, kslots, write, ms, TH_HIGH, i, s0, matches, src)
      invariant TakenList(pts, kslots, ms, TH_HIGH, i, acc) && n == |acc|
    {
      LastWriterStep(pts, kslots, write, ms, TH_HIGH, i, s0, matches, src);
      TakenListStep(pts, kslots, ms, TH_HIGH, i, acc);
      var m := ms[i];
      if m.distance > TH_HIGH as real {
        continue;
      }
      var pMP := kslots[m.queryIdx];
      if pMP.None? || pts[pMP.value].bad {
        continue;
      }
      matches := matches[m.trainIdx := pMP];
      src := src[m.trainIdx := i];
      acc := acc + [i];
      n := n + 1;
    }
  }

  // ---------------------------------------------------------------- local map

  /** Local-map point `i` takes part: present, in view, not bad. */
  ghost predicate Eligible(pts: map<PointId, Landmark>, queries: seq<Option<PointId>>, inView: seq<bool>, i: int)
  {
    && 0 <= i < |queries| && i < |inView| && queries[i].Some? && queries[i].value in pts
    && inView[i] && !pts[queries[i].value].bad
  }

  /** `select_indice`: per channel, in increasing order, exactly the eligible
      local-map points of that feature type. */
  ghost predicate Selected(pts: map<PointId, Landmark>, queries: seq<Option<PointId>>, inView: seq<bool>,
                           i: int, select: seq<seq<nat>>)
  {
    && (forall c, k :: 0 <= c < |select| && 0 <= k < |select[c]| ==>
          select[c][k] < i && Eligible(pts, queries, inView, select[c][k])
          && pts[queries[select[c][k]].value].ftype == c)
    && (forall c, k, l :: 0 <= c < |select| && 0 <= k < l < |select[c]| ==> select[c][k] < select[c][l])
    && (forall j :: 0 <= j < i && Eligible(pts, queries, inView, j) ==>
          pts[queries[j].value].ftype < |select| && j in select[pts[queries[j].value].ftype])
  }

  /** The first loop of the local-map brute-force matcher: the eligible
      points are sorted into their channel (their descriptors go into the
      matcher's query matrix of that channel in the same order). */
  method SelectIndices(pts: map<PointId, Landmark>, queries: seq<Option<PointId>>, inView: seq<bool>, ntype: nat)
    returns (select: seq<seq<nat>>)
    requires |inView| == |queries| && forall i :: 0 <= i < |queries| && queries[i].Some? ==> queries[i].value in pts
    requires forall i :: 0 <= i < |queries| && Eligible(pts, queries, inView, i) ==> pts[queries[i].value].ftype < ntype
    ensures |select| == ntype
    ensures Selected(pts, queries, inView, |queries|, select)
  {
    select := seq(ntype, _ => []);
    for i := 0 to |queries|
      invariant |select| == ntype
      invariant Selected(pts, queries, inView, i, select)
    {
      var pMP := queries[i];
      if pMP.None? || !inView[i] || pts[pMP.value].bad {
        continue;
      }
      var c := pts[pMP.value].ftype;
      select := select[c := select[c] + [i]];
    }
  }

  /** What one channel of the last loop reads: `sel`, the selected local-map
      points of the channel, names present landmarks, and the matches `mc`
      refer to `sel` and to a slot vector of `n` entries. */
  ghost predicate ChannelInputs(pts: map<PointId, Landmark>, queries: seq<Option<PointId>>, sel: seq<nat>,
                                mc: seq<DMatch>, n: nat)
  {
    && MatchesIn(mc, |sel|, n)
    && forall k :: 0 <= k < |sel| ==> sel[k] < |queries| && queries[sel[k]].Some? && queries[sel[k]].value in pts
  }

  /** Match `i` of a channel applied to state `st`: within `TH_HIGH` and with
      a frame slot not held by an observed landmark, it writes the selected
      local-map point into that slot and is counted. */
  ghost function ChannelTurn(pts: map<PointId, Landmark>, queries: seq<Option<PointId>>, sel: seq<nat>,
                             mc: seq<DMatch>, i: nat, st: Tally<seq<Option<PointId>>>): (st': Tally<seq<Option<PointId>>>)
    requires ChannelInputs(pts, queries, sel, mc, |st.out|) && SlotsIn(st.out, pts) && i < |mc|
    ensures |st'.out| == |st.out| && SlotsIn(st'.out, pts)
  {
    var m := mc[i];
    var v := st.out[m.trainIdx];
    if m.distance > TH_HIGH as real || (v.Some? && pts[v.value].nObs > 0) then st
    else Tally(st.out[m.trainIdx := queries[sel[m.queryIdx]]], st.n + 1)
  }

  /** A channel after its first `i` matches, started from slot vector `s0`
      and no match. */
  ghost function ChannelRun(pts: map<PointId, Landmark>, queries: seq<Option<PointId>>, sel: seq<nat>,
                            mc: seq<DMatch>, s0: seq<Option<PointId>>, i: nat): (st: Tally<seq<Option<PointId>>>)
    requires ChannelInputs(pts, queries, sel, mc, |s0|) && SlotsIn(s0, pts) && i <= |mc|
    ensures |st.out| == |s0| && SlotsIn(st.out, pts)
  {
    if i == 0 then Tally(s0, 0)
    else ChannelTurn(pts, queries, sel, mc, i - 1, ChannelRun(pts, queries, sel, mc, s0, i - 1))
  }

  /** The matches counted over the channels below `c`. */
  ghost function ChannelsCount(pts: map<PointId, Landmark>, queries: seq<Option<PointId>>, select: seq<seq<nat>>,
                               ms: seq<seq<DMatch>>, S0: seq<seq<Option<PointId>>>, c: nat): int
    requires c <= |select| == |ms| == |S0|
    requires forall d :: 0 <= d < |S0| ==> ChannelInputs(pts, queries, select[d], ms[d], |S0[d]|) && SlotsIn(S0[d], pts)
  {
    if c == 0 then 0
    else ChannelsCount(pts, queries, select, ms, S0, c - 1) + ChannelRun(pts, queries, select[c - 1], ms[c - 1], S0[c - 1], |ms[c - 1]|).n
  }

  /** `Selected` lists present landmarks, so every channel's inputs are well
      formed. */
  lemma SelectedInputs(pts: map<PointId, Landmark>, queries: seq<Option<PointId>>, inView: seq<bool>,
                       select: seq<seq<nat>>, ms: seq<seq<DMatch>>, c: nat, n: nat)
    requires Selected(pts, queries, inView, |queries|, select)
    requires c < |select| == |ms| && MatchesIn(ms[c], |select[c]|, n)
    ensures ChannelInputs(pts, queries, select[c], ms[c], n)
  {
  }

  /** The last loop of the local-map brute-force matcher: per channel, every
      match with distance at most `TH_HIGH` whose frame slot is not held by
      an observed landmark writes the selected local-map point into it and is
      counted. Each channel's new slots are the outcome of `ChannelRun`, and
      the count sums the channels' counts. `writes` lists the (channel,
      match) pairs that wrote. */
  method MatchSelected(F: Frame, pts: map<PointId, Landmark>, queries: seq<Option<PointId>>, inView: seq<bool>,
                       select: seq<seq<nat>>, ms: seq<seq<DMatch>>)
    returns (n: int, ghost writes: seq<(nat, nat)>)
    requires F.Valid() && |select| == |ms| == |F.slots|
    requires Selected(pts, queries, inView, |queries|, select)
    requires forall c :: 0 <= c < |F.slots| ==> SlotsIn(F.slots[c], pts) && MatchesIn(ms[c], |select[c]|, |F.slots[c]|)
    modifies F
    ensures F.Valid()
    ensures forall c, x :: 0 <= c < |F.slots| && 0 <= x < |F.slots[c]| && F.slots[c][x] != old(F.slots[c][x]) ==>
      && Free(pts, old(F.slots[c][x])) && F.slots[c][x].Some? && F.slots[c][x].value in pts
      && !pts[F.slots[c][x].value].bad && pts[F.slots[c][x].value].ftype == c
    ensures forall w :: w in writes ==> w.0 < |ms| && w.1 < |ms[w.0]| && ms[w.0][w.1].distance <= TH_HIGH as real
    ensures n == |writes|
    ensures forall c :: 0 <= c < |F.slots| ==> ChannelInputs(pts, queries, select[c], ms[c], |old(F.slots[c])|)
    ensures forall c :: 0 <= c < |F.slots| ==>
      F.slots[c] == ChannelRun(pts, queries, select[c], ms[c], old(F.slots[c]), |ms[c]|).out
    ensures n == ChannelsCount(pts, queries, select, ms, old(F.slots), |F.slots|)
  {
    ghost var S0 := F.slots;
    forall c | 0 <= c < |S0|
      ensures ChannelInputs(pts, queries, select[c], ms[c], |S0[c]|)
    {
      SelectedInputs(pts, queries, inView, select, ms, c, |S0[c]|);
    }
    var S := F.slots;
    n, writes := 0, [];
    for c := 0 to |S|
      invariant F.slots == S0 && |S| == |S0|
      invariant forall d :: 0 <= d < |S| ==> |S[d]| == |S0[d]| && SlotsIn(S[d], pts)
      invariant forall d, x :: 0 <= d < |S| && 0 <= x < |S[d]| && S[d][x] != S0[d][x] ==>
        && Free(pts, S0[d][x]) && S[d][x].Some? && S[d][x].value in pts
        && !pts[S[d][x].value].bad && pts[S[d][x].value].ftype == d
      invariant forall w :: w in writes ==> w.0 < |ms| && w.1 < |ms[w.0]| && ms[w.0][w.1].distance <= TH_HIGH as real
      invariant n == |writes|
      invariant forall d :: 0 <= d < c ==> S[d] == ChannelRun(pts, queries, select[d], ms[d], S0[d], |ms[d]|).out
      invariant forall d :: c <= d < |S| ==> S[d] == S0[d]
      invariant n == ChannelsCount(pts, queries, select, ms, S0, c)
    {
      var s, cw, cn := MatchChannel(pts, queries, inView, select, ms, c, S0[c], S[c]);
      S := S[c := s];
      writes := writes + cw;
      n := n + cn;
    }
    F.slots := S;
  }

  /** The matches of one channel of `MatchSelected`: the new slots and the
      count are the outcome of `ChannelRun`. */
  method MatchChannel(pts: map<PointId, Landmark>, queries: seq<Option<PointId>>, inView: seq<bool>,
                      select: seq<seq<nat>>, ms: seq<seq<DMatch>>, c: nat, ghost s0: seq<Option<PointId>>,
                      s: seq<Option<PointId>>)
    returns (s': seq<Option<PointId>>, ghost writes: seq<(nat, nat)>, n: int)
    requires Selected(pts, queries, inView, |queries|, select)
    requires c < |select| == |ms| && MatchesIn(ms[c], |select[c]|, |s|) && SlotsIn(s, pts) && |s| == |s0|
    requires forall x :: 0 <= x < |s| && s[x] != s0[x] ==>
      && Free(pts, s0[x]) && s[x].Some? && s[x].value in pts && !pts[s[x].value].bad && pts[s[x].value].ftype == c
    ensures |s'| == |s| && SlotsIn(s', pts)
    ensures forall x :: 0 <= x < |s'| && s'[x] != s0[x] ==>
      && Free(pts, s0[x]) && s'[x].Some? && s'[x].value in pts && !pts[s'[x].value].bad && pts[s'[x].value].ftype == c
    ensures forall w :: w in writes ==> w.0 == c && w.1 < |ms[c]| && ms[c][w.1].distance <= TH_HIGH as real
    ensures n == |writes|
    ensures ChannelInputs(pts, queries, select[c], ms[c], |s|)
    ensures Tally(s', n) == ChannelRun(pts, queries, select[c], ms[c], s, |ms[c]|)
  {
    SelectedInputs(pts, queries, inView, select, ms, c, |s|);
    s', writes, n := s, [], 0;
    for i := 0 to |ms[c]|
      invariant |s'| == |s| && SlotsIn(s', pts)
      invariant forall x :: 0 <= x < |s'| && s'[x] != s0[x] ==>
        && Free(pts, s0[x]) && s'[x].Some? && s'[x].value in pts && !pts[s'[x].value].bad && pts[s'[x].value].ftype == c
      invariant forall w :: w in writes ==> w.0 == c && w.1 < |ms[c]| && ms[c][w.1].distance <= TH_HIGH as real
      invariant n == |writes|
      invariant Tally(s', n) == ChannelRun(pts, queries, select[c], ms[c], s, i)
    {
      var m := ms[c][i];
      var realIdxMap := select[c][m.queryIdx];
      if m.distance > TH_HIGH as real {
        continue;
      }
      var v := s'[m.trainIdx];
      if v.Some? && pts[v.value].nObs > 0 {
        continue;
      }
      s' := s'[m.trainIdx := queries[realIdxMap]];
      writes := writes + [(c, i)];
      n := n + 1;
    }
  }
}
