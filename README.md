# Multi-channel ORB-SLAM2 data association, modelled in Dafny

This project models the data-association core of a multi-channel ORB-SLAM2.
Here a frame carries several feature channels, each with its own descriptor
width. The model covers two parts.

- **The `Associater` matchers.** These are the descriptor distance, the
  candidate-selection loops and the acceptance thresholds `TH_HIGH` and
  `TH_LOW`. It also covers the ratio test, the guards that keep an observed
  landmark's slot from being taken, the bag-of-words node-pairing walk and the
  rotation-consistency filter. Every matcher is covered: the four
  `SearchByProjection` overloads, both `SearchByBoW` overloads, the filtering
  loops of the three `SearchByNN` overloads, `SearchForTriangulation`,
  `SearchBySim3`, `SearchForInitialization` and both `Fuse` overloads.
- **The `MapPoint` landmark lifecycle.** It is a class, `MapPoints.Registry`.
  The class holds:
  - every landmark by id: its observations, the weight `nObs`, the
    visible/found counters, the bad flag, the replacement link, the reference
    keyframe and the descriptor;
  - the landmark slots of every keyframe;
  - the set of landmarks the map holds;
  - the id counter.

  Its methods change these fields as `AddObservation`, `EraseObservation`,
  `SetBadFlag`, `Replace` and `ComputeDistinctiveDescriptors` do. The
  constructor establishes the registry invariant `Valid()`.
  `CreateFromKeyFrame`, `CreateFromFrame`, `EraseObservation`, `SetBadFlag`
  and `Replace` require it and keep it. `IncreaseVisible`, `IncreaseFound`
  and `ComputeDistinctiveDescriptors` keep it whenever it held on entry.
  `AddObservation` keeps it only for a good landmark. The source does not
  check the flag there, and a bad landmark that gains an observation breaks
  the first clause below. The slot writes and loops inside `SetBadFlag` and
  `Replace` are steps of those methods; they do not keep `Valid()` on their
  own. The invariant says:
  - a bad landmark has no observations;
  - `nObs` is the weight of the observations (2 per stereo keypoint, 1 per
    monocular one);
  - observations point at existing keypoints;
  - every filled slot names a known landmark;
  - the map holds only landmarks that are not bad.

The matchers are imperative, as in the source:
- a `Frames.Frame` object has its slot vectors updated in place by the
  frame-target matchers;
- output vectors are sequences that the loops reassign;
- each loop carries the invariants its contract needs.

The floating-point camera geometry is folded into a `Matching.Probe` per query.
A probe is the outcome of the geometry for that query:
- the candidate keypoints that `GetFeaturesInArea` returns, or none when the
  projection tests already failed;
- whether each candidate passes the per-candidate geometric test;
- the level that `PredictScale` predicts.

The integer decisions inside the core's loops stay explicit in the model:
distances, thresholds, slot guards, rotation buckets, counters and merge
decisions. So do the octave bands that those loops test themselves: the
`[level - 1, level]` band of the Sim3 projection, of `SearchBySim3` and of
both `Fuse` operations, and the octave-0 test of `SearchForInitialization`.
The bands handed to `GetFeaturesInArea` are part of the probe; see
"## Left out".

Descriptors are `seq<bv8>`. `Descriptors.Distance` is the popcount of the XOR,
normalised to 32 bytes with round-half-up, computed exactly on integers.

Three properties hold across the matchers:
- Every matcher's output before the rotation filter is pinned down. A ghost
  function replays the source's loop query by query (`LastFrameRun`,
  `LocalMapRun`, `Sim3Run`, `KeyFrameRun`, `FrameWalk`, `PairWalk`,
  `TriangulationWalk`, `ChannelRun`, `DirectionEntry`, `InitRun`). In it each
  query takes the pick of a `Selection` function; in `ChannelRun`, which
  filters the brute-force matcher's given matches, each match is accepted or
  not by the source's guards. The matcher's result is proved equal to that
  replay. The `Selection` lemmas state what each pick means:
  - `PickBestFound`: the first closest candidate within the threshold, found
    exactly when one exists;
  - `PickRatioWinner`: the same, further gated by the ratio test against
    every other competitor;
  - `PickLevelRatioRefuses`: the single-best pick, refused exactly when the
    runner-up shares its octave and fails the ratio;
  - `LastMin`: the last closest candidate, in triangulation.
- The rotation filter (`Rotation.RotationConsistency`) keeps the three buckets
  that `ComputeThreeMaxima` characterises. It undoes exactly the matches
  recorded outside them (`Discarded`).
- The returned count is tied to the output. Where only empty entries are
  written, it is the number of entries filled. Where a slot held by an
  unobserved landmark may be overwritten, it is the number of writes, minus
  the matches the filter undid.

All sources below are in `Source/Libraries/ORB_SLAM2/src/`.

## Model

| member | source | states |
|---|---|---|
| Descriptors.DescriptorDistance | Source/Libraries/ORB_SLAM2/src/Associater.cc:1609-1636 | The byte loop's accumulated popcount of the XOR, normalised to 32 columns, is exactly `Distance`. |
| Descriptors.DistanceSelf | Source/Libraries/ORB_SLAM2/src/Associater.cc:1609-1636 | A descriptor is at distance 0 from itself. |
| Descriptors.DistanceSymmetric | Source/Libraries/ORB_SLAM2/src/Associater.cc:1609-1636 | The distance is symmetric. |
| Descriptors.DistanceBound | Source/Libraries/ORB_SLAM2/src/Associater.cc:1609-1636 | Whatever the descriptor width, the distance lies in [0, 256]. |
| Descriptors.Distance32 | Source/Libraries/ORB_SLAM2/src/Associater.cc:1619 | For 32-byte descriptors the normalisation is the identity, so the distance is the raw Hamming distance. |
| Descriptors.DistanceIsRounded | Source/Libraries/ORB_SLAM2/src/Associater.cc:1619 | The distance is `floor(raw * 32 / cols + 0.5)` over the reals: round-half-up of the normalised count. |
| Descriptors.RawHammingBound | Source/Libraries/ORB_SLAM2/src/Associater.cc:1614-1616 | The raw popcount of two descriptors is at most 8 bits per column. |
| Descriptors.NormaliseRounds | Source/Libraries/ORB_SLAM2/src/Associater.cc:1619 | The integer normalisation satisfies the round-half-up bracket `2c*d <= 64r + c < 2c*(d+1)`. |
| Rotation.ComputeThreeMaxima | Source/Libraries/ORB_SLAM2/src/Associater.cc:1576-1607 | `ind1` is -1 exactly when all buckets are empty. Otherwise it is the fullest bucket, the lowest index on ties. `ind2` and `ind3` are the next fullest buckets in the same ranking, so max1 ≥ max2 ≥ max3. Each is -1 when its count is below a tenth of max1. `ind2 == -1` forces `ind3 == -1`, and when either is -1 no other bucket reaches a tenth. |
| Rotation.ThreeMaximaUnique | Source/Libraries/ORB_SLAM2/src/Associater.cc:1576-1607 | The three maxima are determined by the histogram, so the filter's outcome is too. |
| Rotation.RotationBin | Source/Libraries/ORB_SLAM2/src/Associater.cc:126-133 | The bucket of an angle difference lies in [0, HISTO_LENGTH). |
| Rotation.RotationBinAtMost12 | Source/Libraries/ORB_SLAM2/src/Associater.cc:126-133 | With the factor `1/HISTO_LENGTH` as written, only buckets 0..12 are ever used. The wrap of bucket 30 never fires. |
| Rotation.DiscardInconsistent | Source/Libraries/ORB_SLAM2/src/Associater.cc:140-156 | Every index recorded in a bucket other than `ind1`/`ind2`/`ind3` has its entry reset to null. All other entries are untouched. The count drops by one per record. |
| Rotation.RotationConsistency | Source/Libraries/ORB_SLAM2/src/Associater.cc:140-156 | The kept buckets satisfy `ThreeMaxima`, the characterisation of `ComputeThreeMaxima`. The filter resets exactly the `Discarded` entries, which are the indices recorded outside those buckets, and leaves every other entry alone. The count falls by their number. If the records were distinct occupied entries and the count equalled the occupied entries, it still does. |
| Rotation.DiscardKeepsCount | Source/Libraries/ORB_SLAM2/src/Associater.cc:569-584 | After the undo loop, a count that equalled the number of occupied entries still does, because each discarded record frees exactly one entry. |
| Rotation.RecordInRange | Source/Libraries/ORB_SLAM2/src/Associater.cc:133 | Recording an index below `n` keeps every record below `n`, and the set of recorded indices gains exactly that index. |
| Rotation.RecordFresh | Source/Libraries/ORB_SLAM2/src/Associater.cc:121-133 | Recording a newly filled entry keeps the records pairwise distinct, and each record still names an occupied entry. |
| Rotation.EmptyRecords | Source/Libraries/ORB_SLAM2/src/Associater.cc:26-28 | The empty starting histogram records nothing. Every record invariant of the matchers holds at the start, for any slot vector. |
| Selection.SelectBest | Source/Libraries/ORB_SLAM2/src/Associater.cc:418-434 | The single-best loop with strict `<`. `bestIdx` is -1 exactly when no unskipped candidate beats the initial value. Otherwise it is the first candidate of smallest distance. |
| Selection.FirstMin | Source/Libraries/ORB_SLAM2/src/Associater.cc:418-434 | The first smallest competing distance below the start value. It is -1 exactly when no unskipped candidate beats the start, and otherwise a position of smallest distance with no earlier tie. |
| Selection.FirstMinUnique | Source/Libraries/ORB_SLAM2/src/Associater.cc:418-434 | At most one position is the first smallest, so the strict-`<` loops reach one determined winner. |
| Selection.PickBestFound | Source/Libraries/ORB_SLAM2/src/Associater.cc:418-437 | With a threshold below the start value, the single-best pick finds a candidate exactly when an unskipped candidate lies within the threshold. What it finds is the first closest. |
| Selection.SelectBestTwo | Source/Libraries/ORB_SLAM2/src/Associater.cc:195-229 | The best/second-best loop: the best is the first smallest distance. The second is the first smallest among the other competitors, which may tie the best. Levels come along with each, and the initial values stay when a candidate is absent. |
| Selection.RatioMatch | Source/Libraries/ORB_SLAM2/src/Associater.cc:515-556 | The best/second-best loop of the bag-of-words matchers. A match is taken exactly when the best candidate exists, is within `TH_LOW` (strictly below it in the keyframe-pair overload) and `bestDist < nnRatio·bestDist2`. Without a runner-up the second distance is the start value 256. The result is `PickRatio`. |
| Selection.PickRatioWinner | Source/Libraries/ORB_SLAM2/src/Associater.cc:515-556 | For a non-negative ratio, the ratio-test pick takes a candidate exactly when some position is the first closest, within the threshold, and below `nnRatio` times the start value and times every other competing distance. It then takes that candidate. |
| Selection.PickLevelRatioRefuses | Source/Libraries/ORB_SLAM2/src/Associater.cc:195-233 | The local-map pick is the single-best pick within the threshold, or nothing. With non-negative octaves, it is nothing while a single-best pick exists exactly when the runner-up shares the best's octave and `bestDist > nnRatio·bestDist2`. |
| Selection.SelectLastMin | Source/Libraries/ORB_SLAM2/src/Associater.cc:909-947 | The triangulation loop takes `dist <= bestDist`, so among equal distances the last one wins. `bestIdx` is -1 exactly when no admissible candidate is within the threshold. |
| Selection.LastMinUnique | Source/Libraries/ORB_SLAM2/src/Associater.cc:909-947 | At most one position is the last smallest, so the `<=` loop reaches one determined winner. |
| Features.LowerBound | Source/Libraries/ORB_SLAM2/src/Associater.cc:562-566 | `lower_bound`: the first position whose node id is not below the key. |
| Features.MergeWalk | Source/Libraries/ORB_SLAM2/src/Associater.cc:497-567 | The two-iterator walk with `lower_bound` jumps terminates. It stops at exactly the position pairs with equal node ids, all of them, in increasing order in both vectors. |
| Features.NodePairsUnique | Source/Libraries/ORB_SLAM2/src/Associater.cc:497-567 | The node pairs are determined by the two feature vectors, so every walk visits the same sequence of pairs. |
| Matching.MatchStep | Source/Libraries/ORB_SLAM2/src/Associater.cc:121-123 | Writing a landmark into a free slot, within the threshold of that keypoint, extends the "grew by matches only" relation. |
| Matching.RadiusByViewingCos | Source/Libraries/ORB_SLAM2/src/Associater.cc:1638-1643 | The factor is 2.5 for a viewing cosine above 0.998 and 4.0 otherwise. |
| Matching.RadiusNarrowsHeadOn | Source/Libraries/ORB_SLAM2/src/Associater.cc:1638-1643 | The factor never grows as the viewing cosine grows, so a point seen head-on gets the narrower window. |
| Projection.SearchByProjectionLastFrame | Source/Libraries/ORB_SLAM2/src/Associater.cc:21-159 | Only the current frame's channel `c` changes. Its slots before the filter are those of `LastFrameRun`. Per landmark of the last frame that is not an outlier, that run takes the single-best pick (`PickBest`: the first closest, within `TH_HIGH`) among window keypoints not held by an observed landmark and passing the stereo test. Every write goes into a free slot, with a last-frame landmark within `TH_HIGH` of that keypoint. The filter then undoes exactly the `Discarded` entries of the run's histogram, nothing without `checkOri`, and the count is the run's count minus those. |
| Projection.LastFrameQuery | Source/Libraries/ORB_SLAM2/src/Associater.cc:51-145 | One last-frame keypoint: the new state is `LastFrameTurn` of the old one, and the loop invariants carry over. |
| Projection.MatchInWindow | Source/Libraries/ORB_SLAM2/src/Associater.cc:195-239 | The result is the `PickLevelRatio` pick among window keypoints not held by an observed landmark and passing the stereo test. It is therefore the first closest within `TH_HIGH`, refused exactly when the runner-up shares its octave and `bestDist > nnRatio·bestDist2` (`PickLevelRatioRefuses`). A chosen slot is free and within `TH_HIGH` of the landmark. |
| Projection.SearchByProjectionLocalMap | Source/Libraries/ORB_SLAM2/src/Associater.cc:162-247 | The new slots and the count are those of `LocalMapRun`. Per landmark in view that is not bad, that run takes the `MatchInWindow` pick in the channel of its feature type. Every write goes into a free slot of that channel, within `TH_HIGH`, and the count is the number of writes. |
| Projection.LocalMapLoop | Source/Libraries/ORB_SLAM2/src/Associater.cc:167-246 | The query loop: the slots and the count end as `LocalMapRun`, with every write into a free slot of the landmark's own channel within `TH_HIGH`. |
| Projection.LocalMapQuery | Source/Libraries/ORB_SLAM2/src/Associater.cc:167-246 | One query landmark: the new state is `LocalMapTurn` of the old one, and the loop invariants carry over. |
| Projection.SearchByProjectionSim3 | Source/Libraries/ORB_SLAM2/src/Associater.cc:249-356 | The result and the count are those of `Sim3Run`. Per query landmark that is not bad and not already found, that run takes the single-best pick (first closest, within `TH_LOW`) among window keypoints in the octave band whose entry is empty. Only empty entries are written, and the result has exactly `n` more filled entries. |
| Projection.Sim3Query | Source/Libraries/ORB_SLAM2/src/Associater.cc:270-355 | One query landmark: the new state is `Sim3Turn` of the old one, and the loop invariants carry over. |
| Projection.Sim3Pick | Source/Libraries/ORB_SLAM2/src/Associater.cc:327-348 | The window search of one query: the pick is exactly `Sim3Turn`'s `PickBest` over empty, in-band keypoints within `TH_LOW`, and a pick names an empty entry close to the landmark. |
| Projection.KeyFrameQuery | Source/Libraries/ORB_SLAM2/src/Associater.cc:374-451 | One keyframe landmark: the new state is `KeyFrameTurn` of the old one. That is the single-best pick (first closest, within `ORBdist`) among window keypoints with an empty frame slot, recorded in the histogram under `checkOri`. All loop invariants are kept, and the occupied count grows with the writes. |
| Projection.SearchByProjectionKeyFrame | Source/Libraries/ORB_SLAM2/src/Associater.cc:358-474 | The frame slots before the filter are those of `KeyFrameRun`. Each live keyframe landmark not in `sAlreadyFound` takes its `KeyFrameTurn` pick, and only empty frame slots are filled. The filter undoes exactly the `Discarded` entries under the `ThreeMaxima` buckets. The count equals the growth in occupied slots. |
| Projection.KeyFrameLoop | Source/Libraries/ORB_SLAM2/src/Associater.cc:374-451 | The query loop: the slots, histogram and count end as `KeyFrameRun`, with every write into an empty slot. |
| BoWMatching.MatchNodeKeyFrameToFrame | Source/Libraries/ORB_SLAM2/src/Associater.cc:502-556 | One node pair: the new state is `FrameNode` of the old one. Each keyframe keypoint with a live landmark takes the `PickRatio` pick among the node's frame keypoints whose entry is empty. With `PickRatioWinner`, that is the first closest, within `TH_LOW` and passing the ratio test. The invariants and the occupied count are kept. |
| BoWMatching.FrameQuery | Source/Libraries/ORB_SLAM2/src/Associater.cc:502-556 | One keyframe keypoint: the new state is `FrameTurn` of the old one, and the invariants carry over. |
| BoWMatching.SearchByBoWKeyFrameToFrame | Source/Libraries/ORB_SLAM2/src/Associater.cc:477-587 | The output before the filter is that of `FrameWalk` over the node pairs `MergeWalk` finds (`NodePairs`). Each filled entry names the keyframe keypoint it came from: same vocabulary node, live landmark, within `TH_LOW`. The filter undoes exactly the `Discarded` entries, and the count is the number of filled entries. |
| BoWMatching.WalkFrame | Source/Libraries/ORB_SLAM2/src/Associater.cc:497-567 | The walk over the node pairs: the output, histogram and count end as `FrameWalk`, with every entry naming its keyframe keypoint. |
| BoWMatching.PairMatchesStep | Source/Libraries/ORB_SLAM2/src/Associater.cc:660-676 | Committing pair (`x`, `j`) keeps every keypoint of the second keyframe named at most once. `vbMatched2` still flags exactly the named keypoints, in both directions. |
| BoWMatching.MatchNodeKeyFrames | Source/Libraries/ORB_SLAM2/src/Associater.cc:619-687 | One node pair: the new state is `PairNode` of the old one. Each keypoint with a live landmark takes the `PickRatio` pick, strictly below `TH_LOW`, among the node's second-keyframe keypoints that are unflagged and hold a live landmark. The output stays one-to-one, the flags stay exact and the later keypoints of the node are untouched. |
| BoWMatching.PairQuery | Source/Libraries/ORB_SLAM2/src/Associater.cc:621-680 | One keypoint of the first keyframe: the new state is `PairTurn` of the old one, and the invariants carry over. |
| BoWMatching.SearchByBoWKeyFrames | Source/Libraries/ORB_SLAM2/src/Associater.cc:590-707 | The output before the filter is that of `PairWalk` over the node pairs. Each filled entry takes the landmark of a second-keyframe keypoint: same node, live, strictly below `TH_LOW`, and the ratio-test pick. No keypoint is given out twice. The filter undoes exactly the `Discarded` entries, and the count is the number of filled entries. |
| BoWMatching.WalkKeyFrames | Source/Libraries/ORB_SLAM2/src/Associater.cc:614-687 | The walk over the node pairs: the output, histogram and count end as `PairWalk`. |
| BoWMatching.MatchNodeTriangulation | Source/Libraries/ORB_SLAM2/src/Associater.cc:896-964 | One node pair: the new state is `TriangulationNode` of the old one. Each keypoint without a landmark (stereo when only stereo is wanted) is paired with the `LastMin` candidate: the last closest admissible keypoint of the node within `TH_LOW`. It is left unpaired exactly when there is none. The occupied count is kept. |
| BoWMatching.TriangulationQuery | Source/Libraries/ORB_SLAM2/src/Associater.cc:890-960 | One keypoint of the first keyframe: the new state is `TriangulationTurn` of the old one, and the invariants carry over. |
| BoWMatching.TriangulationWrite | Source/Libraries/ORB_SLAM2/src/Associater.cc:949-966 | Writing a pair sets the entry, adds one to the count and records the rotation under `checkOri`; the invariants carry over. |
| BoWMatching.SearchForTriangulation | Source/Libraries/ORB_SLAM2/src/Associater.cc:856-1003 | The pairing before the filter is that of `TriangulationWalk` over the node pairs. The pairs listed are exactly the entries kept after the filter (`Discarded` undone), in increasing order of the first index, and the count is their number. A second-keyframe keypoint may be partner to several first-keyframe keypoints, as written. |
| BoWMatching.WalkTriangulation | Source/Libraries/ORB_SLAM2/src/Associater.cc:883-975 | The walk over the node pairs: the pairing, histogram and count end as `TriangulationWalk`. |
| BoWMatching.ListPairs | Source/Libraries/ORB_SLAM2/src/Associater.cc:993-1000 | `(i, j)` is listed exactly when `m12[i] == j`, in increasing `i`. There are as many pairs as occupied entries. |
| NearestNeighbour.LastWriterStep | Source/Libraries/ORB_SLAM2/src/Associater.cc:717-736 | A taken, writing match becomes the last writer of its train slot. Any other match leaves every slot as it was. |
| NearestNeighbour.TakenListStep | Source/Libraries/ORB_SLAM2/src/Associater.cc:717-736 | The list of counted matches grows by exactly each taken one, in order. |
| NearestNeighbour.SearchByNNLastFrame | Source/Libraries/ORB_SLAM2/src/Associater.cc:710-739 | A match within `TH_LOW` whose last-frame slot holds a good landmark is counted. It writes that landmark unless the last frame marks the keypoint an outlier, and the last such write wins. Outliers are counted without a write. |
| NearestNeighbour.SearchByNNKeyFrame | Source/Libraries/ORB_SLAM2/src/Associater.cc:742-777 | The output starts as nulls. Every match within `TH_HIGH` from a good keyframe landmark writes it and is counted. The last write wins. |
| NearestNeighbour.SelectIndices | Source/Libraries/ORB_SLAM2/src/Associater.cc:788-807 | Per channel, in increasing order, exactly the local-map points that are present, in view, not bad and of that feature type. |
| NearestNeighbour.MatchSelected | Source/Libraries/ORB_SLAM2/src/Associater.cc:830-848 | Each channel's new slots are those of `ChannelRun`, and the count is the sum of the channels' counts. In that run, every match within `TH_HIGH` whose frame slot is not held by an observed landmark writes the selected local-map point there and is counted. Every changed slot was free before and now holds a good landmark of its own channel. |
| NearestNeighbour.MatchChannel | Source/Libraries/ORB_SLAM2/src/Associater.cc:831-847 | One channel: the new slots and the count are those of `ChannelRun`, and every changed slot was free and now holds a good landmark of the channel. |
| Sim3Matching.ProjectAndMatch | Source/Libraries/ORB_SLAM2/src/Associater.cc:1097-1120 | The result is `WindowPick`. With `WindowPickFound`, a candidate is found exactly when some window candidate with octave in `[level - 1, level]` is within `TH_HIGH`. It is then the first closest such candidate, and otherwise the result is -1. |
| Sim3Matching.SearchDirection | Source/Libraries/ORB_SLAM2/src/Associater.cc:1048-1121 | Entry `i` is `DirectionEntry`: the `WindowPick` of a good landmark not matched on entry, or -1 for any other entry. Every filled entry is a keypoint of the other keyframe within `TH_HIGH`. |
| Sim3Matching.WindowPickFound | Source/Libraries/ORB_SLAM2/src/Associater.cc:1097-1120 | The Sim3 window pick finds a candidate exactly when some window candidate in the octave band is within `TH_HIGH`, and what it finds is within `TH_HIGH` and in the band. |
| Sim3Matching.Agreement | Source/Libraries/ORB_SLAM2/src/Associater.cc:1202-1212 | The agreement loop: an entry takes the second keyframe's landmark exactly when both directions agree. The count is the number of agreements. |
| Sim3Matching.AlreadyMatched | Source/Libraries/ORB_SLAM2/src/Associater.cc:1031-1042 | `vbAlreadyMatched1[i]` holds exactly when entry `i` is filled. `vbAlreadyMatched2[j]` holds exactly when some filled entry's landmark has index `j` in the second keyframe. |
| Sim3Matching.SearchBySim3 | Source/Libraries/ORB_SLAM2/src/Associater.cc:1005-1215 | Both direction searches are `DirectionEntry` pointwise, after the already-matched flags are set as `AlreadyMatched` states. `vpMatches12[i1]` takes the second keyframe's landmark exactly when `vnMatch2[vnMatch1[i1]] == i1`, and is unchanged otherwise. The count is the number of agreements. |
| Sim3Matching.AgreedStep | Source/Libraries/ORB_SLAM2/src/Associater.cc:1202-1212 | Each agreement adds exactly one to the count. |
| Sim3Matching.AgreementFillsEmpty | Source/Libraries/ORB_SLAM2/src/Associater.cc:1031-1042 | An agreeing entry was null on entry. It receives a good landmark, so non-null entries never change. |
| Initialization.MutualInjective | Source/Libraries/ORB_SLAM2/src/Associater.cc:1265-1274 | When `vnMatches12` and `vnMatches21` point at each other, no two keypoints share a partner. |
| Initialization.MatchInitQuery | Source/Libraries/ORB_SLAM2/src/Associater.cc:1242-1263 | Best and second-best among unsettled candidates, starting from INT_MAX. A candidate is settled when `vMatchedDistance` already holds a distance not above its own. The best is taken exactly when it is within `TH_LOW` and below `nnRatio` times the second; the result is `PickRatio`. It is then strictly closer than the distance recorded for that keypoint. |
| Initialization.HandOver | Source/Libraries/ORB_SLAM2/src/Associater.cc:1265-1274 | A previous partner of `bestIdx2` loses its match and the pair is written both ways. The pairing stays admissible and mutual, and the count stays the number of matched keypoints. |
| Initialization.InitialState | Source/Libraries/ORB_SLAM2/src/Associater.cc:1218-1227 | The vectors before the matching loop: no pairing, matched distances `INT_MAX`, empty histogram and count 0, which is `InitRun` after no query. |
| Initialization.InitQuery | Source/Libraries/ORB_SLAM2/src/Associater.cc:1229-1285 | One turn of the loop: the new state is `InitTurn` of the old one. Only octave-0 keypoints take the `InitPick` pick, which is then accepted by `InitAccept`: a previous partner is unmatched and the pair is written both ways. The pairing invariant carries over. |
| Initialization.Accept | Source/Libraries/ORB_SLAM2/src/Associater.cc:1265-1282 | Accepting a pick: the new state is `InitAccept` of the old one, and the pairing invariant carries over. |
| Initialization.MatchingLoop | Source/Libraries/ORB_SLAM2/src/Associater.cc:1229-1285 | The matching loop: the matches, reverse matches, histogram and count end as `InitRun`. The pairing is mutual and admissible, and the count is the number of matched keypoints. |
| Initialization.DiscardMatched | Source/Libraries/ORB_SLAM2/src/Associater.cc:1290-1308 | The kept buckets satisfy `ThreeMaxima`, and exactly the `Discarded` entries are reset. The count drops only for entries still matched (the `>= 0` check), so the count minus the occupied entries is unchanged. |
| Initialization.DiscardBucket | Source/Libraries/ORB_SLAM2/src/Associater.cc:1300-1306 | One discarded bucket: its recorded keypoints join the reset entries, and the count drops only for those still matched. |
| Initialization.UpdatePrevMatched | Source/Libraries/ORB_SLAM2/src/Associater.cc:1311-1313 | `vbPrevMatched` changes exactly at the matched keypoints, to the partner's position. |
| Initialization.SearchForInitialization | Source/Libraries/ORB_SLAM2/src/Associater.cc:1217-1316 | The matches before the filter are those of `InitRun`, and the filter undoes exactly the `Discarded` entries of its histogram. The result is admissible (octave 0, in the window, within `TH_LOW`) and one-to-one, before and after the filter. The count is the number of matched keypoints, and `vbPrevMatched` is updated exactly at them. |
| Fusion.ClosestCandidate | Source/Libraries/ORB_SLAM2/src/Associater.cc:1392-1435 | A candidate is found within `TH_LOW` exactly when one is in reach, and it is the first closest. This holds for the 256 and the INT_MAX starting values alike. |
| Fusion.Merge | Source/Libraries/ORB_SLAM2/src/Associater.cc:1440-1446 | `Replace` between two good landmarks of the channel. It has the effect `Registry.Replace` states, and the keyframe's slots keep holding landmarks of that channel. |
| Fusion.ReplacedTyped | Source/Libraries/ORB_SLAM2/src/MapPoint.cc:218-231 | After a `Replace` between channel-`c` landmarks, every slot of the channel still holds a channel-`c` landmark. No landmark loses its descriptor. |
| Fusion.AddToKeyFrame | Source/Libraries/ORB_SLAM2/src/Associater.cc:1447-1449 | `AddObservation` plus `AddMapPoint`: the landmark records the keypoint unless the keyframe already observes it, and the slot holds the landmark. |
| Fusion.AddedTyped | Source/Libraries/ORB_SLAM2/src/Associater.cc:1447-1449 | Adding a channel-`c` landmark keeps the slots typed, and every landmark keeps its channel and descriptor. |
| Fusion.FuseOne | Source/Libraries/ORB_SLAM2/src/Associater.cc:1334-1452 | A landmark is fused exactly when it is good, not yet in the keyframe, and has a candidate within `TH_LOW`; the first closest candidate is used. A good landmark in that slot is merged, and the one with more observations survives (the incoming one on a tie). A bad one is left alone. An empty slot receives the landmark. Otherwise nothing changes. |
| Fusion.Fuse | Source/Libraries/ORB_SLAM2/src/Associater.cc:1318-1456 | The registry stays valid (`FuseInputs`). The slots of `kf` keep holding landmarks of channel `c` (`Typed`). No landmark disappears, changes channel or loses its descriptor (`Kept`). The count lies between 0 and the number of landmarks. |
| Fusion.FuseOneReporting | Source/Libraries/ORB_SLAM2/src/Associater.cc:1484-1569 | A loop-closing query is fused exactly when the landmark is good, was not held on entry and has a candidate within `TH_LOW`. A landmark is reported exactly when the chosen slot holds a good one, and then nothing changes. An empty slot receives the landmark. `Replace` is never called. |
| Fusion.FuseWithSim3 | Source/Libraries/ORB_SLAM2/src/Associater.cc:1458-1573 | No landmark is merged, created or made bad. Every changed slot was empty and now holds a given landmark. A changed entry `i` of `vpReplacePoint` is a good landmark held by a channel-`c` slot of `kf`, and landmark `i` was not held by `kf` on entry. The count is at most the number of landmarks. |
| Fusion.FuseWithSim3Step | Source/Libraries/ORB_SLAM2/src/Associater.cc:1480-1570 | One loop turn keeps these invariants. The landmark is fused exactly when it is good, not held on entry and has a candidate within `TH_LOW`. There is a report exactly when the chosen slot holds a good landmark, and the report is that landmark. Entry `i` of `vpReplacePoint` takes the report, if any, and every other entry stays. |
| Fusion.AddedEvolved | Source/Libraries/ORB_SLAM2/src/Associater.cc:1563-1566 | Filling an empty slot with a given landmark only adds: nothing else changes. |
| Fusion.EvolvedTrans | Source/Libraries/ORB_SLAM2/src/Associater.cc:1480-1570 | The "only adds" relation composes across loop turns. |
| MapPoints.Registry.constructor | Source/Libraries/ORB_SLAM2/src/MapPoint.cc:30 | An empty registry: no landmarks, all slots empty, id counter 0, valid. |
| MapPoints.Registry.CreateFromKeyFrame | Source/Libraries/ORB_SLAM2/src/MapPoint.cc:33-60 | A fresh landmark gets `nObs` 0, counters 1, not bad, no replacement and the creating keyframe as reference. Its id is `nNextId++`, so ids strictly increase. |
| MapPoints.Registry.CreateFromFrame | Source/Libraries/ORB_SLAM2/src/MapPoint.cc:62-100 | The same, without a reference keyframe, with `mnFirstKFid` -1 and the frame keypoint's descriptor. |
| MapPoints.Registry.FreshValid | Source/Libraries/ORB_SLAM2/src/MapPoint.cc:36-60 | A fresh landmark (no observations, `nObs` 0, both counters 1, not bad) is counted. Added under the next id, it keeps the registry valid. |
| MapPoints.Registry.AddObservation | Source/Libraries/ORB_SLAM2/src/MapPoint.cc:124-134 | Idempotent: a keyframe already observing changes nothing. Otherwise the keypoint is recorded and `nObs` grows by 2 for stereo, 1 for monocular. A valid registry stays valid when the landmark is good. |
| MapPoints.Registry.AddedCounted | Source/Libraries/ORB_SLAM2/src/MapPoint.cc:128-133 | A new observation keeps `nObs` equal to the weight of the observations. |
| MapPoints.Registry.EraseObservation | Source/Libraries/ORB_SLAM2/src/MapPoint.cc:136-160 | An absent keyframe changes nothing. Otherwise the observation and its weight go and the reference moves to the first remaining observer. When the new `nObs` is at most 2, the landmark goes bad through `SetBadFlag`. |
| MapPoints.Registry.NextRefKF | Source/Libraries/ORB_SLAM2/src/MapPoint.cc:149-150 | The reference is kept unless it leaves. Then it becomes the least remaining observer id, or none. |
| MapPoints.Registry.DroppedCounted | Source/Libraries/ORB_SLAM2/src/MapPoint.cc:142-147 | Removing an observation mirrors the add: `nObs` stays the weight of the observations. |
| MapPoints.Registry.SetBadFlag | Source/Libraries/ORB_SLAM2/src/MapPoint.cc:172-191 | The landmark becomes bad with no observations. Every former observer's slot is emptied and the map drops it. |
| MapPoints.Registry.EraseObserverSlots | Source/Libraries/ORB_SLAM2/src/MapPoint.cc:185-188 | The loop over the copied observations empties each observer's slot, in any visiting order. |
| MapPoints.Registry.IsBad | Source/Libraries/ORB_SLAM2/src/MapPoint.cc:236-240 | Reads the bad flag. In a valid registry a bad landmark has no observations and is not in the map. |
| MapPoints.Registry.Observations | Source/Libraries/ORB_SLAM2/src/MapPoint.cc:167-170 | In a valid registry, `nObs` of a landmark that is not bad is the weight of its observations. |
| MapPoints.Registry.GetIndexInKeyFrame | Source/Libraries/ORB_SLAM2/src/MapPoint.cc:323-329 | The stored index is returned, or -1 exactly when the keyframe does not observe the landmark. In a valid registry the index names a keypoint of the landmark's channel in that keyframe. |
| MapPoints.Registry.InKeyFrameIffIndex | Source/Libraries/ORB_SLAM2/src/MapPoint.cc:323-338 | The two queries agree: a keyframe observes the landmark exactly when its index is non-negative. |
| MapPoints.Registry.IncreaseVisible | Source/Libraries/ORB_SLAM2/src/MapPoint.cc:242-245 | The visible counter grows by `n` and nothing else changes. A valid registry stays valid. |
| MapPoints.Registry.IncreaseFound | Source/Libraries/ORB_SLAM2/src/MapPoint.cc:247-250 | The found counter grows by `n` and nothing else changes. A valid registry stays valid. |
| MapPoints.Registry.Replace | Source/Libraries/ORB_SLAM2/src/MapPoint.cc:200-234 | Replacing a landmark by one with the same id does nothing. Otherwise `a` becomes bad with no observations and `mpReplaced = b`. Every former observer of `a` now points at `b`, or that slot is emptied where `b` was already observed. `b` gains those observations with their weight. `b`'s counters grow by `a`'s pre-merge counters, `b` recomputes its descriptor and the map drops `a`. |
| MapPoints.Registry.TransferObservations | Source/Libraries/ORB_SLAM2/src/MapPoint.cc:218-228 | The loop over the copied observations leaves `b` with all of them absorbed. It keeps its own index where both observe, and the slots are redirected as `RedirectSlots` says. |
| MapPoints.Registry.RedirectObserver | Source/Libraries/ORB_SLAM2/src/MapPoint.cc:222-227 | One observer: if `b` is not in the keyframe, the slot holds `b` and `b` gains the observation. Otherwise the slot is emptied. |
| MapPoints.Registry.RetireValid | Source/Libraries/ORB_SLAM2/src/MapPoint.cc:209-215 | Retiring `a` (bad, no observations, replaced by `b`) and taking it out of the map keeps the registry valid. |
| MapPoints.Registry.MergedCounted | Source/Libraries/ORB_SLAM2/src/MapPoint.cc:218-231 | The merge keeps `nObs` equal to the weight of the observations. |
| MapPoints.Registry.ComputeDistinctiveDescriptors | Source/Libraries/ORB_SLAM2/src/MapPoint.cc:257-316 | The descriptor becomes `Representative`. Nothing else changes, and a valid registry stays valid. |
| MapPoints.Registry.DistinctiveDescriptor | Source/Libraries/ORB_SLAM2/src/MapPoint.cc:257-316 | The computation with its early returns equals `Representative`. The descriptor is unchanged for a bad landmark, one without observations or one whose observers are all bad. Otherwise it is the gathered descriptor of least median distance, the first on ties. |
| MapPoints.Registry.RepresentativeObserved | Source/Libraries/ORB_SLAM2/src/MapPoint.cc:275-314 | A new descriptor is always the descriptor of one of the landmark's observations in a keyframe that is not bad. |
| MapPoints.Registry.ObservedDescriptorsEmpty | Source/Libraries/ORB_SLAM2/src/MapPoint.cc:275-283 | Nothing is gathered exactly when every observer is bad. |
| MapPoints.Registry.ObservedDescriptorFrom | Source/Libraries/ORB_SLAM2/src/MapPoint.cc:275-280 | Every gathered descriptor is an observed keypoint's descriptor in a keyframe that is not bad. |
| MapPoints.Registry.CollectDescriptors | Source/Libraries/ORB_SLAM2/src/MapPoint.cc:275-280 | The gathering loop over the observations, in ascending keyframe id, yields `ObservedDescriptors`. |
| MapPoints.DistanceMatrix | Source/Libraries/ORB_SLAM2/src/MapPoint.cc:288-296 | A zero diagonal, with each pair's distance computed once and stored both ways. |
| MapPoints.BestMedianIndex | Source/Libraries/ORB_SLAM2/src/MapPoint.cc:299-310 | The running best starts at INT_MAX and index 0 and is replaced only by a strictly smaller median. It ends at the first least median. |
| MapPoints.MedoidIndex | Source/Libraries/ORB_SLAM2/src/MapPoint.cc:299-310 | The chosen index is the first position of the smallest median. |
| MapPoints.MedianBound | Source/Libraries/ORB_SLAM2/src/MapPoint.cc:299-306 | Every median lies in [0, 256], below the INT_MAX start, so the first row always takes over. |
| MapPoints.ClampScale | Source/Libraries/ORB_SLAM2/src/MapPoint.cc:399-405 | The clamp leaves a level in [0, nLevels - 1] unchanged, maps a negative level to 0 and a level of nLevels or above to nLevels - 1. |
| Sorting.Sort | Source/Libraries/ORB_SLAM2/src/MapPoint.cc:303 | `std::sort` of a row: sorted and a permutation of it. |

## Left out

- The camera geometry is floating point. It covers the projection with `cv::Mat`; the depth, in-image, distance-band and viewing-angle tests; the stereo chi-square bounds (5.99, 7.8); the epipole distance test; and `CheckDistEpipolarLine` (`Associater.cc:1645-1661`). It is represented only by its outcome, as a `Matching.Probe` per query.
- `GetFeaturesInArea` and the DBoW2 feature vector come from code not shown. The window query is the probe's candidate list. The feature vector is a sequence of `(node, indices)` entries with increasing node ids.
- `KeyFrame.cc` and `Map.cc` are not part of this model. `EraseMapPointMatch`, `ReplaceMapPointMatch`, `AddMapPoint`, `GetMapPoints` and `Map::EraseMapPoint` are modelled as slot-vector updates and a set removal on the registry.
- `cv::BFMatcher` in `SearchByNN` is a foreign routine. Its cross-checked matches are an input list of `DMatch` triples, and only the loops that filter them are modelled.
- The local-map `SearchByNN` copies descriptors into a 256-bit query matrix (`Associater.cc:809-821`); only the index bookkeeping of that copy is modelled.
- Matching.RadiusByViewingCos: the radius feeds only the window query, which is part of the geometry probe, so no matcher contract depends on it.
- The octave bands handed to `GetFeaturesInArea` are part of the probe's candidate list, and no contract says a candidate lies in its band. They are: the last-frame projection's `nLastOctave`, `0..nLastOctave` or `nLastOctave-1..nLastOctave+1` by `bForward`/`bBackward` (`Associater.cc:82-88`); the local-map `nPredictedLevel-1..nPredictedLevel` (`Associater.cc:187-188`); the keyframe projection's `nPredictedLevel-1..nPredictedLevel+1` (`Associater.cc:411`); and the initialisation's `level1..level1` (`Associater.cc:1235`).
- Selection.BelowRatio: the ratio test `bestDist < mfNNratio * bestDist2` (`Associater.cc:539-540`, `661`, `1266`) is decided exactly over the reals. The source multiplies in single precision, so near the boundary the two can differ. With `mfNNratio` = 0.6f and distances (15, 25), the float product 15.00000095 accepts where the exact 15 rejects.
- Selection.LevelRefuses: the same holds for the local-map refusal `bestDist > mfNNratio * bestDist2` (`Associater.cc:234`). It is decided over the reals, not in single precision.
- Rotation.ComputeThreeMaxima: the cuts `max2 < 0.1f * max1` and `max3 < 0.1f * max1` (`Associater.cc:1601-1604`) are decided over the reals with 0.1, not in single precision with 0.1f.
- Descriptors.DescriptorDistance: the normalisation `int(dist * 32.0f / cols + 0.5f)` is computed exactly on integers; single-precision rounding is not modelled.
- Keypoints carry only what the integer logic reads: octave, angle, `uRight` sign and descriptor. The angle difference before bucketing is real arithmetic without float rounding.
- The feature type of a landmark is a channel index, so the `ftype == -1` case does not arise.
- Rotation.RotationBin: float rounding of `round(rot * factor)` is not modelled. The bin is computed on reals, and as written the factor is `1/HISTO_LENGTH`, so only buckets 0..12 occur.
- The last-frame `SearchByNN` counts a match whose last-frame keypoint is an outlier even though it writes nothing (`Associater.cc:731-734`). The model keeps that count as written.
- Fusion.Fuse: the count is bounded by the number of landmarks only. The per-landmark outcome, including when the count goes up, is stated by `FuseOne`.
- Fusion.FuseWithSim3: likewise, the count is bounded by the number of landmarks only. The per-landmark outcome, including that every good occupant of a chosen slot is reported, is stated by `FuseWithSim3Step`. At the loop level, a changed `vpReplacePoint` entry is stated to be a good landmark that `kf` holds in channel `c`. It is not tied to the slot of the first closest candidate of that landmark's own query.
- Fusion.Fuse requires every given landmark to have a descriptor of its channel. The probes are fixed up front from the geometry, so a probe does not follow a landmark that a merge earlier in the same loop retired.
- Initialization.UpdatePrevMatched and Initialization.SearchForInitialization: `vbPrevMatched` is a vector of an arbitrary point type, and the partner's keypoint position is an input vector.
- MapPoints.Registry.Replace requires a target that is not bad and of the same channel. The source does not check this, but a bad target would gain observations and break "bad implies no observations".
- NextRefKF: the source keeps observations in a `std::map<KeyFrame*, size_t>`, so `begin()` is the keyframe of least address. The model keys observations by keyframe id and takes the least id. Addresses are not modelled; where address order and id order differ, the new reference keyframe can differ.
- EraseObservation: the new reference keyframe follows `NextRefKF`, so it is the least remaining id rather than the least address.
- CollectDescriptors: the gathering loop visits observers in ascending id, where the source visits them in address order. The set of gathered descriptors is the same, but their order can differ.
- DistinctiveDescriptor: "first on ties" is first in ascending keyframe id, because of the gathering order above; the source breaks a tie between equal medians by address order.
- ComputeDistinctiveDescriptors: the same tie-break difference as `DistinctiveDescriptor`; when the least median is unique the chosen descriptor is the same.
- KeyFrameQuery: with `ORBdist >= 256` and every window slot already filled, the source (`Associater.cc:417-439`) writes through index -1 and counts the match; that is undefined behaviour. The model skips the write and does not count it. The callers, which choose `ORBdist`, are not part of this model.
- MapPoints.Registry.NextRefKF: when the last observer leaves, the source reads `begin()` of an empty map. The model sets the reference to none, and the landmark is then set bad anyway.
- The float parts of `MapPoint` are not modelled: `UpdateNormalAndDepth`, the constructors' normal and distance, `GetFoundRatio`, the 0.8/1.2 invariance scaling and the `log`/`ceil` in `PredictScale`. Only the integer clamp is modelled.
- `GetReplaced` and `GetFeatureType` are plain reads of the `replaced` and `ftype` fields of `MapPoints.Landmark`. The world position, normal and distance getters are left out with the geometry.
- Mutexes and `unique_lock` are concurrency; the model is sequential.
- The `mnId` equality test of `Replace` is id equality of registry keys.
