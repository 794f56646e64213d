/** The per-channel keypoint data of a frame or keyframe, and the
    bag-of-words feature vector with the two-iterator walk that pairs up equal
    vocabulary nodes. */
module Features {
  import opened Descriptors

  /** One entry of a DBoW2 feature vector: a vocabulary node id and the
      keypoint indices filed under it. */
  datatype FeatureNode = FeatureNode(node: nat, indices: seq<nat>)

  /** A feature vector is a map ordered by node id. */
  type FeatureVector = seq<FeatureNode>

  /** One feature channel of a frame: per keypoint its descriptor row, its
      pyramid octave, its orientation in degrees and its right-image
      coordinate (negative for a monocular keypoint); plus the channel's
      feature vector. */
  datatype Channel = Channel(descriptors: seq<Descriptor>, octaves: seq<int>, angles: seq<real>,
                             uRight: seq<real>, featVec: FeatureVector)
  {
    /** Number of keypoints, `N` of the source. */
    function N(): nat
    {
      |descriptors|
    }

    /** Parallel vectors of one length, descriptors of one width, angles in
        [0, 360) and a feature vector over this channel's keypoints. */
    ghost predicate WellFormed(width: nat)
    {
      && width > 0
      && |octaves| == |angles| == |uRight| == |descriptors|
      && (forall i :: 0 <= i < |descriptors| ==> |descriptors[i]| == width)
      && (forall i :: 0 <= i < |angles| ==> 0.0 <= angles[i] < 360.0)
      && FeatureVectorValid(featVec, |descriptors|)
    }
  }

  /** Node ids strictly increase along the vector (the order of `std::map`). */
  ghost predicate NodesIncreasing(fv: FeatureVector)
  {
    forall a, b :: 0 <= a < b < |fv| ==> fv[a].node < fv[b].node
  }

  /** Every index is a keypoint of a channel with `n` keypoints and each
      keypoint is filed under at most one node, at most once. */
  ghost predicate FeatureVectorValid(fv: FeatureVector, n: nat)
  {
    && NodesIncreasing(fv)
    && (forall a, i :: 0 <= a < |fv| && 0 <= i < |fv[a].indices| ==> fv[a].indices[i] < n)
    && (forall a, i, b, j ::
          (0 <= a < |fv| && 0 <= i < |fv[a].indices| && 0 <= b < |fv| && 0 <= j < |fv[b].indices|
            && (a != b || i != j)) ==> fv[a].indices[i] != fv[b].indices[j])
  }

  /** `std::map::lower_bound`: the first position whose node id is not below
      `key` (the end when there is none). */
  function LowerBound(fv: FeatureVector, key: nat): (r: nat)
    ensures r <= |fv|
    ensures forall i :: 0 <= i < r ==> fv[i].node < key
    ensures r < |fv| ==> fv[r].node >= key
  {
    if |fv| == 0 then 0
    else if fv[0].node >= key then 0
    else 1 + LowerBound(fv[1..], key)
  }

  /** The lower bound of a key lies past every position with a smaller id. */
  lemma {:induction false} LowerBoundPast(fv: FeatureVector, key: nat, i: nat)
    requires NodesIncreasing(fv) && i < |fv| && fv[i].node < key
    ensures LowerBound(fv, key) > i
  {
    if i > 0 {
      assert fv[0].node < fv[i].node;
      assert NodesIncreasing(fv[1..]) by {
        forall a, b | 0 <= a < b < |fv[1..]|
          ensures fv[1..][a].node < fv[1..][b].node
        {
          assert fv[1..][a] == fv[a + 1] && fv[1..][b] == fv[b + 1];
        }
      }
      LowerBoundPast(fv[1..], key, i - 1);
    }
  }

  /** `pairs` lists exactly the position pairs with equal node ids, in
      increasing order in both vectors: what `MergeWalk` returns. */
  ghost predicate NodePairs(fv1: FeatureVector, fv2: FeatureVector, pairs: seq<(nat, nat)>)
  {
    && (forall k :: 0 <= k < |pairs| ==>
          pairs[k].0 < |fv1| && pairs[k].1 < |fv2| && fv1[pairs[k].0].node == fv2[pairs[k].1].node)
    && (forall i, j :: 0 <= i < |fv1| && 0 <= j < |fv2| && fv1[i].node == fv2[j].node ==> (i, j) in pairs)
    && (forall k, l :: 0 <= k < l < |pairs| ==> pairs[k].0 < pairs[l].0 && pairs[k].1 < pairs[l].1)
  }

  /** The node pairs are determined by the two vectors. */
  lemma NodePairsUnique(fv1: FeatureVector, fv2: FeatureVector, p: seq<(nat, nat)>, q: seq<(nat, nat)>)
    requires NodePairs(fv1, fv2, p) && NodePairs(fv1, fv2, q)
    ensures p == q
  {
    SortedByFirst(p, q);
  }

  /** Two sequences of pairs, each strictly increasing in the first
      component, with the same elements are equal. */
  lemma {:induction false} SortedByFirst(p: seq<(nat, nat)>, q: seq<(nat, nat)>)
    requires forall k, l :: 0 <= k < l < |p| ==> p[k].0 < p[l].0
    requires forall k, l :: 0 <= k < l < |q| ==> q[k].0 < q[l].0
    requires forall x :: x in p <==> x in q
    ensures p == q
  {
    BothEmpty(p, q);
    if |p| > 0 {
      assert p[0] == q[0] by {
        assert p[0] in q && q[0] in p;
        var i :| 0 <= i < |p| && p[i] == q[0];
        var j :| 0 <= j < |q| && q[j] == p[0];
        assert i == 0 && j == 0;
      }
      forall x
        ensures x in p[1..] <==> x in q[1..]
      {
        if x in p[1..] {
          var i :| 1 <= i < |p| && p[i] == x;
          assert x in q && x != q[0];
        }
        if x in q[1..] {
          var j :| 1 <= j < |q| && q[j] == x;
          assert x in p && x != p[0];
        }
      }
      SortedByFirst(p[1..], q[1..]);
      assert p == [p[0]] + p[1..] && q == [q[0]] + q[1..];
    }
  }

  /** Sequences with the same elements are empty together. */
  lemma BothEmpty<T>(p: seq<T>, q: seq<T>)
    requires forall x :: x in p <==> x in q
    ensures |p| == 0 <==> |q| == 0
  {
    if |p| > 0 {
      assert p[0] in q;
    }
    if |q| > 0 {
      assert q[0] in p;
    }
  }

  /** The node-pairing walk of `SearchByBoW` and `SearchForTriangulation`:
      on equal ids both iterators advance, otherwise the one behind jumps to
      the `lower_bound` of the other's id. It returns the position pairs it
      stops at with equal ids: all such pairs, in increasing order in both
      vectors. */
  method MergeWalk(fv1: FeatureVector, fv2: FeatureVector) returns (pairs: seq<(nat, nat)>)
    requires NodesIncreasing(fv1) && NodesIncreasing(fv2)
    ensures forall k :: 0 <= k < |pairs| ==> (
      pairs[k].0 < |fv1| && pairs[k].1 < |fv2| && fv1[pairs[k].0].node == fv2[pairs[k].1].node)
    ensures forall i, j :: 0 <= i < |fv1| && 0 <= j < |fv2| && fv1[i].node == fv2[j].node ==> (i, j) in pairs
    ensures forall k, l :: 0 <= k < l < |pairs| ==> pairs[k].0 < pairs[l].0 && pairs[k].1 < pairs[l].1
  {
    pairs := [];
    var it1, it2 := 0, 0;
    while it1 < |fv1| && it2 < |fv2|
      invariant Walked(fv1, fv2, it1, it2, pairs)
      decreases |fv1| - it1 + |fv2| - it2
    {
      if fv1[it1].node == fv2[it2].node {
        WalkedMatch(fv1, fv2, it1, it2, pairs);
        pairs := pairs + [(it1, it2)];
        it1, it2 := it1 + 1, it2 + 1;
      } else if fv1[it1].node < fv2[it2].node {
        WalkedJumpFirst(fv1, fv2, it1, it2, pairs);
        it1 := LowerBound(fv1, fv2[it2].node);
      } else {
        WalkedJumpSecond(fv1, fv2, it1, it2, pairs);
        it2 := LowerBound(fv2, fv1[it1].node);
      }
    }
  }

  /** The invariant of `MergeWalk` with the iterators at `it1` and `it2`:
      `pairs` lists, in increasing order, the equal-id position pairs behind
      either iterator. */
  ghost predicate Walked(fv1: FeatureVector, fv2: FeatureVector, it1: int, it2: int, pairs: seq<(nat, nat)>)
  {
    && 0 <= it1 <= |fv1| && 0 <= it2 <= |fv2|
    && (forall k :: 0 <= k < |pairs| ==>
          pairs[k].0 < it1 && pairs[k].1 < it2 && fv1[pairs[k].0].node == fv2[pairs[k].1].node)
    && (forall i, j :: (0 <= i < |fv1| && 0 <= j < |fv2| && fv1[i].node == fv2[j].node
          && (i < it1 || j < it2)) ==> (i, j) in pairs)
    && (forall k, l :: 0 <= k < l < |pairs| ==> pairs[k].0 < pairs[l].0 && pairs[k].1 < pairs[l].1)
  }

  /** Equal ids: the pair is taken and both iterators advance. */
  lemma WalkedMatch(fv1: FeatureVector, fv2: FeatureVector, it1: int, it2: int, pairs: seq<(nat, nat)>)
    requires NodesIncreasing(fv1) && NodesIncreasing(fv2) && Walked(fv1, fv2, it1, it2, pairs)
    requires it1 < |fv1| && it2 < |fv2| && fv1[it1].node == fv2[it2].node
    ensures Walked(fv1, fv2, it1 + 1, it2 + 1, pairs + [(it1, it2)])
  {
    var pairs' := pairs + [(it1, it2)];
    forall i, j | 0 <= i < |fv1| && 0 <= j < |fv2| && fv1[i].node == fv2[j].node && (i < it1 + 1 || j < it2 + 1)
      ensures (i, j) in pairs'
    {
      if i >= it1 && j >= it2 {
        assert i == it1 || j == it2;
        assert i == it1 && j == it2;
      }
    }
  }

  /** The first iterator is behind: it jumps to the lower bound of the
      second's id, past no equal-id pair. */
  lemma WalkedJumpFirst(fv1: FeatureVector, fv2: FeatureVector, it1: int, it2: int, pairs: seq<(nat, nat)>)
    requires NodesIncreasing(fv1) && NodesIncreasing(fv2) && Walked(fv1, fv2, it1, it2, pairs)
    requires it1 < |fv1| && it2 < |fv2| && fv1[it1].node < fv2[it2].node
    ensures LowerBound(fv1, fv2[it2].node) > it1 && Walked(fv1, fv2, LowerBound(fv1, fv2[it2].node), it2, pairs)
  {
    var key := fv2[it2].node;
    var r := LowerBound(fv1, key);
    LowerBoundPast(fv1, key, it1);
    BelowFrom(fv1, fv2, r, it2);
  }

  /** Below the lower bound of the id at position `k` of `other`, every id of
      `fv` is smaller than every id of `other` from `k` on. */
  lemma BelowFrom(fv: FeatureVector, other: FeatureVector, r: nat, k: nat)
    requires NodesIncreasing(other) && k < |other| && r == LowerBound(fv, other[k].node)
    ensures forall i, j :: 0 <= i < r && k <= j < |other| ==> fv[i].node < other[j].node
  {
    forall i, j | 0 <= i < r && k <= j < |other|
      ensures fv[i].node < other[j].node
    {
      if j > k {
        assert other[k].node < other[j].node;
      }
    }
  }

  /** The second iterator is behind: the same with the roles swapped. */
  lemma WalkedJumpSecond(fv1: FeatureVector, fv2: FeatureVector, it1: int, it2: int, pairs: seq<(nat, nat)>)
    requires NodesIncreasing(fv1) && NodesIncreasing(fv2) && Walked(fv1, fv2, it1, it2, pairs)
    requires it1 < |fv1| && it2 < |fv2| && fv2[it2].node < fv1[it1].node
    ensures LowerBound(fv2, fv1[it1].node) > it2 && Walked(fv1, fv2, it1, LowerBound(fv2, fv1[it1].node), pairs)
  {
    var key := fv1[it1].node;
    var r := LowerBound(fv2, key);
    LowerBoundPast(fv2, key, it2);
    BelowFrom(fv2, fv1, r, it1);
  }

}
