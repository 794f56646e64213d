/** A frame as the matchers see it: the keypoints of each feature channel, the
    outlier flags tracking left on them, and the landmark slots
    `mvpMapPoints` that the frame-target matchers fill in place. */
module Frames {
  import opened Common
  import opened Features

  class Frame {
    /** The keypoints of each channel. */
    const channels: seq<Channel>
    /** `mvbOutlier` of each channel. */
    const outlier: seq<seq<bool>>
    /** `mvpMapPoints` of each channel. */
    var slots: seq<seq<Option<PointId>>>

    /** One slot vector and one outlier vector per channel, as long as the
        channel has keypoints. */
    ghost predicate Valid()
      reads this
    {
      && |slots| == |channels| == |outlier|
      && forall c :: 0 <= c < |channels| ==> |slots[c]| == |outlier[c]| == channels[c].N()
    }

    /** A frame whose slots are all empty. */
    constructor (channels: seq<Channel>, outlier: seq<seq<bool>>)
      requires |outlier| == |channels| && forall c :: 0 <= c < |channels| ==> |outlier[c]| == channels[c].N()
      ensures Valid() && this.channels == channels && this.outlier == outlier
      ensures forall c, i :: 0 <= c < |slots| && 0 <= i < |slots[c]| ==> slots[c][i] == None
    {
      this.channels := channels;
      this.outlier := outlier;
      slots := seq(|channels|, c requires 0 <= c < |channels| => seq(channels[c].N(), _ => None));
    }
  }
}
