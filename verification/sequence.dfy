/** The analysis of one capture sequence: a single pass over its frames that
    feeds the depth and color timestamps to their classifiers and counts the
    frames whose pose is illegal. */
module Sequence {
  import opened Basics
  import opened Timestamps
  import Pose

  /** One frame record as the frame loop reads it. */
  datatype Frame = Frame(depthTs: u64, colorTs: u64, cameraToWorld: Pose.Matrix)

  /** The per-sequence verdict. As in the source, `validPoseNum` holds the
      number of frames, not the number of legal poses. */
  datatype SeqStatus = SeqStatus(
    invalidPoseNum: nat,
    validPoseNum: nat,
    depthTs: Status,
    colorTs: Status)

  /** The depth timestamps of the frames, in order. */
  function DepthStream(frames: seq<Frame>): (ts: seq<u64>)
    ensures |ts| == |frames|
    ensures forall i :: 0 <= i < |frames| ==> ts[i] == frames[i].depthTs
  {
    seq(|frames|, i requires 0 <= i < |frames| => frames[i].depthTs)
  }

  /** The color timestamps of the frames, in order. */
  function ColorStream(frames: seq<Frame>): (ts: seq<u64>)
    ensures |ts| == |frames|
    ensures forall i :: 0 <= i < |frames| ==> ts[i] == frames[i].colorTs
  {
    seq(|frames|, i requires 0 <= i < |frames| => frames[i].colorTs)
  }

  /** The indices of the frames whose pose is illegal. */
  function IllegalFrames(frames: seq<Frame>): set<nat>
  {
    set i: nat | i < |frames| && Pose.IsIllegal(frames[i].cameraToWorld)
  }

  lemma IllegalFramesSnoc(frames: seq<Frame>, f: Frame)
    ensures IllegalFrames(frames + [f])
         == IllegalFrames(frames) + (if Pose.IsIllegal(f.cameraToWorld) then {|frames|} else {})
  {
    var all := frames + [f];
    assert forall i :: 0 <= i < |frames| ==> all[i] == frames[i];
    assert all[|frames|] == f;
  }

  /** The loop state of the analysis: both trackers and the illegal-pose count. */
  datatype Scan = Scan(depth: Tracker, color: Tracker, illegal: nat)

  const Initial := Scan(Start, Start, 0)

  /** One iteration of the frame loop. */
  function ScanFrame(s: Scan, f: Frame): Scan
  {
    Scan(Observe(s.depth, f.depthTs), Observe(s.color, f.colorTs),
         if Pose.IsIllegal(f.cameraToWorld) then s.illegal + 1 else s.illegal)
  }

  /** The loop state after all frames, in order. */
  function ScanAll(frames: seq<Frame>): Scan
  {
    if frames == [] then Initial else ScanFrame(ScanAll(frames[..|frames| - 1]), frames[|frames| - 1])
  }

  /** The joint pass gives each stream the tracker it would get on its own,
      and counts exactly the frames whose pose is illegal. */
  lemma {:induction false} ScanAllSound(frames: seq<Frame>)
    ensures ScanAll(frames).depth == Track(DepthStream(frames))
    ensures ScanAll(frames).color == Track(ColorStream(frames))
    ensures ScanAll(frames).illegal == |IllegalFrames(frames)| <= |frames|
  {
    if frames != [] {
      var prefix := frames[..|frames| - 1];
      var f := frames[|frames| - 1];
      assert prefix + [f] == frames;
      ScanAllSound(prefix);
      IllegalFramesSnoc(prefix, f);
      assert DepthStream(frames)[..|prefix|] == DepthStream(prefix);
      assert ColorStream(frames)[..|prefix|] == ColorStream(prefix);
    }
  }

  /** The sequence verdict (the status derivation after the frame loop). */
  function Analyze(frames: seq<Frame>): SeqStatus
  {
    var s := ScanAll(frames);
    SeqStatus(s.illegal, |frames|, Verdict(s.depth), Verdict(s.color))
  }

  /** The verdict holds the frame count, the number of frames with an illegal
      pose (never more than the frame count) and the status each timestamp
      stream gets on its own; an empty sequence has no illegal pose and two
      NotAvailable streams. */
  lemma AnalyzeSound(frames: seq<Frame>)
    ensures Analyze(frames).validPoseNum == |frames|
    ensures Analyze(frames).invalidPoseNum == |IllegalFrames(frames)|
    ensures Analyze(frames).invalidPoseNum <= Analyze(frames).validPoseNum
    ensures Analyze(frames).depthTs == StreamStatus(DepthStream(frames))
    ensures Analyze(frames).colorTs == StreamStatus(ColorStream(frames))
    ensures frames == [] ==> Analyze(frames) == SeqStatus(0, 0, NotAvailable, NotAvailable)
  {
    ScanAllSound(frames);
  }

  /** The depth stream is all zero, has a positive entry, or never decreases
      exactly when the depth timestamps of the frames do. */
  lemma DepthStreamFacts(frames: seq<Frame>)
    ensures AllZero(DepthStream(frames)) <==> forall i :: 0 <= i < |frames| ==> frames[i].depthTs == 0
    ensures SomePositive(DepthStream(frames)) <==> exists i :: 0 <= i < |frames| && frames[i].depthTs > 0
    ensures NonDecreasing(DepthStream(frames))
        <==> forall i :: 0 < i < |frames| ==> frames[i - 1].depthTs <= frames[i].depthTs
  {
    var ts := DepthStream(frames);
    if SomePositive(ts) {
      var i :| 0 <= i < |ts| && ts[i] > 0;
      assert frames[i].depthTs > 0;
    }
    if exists i :: 0 <= i < |frames| && frames[i].depthTs > 0 {
      var i :| 0 <= i < |frames| && frames[i].depthTs > 0;
      assert ts[i] > 0;
    }
  }

  /** The same for the color stream. */
  lemma ColorStreamFacts(frames: seq<Frame>)
    ensures AllZero(ColorStream(frames)) <==> forall i :: 0 <= i < |frames| ==> frames[i].colorTs == 0
    ensures SomePositive(ColorStream(frames)) <==> exists i :: 0 <= i < |frames| && frames[i].colorTs > 0
    ensures NonDecreasing(ColorStream(frames))
        <==> forall i :: 0 < i < |frames| ==> frames[i - 1].colorTs <= frames[i].colorTs
  {
    var ts := ColorStream(frames);
    if SomePositive(ts) {
      var i :| 0 <= i < |ts| && ts[i] > 0;
      assert frames[i].colorTs > 0;
    }
    if exists i :: 0 <= i < |frames| && frames[i].colorTs > 0 {
      var i :| 0 <= i < |frames| && frames[i].colorTs > 0;
      assert ts[i] > 0;
    }
  }

  /** The depth verdict in terms of the frames themselves: NotAvailable iff
      every depth timestamp is 0; Good iff one is positive and none is below
      the frame before it. */
  lemma DepthVerdict(frames: seq<Frame>)
    ensures Analyze(frames).depthTs == NotAvailable
        <==> forall i :: 0 <= i < |frames| ==> frames[i].depthTs == 0
    ensures Analyze(frames).depthTs == Good
        <==> (exists i :: 0 <= i < |frames| && frames[i].depthTs > 0)
             && forall i :: 0 < i < |frames| ==> frames[i - 1].depthTs <= frames[i].depthTs
  {
    AnalyzeSound(frames);
    DepthStreamFacts(frames);
  }

  /** The color verdict in terms of the frames themselves. */
  lemma ColorVerdict(frames: seq<Frame>)
    ensures Analyze(frames).colorTs == NotAvailable
        <==> forall i :: 0 <= i < |frames| ==> frames[i].colorTs == 0
    ensures Analyze(frames).colorTs == Good
        <==> (exists i :: 0 <= i < |frames| && frames[i].colorTs > 0)
             && forall i :: 0 < i < |frames| ==> frames[i - 1].colorTs <= frames[i].colorTs
  {
    AnalyzeSound(frames);
    ColorStreamFacts(frames);
  }

  /** The frame loop as the source runs it, with its seven local variables. */
  method AnalyzeSens(frames: seq<Frame>) returns (st: SeqStatus)
    ensures st == Analyze(frames)
    ensures st.invalidPoseNum <= st.validPoseNum == |frames|
  {
    var tsDMonotonic := true;
    var tsCMonotonic := true;
    var tsDAvailable := false;
    var tsCAvailable := false;
    var tsDLast: u64 := 0;
    var tsCLast: u64 := 0;
    var illegal: nat := 0;
    for i := 0 to |frames|
      invariant Tracker(tsDLast, tsDAvailable, tsDMonotonic) == ScanAll(frames[..i]).depth
      invariant Tracker(tsCLast, tsCAvailable, tsCMonotonic) == ScanAll(frames[..i]).color
      invariant illegal == ScanAll(frames[..i]).illegal
    {
      assert frames[..i + 1][..i] == frames[..i];
      var tD := frames[i].depthTs;
      var tC := frames[i].colorTs;
      if tD > 0 { tsDAvailable := true; }
      if tC > 0 { tsCAvailable := true; }
      if tD < tsDLast { tsDMonotonic := false; }
      if tC < tsCLast { tsCMonotonic := false; }
      tsDLast := tD;
      tsCLast := tC;
      if Pose.IsIllegal(frames[i].cameraToWorld) {
        illegal := illegal + 1;
      }
      assert ScanAll(frames[..i + 1]) == ScanFrame(ScanAll(frames[..i]), frames[i]);
    }
    assert frames[..|frames|] == frames;
    AnalyzeSound(frames);
    st := SeqStatus(
      illegal,
      |frames|,
      if tsDAvailable then (if tsDMonotonic then Good else NotMonotonic) else NotAvailable,
      if tsCAvailable then (if tsCMonotonic then Good else NotMonotonic) else NotAvailable);
  }
}
