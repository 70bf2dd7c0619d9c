/** The dataset report: seven counters folded over the scenes of a dataset
    root, one scene at a time, in directory enumeration order. */
module Dataset {
  import opened Timestamps
  import opened Sequence

  /** The report counters of the entry point. */
  datatype Report = Report(
    noSensNum: nat,
    totalNum: nat,
    totalHealthySeq: nat,
    totalPoseValidSeq: nat,
    totalTimestampValidSeq: nat,
    totalPoseInvalidNum: nat,
    totalPoseValidNum: nat)

  const Empty := Report(0, 0, 0, 0, 0, 0, 0)

  /** What one scene directory yields: no sequence file, or the verdict of
      the sequence file found in it. */
  datatype SceneOutcome = Missing | Present(status: SeqStatus)

  predicate PoseValid(s: SeqStatus)
  {
    s.invalidPoseNum == 0
  }

  predicate TimestampValid(s: SeqStatus)
  {
    s.depthTs == Good && s.colorTs == Good
  }

  predicate Healthy(s: SeqStatus)
  {
    PoseValid(s) && TimestampValid(s)
  }

  function Indicator(b: bool): nat
  {
    if b then 1 else 0
  }

  /** The relations between counters every report reachable by the fold keeps. */
  predicate Consistent(r: Report)
  {
    && r.totalHealthySeq <= r.totalPoseValidSeq <= r.totalNum
    && r.totalHealthySeq <= r.totalTimestampValidSeq <= r.totalNum
  }

  /** Every analysed sequence has no more illegal poses than frames. */
  predicate PoseCountsFit(scenes: seq<SceneOutcome>)
  {
    forall i :: 0 <= i < |scenes| && scenes[i].Present? ==> scenes[i].status.invalidPoseNum <= scenes[i].status.validPoseNum
  }

  /** Folding one analysed sequence into the report. */
  function AddSequence(r: Report, s: SeqStatus): Report
  {
    Report(
      r.noSensNum,
      r.totalNum + 1,
      r.totalHealthySeq + Indicator(Healthy(s)),
      r.totalPoseValidSeq + Indicator(PoseValid(s)),
      r.totalTimestampValidSeq + Indicator(TimestampValid(s)),
      r.totalPoseInvalidNum + s.invalidPoseNum,
      r.totalPoseValidNum + s.validPoseNum)
  }

  /** Folding one scene: a missing sequence file is only counted; the verdict
      of a present one is added. */
  function AddScene(r: Report, o: SceneOutcome): Report
  {
    match o
    case Missing => r.(noSensNum := r.noSensNum + 1)
    case Present(status) => AddSequence(r, status)
  }

  /** A missing sequence file bumps `noSensNum` and nothing else; a present
      one adds exactly one to `totalNum`, one to each per-sequence verdict
      counter whose condition its verdict meets and nothing to the others,
      and its two pose counts to the pose totals; either way the counter
      relations are kept. */
  lemma AddSceneEffect(r: Report, o: SceneOutcome)
    ensures AddScene(r, o).noSensNum + AddScene(r, o).totalNum == r.noSensNum + r.totalNum + 1
    ensures o.Missing? ==> AddScene(r, o) == r.(noSensNum := r.noSensNum + 1)
    ensures o.Present? ==> var r' := AddScene(r, o);
                           && r'.noSensNum == r.noSensNum
                           && r'.totalNum == r.totalNum + 1
                           && r.totalHealthySeq <= r'.totalHealthySeq <= r.totalHealthySeq + 1
                           && r.totalPoseValidSeq <= r'.totalPoseValidSeq <= r.totalPoseValidSeq + 1
                           && r.totalTimestampValidSeq <= r'.totalTimestampValidSeq <= r.totalTimestampValidSeq + 1
                           && (r'.totalHealthySeq == r.totalHealthySeq + 1
                               <==> o.status.invalidPoseNum == 0 && o.status.depthTs == Good && o.status.colorTs == Good)
                           && (r'.totalPoseValidSeq == r.totalPoseValidSeq + 1 <==> o.status.invalidPoseNum == 0)
                           && (r'.totalTimestampValidSeq == r.totalTimestampValidSeq + 1
                               <==> o.status.depthTs == Good && o.status.colorTs == Good)
                           && r'.totalPoseValidNum == r.totalPoseValidNum + o.status.validPoseNum
                           && r'.totalPoseInvalidNum == r.totalPoseInvalidNum + o.status.invalidPoseNum
    ensures Consistent(r) ==> Consistent(AddScene(r, o))
  {
  }

  /** The report after folding the scenes in the order they are enumerated. */
  function Aggregate(scenes: seq<SceneOutcome>): Report
  {
    if scenes == [] then Empty
    else AddScene(Aggregate(scenes[..|scenes| - 1]), scenes[|scenes| - 1])
  }

  /** The folded report keeps the counter relations, counts every missing
      sequence file in `noSensNum` and every other scene in `totalNum`, and
      has no more illegal poses than frames when no sequence has. */
  lemma {:induction false} AggregateCounts(scenes: seq<SceneOutcome>)
    ensures Consistent(Aggregate(scenes))
    ensures Aggregate(scenes).noSensNum == multiset(scenes)[Missing]
    ensures Aggregate(scenes).noSensNum + Aggregate(scenes).totalNum == |scenes|
    ensures PoseCountsFit(scenes)
            ==> Aggregate(scenes).totalPoseInvalidNum <= Aggregate(scenes).totalPoseValidNum
  {
    if scenes != [] {
      var prefix := scenes[..|scenes| - 1];
      var x := scenes[|scenes| - 1];
      assert prefix + [x] == scenes;
      assert forall i :: 0 <= i < |prefix| ==> prefix[i] == scenes[i];
      AggregateCounts(prefix);
      AddSceneEffect(Aggregate(prefix), x);
    }
  }

  predicate IsMissing(o: SceneOutcome)
  {
    o.Missing?
  }

  predicate IsAnalysed(o: SceneOutcome)
  {
    o.Present?
  }

  predicate IsHealthy(o: SceneOutcome)
  {
    o.Present? && Healthy(o.status)
  }

  predicate IsPoseValid(o: SceneOutcome)
  {
    o.Present? && PoseValid(o.status)
  }

  predicate IsTimestampValid(o: SceneOutcome)
  {
    o.Present? && TimestampValid(o.status)
  }

  /** The positions of the scenes with property `p`. */
  function Where(scenes: seq<SceneOutcome>, p: SceneOutcome -> bool): set<nat>
  {
    set i: nat | i < |scenes| && p(scenes[i])
  }

  /** Appending a scene adds its position exactly when it has the property. */
  lemma WhereSnoc(scenes: seq<SceneOutcome>, x: SceneOutcome, p: SceneOutcome -> bool)
    ensures |Where(scenes + [x], p)| == |Where(scenes, p)| + Indicator(p(x))
  {
    var s := scenes + [x];
    var extra: set<nat> := if p(x) then {|scenes|} else {};
    assert Where(s, p) == Where(scenes, p) + extra by {
      forall i: nat ensures i in Where(s, p) <==> i in Where(scenes, p) + extra {
        if i < |scenes| {
          assert s[i] == scenes[i];
        }
      }
    }
    assert |scenes| !in Where(scenes, p);
  }

  /** Each scene counter of the folded report is the number of scenes that
      meet its condition: missing, analysed, healthy, free of illegal poses,
      and with both timestamp streams Good. */
  lemma {:induction false} AggregateWhere(scenes: seq<SceneOutcome>)
    ensures Aggregate(scenes).noSensNum == |Where(scenes, IsMissing)|
    ensures Aggregate(scenes).totalNum == |Where(scenes, IsAnalysed)|
    ensures Aggregate(scenes).totalHealthySeq == |Where(scenes, IsHealthy)|
    ensures Aggregate(scenes).totalPoseValidSeq == |Where(scenes, IsPoseValid)|
    ensures Aggregate(scenes).totalTimestampValidSeq == |Where(scenes, IsTimestampValid)|
  {
    if scenes == [] {
      assert Where(scenes, IsMissing) == {};
      assert Where(scenes, IsAnalysed) == {};
      assert Where(scenes, IsHealthy) == {};
      assert Where(scenes, IsPoseValid) == {};
      assert Where(scenes, IsTimestampValid) == {};
    } else {
      var prefix := scenes[..|scenes| - 1];
      var x := scenes[|scenes| - 1];
      assert prefix + [x] == scenes;
      AggregateWhere(prefix);
      WhereSnoc(prefix, x, IsMissing);
      WhereSnoc(prefix, x, IsAnalysed);
      WhereSnoc(prefix, x, IsHealthy);
      WhereSnoc(prefix, x, IsPoseValid);
      WhereSnoc(prefix, x, IsTimestampValid);
    }
  }

  /** Counter-wise sum of two reports. */
  function Plus(a: Report, b: Report): Report
  {
    Report(
      a.noSensNum + b.noSensNum,
      a.totalNum + b.totalNum,
      a.totalHealthySeq + b.totalHealthySeq,
      a.totalPoseValidSeq + b.totalPoseValidSeq,
      a.totalTimestampValidSeq + b.totalTimestampValidSeq,
      a.totalPoseInvalidNum + b.totalPoseInvalidNum,
      a.totalPoseValidNum + b.totalPoseValidNum)
  }

  /** Folding a scene adds the scene's own one-scene report. */
  lemma AddSceneIsPlus(r: Report, o: SceneOutcome)
    ensures AddScene(r, o) == Plus(r, AddScene(Empty, o))
  {
  }

  lemma PlusAssociative(a: Report, b: Report, c: Report)
    ensures Plus(Plus(a, b), c) == Plus(a, Plus(b, c))
  {
  }

  lemma PlusSwap(a: Report, b: Report, c: Report)
    ensures Plus(Plus(a, b), c) == Plus(Plus(a, c), b)
  {
  }

  /** Folding one more scene adds that scene's own one-scene report. */
  lemma AggregateSnoc(scenes: seq<SceneOutcome>, x: SceneOutcome)
    ensures Aggregate(scenes + [x]) == Plus(Aggregate(scenes), AddScene(Empty, x))
  {
    assert (scenes + [x])[..|scenes|] == scenes;
    AddSceneIsPlus(Aggregate(scenes), x);
  }

  /** Folding a concatenation sums the reports of the two parts. */
  lemma {:induction false} AggregateAppend(a: seq<SceneOutcome>, b: seq<SceneOutcome>)
    ensures Aggregate(a + b) == Plus(Aggregate(a), Aggregate(b))
    decreases |b|
  {
    if b == [] {
      assert a + b == a;
      assert Aggregate(b) == Empty;
    } else {
      var b' := b[..|b| - 1];
      var x := b[|b| - 1];
      assert a + b == (a + b') + [x];
      assert b == b' + [x];
      AggregateSnoc(a + b', x);
      AggregateSnoc(b', x);
      AggregateAppend(a, b');
      PlusAssociative(Aggregate(a), Aggregate(b'), AddScene(Empty, x));
    }
  }

  /** The report does not depend on the order in which scenes are enumerated. */
  lemma {:induction false} AggregatePermutation(a: seq<SceneOutcome>, b: seq<SceneOutcome>)
    requires multiset(a) == multiset(b)
    ensures Aggregate(a) == Aggregate(b)
    decreases |a|
  {
    if a == [] {
      assert |b| == |multiset(b)| == 0;
    } else {
      var a' := a[..|a| - 1];
      var x := a[|a| - 1];
      assert a == a' + [x];
      assert x in multiset(b);
      var k :| 0 <= k < |b| && b[k] == x;
      var front, back := b[..k], b[k + 1..];
      assert b == (front + [x]) + back;
      assert multiset(a) == multiset(a') + multiset{x};
      assert multiset(b) == multiset(front) + multiset{x} + multiset(back);
      assert multiset(front + back) == multiset(front) + multiset(back);
      assert multiset(a') == multiset(a) - multiset{x};
      assert multiset(front + back) == multiset(b) - multiset{x};
      AggregatePermutation(a', front + back);
      AggregateAppend(a', [x]);
      AggregateAppend(front, back);
      AggregateAppend(front + [x], back);
      AggregateAppend(front, [x]);
      var f, xr, bk := Aggregate(front), Aggregate([x]), Aggregate(back);
      assert Aggregate(a) == Plus(Plus(f, bk), xr);
      assert Aggregate(b) == Plus(Plus(f, xr), bk);
      PlusSwap(f, bk, xr);
    }
  }

  /** Every analysed sequence is healthy exactly when the healthy count
      reaches the number of analysed sequences. */
  lemma {:induction false} AllHealthyIff(scenes: seq<SceneOutcome>)
    ensures Aggregate(scenes).totalHealthySeq == Aggregate(scenes).totalNum
        <==> forall i :: 0 <= i < |scenes| && scenes[i].Present? ==> Healthy(scenes[i].status)
  {
    if scenes != [] {
      var prefix := scenes[..|scenes| - 1];
      var x := scenes[|scenes| - 1];
      assert forall i :: 0 <= i < |prefix| ==> scenes[i] == prefix[i];
      assert Aggregate(scenes) == AddScene(Aggregate(prefix), x);
      AllHealthyIff(prefix);
      AggregateCounts(prefix);
      AddSceneEffect(Aggregate(prefix), x);
    }
  }
}
