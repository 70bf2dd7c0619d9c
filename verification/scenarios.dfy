/** Concrete runs of the model on small inputs. */
module Scenarios {
  import opened Timestamps
  import opened Sequence
  import opened Dataset
  import opened Paths
  import Pose

  /** Depth timestamps 100, 200, 150: the drop from 200 to 150 makes the
      depth stream NotMonotonic, while the color stream stays Good. */
  lemma DepthDropIsNotMonotonic()
    ensures var st := Analyze([Frame(100, 10, Pose.Identity), Frame(200, 20, Pose.Identity), Frame(150, 30, Pose.Identity)]);
            st.depthTs == NotMonotonic && st.colorTs == Good
  {
    var frames := [Frame(100, 10, Pose.Identity), Frame(200, 20, Pose.Identity), Frame(150, 30, Pose.Identity)];
    AnalyzeSound(frames);
    var depth, color := DepthStream(frames), ColorStream(frames);
    assert depth[1] > depth[2];
    assert depth[0] > 0 && color[0] > 0;
    assert NonDecreasing(color) by {
      assert color == [10, 20, 30];
    }
  }

  /** Depth timestamps that are all 0 make the depth stream NotAvailable. */
  lemma ZeroDepthIsNotAvailable()
    ensures Analyze([Frame(0, 10, Pose.Identity), Frame(0, 20, Pose.Identity)]).depthTs == NotAvailable
  {
    var frames := [Frame(0, 10, Pose.Identity), Frame(0, 20, Pose.Identity)];
    AnalyzeSound(frames);
    assert DepthStream(frames) == [0, 0];
  }

  /** A legal pose and one whose last entry is 0.999999 give one illegal pose
      out of two frames. */
  lemma NearlyOneIsIllegal()
    ensures var st := Analyze([Frame(1, 1, Pose.Identity), Frame(2, 2, Pose.Identity[15 := Pose.Finite(0.999999)])]);
            st.invalidPoseNum == 1 && st.validPoseNum == 2
  {
    var bad := Pose.Identity[15 := Pose.Finite(0.999999)];
    var frames := [Frame(1, 1, Pose.Identity), Frame(2, 2, bad)];
    AnalyzeSound(frames);
    assert !Pose.IsIllegal(Pose.Identity) by {
      assert Pose.Identity[12..] == Pose.HomogeneousRow;
    }
    assert Pose.IsIllegal(bad) by {
      assert bad[12..][3] != Pose.HomogeneousRow[3];
    }
    assert IllegalFrames(frames) == {1};
  }

  /** Three scene directories, one without its sequence file: one missing
      file and two analysed sequences. */
  lemma OneSceneMissing(a: SeqStatus, b: SeqStatus)
    ensures Aggregate([Present(a), Missing, Present(b)]).noSensNum == 1
    ensures Aggregate([Present(a), Missing, Present(b)]).totalNum == 2
  {
    AggregateCounts([Present(a), Missing, Present(b)]);
    assert multiset([Present(a), Missing, Present(b)])[Missing] == 1;
  }

  /** The bare name "sens" has no '.', so it is its own extension and is read
      as a sequence file. */
  lemma BareSensIsSequenceFile()
    ensures ClassifyInput("sens") == SingleSequence("sens")
  {
    assert !EndsWith("sens", "/scans");
  }

  /** One trailing '/' is removed before the dataset-root test. */
  lemma TrailingSlashDatasetRoot()
    ensures ClassifyInput("data/scans/") == DatasetRoot("data/scans")
  {
    assert StripTrailingSlash("data/scans/") == "data/scans";
    assert "data/scans"[4..] == "/scans";
  }

  /** Two trailing slashes leave an empty last component: the input is rejected. */
  lemma DoubleSlashIsRejected()
    ensures ClassifyInput("scans//") == WrongInput
  {
    assert StripTrailingSlash("scans//") == "scans/";
    assert !EndsWith("scans/", "/scans");
    assert !EndsWith("scans/", ".sens");
  }

  /** The dataset-root test wins over the extension. */
  lemma ScansBeatsExtension()
    ensures ClassifyInput("x.sens/scans") == DatasetRoot("x.sens/scans")
  {
    assert "x.sens/scans"[6..] == "/scans";
  }
}
