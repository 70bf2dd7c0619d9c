/** The entry point's flow once its argument is known: classify the argument,
    then either analyse one sequence file or fold every scene of a dataset
    root into the report. Directory listing and file loading are inputs. */
module Checker {
  import opened Basics
  import opened Sequence
  import opened Dataset
  import opened Paths

  /** A path as a `std::string` can hold it. */
  type PathString = s: string | Fits(s)

  /** The file system as the checker sees it: each existing path mapped to the
      frames of the sequence stored there, or to None when loading it fails. */
  type Files = map<string, Option<seq<Frame>>>

  /** How a run ends: rejected input (return value 1), a finished run (return
      value 0) with the report and, in single-file mode, the sequence verdict,
      or termination by a load failure that nothing catches. */
  datatype Run =
    | Rejected
    | Finished(report: Report, single: Option<SeqStatus>)
    | Aborted(path: string)

  /** The value `main` returns; an aborted run returns nothing. */
  function ReturnValue(r: Run): Option<int>
  {
    match r
    case Rejected => Some(1)
    case Finished(_, _) => Some(0)
    case Aborted(_) => None
  }

  /** A scene whose sequence file is absent, or present and loadable. */
  predicate Loadable(files: Files, sceneRoot: PathString)
  {
    var sens := SensFileName(sceneRoot);
    sens !in files || files[sens].Some?
  }

  /** What one directory entry yields: a missing file is counted, a present
      one is loaded and analysed, and a load failure ends the whole scan. */
  function SceneOf(files: Files, sceneRoot: PathString): Result<SceneOutcome, string>
  {
    var sens := SensFileName(sceneRoot);
    if sens !in files then Ok(Missing)
    else match files[sens]
      case Some(frames) => Ok(Present(Analyze(frames)))
      case None => Err(sens)
  }

  /** One entry fails exactly when its sequence file exists but cannot be
      loaded, and the failure names that file; it is missing exactly when no
      file sits at the expected path; otherwise it carries the verdict of the
      stored frames, which has no more illegal poses than frames. */
  lemma SceneOfSound(files: Files, sceneRoot: PathString)
    ensures SceneOf(files, sceneRoot).Err? <==> !Loadable(files, sceneRoot)
    ensures SceneOf(files, sceneRoot).Err? ==> SceneOf(files, sceneRoot).error == SensFileName(sceneRoot)
    ensures SceneOf(files, sceneRoot) == Ok(Missing) <==> SensFileName(sceneRoot) !in files
    ensures SceneOf(files, sceneRoot).Ok? && SceneOf(files, sceneRoot).value.Present?
            ==> && files[SensFileName(sceneRoot)].Some?
                && SceneOf(files, sceneRoot).value.status == Analyze(files[SensFileName(sceneRoot)].value)
                && SceneOf(files, sceneRoot).value.status.invalidPoseNum
                   <= SceneOf(files, sceneRoot).value.status.validPoseNum
  {
    var sens := SensFileName(sceneRoot);
    if sens in files && files[sens].Some? {
      AnalyzeSound(files[sens].value);
    }
  }

  /** The directory loop: the scene outcomes of the entries in enumeration
      order, or the sequence file of the first entry that cannot be loaded. */
  function Scenes(entries: seq<PathString>, files: Files): Result<seq<SceneOutcome>, string>
  {
    if entries == [] then Ok([])
    else
      var first := SceneOf(files, entries[0]);
      var rest := Scenes(entries[1..], files);
      if first.Err? then Err(first.error)
      else if rest.Err? then Err(rest.error)
      else Ok([first.value] + rest.value)
  }

  /** The dataset scan succeeds exactly when every entry is loadable. */
  lemma {:induction false} ScenesOkIff(entries: seq<PathString>, files: Files)
    ensures Scenes(entries, files).Ok? <==> forall i :: 0 <= i < |entries| ==> Loadable(files, entries[i])
  {
    if entries != [] {
      ScenesOkIff(entries[1..], files);
      SceneOfSound(files, entries[0]);
      assert forall i :: 1 <= i < |entries| ==> entries[i] == entries[1..][i - 1];
    }
  }

  /** A successful scan has one outcome per entry, each the entry's own. */
  lemma {:induction false} ScenesOutcomes(entries: seq<PathString>, files: Files)
    ensures Scenes(entries, files).Ok?
            ==> && |Scenes(entries, files).value| == |entries|
                && forall i :: 0 <= i < |entries| ==> Ok(Scenes(entries, files).value[i]) == SceneOf(files, entries[i])
  {
    if entries != [] {
      ScenesOutcomes(entries[1..], files);
      var r := Scenes(entries, files);
      if r.Ok? {
        var rest := Scenes(entries[1..], files).value;
        assert r.value == [r.value[0]] + rest;
        assert forall i :: 1 <= i < |entries| ==> entries[i] == entries[1..][i - 1] && r.value[i] == rest[i - 1];
      }
    }
  }

  /** A failed scan names the sequence file of the first entry, in
      enumeration order, that cannot be loaded. */
  lemma {:induction false} ScenesFailure(entries: seq<PathString>, files: Files)
    ensures Scenes(entries, files).Err?
            ==> exists i :: && 0 <= i < |entries| && !Loadable(files, entries[i])
                            && Scenes(entries, files).error == SensFileName(entries[i])
                            && forall j :: 0 <= j < i ==> Loadable(files, entries[j])
  {
    if entries != [] {
      var r := Scenes(entries, files);
      SceneOfSound(files, entries[0]);
      if r.Err? && SceneOf(files, entries[0]).Ok? {
        var rest := entries[1..];
        ScenesFailure(rest, files);
        var k :| && 0 <= k < |rest| && !Loadable(files, rest[k])
                 && Scenes(rest, files).error == SensFileName(rest[k])
                 && forall j :: 0 <= j < k ==> Loadable(files, rest[j]);
        assert entries[k + 1] == rest[k];
        assert forall j :: 0 < j < k + 1 ==> entries[j] == rest[j - 1];
      }
    }
  }

  /** The dataset scan succeeds exactly when every entry is loadable; then it
      has one outcome per entry, each the entry's own, and each verdict fits
      its frame count; otherwise it names the sequence file of the first
      entry that cannot be loaded. */
  lemma ScenesSound(entries: seq<PathString>, files: Files)
    ensures Scenes(entries, files).Ok? <==> forall i :: 0 <= i < |entries| ==> Loadable(files, entries[i])
    ensures Scenes(entries, files).Ok?
            ==> && |Scenes(entries, files).value| == |entries|
                && (forall i :: 0 <= i < |entries| ==> Ok(Scenes(entries, files).value[i]) == SceneOf(files, entries[i]))
                && PoseCountsFit(Scenes(entries, files).value)
    ensures Scenes(entries, files).Err?
            ==> exists i :: && 0 <= i < |entries| && !Loadable(files, entries[i])
                            && Scenes(entries, files).error == SensFileName(entries[i])
                            && forall j :: 0 <= j < i ==> Loadable(files, entries[j])
  {
    ScenesOkIff(entries, files);
    ScenesOutcomes(entries, files);
    ScenesFailure(entries, files);
    var r := Scenes(entries, files);
    if r.Ok? {
      forall i | 0 <= i < |r.value| && r.value[i].Present?
        ensures r.value[i].status.invalidPoseNum <= r.value[i].status.validPoseNum
      {
        SceneOfSound(files, entries[i]);
      }
    }
  }

  /** Entry `sceneRoot` has a sequence file that loads, and the verdict of
      its frames meets `p`. */
  predicate AnalysedAs(files: Files, sceneRoot: PathString, p: SeqStatus -> bool)
  {
    var sens := SensFileName(sceneRoot);
    sens in files && files[sens].Some? && p(Analyze(files[sens].value))
  }

  /** What the outcome of one entry says about the file system. */
  lemma EntryOutcome(files: Files, sceneRoot: PathString)
    ensures SceneOf(files, sceneRoot).Ok? ==>
              var o := SceneOf(files, sceneRoot).value;
              && (IsMissing(o) <==> SensFileName(sceneRoot) !in files)
              && (IsAnalysed(o) <==> SensFileName(sceneRoot) in files)
              && (IsHealthy(o) <==> AnalysedAs(files, sceneRoot, Healthy))
              && (IsPoseValid(o) <==> AnalysedAs(files, sceneRoot, PoseValid))
              && (IsTimestampValid(o) <==> AnalysedAs(files, sceneRoot, TimestampValid))
  {
    SceneOfSound(files, sceneRoot);
  }

  /** `scenes` holds the outcome of each entry of `listing`, in order. */
  predicate OutcomesOf(scenes: seq<SceneOutcome>, listing: seq<PathString>, files: Files)
  {
    |scenes| == |listing| && forall i :: 0 <= i < |listing| ==> SceneOf(files, listing[i]) == Ok(scenes[i])
  }

  /** The missing scenes sit where the entries have no sequence file. */
  lemma MissingPositions(scenes: seq<SceneOutcome>, listing: seq<PathString>, files: Files)
    requires OutcomesOf(scenes, listing, files)
    ensures Where(scenes, IsMissing) == set i: nat | i < |listing| && SensFileName(listing[i]) !in files
  {
    forall i | 0 <= i < |listing| ensures IsMissing(scenes[i]) <==> SensFileName(listing[i]) !in files {
      EntryOutcome(files, listing[i]);
    }
  }

  /** The analysed scenes sit where the entries have a sequence file. */
  lemma AnalysedPositions(scenes: seq<SceneOutcome>, listing: seq<PathString>, files: Files)
    requires OutcomesOf(scenes, listing, files)
    ensures Where(scenes, IsAnalysed) == set i: nat | i < |listing| && SensFileName(listing[i]) in files
  {
    forall i | 0 <= i < |listing| ensures IsAnalysed(scenes[i]) <==> SensFileName(listing[i]) in files {
      EntryOutcome(files, listing[i]);
    }
  }

  /** The healthy scenes sit where the entries' stored frames give a healthy verdict. */
  lemma HealthyPositions(scenes: seq<SceneOutcome>, listing: seq<PathString>, files: Files)
    requires OutcomesOf(scenes, listing, files)
    ensures Where(scenes, IsHealthy) == set i: nat | i < |listing| && AnalysedAs(files, listing[i], Healthy)
  {
    forall i | 0 <= i < |listing| ensures IsHealthy(scenes[i]) <==> AnalysedAs(files, listing[i], Healthy) {
      EntryOutcome(files, listing[i]);
    }
  }

  /** The scenes without illegal poses sit where the entries' stored frames have none. */
  lemma PoseValidPositions(scenes: seq<SceneOutcome>, listing: seq<PathString>, files: Files)
    requires OutcomesOf(scenes, listing, files)
    ensures Where(scenes, IsPoseValid) == set i: nat | i < |listing| && AnalysedAs(files, listing[i], PoseValid)
  {
    forall i | 0 <= i < |listing| ensures IsPoseValid(scenes[i]) <==> AnalysedAs(files, listing[i], PoseValid) {
      EntryOutcome(files, listing[i]);
    }
  }

  /** The scenes with both timestamp streams Good sit where the entries' stored frames have them. */
  lemma TimestampValidPositions(scenes: seq<SceneOutcome>, listing: seq<PathString>, files: Files)
    requires OutcomesOf(scenes, listing, files)
    ensures Where(scenes, IsTimestampValid) == set i: nat | i < |listing| && AnalysedAs(files, listing[i], TimestampValid)
  {
    forall i | 0 <= i < |listing| ensures IsTimestampValid(scenes[i]) <==> AnalysedAs(files, listing[i], TimestampValid) {
      EntryOutcome(files, listing[i]);
    }
  }

  /** When every entry is loadable the scan completes, and each scene counter
      of its report is the number of entries that meet the counter's
      condition, read off the file system: no sequence file, a sequence
      file, and a sequence file whose verdict is healthy, free of illegal
      poses, or Good on both timestamp streams. */
  lemma DatasetReportCounts(listing: seq<PathString>, files: Files)
    requires forall i :: 0 <= i < |listing| ==> Loadable(files, listing[i])
    ensures Scenes(listing, files).Ok?
    ensures var report := Aggregate(Scenes(listing, files).value);
            && report.noSensNum == |set i: nat | i < |listing| && SensFileName(listing[i]) !in files|
            && report.totalNum == |set i: nat | i < |listing| && SensFileName(listing[i]) in files|
            && report.totalHealthySeq == |set i: nat | i < |listing| && AnalysedAs(files, listing[i], Healthy)|
            && report.totalPoseValidSeq == |set i: nat | i < |listing| && AnalysedAs(files, listing[i], PoseValid)|
            && report.totalTimestampValidSeq
               == |set i: nat | i < |listing| && AnalysedAs(files, listing[i], TimestampValid)|
  {
    ScenesOkIff(listing, files);
    ScenesOutcomes(listing, files);
    var scenes := Scenes(listing, files).value;
    AggregateWhere(scenes);
    MissingPositions(scenes, listing, files);
    AnalysedPositions(scenes, listing, files);
    HealthyPositions(scenes, listing, files);
    PoseValidPositions(scenes, listing, files);
    TimestampValidPositions(scenes, listing, files);
  }

  /** One run of the checker on argument `arg`; `listing` holds the paths of
      the entries of the dataset root and is consulted only in that mode.
      A dataset run finishes exactly when every entry is loadable, with the
      report folded from the entries' outcomes, and otherwise stops at the
      first entry that cannot be loaded; a single-sequence run finishes
      exactly when its file loads, with that file's verdict. */
  function CheckInput(arg: PathString, listing: seq<PathString>, files: Files): (r: Run)
    ensures r.Rejected? <==> !IsDatasetPath(StripTrailingSlash(arg)) && !IsSequencePath(StripTrailingSlash(arg))
    ensures IsDatasetPath(StripTrailingSlash(arg))
            ==> (r.Finished? <==> forall i :: 0 <= i < |listing| ==> Loadable(files, listing[i]))
    ensures r.Finished? && r.single.None?
            ==> && IsDatasetPath(StripTrailingSlash(arg))
                && Scenes(listing, files).Ok?
                && r.report == Aggregate(Scenes(listing, files).value)
                && Consistent(r.report)
                && r.report.noSensNum + r.report.totalNum == |listing|
                && r.report.totalPoseInvalidNum <= r.report.totalPoseValidNum
    ensures r.Aborted? && IsDatasetPath(StripTrailingSlash(arg))
            ==> exists i :: && 0 <= i < |listing| && !Loadable(files, listing[i])
                            && r.path == SensFileName(listing[i])
                            && forall j :: 0 <= j < i ==> Loadable(files, listing[j])
    ensures !IsDatasetPath(StripTrailingSlash(arg)) && IsSequencePath(StripTrailingSlash(arg))
            ==> var file := StripTrailingSlash(arg);
                && (r.Finished? <==> file in files && files[file].Some?)
                && (r.Aborted? ==> r.path == file)
    ensures r.Finished? && r.single.Some?
            ==> var file := StripTrailingSlash(arg);
                && !IsDatasetPath(file)
                && r.report == Empty
                && file in files && files[file].Some?
                && r.single.value == Analyze(files[file].value)
  {
    match ClassifyInput(arg)
    case WrongInput => Rejected
    case DatasetRoot(_) =>
      ScenesSound(listing, files);
      (match Scenes(listing, files)
       case Ok(scenes) => AggregateCounts(scenes); Finished(Aggregate(scenes), None)
       case Err(path) => Aborted(path))
    case SingleSequence(file) =>
      if file in files && files[file].Some? then Finished(Empty, Some(Analyze(files[file].value)))
      else Aborted(file)
  }

  /** The run returns 1 exactly when the argument has neither accepted shape. */
  lemma ReturnsOneIffWrongShape(arg: PathString, listing: seq<PathString>, files: Files)
    ensures ReturnValue(CheckInput(arg, listing, files)) == Some(1)
        <==> ClassifyInput(arg) == WrongInput
  {
  }
}
