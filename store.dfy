/**
 * The annotation record store (`DataManager`). The annotation folder is an
 * abstract map from annotation file to its content, which is either a record
 * or something that does not parse. Writing a file is not atomic: it opens the
 * file for writing (which empties it) and then writes, so a write that is
 * interrupted leaves an unreadable file behind. The clock and the outcome of
 * each write are given by the caller.
 */
module Store {
  import opened Wrappers
  import opened Vocabulary
  import opened Config
  import opened Catalog

  datatype Stored<T> = Holds(value: T) | Unreadable

  type Disk = map<Path, Stored<AnnotationRecord>>

  /** How one attempt to write a file ends. */
  datatype WriteOutcome =
    | Written           // the file now holds the new content
    | OpenFailed        // the file could not be opened; it is untouched
    | WriteInterrupted  // the file was opened (and emptied) but not fully written

  /** What the world supplies to a write: the current time and how the write ends. */
  datatype WriteEnv = WriteEnv(now: string, outcome: WriteOutcome)

  /** The single export document. */
  datatype ExportDoc = ExportDoc(totalVideos: nat, exportTime: string, annotations: seq<AnnotationRecord>)

  /** `save_annotation`'s result; `OutsideVideoDir` is the `ValueError` raised before anything is written. */
  datatype SaveOutcome = Saved | NotSaved | OutsideVideoDir

  /** The fixed folders and what each video file reports when opened. */
  datatype Layout = Layout(videoDir: Path, annDir: Path, media: map<Path, Probe>)

  /** Every video of the list lies in the video folder `dir`. */
  predicate AllUnder(videos: seq<Path>, dir: Path) {
    forall i :: 0 <= i < |videos| ==> RelativeTo(videos[i], dir).Some?
  }

  function ProbeOf(layout: Layout, video: Path): Probe {
    if video in layout.media then layout.media[video] else Unopenable
  }

  /** The effect of a write attempt on the files. */
  function WriteFile<T>(files: map<Path, Stored<T>>, path: Path, content: T, outcome: WriteOutcome): (r: map<Path, Stored<T>>)
    ensures outcome.Written? ==> r == files[path := Holds(content)]
    ensures outcome.OpenFailed? ==> r == files
    ensures outcome.WriteInterrupted? ==> r == files[path := Unreadable]
  {
    match outcome
    case Written => files[path := Holds(content)]
    case OpenFailed => files
    case WriteInterrupted => files[path := Unreadable]
  }

  /** The template `load_annotation` falls back to: the video's path, its file name and its probed duration. */
  function FreshRecord(layout: Layout, video: Path): (r: AnnotationRecord)
    ensures r == AnnotationTemplate().(videoPath := video, videoName := Name(video), duration := DurationOf(ProbeOf(layout, video)))
  {
    AnnotationRecord(video, Name(video), DurationOf(ProbeOf(layout, video)), [], false, "", "", None)
  }

  /**
   * `load_annotation`: the stored record when the annotation file exists and
   * parses, the fresh template otherwise; `None` for a video outside the video
   * folder, where the call raises.
   */
  function LoadFrom(layout: Layout, disk: Disk, video: Path): (r: Option<AnnotationRecord>)
    ensures r.None? <==> AnnotationPath(layout.videoDir, layout.annDir, video).None?
    ensures r.Some? ==>
      var p := AnnotationPath(layout.videoDir, layout.annDir, video).value;
      r.value == if p in disk && disk[p].Holds? then disk[p].value else FreshRecord(layout, video)
  {
    match AnnotationPath(layout.videoDir, layout.annDir, video)
    case None => None
    case Some(p) => Some(if p in disk && disk[p].Holds? then disk[p].value else FreshRecord(layout, video))
  }

  /** The record a video in the video folder loads as. */
  function Loaded(layout: Layout, disk: Disk, video: Path): AnnotationRecord
    requires RelativeTo(video, layout.videoDir).Some?
  {
    LoadFrom(layout, disk, video).value
  }

  /**
   * `save_annotation` on the files: the record is stamped with the current
   * time first, then the write is attempted. The stamped record is returned
   * even when the write fails, since the caller's record is stamped in place.
   */
  function SaveTo(layout: Layout, disk: Disk, video: Path, rec: AnnotationRecord, env: WriteEnv): (r: (SaveOutcome, Disk, AnnotationRecord))
    ensures AnnotationPath(layout.videoDir, layout.annDir, video).None? ==> r == (OutsideVideoDir, disk, rec)
    ensures AnnotationPath(layout.videoDir, layout.annDir, video).Some? ==>
      r.2 == rec.(timestamp := env.now) && (r.0 == Saved <==> env.outcome.Written?) && r.0 != OutsideVideoDir
  {
    match AnnotationPath(layout.videoDir, layout.annDir, video)
    case None => (OutsideVideoDir, disk, rec)
    case Some(p) =>
      var stamped := rec.(timestamp := env.now);
      (if env.outcome.Written? then Saved else NotSaved, WriteFile(disk, p, stamped, env.outcome), stamped)
  }

  /** A successful save is what the next load returns, stamp included. */
  lemma SaveThenLoad(layout: Layout, disk: Disk, video: Path, rec: AnnotationRecord, now: string)
    requires RelativeTo(video, layout.videoDir).Some?
    ensures var (outcome, disk', _) := SaveTo(layout, disk, video, rec, WriteEnv(now, Written));
      outcome == Saved && LoadFrom(layout, disk', video) == Some(rec.(timestamp := now))
  {
  }

  /** A failed open leaves the files as they were, so the next load sees the old content. */
  lemma FailedOpenChangesNothing(layout: Layout, disk: Disk, video: Path, rec: AnnotationRecord, now: string)
    ensures var (outcome, disk', _) := SaveTo(layout, disk, video, rec, WriteEnv(now, OpenFailed));
      outcome != Saved && disk' == disk
  {
  }

  /** An interrupted write loses whatever the file held: the next load is the fresh template. */
  lemma InterruptedWriteLosesRecord(layout: Layout, disk: Disk, video: Path, rec: AnnotationRecord, now: string)
    requires RelativeTo(video, layout.videoDir).Some?
    ensures var (outcome, disk', _) := SaveTo(layout, disk, video, rec, WriteEnv(now, WriteInterrupted));
      outcome == NotSaved && LoadFrom(layout, disk', video) == Some(FreshRecord(layout, video))
  {
  }

  /** Saving one video's record does not change what any video with a different annotation file loads. */
  lemma SaveIsLocal(layout: Layout, disk: Disk, video: Path, other: Path, rec: AnnotationRecord, env: WriteEnv)
    requires AnnotationPath(layout.videoDir, layout.annDir, video) != AnnotationPath(layout.videoDir, layout.annDir, other)
    ensures LoadFrom(layout, SaveTo(layout, disk, video, rec, env).1, other) == LoadFrom(layout, disk, other)
  {
  }

  // ---------------------------------------------------------------------------
  // Specifications of the loops over the video list

  /** How many videos of `videos` load as annotated (`get_annotated_count`). */
  function AnnotatedCount(layout: Layout, disk: Disk, videos: seq<Path>): (n: nat)
    requires AllUnder(videos, layout.videoDir)
    ensures n <= |videos|
  {
    if videos == [] then 0
    else AnnotatedCount(layout, disk, videos[..|videos| - 1]) + (if Loaded(layout, disk, videos[|videos| - 1]).annotated then 1 else 0)
  }

  /** One more video in the prefix adds its flag to the count. */
  lemma AnnotatedCountExtend(layout: Layout, disk: Disk, videos: seq<Path>, i: nat)
    requires AllUnder(videos, layout.videoDir) && i < |videos|
    ensures AllUnder(videos[..i], layout.videoDir) && AllUnder(videos[..i + 1], layout.videoDir)
    ensures AnnotatedCount(layout, disk, videos[..i + 1]) ==
      AnnotatedCount(layout, disk, videos[..i]) + (if Loaded(layout, disk, videos[i]).annotated then 1 else 0)
  {
    assert videos[..i + 1][..i] == videos[..i];
  }

  /** The counting loop of `get_annotated_count`, over the files as they are. */
  method CountAnnotated(layout: Layout, disk: Disk, videos: seq<Path>) returns (count: nat)
    requires AllUnder(videos, layout.videoDir)
    ensures count == AnnotatedCount(layout, disk, videos)
  {
    count := 0;
    var i := 0;
    while i < |videos|
      invariant 0 <= i <= |videos|
      invariant count == AnnotatedCount(layout, disk, videos[..i])
    {
      AnnotatedCountExtend(layout, disk, videos, i);
      if Loaded(layout, disk, videos[i]).annotated {
        count := count + 1;
      }
      i := i + 1;
    }
    assert videos[..i] == videos;
  }

  /** The records `export_all_annotations` keeps: those with at least one segment, in video-list order. */
  function Exportable(layout: Layout, disk: Disk, videos: seq<Path>): (rs: seq<AnnotationRecord>)
    requires AllUnder(videos, layout.videoDir)
    ensures |rs| <= |videos|
    ensures forall k :: 0 <= k < |rs| ==> |rs[k].segments| > 0
  {
    if videos == [] then []
    else
      var rec := Loaded(layout, disk, videos[|videos| - 1]);
      Exportable(layout, disk, videos[..|videos| - 1]) + (if |rec.segments| > 0 then [rec] else [])
  }

  /** One more video in the prefix adds its record when it has segments. */
  lemma ExportableExtend(layout: Layout, disk: Disk, videos: seq<Path>, i: nat)
    requires AllUnder(videos, layout.videoDir) && i < |videos|
    ensures AllUnder(videos[..i], layout.videoDir) && AllUnder(videos[..i + 1], layout.videoDir)
    ensures var rec := Loaded(layout, disk, videos[i]);
      Exportable(layout, disk, videos[..i + 1]) == Exportable(layout, disk, videos[..i]) + (if |rec.segments| > 0 then [rec] else [])
  {
    assert videos[..i + 1][..i] == videos[..i];
  }

  /** A record is exported exactly when it has segments. */
  lemma {:induction false} ExportableMembership(layout: Layout, disk: Disk, videos: seq<Path>, v: Path)
    requires AllUnder(videos, layout.videoDir)
    requires v in videos
    ensures |Loaded(layout, disk, v).segments| > 0 ==> Loaded(layout, disk, v) in Exportable(layout, disk, videos)
  {
    var init := videos[..|videos| - 1];
    if v != videos[|videos| - 1] {
      assert v in init;
      ExportableMembership(layout, disk, init, v);
    }
  }

  /** Every stored record keeps its `annotated` flag in step with its segments. */
  ghost predicate FlagsConsistent(disk: Disk) {
    forall p :: p in disk && disk[p].Holds? ==> FlagMatchesSegments(disk[p].value)
  }

  /** When the flags are consistent, the annotated count is the number of exported records. */
  lemma {:induction false} AnnotatedCountIsExportCount(layout: Layout, disk: Disk, videos: seq<Path>)
    requires AllUnder(videos, layout.videoDir)
    requires FlagsConsistent(disk)
    ensures AnnotatedCount(layout, disk, videos) == |Exportable(layout, disk, videos)|
  {
    if videos != [] {
      AnnotatedCountIsExportCount(layout, disk, videos[..|videos| - 1]);
    }
  }

  /**
   * `get_video_status` on the files: a missing status reads as 未标注; a record
   * with segments that reads as 未标注 is promoted to 已标注 and saved (the
   * outcome of that save does not change the answer); any other status is
   * returned as stored and nothing is written.
   */
  function StatusStep(layout: Layout, disk: Disk, video: Path, env: WriteEnv): (r: (Option<string>, Disk))
    ensures r.0.None? <==> AnnotationPath(layout.videoDir, layout.annDir, video).None?
    ensures r.0.Some? ==>
      var rec := LoadFrom(layout, disk, video).value;
      && (r.0.value == if |rec.segments| > 0 && StatusOf(rec) == Unannotated then Annotated else StatusOf(rec))
      && (r.1 != disk ==> |rec.segments| > 0 && StatusOf(rec) == Unannotated)
      && (|rec.segments| > 0 && StatusOf(rec) == Unannotated ==>
            r.1 == SaveTo(layout, disk, video, rec.(status := Some(Annotated)), env).1)
  {
    match LoadFrom(layout, disk, video)
    case None => (None, disk)
    case Some(rec) =>
      var status := StatusOf(rec);
      if |rec.segments| > 0 && status == Unannotated then
        var (_, disk', _) := SaveTo(layout, disk, video, rec.(status := Some(Annotated)), env);
        (Some(Annotated), disk')
      else (Some(status), disk)
  }

  /** A status other than 未标注 is returned as stored, and nothing is written. */
  lemma StatusStepKeepsSettledStatus(layout: Layout, disk: Disk, video: Path, env: WriteEnv)
    requires RelativeTo(video, layout.videoDir).Some?
    requires StatusOf(Loaded(layout, disk, video)) != Unannotated
    ensures StatusStep(layout, disk, video, env) == (Some(StatusOf(Loaded(layout, disk, video))), disk)
  {
  }

  /** Once the promotion has been written, asking again gives the same status and writes nothing. */
  lemma StatusStepIdempotent(layout: Layout, disk: Disk, video: Path, env1: WriteEnv, env2: WriteEnv)
    requires RelativeTo(video, layout.videoDir).Some?
    requires !env1.outcome.WriteInterrupted?
    ensures var (s1, disk1) := StatusStep(layout, disk, video, env1);
      var (s2, disk2) := StatusStep(layout, disk1, video, env2);
      s2 == s1 && (env1.outcome.Written? ==> disk2 == disk1)
  {
  }

  /** If the promotion write is interrupted, the next question reads the emptied file and answers 未标注. */
  lemma StatusAfterInterruptedPromotion(layout: Layout, disk: Disk, video: Path, now: string, env2: WriteEnv)
    requires RelativeTo(video, layout.videoDir).Some?
    requires |Loaded(layout, disk, video).segments| > 0 && StatusOf(Loaded(layout, disk, video)) == Unannotated
    ensures var (s1, disk1) := StatusStep(layout, disk, video, WriteEnv(now, WriteInterrupted));
      s1 == Some(Annotated) && StatusStep(layout, disk1, video, env2).0 == Some(Unannotated)
  {
  }

  /** The statuses `get_status_counts` reads, in list order, and the files after the promotions it writes. */
  function StatusSweep(layout: Layout, disk: Disk, videos: seq<Path>, envs: seq<WriteEnv>): (r: (seq<string>, Disk))
    requires AllUnder(videos, layout.videoDir)
    requires |envs| >= |videos|
    ensures |r.0| == |videos|
  {
    if videos == [] then ([], disk)
    else
      var (statuses, disk') := StatusSweep(layout, disk, videos[..|videos| - 1], envs);
      var (s, disk'') := StatusStep(layout, disk', videos[|videos| - 1], envs[|videos| - 1]);
      (statuses + [s.value], disk'')
  }

  lemma SweepExtend(layout: Layout, disk: Disk, videos: seq<Path>, envs: seq<WriteEnv>, i: nat)
    requires AllUnder(videos, layout.videoDir)
    requires |envs| >= |videos| && i < |videos|
    ensures AllUnder(videos[..i], layout.videoDir) && AllUnder(videos[..i + 1], layout.videoDir)
    ensures var (statuses, disk') := StatusSweep(layout, disk, videos[..i], envs);
      var (s, disk'') := StatusStep(layout, disk', videos[i], envs[i]);
      StatusSweep(layout, disk, videos[..i + 1], envs) == (statuses + [s.value], disk'')
  {
    assert videos[..i + 1][..i] == videos[..i];
  }

  /** One more status question extends the sweep and the tally by its answer. */
  lemma SweepStep(layout: Layout, disk0: Disk, videos: seq<Path>, envs: seq<WriteEnv>, i: nat,
                  statuses: seq<string>, disk: Disk, s: Option<string>, disk': Disk)
    requires AllUnder(videos, layout.videoDir)
    requires |envs| >= |videos| && i < |videos|
    requires AllUnder(videos[..i], layout.videoDir)
    requires StatusSweep(layout, disk0, videos[..i], envs) == (statuses, disk)
    requires (s, disk') == StatusStep(layout, disk, videos[i], envs[i])
    ensures s.Some? && AllUnder(videos[..i + 1], layout.videoDir)
    ensures StatusSweep(layout, disk0, videos[..i + 1], envs) == (statuses + [s.value], disk')
  {
    SweepExtend(layout, disk0, videos, envs, i);
  }

  /** The dictionary `get_status_counts` starts from. */
  const InitialCounts: map<string, nat> := map[Unannotated := 0, Annotated := 0, NotNeeded := 0]

  /** `counts[status] = counts.get(status, 0) + 1` for each status in turn. */
  function Tally(statuses: seq<string>): map<string, nat> {
    if statuses == [] then InitialCounts
    else
      var m := Tally(statuses[..|statuses| - 1]);
      var s := statuses[|statuses| - 1];
      m[s := (if s in m then m[s] else 0) + 1]
  }

  /** The keys of the tally are the three statuses and every status read. */
  lemma {:induction false} TallyKeys(statuses: seq<string>)
    ensures Tally(statuses).Keys == InitialCounts.Keys + set k | 0 <= k < |statuses| :: statuses[k]
  {
    if statuses != [] {
      var init := statuses[..|statuses| - 1];
      TallyKeys(init);
      assert statuses == init + [statuses[|statuses| - 1]];
      assert (set k | 0 <= k < |statuses| :: statuses[k]) == (set k | 0 <= k < |init| :: init[k]) + {statuses[|statuses| - 1]};
    }
  }

  lemma TallyExtend(statuses: seq<string>, s: string)
    ensures var m := Tally(statuses);
      Tally(statuses + [s]) == m[s := (if s in m then m[s] else 0) + 1]
  {
    assert (statuses + [s])[..|statuses|] == statuses;
  }

  function Occurrences(statuses: seq<string>, s: string): nat {
    if statuses == [] then 0
    else Occurrences(statuses[..|statuses| - 1], s) + (if statuses[|statuses| - 1] == s then 1 else 0)
  }

  /** Each key of the tally counts the statuses equal to it; the three statuses are always present. */
  lemma {:induction false} TallyCounts(statuses: seq<string>, s: string)
    requires s in Tally(statuses)
    ensures Tally(statuses)[s] == Occurrences(statuses, s)
  {
    if statuses != [] {
      var init := statuses[..|statuses| - 1];
      if s in Tally(init) {
        TallyCounts(init, s);
      } else {
        TallyKeys(init);
        assert s !in init by {
          forall k | 0 <= k < |init| ensures init[k] != s {
            assert init[k] in set j | 0 <= j < |init| :: init[j];
          }
        }
        OccurrencesOfAbsent(init, s);
      }
    }
  }

  lemma {:induction false} OccurrencesOfAbsent(statuses: seq<string>, s: string)
    requires s !in statuses
    ensures Occurrences(statuses, s) == 0
  {
    if statuses != [] {
      OccurrencesOfAbsent(statuses[..|statuses| - 1], s);
    }
  }

  /** When every status is one of the three, the three counts add up to the number of videos. */
  lemma {:induction false} TallySum(statuses: seq<string>)
    requires forall k :: 0 <= k < |statuses| ==> IsStatus(statuses[k])
    ensures Tally(statuses).Keys == InitialCounts.Keys
    ensures Tally(statuses)[Unannotated] + Tally(statuses)[Annotated] + Tally(statuses)[NotNeeded] == |statuses|
  {
    if statuses != [] {
      TallySum(statuses[..|statuses| - 1]);
    }
  }

  /** How many of the statuses are none of the three. */
  function Others(statuses: seq<string>): nat {
    if statuses == [] then 0
    else Others(statuses[..|statuses| - 1]) + (if IsStatus(statuses[|statuses| - 1]) then 0 else 1)
  }

  /**
   * Whatever the statuses read, the tally keeps the three keys, and their
   * counts together with the statuses outside the three add up to the number
   * of statuses read.
   */
  lemma {:induction false} TallyTotal(statuses: seq<string>)
    ensures InitialCounts.Keys <= Tally(statuses).Keys
    ensures Tally(statuses)[Unannotated] + Tally(statuses)[Annotated] + Tally(statuses)[NotNeeded] + Others(statuses) == |statuses|
  {
    if statuses != [] {
      TallyTotal(statuses[..|statuses| - 1]);
    }
  }

  /** Every stored status is one of the three (which `set_video_status` ensures for what it writes). */
  ghost predicate StatusesValid(disk: Disk) {
    forall p :: p in disk && disk[p].Holds? && disk[p].value.status.Some? ==> IsStatus(disk[p].value.status.value)
  }

  /** Reading statuses keeps them valid and answers with one of the three. */
  lemma StatusStepValid(layout: Layout, disk: Disk, video: Path, env: WriteEnv)
    requires RelativeTo(video, layout.videoDir).Some? && StatusesValid(disk)
    ensures IsStatus(StatusStep(layout, disk, video, env).0.value) && StatusesValid(StatusStep(layout, disk, video, env).1)
  {
  }

  lemma {:induction false} StatusSweepValid(layout: Layout, disk: Disk, videos: seq<Path>, envs: seq<WriteEnv>)
    requires AllUnder(videos, layout.videoDir)
    requires |envs| >= |videos| && StatusesValid(disk)
    ensures var (statuses, disk') := StatusSweep(layout, disk, videos, envs);
      StatusesValid(disk') && forall k :: 0 <= k < |statuses| ==> IsStatus(statuses[k])
  {
    if videos != [] {
      var n := |videos| - 1;
      StatusSweepValid(layout, disk, videos[..n], envs);
      SweepExtend(layout, disk, videos, envs, n);
      var (_, d) := StatusSweep(layout, disk, videos[..n], envs);
      StatusStepValid(layout, d, videos[n], envs[n]);
      assert videos[..n + 1] == videos;
    }
  }

  /** With valid stored statuses, `get_status_counts` has exactly the three keys and they sum to the number of videos. */
  lemma StatusCountsSum(layout: Layout, disk: Disk, videos: seq<Path>, envs: seq<WriteEnv>)
    requires AllUnder(videos, layout.videoDir)
    requires |envs| >= |videos| && StatusesValid(disk)
    ensures var counts := Tally(StatusSweep(layout, disk, videos, envs).0);
      counts.Keys == InitialCounts.Keys && counts[Unannotated] + counts[Annotated] + counts[NotNeeded] == |videos|
  {
    StatusSweepValid(layout, disk, videos, envs);
    TallySum(StatusSweep(layout, disk, videos, envs).0);
  }

  /**
   * Whatever the files hold, the counts of `get_status_counts` for the three
   * statuses plus the number of answers outside them equal the number of videos.
   */
  lemma StatusCountsTotal(layout: Layout, disk: Disk, videos: seq<Path>, envs: seq<WriteEnv>)
    requires AllUnder(videos, layout.videoDir)
    requires |envs| >= |videos|
    ensures var statuses := StatusSweep(layout, disk, videos, envs).0;
      var counts := Tally(statuses);
      InitialCounts.Keys <= counts.Keys &&
      counts[Unannotated] + counts[Annotated] + counts[NotNeeded] + Others(statuses) == |videos|
  {
    TallyTotal(StatusSweep(layout, disk, videos, envs).0);
  }

  /** A stored status outside the three gets a key of its own. */
  lemma UnknownStatusGetsOwnKey(statuses: seq<string>, k: nat)
    requires k < |statuses| && !IsStatus(statuses[k])
    ensures statuses[k] in Tally(statuses) && statuses[k] !in InitialCounts
  {
    TallyKeys(statuses);
  }

  /**
   * `create_segment`: the given times and description, the given tags (none
   * given reads as the empty list), and the template's empty noun and verb.
   */
  function CreateSegment(startMs: int, endMs: int, description: string, tags: Option<seq<string>>): (s: Segment)
    ensures s.startMs == startMs && s.endMs == endMs && s.description == description
    ensures s.tags == tags.GetOr([])
    ensures s.noun == SegmentTemplate().noun && s.verb == SegmentTemplate().verb
  {
    SegmentTemplate().(startMs := startMs, endMs := endMs, description := description, tags := tags.GetOr([]))
  }

  /** The data manager: the video list, the tag list, the annotation files and the export file. */
  class DataManager {
    var videoList: seq<Path>
    var currentTags: seq<string>
    var disk: Disk
    var exportFile: Option<Stored<ExportDoc>>
    const layout: Layout

    /** Every listed video lies in the video folder, and the tag list has no duplicates. */
    ghost predicate Valid()
      reads this
    {
      && AllUnder(videoList, layout.videoDir)
      && Distinct(currentTags)
    }

    /**
     * `__init__`: the tag list starts as a copy of the predefined tags and the
     * video list is loaded as `load_video_list` does.
     */
    constructor(layout: Layout, found: Option<seq<Path>>, disk: Disk)
      requires found.Some? ==> AllUnder(found.value, layout.videoDir)
      ensures this.layout == layout && this.disk == disk
      ensures videoList == if found.Some? then found.value else []
      ensures currentTags == DefaultTags && exportFile == None
      ensures Valid()
    {
      this.layout := layout;
      videoList := if found.Some? then found.value else [];
      currentTags := DefaultTags;
      this.disk := disk;
      exportFile := None;
      new;
      DefaultTagsDistinct();
    }

    /**
     * `load_video_list`: the video list becomes the files found below the
     * video folder (the scan and its sorting happen outside the model), or
     * the empty list when the folder does not exist (`None`).
     */
    method LoadVideoList(found: Option<seq<Path>>) returns (list: seq<Path>)
      requires Valid()
      requires found.Some? ==> AllUnder(found.value, layout.videoDir)
      modifies this
      ensures videoList == (if found.Some? then found.value else []) && list == videoList
      ensures currentTags == old(currentTags) && disk == old(disk) && exportFile == old(exportFile)
      ensures Valid()
    {
      videoList := if found.Some? then found.value else [];
      list := videoList;
    }

    /** `get_video_path`: the listed path for an index in range, `None` otherwise. */
    function GetVideoPath(index: int): (r: Option<Path>)
      reads this
      ensures r.Some? <==> 0 <= index < |videoList|
      ensures r.Some? ==> r.value == videoList[index]
    {
      if 0 <= index < |videoList| then Some(videoList[index]) else None
    }

    function LoadAnnotation(video: Path): Option<AnnotationRecord>
      reads this
    {
      LoadFrom(layout, disk, video)
    }

    /** `save_annotation`: stamps the record, attempts the write and reports whether it succeeded. */
    method SaveAnnotation(video: Path, rec: AnnotationRecord, env: WriteEnv) returns (outcome: SaveOutcome, stamped: AnnotationRecord)
      modifies this
      ensures (outcome, disk, stamped) == SaveTo(layout, old(disk), video, rec, env)
      ensures videoList == old(videoList) && currentTags == old(currentTags) && exportFile == old(exportFile)
    {
      var r := SaveTo(layout, disk, video, rec, env);
      outcome, stamped := r.0, r.2;
      disk := r.1;
    }

    /** `get_annotated_count`: counts the listed videos whose record is flagged annotated. */
    method GetAnnotatedCount() returns (count: nat)
      requires Valid()
      ensures count == AnnotatedCount(layout, disk, videoList)
      ensures count <= |videoList|
    {
      count := CountAnnotated(layout, disk, videoList);
    }

    /** The collecting loop of `export_all_annotations`: the records with segments, in list order. */
    method CollectExportable() returns (included: seq<AnnotationRecord>)
      requires Valid()
      ensures included == Exportable(layout, disk, videoList)
    {
      var videos := videoList;
      included := [];
      var i := 0;
      while i < |videos|
        invariant 0 <= i <= |videos| && AllUnder(videos, layout.videoDir)
        invariant included == Exportable(layout, disk, videos[..i])
      {
        ExportableExtend(layout, disk, videos, i);
        var rec := LoadAnnotation(videos[i]).value;
        if |rec.segments| > 0 {
          included := included + [rec];
        }
        i := i + 1;
      }
      assert videos[..i] == videos;
    }

    /**
     * `export_all_annotations`: writes one document holding the collected
     * records and their number (not the number of videos); reports whether
     * the write succeeded. The annotation files are not touched, so exporting
     * again collects the same records.
     */
    method ExportAll(env: WriteEnv) returns (ok: bool)
      requires Valid()
      modifies this
      ensures disk == old(disk) && videoList == old(videoList) && currentTags == old(currentTags)
      ensures ok <==> env.outcome.Written?
      ensures var doc := ExportDoc(|Exportable(layout, disk, videoList)|, env.now, Exportable(layout, disk, videoList));
        exportFile == match env.outcome
          case Written => Some(Holds(doc))
          case OpenFailed => old(exportFile)
          case WriteInterrupted => Some(Unreadable)
    {
      var included := CollectExportable();
      var doc := ExportDoc(|included|, env.now, included);
      match env.outcome {
        case Written => exportFile := Some(Holds(doc));
        case OpenFailed =>
        case WriteInterrupted => exportFile := Some(Unreadable);
      }
      ok := env.outcome.Written?;
    }

    /** `add_tag`: appends a non-empty tag that is not yet listed (without stripping it) and reports whether it did. */
    method AddTag(tag: string) returns (added: bool)
      requires Valid()
      modifies this
      ensures added <==> tag != [] && tag !in old(currentTags)
      ensures currentTags == AppendIfAbsent(old(currentTags), tag)
      ensures Valid()
      ensures videoList == old(videoList) && disk == old(disk) && exportFile == old(exportFile)
    {
      AppendIfAbsentKeepsDistinct(currentTags, tag);
      added := tag != [] && tag !in currentTags;
      if added {
        currentTags := currentTags + [tag];
      }
    }

    /** `get_video_status`, with the promotion save it may make. */
    method GetVideoStatus(video: Path, env: WriteEnv) returns (status: Option<string>)
      modifies this
      ensures (status, disk) == StatusStep(layout, old(disk), video, env)
      ensures videoList == old(videoList) && currentTags == old(currentTags) && exportFile == old(exportFile)
    {
      var rec := LoadAnnotation(video);
      if rec.None? {
        return None;
      }
      var s := StatusOf(rec.value);
      if |rec.value.segments| > 0 && s == Unannotated {
        var outcome, stamped := SaveAnnotation(video, rec.value.(status := Some(Annotated)), env);
        s := Annotated;
      }
      status := Some(s);
    }

    /**
     * `set_video_status`: any of the three statuses is written over any
     * current one; anything else is refused and nothing is touched.
     */
    method SetVideoStatus(video: Path, status: string, env: WriteEnv) returns (outcome: SaveOutcome)
      modifies this
      ensures !IsStatus(status) ==> outcome == NotSaved && disk == old(disk)
      ensures IsStatus(status) ==>
        match LoadFrom(layout, old(disk), video)
        case None => outcome == OutsideVideoDir && disk == old(disk)
        case Some(rec) => (outcome, disk) == (SaveTo(layout, old(disk), video, rec.(status := Some(status)), env).0, SaveTo(layout, old(disk), video, rec.(status := Some(status)), env).1)
      ensures videoList == old(videoList) && currentTags == old(currentTags) && exportFile == old(exportFile)
    {
      if !IsStatus(status) {
        return NotSaved;
      }
      var rec := LoadAnnotation(video);
      if rec.None? {
        return OutsideVideoDir;
      }
      var stamped;
      outcome, stamped := SaveAnnotation(video, rec.value.(status := Some(status)), env);
    }

    /**
     * `get_status_counts`: asks every listed video for its status in turn
     * (each question may write a promotion, with the next write environment)
     * and tallies the answers.
     */
    method GetStatusCounts(envs: seq<WriteEnv>) returns (counts: map<string, nat>)
      requires Valid() && |envs| >= |videoList|
      modifies this
      ensures videoList == old(videoList) && currentTags == old(currentTags) && exportFile == old(exportFile)
      ensures Valid()
      ensures var (statuses, disk') := StatusSweep(layout, old(disk), videoList, envs);
        counts == Tally(statuses) && disk == disk'
    {
      var videos := videoList;
      ghost var disk0 := disk;
      counts := InitialCounts;
      ghost var statuses: seq<string> := [];
      var i := 0;
      while i < |videos|
        invariant 0 <= i <= |videos| && AllUnder(videos, layout.videoDir)
        invariant videoList == videos && currentTags == old(currentTags) && exportFile == old(exportFile)
        invariant StatusSweep(layout, disk0, videos[..i], envs) == (statuses, disk)
        invariant counts == Tally(statuses)
      {
        ghost var before := disk;
        var s := GetVideoStatus(videos[i], envs[i]);
        SweepStep(layout, disk0, videos, envs, i, statuses, before, s, disk);
        var st := s.value;
        TallyExtend(statuses, st);
        counts := counts[st := (if st in counts then counts[st] else 0) + 1];
        statuses := statuses + [st];
        i := i + 1;
      }
      assert videos[..i] == videos;
    }
  }
}
