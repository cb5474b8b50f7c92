/**
 * The Streamlit annotation page (`VideoAnnotator.render_annotation_interface`).
 * Each run of the page reads the current video's record from the files, acts
 * on at most one button press and writes the record back when the press
 * changes it. The session keeps the video index and the per-row edit flags.
 * `Step` states one run on values; `Page.Run` is proved against it.
 */
module Annotator {
  import opened Wrappers
  import opened Config
  import opened Catalog
  import opened TimeCodec
  import opened Validation
  import opened Store

  /** The one button pressed during a run, with the form contents it submits. */
  datatype Click =
    | NoClick
    | Add(startText: string, endText: string, description: string, tags: seq<string>)
    | Delete(row: int)
    | Edit(row: int)
    | SaveEdit(row: int, description: string, tags: seq<string>)
    | CancelEdit(row: int)
    | SaveCurrent
    | Next
    | Prev

  /** What the page keeps between runs: the files, `video_index` and the rows in edit mode. */
  datatype PageState = PageState(disk: Disk, videoIndex: int, editing: set<int>)

  /**
   * `render_segment_list` on values: a delete drops that row, a saved edit
   * replaces the row's description and tags; an empty list and every other
   * press give the list back.
   */
  function RenderSegmentList(segments: seq<Segment>, click: Click): (r: seq<Segment>)
    ensures segments == [] ==> r == segments
    ensures click.Delete? && 0 <= click.row < |segments| ==>
      |r| == |segments| - 1 && r == segments[..click.row] + segments[click.row + 1..]
    ensures click.SaveEdit? && 0 <= click.row < |segments| ==>
      |r| == |segments|
      && r[click.row] == segments[click.row].(description := click.description, tags := click.tags)
      && (forall k :: 0 <= k < |r| && k != click.row ==> r[k] == segments[k])
    ensures !((click.Delete? || click.SaveEdit?) && 0 <= click.row < |segments|) ==> r == segments
  {
    match click
    case Delete(i) =>
      if 0 <= i < |segments| then segments[..i] + segments[i + 1..] else segments
    case SaveEdit(i, d, t) =>
      if 0 <= i < |segments| then segments[i := segments[i].(description := d, tags := t)] else segments
    case _ => segments
  }

  /** A delete shortens the list, so the page always sees it as a change. */
  lemma DeleteIsAChange(segments: seq<Segment>, row: int)
    requires 0 <= row < |segments|
    ensures RenderSegmentList(segments, Delete(row)) != segments
    ensures multiset(RenderSegmentList(segments, Delete(row))) + multiset{segments[row]} == multiset(segments)
  {
    var r := RenderSegmentList(segments, Delete(row));
    assert segments == segments[..row] + [segments[row]] + segments[row + 1..];
  }

  /** An edit is a change exactly when it gives the row another description or other tags. */
  lemma EditIsAChangeIff(segments: seq<Segment>, row: int, d: string, t: seq<string>)
    requires 0 <= row < |segments|
    ensures RenderSegmentList(segments, SaveEdit(row, d, t)) != segments <==>
      d != segments[row].description || t != segments[row].tags
  {
    var r := RenderSegmentList(segments, SaveEdit(row, d, t));
    if r == segments {
      assert r[row] == segments[row];
    }
  }

  /** The record with a changed segment list, flagged by whether any segment is left. */
  function WithSegments(rec: AnnotationRecord, segments: seq<Segment>): (r: AnnotationRecord)
    ensures FlagMatchesSegments(r) && r.segments == segments
  {
    rec.(segments := segments, annotated := |segments| > 0)
  }

  /** The record after an accepted add: the new segment appended and the record flagged annotated. */
  function WithAdded(rec: AnnotationRecord, s: Segment): (r: AnnotationRecord)
    ensures FlagMatchesSegments(r) && r.segments == rec.segments + [s]
  {
    rec.(segments := rec.segments + [s], annotated := true)
  }

  /**
   * One run of the page on values. Outside the list nothing happens. Next and
   * previous move the index inside the list; every other press acts on the
   * current video's record (`StepOn`).
   */
  function Step(layout: Layout, videos: seq<Path>, s: PageState, click: Click, env: WriteEnv): PageState
    requires AllUnder(videos, layout.videoDir)
  {
    if !(0 <= s.videoIndex < |videos|) then s
    else
      match click
      case Next =>
        if s.videoIndex < |videos| - 1 then s.(videoIndex := s.videoIndex + 1) else s
      case Prev =>
        if s.videoIndex > 0 then s.(videoIndex := s.videoIndex - 1) else s
      case _ => StepOn(layout, videos[s.videoIndex], s, click, env)
  }

  /**
   * A press on the current video's record. An add that passes validation
   * appends the new segment and saves; a change to the segment list saves the
   * new list with the flag recomputed; an explicit save recomputes the flag
   * and saves. The edit buttons only switch a row's edit mode.
   */
  function StepOn(layout: Layout, video: Path, s: PageState, click: Click, env: WriteEnv): PageState
    requires RelativeTo(video, layout.videoDir).Some?
  {
    var rec := Loaded(layout, s.disk, video);
    var segs := rec.segments;
    match click
    case Add(startText, endText, description, tags) =>
      var v := Validate(startText, endText, rec.duration);
      if v.Accepted? then
        s.(disk := SaveTo(layout, s.disk, video, WithAdded(rec, CreateSegment(v.startMs, v.endMs, description, Some(tags))), env).1)
      else s
    case Delete(row) =>
      var updated := RenderSegmentList(segs, click);
      if updated != segs then s.(disk := SaveTo(layout, s.disk, video, WithSegments(rec, updated), env).1) else s
    case Edit(row) =>
      if 0 <= row < |segs| then s.(editing := s.editing + {row}) else s
    case SaveEdit(row, _, _) =>
      if 0 <= row < |segs| && row in s.editing then
        var updated := RenderSegmentList(segs, click);
        var s' := s.(editing := s.editing - {row});
        if updated != segs then s'.(disk := SaveTo(layout, s.disk, video, WithSegments(rec, updated), env).1) else s'
      else s
    case CancelEdit(row) =>
      if 0 <= row < |segs| && row in s.editing then s.(editing := s.editing - {row}) else s
    case SaveCurrent =>
      s.(disk := SaveTo(layout, s.disk, video, WithSegments(rec, segs), env).1)
    case _ => s
  }

  /** Navigation stays inside `[0, total - 1]` and moves by at most one. */
  lemma StepKeepsIndexInRange(layout: Layout, videos: seq<Path>, s: PageState, click: Click, env: WriteEnv)
    requires AllUnder(videos, layout.videoDir)
    requires 0 <= s.videoIndex < |videos|
    ensures var r := Step(layout, videos, s, click, env);
      0 <= r.videoIndex < |videos| && -1 <= r.videoIndex - s.videoIndex <= 1
    ensures Step(layout, videos, s, click, env).videoIndex != s.videoIndex ==> click.Next? || click.Prev?
  {
  }

  /** Next moves exactly when the current video is not the last; previous exactly when it is not the first. */
  lemma StepNavigation(layout: Layout, videos: seq<Path>, s: PageState, env: WriteEnv)
    requires AllUnder(videos, layout.videoDir)
    requires 0 <= s.videoIndex < |videos|
    ensures Step(layout, videos, s, Next, env).videoIndex == if s.videoIndex < |videos| - 1 then s.videoIndex + 1 else s.videoIndex
    ensures Step(layout, videos, s, Prev, env).videoIndex == if s.videoIndex > 0 then s.videoIndex - 1 else s.videoIndex
    ensures Step(layout, videos, s, Next, env).disk == s.disk && Step(layout, videos, s, Prev, env).disk == s.disk
  {
  }

  /** Every record a run writes has its `annotated` flag in step with its segments. */
  lemma StepKeepsFlagsConsistent(layout: Layout, videos: seq<Path>, s: PageState, click: Click, env: WriteEnv)
    requires AllUnder(videos, layout.videoDir)
    requires FlagsConsistent(s.disk)
    ensures FlagsConsistent(Step(layout, videos, s, click, env).disk)
  {
    if 0 <= s.videoIndex < |videos| {
      var video := videos[s.videoIndex];
      var rec := Loaded(layout, s.disk, video);
      var p := AnnotationPath(layout.videoDir, layout.annDir, video).value;
      forall r: AnnotationRecord | FlagMatchesSegments(r)
        ensures FlagsConsistent(SaveTo(layout, s.disk, video, r, env).1)
      {
        assert FlagMatchesSegments(r.(timestamp := env.now));
      }
    }
  }

  /** A run touches no other video's annotation file. */
  lemma StepIsLocal(layout: Layout, videos: seq<Path>, s: PageState, click: Click, env: WriteEnv, other: Path)
    requires AllUnder(videos, layout.videoDir)
    requires 0 <= s.videoIndex < |videos|
    requires AnnotationPath(layout.videoDir, layout.annDir, other) != AnnotationPath(layout.videoDir, layout.annDir, videos[s.videoIndex])
    ensures LoadFrom(layout, Step(layout, videos, s, click, env).disk, other) == LoadFrom(layout, s.disk, other)
  {
    var video := videos[s.videoIndex];
    forall r: AnnotationRecord
      ensures LoadFrom(layout, SaveTo(layout, s.disk, video, r, env).1, other) == LoadFrom(layout, s.disk, other)
    {
      SaveIsLocal(layout, s.disk, video, other, r, env);
    }
  }

  /** An accepted add, written successfully, is the last segment the video loads with next, with the parsed times. */
  lemma StepAddAppends(layout: Layout, videos: seq<Path>, s: PageState, startText: string, endText: string,
                       description: string, tags: seq<string>, now: string)
    requires AllUnder(videos, layout.videoDir)
    requires 0 <= s.videoIndex < |videos|
    requires Validate(startText, endText, Loaded(layout, s.disk, videos[s.videoIndex]).duration).Accepted?
    ensures var video := videos[s.videoIndex];
      var before := Loaded(layout, s.disk, video);
      var after := Loaded(layout, Step(layout, videos, s, Add(startText, endText, description, tags), WriteEnv(now, Written)).disk, video);
      && after.segments[..|before.segments|] == before.segments
      && |after.segments| == |before.segments| + 1
      && after.segments[|before.segments|].startMs == ParseTime(startText).value
      && after.segments[|before.segments|].endMs == ParseTime(endText).value
      && after.segments[|before.segments|].tags == tags
      && after.annotated
  {
    var video := videos[s.videoIndex];
    var rec := Loaded(layout, s.disk, video);
    var v := Validate(startText, endText, rec.duration);
    SaveThenLoad(layout, s.disk, video, WithAdded(rec, CreateSegment(v.startMs, v.endMs, description, Some(tags))), now);
  }

  /** A saved edit, written successfully, is what the video loads with next. */
  lemma StepSavesEdit(layout: Layout, videos: seq<Path>, s: PageState, row: int, d: string, t: seq<string>, now: string)
    requires AllUnder(videos, layout.videoDir)
    requires 0 <= s.videoIndex < |videos|
    requires 0 <= row < |Loaded(layout, s.disk, videos[s.videoIndex]).segments| && row in s.editing
    ensures var video := videos[s.videoIndex];
      var after := Loaded(layout, Step(layout, videos, s, SaveEdit(row, d, t), WriteEnv(now, Written)).disk, video);
      row < |after.segments| && after.segments[row].description == d && after.segments[row].tags == t
  {
    var video := videos[s.videoIndex];
    var rec := Loaded(layout, s.disk, video);
    var updated := RenderSegmentList(rec.segments, SaveEdit(row, d, t));
    if updated != rec.segments {
      SaveThenLoad(layout, s.disk, video, WithSegments(rec, updated), now);
    } else {
      EditIsAChangeIff(rec.segments, row, d, t);
    }
  }

  /** What a saved-edit press does to the edit flags: it clears the row's flag when the row exists and is being edited. */
  lemma StepSaveEditOnlyFlags(layout: Layout, videos: seq<Path>, s: PageState, click: Click, env: WriteEnv)
    requires AllUnder(videos, layout.videoDir) && click.SaveEdit?
    ensures Step(layout, videos, s, click, env).editing ==
      if 0 <= s.videoIndex < |videos| && 0 <= click.row < |Loaded(layout, s.disk, videos[s.videoIndex]).segments| && click.row in s.editing
      then s.editing - {click.row} else s.editing
  {
  }

  /** A segment as the page holds it: a mutable dictionary, shared by every list it is put in. */
  class SegmentDict {
    var seg: Segment

    constructor(seg: Segment)
      ensures this.seg == seg
    {
      this.seg := seg;
    }
  }

  /** The segments a list of dictionaries currently holds. */
  function Values(ds: seq<SegmentDict>): (r: seq<Segment>)
    reads ds
    ensures |r| == |ds| && forall k :: 0 <= k < |ds| ==> r[k] == ds[k].seg
  {
    if ds == [] then [] else [ds[0].seg] + Values(ds[1..])
  }

  /** The dictionaries `json.load` builds for a record's segments: new objects, one per segment. */
  method ReadDicts(segments: seq<Segment>) returns (ds: seq<SegmentDict>)
    ensures Values(ds) == segments
    ensures forall k :: 0 <= k < |ds| ==> fresh(ds[k])
    ensures forall j, k :: 0 <= j < k < |ds| ==> ds[j] != ds[k]
  {
    ds := [];
    var i := 0;
    while i < |segments|
      invariant 0 <= i <= |segments| && |ds| == i
      invariant forall k :: 0 <= k < i ==> ds[k].seg == segments[k]
      invariant forall k :: 0 <= k < i ==> fresh(ds[k])
      invariant forall j, k :: 0 <= j < k < i ==> ds[j] != ds[k]
    {
      var d := new SegmentDict(segments[i]);
      ds := ds + [d];
      i := i + 1;
    }
    assert Values(ds) == segments;
  }

  /**
   * `render_segment_list` as written: the returned list is a shallow copy, so
   * it holds the caller's own dictionaries. A delete drops a row from the copy
   * only; a saved edit writes into the shared dictionary, so the caller's list
   * shows the edit too and the two lists still compare equal.
   */
  method RenderSegmentListAsWritten(ds: seq<SegmentDict>, click: Click) returns (updated: seq<SegmentDict>)
    requires forall j, k :: 0 <= j < k < |ds| ==> ds[j] != ds[k]
    modifies ds
    ensures Values(updated) == RenderSegmentList(old(Values(ds)), click)
    ensures click.SaveEdit? ==> updated == ds
    ensures !click.SaveEdit? ==> Values(ds) == old(Values(ds))
  {
    if |ds| == 0 {
      return ds;
    }
    updated := ds;
    match click {
      case Delete(i) =>
        if 0 <= i < |ds| {
          updated := updated[..i] + updated[i + 1..];
          ValuesWithout(ds, i);
        }
      case SaveEdit(i, d, t) =>
        if 0 <= i < |ds| {
          WriteRow(ds, i, d, t);
        }
      case _ =>
    }
  }

  /** Dropping a dictionary from the list drops its segment from the values. */
  lemma ValuesWithout(ds: seq<SegmentDict>, i: int)
    requires 0 <= i < |ds|
    ensures Values(ds[..i] + ds[i + 1..]) == Values(ds)[..i] + Values(ds)[i + 1..]
  {
    var l := ds[..i] + ds[i + 1..];
    var v := Values(ds);
    var w := v[..i] + v[i + 1..];
    forall k | 0 <= k < |l| ensures Values(l)[k] == w[k] {
      if k < i {
        assert l[k] == ds[k] && w[k] == v[k];
      } else {
        assert l[k] == ds[k + 1] && w[k] == v[k + 1];
      }
    }
  }

  /** Writes a row's description and tags into its dictionary, which every list holding it then shows. */
  method WriteRow(ds: seq<SegmentDict>, i: int, d: string, t: seq<string>)
    requires 0 <= i < |ds| && forall j, k :: 0 <= j < k < |ds| ==> ds[j] != ds[k]
    modifies ds[i]
    ensures Values(ds) == old(Values(ds))[i := old(ds[i].seg).(description := d, tags := t)]
  {
    ds[i].seg := ds[i].seg.(description := d, tags := t);
    assert forall k :: 0 <= k < |ds| && k != i ==> ds[k] != ds[i];
  }

  /** The page over the data manager, with the session's state. */
  class Page {
    const dm: DataManager
    var videoIndex: int     // `st.session_state['video_index']`
    var editing: set<int>   // the rows whose `editing_{idx}` flag is set

    ghost predicate Valid()
      reads this, dm
    {
      dm.Valid()
    }

    ghost function State(): PageState
      reads this, dm
    {
      PageState(dm.disk, videoIndex, editing)
    }

    constructor(dm: DataManager, videoIndex: int)
      requires dm.Valid()
      ensures this.dm == dm && this.videoIndex == videoIndex && editing == {}
      ensures Valid()
    {
      this.dm := dm;
      this.videoIndex := videoIndex;
      editing := {};
    }

    /** Saves the record for `video` through the data manager; the stamped copy is dropped with the run. */
    method Save(video: Path, rec: AnnotationRecord, env: WriteEnv)
      requires Valid()
      modifies dm
      ensures dm.disk == SaveTo(dm.layout, old(dm.disk), video, rec, env).1
      ensures dm.videoList == old(dm.videoList) && dm.currentTags == old(dm.currentTags) && Valid()
    {
      var outcome, stamped := dm.SaveAnnotation(video, rec, env);
    }

    /** One run of `render_annotation_interface` for the session's video index. */
    method Run(click: Click, env: WriteEnv)
      requires Valid()
      modifies this, dm
      ensures dm.videoList == old(dm.videoList) && dm.currentTags == old(dm.currentTags) && Valid()
      ensures State() == Step(dm.layout, dm.videoList, old(State()), click, env)
    {
      var path := dm.GetVideoPath(videoIndex);
      if path.None? {
        return;
      }
      match click {
        case Next =>
          if videoIndex < |dm.videoList| - 1 {
            videoIndex := videoIndex + 1;
          }
        case Prev =>
          if videoIndex > 0 {
            videoIndex := videoIndex - 1;
          }
        case _ =>
          RunOn(path.value, click, env);
      }
    }

    /** The presses that act on the current video's record. */
    method RunOn(video: Path, click: Click, env: WriteEnv)
      requires Valid() && RelativeTo(video, dm.layout.videoDir).Some?
      modifies this, dm
      ensures dm.videoList == old(dm.videoList) && dm.currentTags == old(dm.currentTags) && Valid()
      ensures State() == StepOn(dm.layout, video, old(State()), click, env)
    {
      var rec := dm.LoadAnnotation(video).value;
      var segs := rec.segments;
      match click {
        case Add(startText, endText, description, tags) =>
          var v := Validate(startText, endText, rec.duration);
          if v.Accepted? {
            var segment := CreateSegment(v.startMs, v.endMs, description, Some(tags));
            Save(video, WithAdded(rec, segment), env);
          }
        case Delete(row) =>
          var updated := RenderSegmentList(segs, click);
          if updated != segs {
            Save(video, WithSegments(rec, updated), env);
          }
        case Edit(row) =>
          if 0 <= row < |segs| {
            editing := editing + {row};
          }
        case SaveEdit(row, _, _) =>
          if 0 <= row < |segs| && row in editing {
            var updated := RenderSegmentList(segs, click);
            editing := editing - {row};
            if updated != segs {
              Save(video, WithSegments(rec, updated), env);
            }
          }
        case CancelEdit(row) =>
          if 0 <= row < |segs| && row in editing {
            editing := editing - {row};
          }
        case SaveCurrent =>
          Save(video, WithSegments(rec, segs), env);
        case _ =>
      }
    }

    /**
     * The run as written: a saved edit goes through the shared dictionaries,
     * the change check finds the lists equal and nothing is written, so the
     * edit is gone at the next run. Every other press behaves as in `Run`.
     */
    method RunAsWritten(click: Click, env: WriteEnv)
      requires Valid()
      modifies this, dm
      ensures dm.videoList == old(dm.videoList) && dm.currentTags == old(dm.currentTags) && Valid()
      ensures !click.SaveEdit? ==> State() == Step(dm.layout, dm.videoList, old(State()), click, env)
      ensures click.SaveEdit? ==>
        && dm.disk == old(dm.disk) && videoIndex == old(videoIndex)
        && editing == Step(dm.layout, dm.videoList, old(State()), click, env).editing
    {
      if click.SaveEdit? {
        SaveEditAsWritten(click, env);
      } else {
        Run(click, env);
      }
    }

    /** The saved-edit press as written: the edit lands in the shared dictionaries and nothing is written. */
    method SaveEditAsWritten(click: Click, env: WriteEnv)
      requires Valid() && click.SaveEdit?
      modifies this
      ensures dm.videoList == old(dm.videoList) && dm.disk == old(dm.disk) && videoIndex == old(videoIndex)
      ensures editing == Step(dm.layout, dm.videoList, old(State()), click, env).editing
    {
      var path := dm.GetVideoPath(videoIndex);
      if path.None? {
        return;
      }
      var rec := dm.LoadAnnotation(path.value).value;
      var dicts := ReadDicts(rec.segments);
      var row := click.row;
      StepSaveEditOnlyFlags(dm.layout, dm.videoList, State(), click, env);
      if 0 <= row < |dicts| && row in editing {
        var updated := RenderSegmentListAsWritten(dicts, click);
        editing := editing - {row};
        assert Values(updated) == Values(dicts);
      }
    }
  }
}
