/**
 * The desktop main window (`MainWindow`): which video is current, the
 * annotation record loaded for it, and how navigation, the panel's segment
 * signals and saving move between them. The window holds the data manager,
 * the player and the panel. A Python exception that escapes a handler is
 * reported as `raised`; the state is then what it was at the point of the
 * exception.
 */
module Window {
  import opened Wrappers
  import opened Config
  import opened Catalog
  import opened Store
  import opened Player
  import opened Panel

  /** What reading `./noun_verb_cache.json` gives: no file or bad JSON, or an object with possibly missing keys. */
  datatype CacheRead = Unavailable | CacheObject(nouns: Option<seq<string>>, verbs: Option<seq<string>>)

  /** `load_noun_verb_cache`: the cached lists, a missing key read as empty; `([], [])` when the cache cannot be read. */
  function LoadNounVerbCache(cache: CacheRead): (r: (seq<string>, seq<string>))
    ensures cache.Unavailable? ==> r == ([], [])
    ensures cache.CacheObject? && cache.nouns.Some? ==> r.0 == cache.nouns.value
    ensures cache.CacheObject? && cache.verbs.Some? ==> r.1 == cache.verbs.value
    ensures cache.CacheObject? && cache.nouns.None? ==> r.0 == []
    ensures cache.CacheObject? && cache.verbs.None? ==> r.1 == []
  {
    match cache
    case Unavailable => ([], [])
    case CacheObject(n, v) => (n.GetOr([]), v.GetOr([]))
  }

  /** What `save_noun_verb_cache` writes when the write succeeds. */
  function CacheOf(nouns: seq<string>, verbs: seq<string>): CacheRead {
    CacheObject(Some(nouns), Some(verbs))
  }

  /** The cache reads back the lists last saved into it. */
  lemma CacheRoundTrip(nouns: seq<string>, verbs: seq<string>)
    ensures LoadNounVerbCache(CacheOf(nouns, verbs)) == (nouns, verbs)
  {
  }

  /** The choice made in the "switch folder" dialog; the folder's videos come from the data manager's folder listing. */
  datatype FolderChoice = NoSubfolders | Cancelled | Chose(folder: string, videos: seq<Path>)

  class MainWindow {
    const dm: DataManager
    const player: VideoPlayer
    const panel: AnnotationPanel
    var index: int                          // `current_video_index`
    var current: Option<AnnotationRecord>   // `current_annotation`
    var subfolder: Option<string>           // the data manager's current sub-folder
    ghost var owner: Option<Path>           // the video `current` was loaded for

    ghost predicate Valid()
      reads this, dm, player
    {
      && dm.Valid() && player.Valid()
      && 0 <= index && (index == 0 || index < |dm.videoList|)
    }

    /**
     * The loaded record belongs to the current video: a record is loaded
     * exactly when an owner is recorded, and the owner is the video at the
     * current index.
     */
    ghost predicate Coherent()
      reads this, dm
    {
      && (current.Some? <==> owner.Some?)
      && (owner.Some? ==> 0 <= index < |dm.videoList| && owner.value == dm.videoList[index])
    }

    /** The files after `save_annotation`: the loaded record, if any, saved for the current video. */
    ghost function SavedDisk(env: WriteEnv): Disk
      reads this, dm
      requires Coherent()
    {
      if current.Some? then SaveTo(dm.layout, dm.disk, dm.videoList[index], current.value, env).1 else dm.disk
    }

    /** The loaded record after `save_annotation`: stamped by the save, if there is one. */
    ghost function SavedCurrent(env: WriteEnv): Option<AnnotationRecord>
      reads this, dm
      requires Coherent()
    {
      if current.Some? then Some(SaveTo(dm.layout, dm.disk, dm.videoList[index], current.value, env).2) else None
    }

    /** The player after `load_video(i)`: the state `load_video` leaves for a listed video, unchanged otherwise. */
    ghost function PlayerAfterLoad(before: PlayerState, i: int): PlayerState
      reads this, dm
    {
      if 0 <= i < |dm.videoList| then LoadedState(before, ProbeOf(dm.layout, dm.videoList[i])) else before
    }

    /** The panel's duration after `load_video(i)`: the new video's when it opens, unchanged otherwise. */
    ghost function DurationAfterLoad(before: real, i: int): real
      reads this, dm
    {
      if 0 <= i < |dm.videoList| && ProbeOf(dm.layout, dm.videoList[i]).opens
      then DurationOf(ProbeOf(dm.layout, dm.videoList[i])) else before
    }

    /**
     * `__init__` up to the first load: the start-up dialog has chosen
     * `startFolder`, whose videos the data manager now lists; no record is
     * loaded yet. (Cancelling that dialog ends the program, so no window
     * exists without a chosen folder.)
     */
    constructor(dm: DataManager, player: VideoPlayer, panel: AnnotationPanel, startFolder: string, startVideos: seq<Path>)
      requires dm.Valid() && player.Valid()
      requires AllUnder(startVideos, dm.layout.videoDir)
      modifies dm
      ensures this.dm == dm && this.player == player && this.panel == panel
      ensures dm.videoList == startVideos && dm.disk == old(dm.disk)
      ensures index == 0 && current == None && subfolder == Some(startFolder)
      ensures Valid() && Coherent()
    {
      var list := dm.LoadVideoList(Some(startVideos));
      this.dm := dm;
      this.player := player;
      this.panel := panel;
      index := 0;
      current := None;
      subfolder := Some(startFolder);
      owner := None;
    }

    /**
     * The status bar: total, annotated and unannotated counts, where the
     * unannotated count is the difference of the other two.
     */
    method StatusBar() returns (total: nat, annotated: nat, unannotated: int)
      requires Valid()
      ensures total == |dm.videoList|
      ensures annotated == AnnotatedCount(dm.layout, dm.disk, dm.videoList)
      ensures unannotated == total - annotated && 0 <= unannotated <= total
    {
      total := |dm.videoList|;
      annotated := dm.GetAnnotatedCount();
      unannotated := total - annotated;
    }

    /**
     * `set_noun_verb_lists(*load_noun_verb_cache())` at start-up: the panel
     * gets new lists holding the cached terms, and its combo boxes show no
     * text (their placeholders).
     */
    method LoadCachedTerms(cache: CacheRead)
      modifies panel
      ensures panel.nouns.items == LoadNounVerbCache(cache).0 && panel.verbs.items == LoadNounVerbCache(cache).1
      ensures panel.nounText == Refilled && panel.verbText == Refilled
      ensures fresh(panel.nouns) && fresh(panel.verbs)
      ensures panel.durationSec == old(panel.durationSec)
      ensures panel.descriptionText == old(panel.descriptionText)
      ensures panel.startText == old(panel.startText) && panel.endText == old(panel.endText)
    {
      var (n, v) := LoadNounVerbCache(cache);
      var nouns := new TermList(n);
      var verbs := new TermList(v);
      panel.SetNounVerbLists(nouns, verbs);
    }

    /**
     * `load_video`: nothing changes for an index outside the list; a listed
     * video is handed to the player, which keeps the new capture even when it
     * does not open. Only an opened video loads its record, gives the panel
     * its duration and moves the index. The panel's lists and texts stay.
     */
    method LoadVideo(i: int)
      requires Valid()
      modifies this, player, panel
      ensures dm.videoList == old(dm.videoList) && dm.disk == old(dm.disk) && subfolder == old(subfolder)
      ensures player.State() == PlayerAfterLoad(old(player.State()), i)
      ensures panel.durationSec == DurationAfterLoad(old(panel.durationSec), i)
      ensures panel.Inputs() == old(panel.Inputs())
      ensures var loaded := 0 <= i < |dm.videoList| && ProbeOf(dm.layout, dm.videoList[i]).opens;
        && (loaded ==> index == i && current == LoadFrom(dm.layout, dm.disk, dm.videoList[i]) && owner == Some(dm.videoList[i])
                       && panel.durationSec == DurationOf(ProbeOf(dm.layout, dm.videoList[i])))
        && (!loaded ==> index == old(index) && current == old(current) && owner == old(owner))
      ensures Valid()
      ensures old(Coherent()) ==> Coherent()
    {
      var path := dm.GetVideoPath(i);
      if path.None? {
        return;
      }
      var ok := player.Load(ProbeOf(dm.layout, path.value));
      if !ok {
        return;
      }
      panel.SetVideoDuration(player.duration);
      current := dm.LoadAnnotation(path.value);
      owner := Some(path.value);
      index := i;
    }

    /** `load_first_video`: loads video 0 when there is one. */
    method LoadFirstVideo()
      requires Valid()
      modifies this, player, panel
      ensures dm.videoList == old(dm.videoList) && dm.disk == old(dm.disk) && subfolder == old(subfolder)
      ensures player.State() == PlayerAfterLoad(old(player.State()), 0)
      ensures panel.durationSec == DurationAfterLoad(old(panel.durationSec), 0)
      ensures panel.Inputs() == old(panel.Inputs())
      ensures var loaded := |dm.videoList| > 0 && ProbeOf(dm.layout, dm.videoList[0]).opens;
        && (loaded ==> index == 0 && current == LoadFrom(dm.layout, dm.disk, dm.videoList[0]) && owner == Some(dm.videoList[0]))
        && (!loaded ==> index == old(index) && current == old(current) && owner == old(owner))
      ensures Valid()
      ensures old(Coherent()) ==> Coherent()
    {
      if |dm.videoList| > 0 {
        LoadVideo(0);
      }
    }

    /**
     * `save_annotation`: nothing without a loaded record; otherwise the record
     * is saved for the video at the current index (stamped in place). With no
     * video at that index the data manager is handed `None` and raises.
     */
    method SaveAnnotation(env: WriteEnv) returns (raised: bool)
      requires Valid()
      modifies this, dm
      ensures dm.videoList == old(dm.videoList) && dm.currentTags == old(dm.currentTags)
      ensures index == old(index) && subfolder == old(subfolder) && owner == old(owner)
      ensures old(current).None? ==> !raised && current == None && dm.disk == old(dm.disk)
      ensures old(current).Some? && !(old(index) < |dm.videoList|) ==> raised && current == old(current) && dm.disk == old(dm.disk)
      ensures old(current).Some? && old(index) < |dm.videoList| ==>
        var (_, disk', stamped) := SaveTo(dm.layout, old(dm.disk), dm.videoList[index], old(current).value, env);
        !raised && dm.disk == disk' && current == Some(stamped)
      ensures old(Coherent()) ==> !raised && Coherent()
      ensures Valid()
    {
      if current.None? {
        return false;
      }
      var path := dm.GetVideoPath(index);
      if path.None? {
        return true;
      }
      var outcome, stamped := dm.SaveAnnotation(path.value, current.value, env);
      current := Some(stamped);
      raised := false;
    }

    /**
     * `on_segment_added`: the segment goes to the end of the current record,
     * which is flagged annotated and saved. Without a loaded record the
     * handler raises before changing anything.
     */
    method OnSegmentAdded(segment: Segment, env: WriteEnv) returns (raised: bool)
      requires Valid()
      modifies this, dm
      ensures dm.videoList == old(dm.videoList) && index == old(index) && subfolder == old(subfolder)
      ensures old(current).None? ==> raised && current == None && dm.disk == old(dm.disk)
      ensures old(current).Some? && old(Coherent()) ==>
        var rec := old(current).value;
        var added := rec.(segments := rec.segments + [segment], annotated := true);
        var (_, disk', stamped) := SaveTo(dm.layout, old(dm.disk), dm.videoList[index], added, env);
        !raised && dm.disk == disk' && current == Some(stamped) && FlagMatchesSegments(added)
      ensures old(Coherent()) ==> Coherent()
      ensures Valid()
    {
      if current.None? {
        return true;
      }
      var rec := current.value;
      current := Some(rec.(segments := rec.segments + [segment], annotated := true));
      raised := SaveAnnotation(env);
    }

    /**
     * `on_segment_deleted`: an index inside the segment list removes exactly
     * that segment, the flag follows the new length and the record is saved;
     * any other index changes nothing. Without a loaded record it raises.
     */
    method OnSegmentDeleted(k: int, env: WriteEnv) returns (raised: bool)
      requires Valid()
      modifies this, dm
      ensures dm.videoList == old(dm.videoList) && index == old(index) && subfolder == old(subfolder)
      ensures old(current).None? ==> raised && current == None && dm.disk == old(dm.disk)
      ensures old(current).Some? && !(0 <= k < |old(current).value.segments|) ==>
        !raised && current == old(current) && dm.disk == old(dm.disk)
      ensures old(current).Some? && 0 <= k < |old(current).value.segments| && old(Coherent()) ==>
        var rec := old(current).value;
        var remaining := rec.segments[..k] + rec.segments[k + 1..];
        var updated := rec.(segments := remaining, annotated := |remaining| > 0);
        var (_, disk', stamped) := SaveTo(dm.layout, old(dm.disk), dm.videoList[index], updated, env);
        !raised && dm.disk == disk' && current == Some(stamped) && FlagMatchesSegments(updated)
      ensures old(Coherent()) ==> Coherent()
      ensures Valid()
    {
      if current.None? {
        return true;
      }
      var rec := current.value;
      if 0 <= k < |rec.segments| {
        var remaining := rec.segments[..k] + rec.segments[k + 1..];
        current := Some(rec.(segments := remaining, annotated := |remaining| > 0));
        raised := SaveAnnotation(env);
      } else {
        raised := false;
      }
    }

    /**
     * `on_video_changed`: a different, non-negative index saves the current
     * record and then loads that video from the files the save left; a
     * video that does not open keeps the (stamped) record of the old one.
     */
    method OnVideoChanged(i: int, env: WriteEnv)
      requires Valid() && Coherent()
      modifies this, dm, player, panel
      ensures !(i >= 0 && i != old(index)) ==> index == old(index) && current == old(current) && dm.disk == old(dm.disk)
      ensures player.State() == PlayerAfterLoad(old(player.State()), if i >= 0 && i != old(index) then i else -1)
      ensures panel.durationSec == DurationAfterLoad(old(panel.durationSec), if i >= 0 && i != old(index) then i else -1)
      ensures panel.Inputs() == old(panel.Inputs())
      ensures i >= 0 && i != old(index) ==>
        && dm.disk == old(SavedDisk(env))
        && (i < |dm.videoList| && ProbeOf(dm.layout, dm.videoList[i]).opens ==>
              index == i && current == LoadFrom(dm.layout, dm.disk, dm.videoList[i]))
        && (!(i < |dm.videoList| && ProbeOf(dm.layout, dm.videoList[i]).opens) ==>
              index == old(index) && current == old(SavedCurrent(env)))
      ensures dm.videoList == old(dm.videoList)
      ensures Valid() && Coherent()
    {
      if i >= 0 && i != index {
        // Coherent() rules out the raise (a record without a video to save it for).
        var raised := SaveAnnotation(env);
        LoadVideo(i);
      }
    }

    /**
     * `prev_video`: unless already at the first video, saves the current
     * record and then loads the previous video from the files the save left.
     */
    method PrevVideo(env: WriteEnv)
      requires Valid() && Coherent()
      modifies this, dm, player, panel
      ensures dm.videoList == old(dm.videoList)
      ensures old(index) == 0 ==> index == 0 && current == old(current) && dm.disk == old(dm.disk)
      ensures player.State() == PlayerAfterLoad(old(player.State()), if old(index) > 0 then old(index) - 1 else -1)
      ensures panel.durationSec == DurationAfterLoad(old(panel.durationSec), if old(index) > 0 then old(index) - 1 else -1)
      ensures panel.Inputs() == old(panel.Inputs())
      ensures old(index) > 0 ==>
        && dm.disk == old(SavedDisk(env))
        && (ProbeOf(dm.layout, dm.videoList[old(index) - 1]).opens ==>
              index == old(index) - 1 && current == LoadFrom(dm.layout, dm.disk, dm.videoList[index]))
        && (!ProbeOf(dm.layout, dm.videoList[old(index) - 1]).opens ==>
              index == old(index) && current == old(SavedCurrent(env)))
      ensures 0 <= index && (|dm.videoList| > 0 ==> index < |dm.videoList|)
      ensures Valid() && Coherent()
    {
      if index > 0 {
        // Coherent() rules out the raise (a record without a video to save it for).
        var raised := SaveAnnotation(env);
        LoadVideo(index - 1);
      }
    }

    /**
     * `next_video`: unless already at the last video, saves the current
     * record and then loads the next video from the files the save left.
     */
    method NextVideo(env: WriteEnv)
      requires Valid() && Coherent()
      modifies this, dm, player, panel
      ensures dm.videoList == old(dm.videoList)
      ensures old(index) >= |dm.videoList| - 1 ==> index == old(index) && current == old(current) && dm.disk == old(dm.disk)
      ensures player.State() == PlayerAfterLoad(old(player.State()), if old(index) < |dm.videoList| - 1 then old(index) + 1 else -1)
      ensures panel.durationSec == DurationAfterLoad(old(panel.durationSec), if old(index) < |dm.videoList| - 1 then old(index) + 1 else -1)
      ensures panel.Inputs() == old(panel.Inputs())
      ensures old(index) < |dm.videoList| - 1 ==>
        && dm.disk == old(SavedDisk(env))
        && (ProbeOf(dm.layout, dm.videoList[old(index) + 1]).opens ==>
              index == old(index) + 1 && current == LoadFrom(dm.layout, dm.disk, dm.videoList[index]))
        && (!ProbeOf(dm.layout, dm.videoList[old(index) + 1]).opens ==>
              index == old(index) && current == old(SavedCurrent(env)))
      ensures 0 <= index && (|dm.videoList| > 0 ==> index < |dm.videoList|)
      ensures Valid() && Coherent()
    {
      if index < |dm.videoList| - 1 {
        // Coherent() rules out the raise (a record without a video to save it for).
        var raised := SaveAnnotation(env);
        LoadVideo(index + 1);
      }
    }

    /**
     * `switch_subfolder` as written: saves first; for a different folder it
     * lists that folder's videos, resets the index to 0 and loads the first
     * video. The previous record is not dropped, so when the new folder's
     * first video does not load, the old folder's (stamped) record stays
     * current at index 0.
     */
    method SwitchSubfolderAsWritten(choice: FolderChoice, env: WriteEnv) returns (raised: bool)
      requires Valid() && Coherent()
      requires choice.Chose? ==> AllUnder(choice.videos, dm.layout.videoDir)
      modifies this, dm, player, panel
      ensures dm.disk == old(SavedDisk(env))
      ensures !(choice.Chose? && Some(choice.folder) != old(subfolder)) ==>
        && index == old(index) && dm.videoList == old(dm.videoList) && subfolder == old(subfolder)
        && current == old(SavedCurrent(env)) && Coherent()
      ensures choice.Chose? && Some(choice.folder) != old(subfolder) ==>
        && dm.videoList == choice.videos && subfolder == Some(choice.folder) && index == 0
        && (|choice.videos| > 0 && ProbeOf(dm.layout, choice.videos[0]).opens ==>
              current == LoadFrom(dm.layout, dm.disk, choice.videos[0]))
        && (!(|choice.videos| > 0 && ProbeOf(dm.layout, choice.videos[0]).opens) ==>
              current == old(SavedCurrent(env)) && owner == old(owner))
      ensures (&& choice.Chose? && Some(choice.folder) != old(subfolder)
               && !(|choice.videos| > 0 && ProbeOf(dm.layout, choice.videos[0]).opens)
               && old(owner).Some? && (|choice.videos| == 0 || old(owner).value != choice.videos[0]))
        ==> !Coherent()
      ensures player.State() == PlayerAfterLoad(old(player.State()), if choice.Chose? && Some(choice.folder) != old(subfolder) then 0 else -1)
      ensures panel.durationSec == DurationAfterLoad(old(panel.durationSec), if choice.Chose? && Some(choice.folder) != old(subfolder) then 0 else -1)
      ensures panel.Inputs() == old(panel.Inputs())
      ensures !raised && Valid()
    {
      // Coherent() rules out the raise (a record without a video to save it for).
      raised := SaveAnnotation(env);
      if choice.Chose? && Some(choice.folder) != subfolder {
        var list := dm.LoadVideoList(Some(choice.videos));
        subfolder := Some(choice.folder);
        index := 0;
        LoadFirstVideo();
      }
    }

    /**
     * `switch_subfolder` with the previous record dropped before the new
     * folder is loaded: after a switch the record is the new first video's,
     * or none when that video does not load, which keeps the record coherent.
     */
    method SwitchSubfolder(choice: FolderChoice, env: WriteEnv) returns (raised: bool)
      requires Valid() && Coherent()
      requires choice.Chose? ==> AllUnder(choice.videos, dm.layout.videoDir)
      modifies this, dm, player, panel
      ensures dm.disk == old(SavedDisk(env))
      ensures !(choice.Chose? && Some(choice.folder) != old(subfolder)) ==>
        && index == old(index) && dm.videoList == old(dm.videoList) && subfolder == old(subfolder)
        && current == old(SavedCurrent(env))
      ensures choice.Chose? && Some(choice.folder) != old(subfolder) ==>
        && dm.videoList == choice.videos && subfolder == Some(choice.folder) && index == 0
        && (|choice.videos| > 0 && ProbeOf(dm.layout, choice.videos[0]).opens ==>
              current == LoadFrom(dm.layout, dm.disk, choice.videos[0]))
        && (!(|choice.videos| > 0 && ProbeOf(dm.layout, choice.videos[0]).opens) ==> current == None)
      ensures player.State() == PlayerAfterLoad(old(player.State()), if choice.Chose? && Some(choice.folder) != old(subfolder) then 0 else -1)
      ensures panel.durationSec == DurationAfterLoad(old(panel.durationSec), if choice.Chose? && Some(choice.folder) != old(subfolder) then 0 else -1)
      ensures panel.Inputs() == old(panel.Inputs())
      ensures !raised && Valid() && Coherent()
    {
      // Coherent() rules out the raise (a record without a video to save it for).
      raised := SaveAnnotation(env);
      if choice.Chose? && Some(choice.folder) != subfolder {
        var list := dm.LoadVideoList(Some(choice.videos));
        subfolder := Some(choice.folder);
        index := 0;
        current := None;
        owner := None;
        LoadFirstVideo();
      }
    }
  }

  /**
   * What the stale record does: saved at index 0 of the new folder, it
   * becomes what that video's annotation file holds, although the record
   * names another video.
   */
  lemma StaleRecordOverwrites(layout: Layout, disk: Disk, newFirst: Path, stale: AnnotationRecord, now: string)
    requires RelativeTo(newFirst, layout.videoDir).Some?
    requires stale.videoPath != newFirst
    ensures var (_, disk', _) := SaveTo(layout, disk, newFirst, stale, WriteEnv(now, Written));
      LoadFrom(layout, disk', newFirst).value.videoPath != newFirst
  {
    SaveThenLoad(layout, disk, newFirst, stale, now);
  }
}
