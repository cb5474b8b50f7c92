# CSVD_laber annotation core, modelled in Dafny

CSVD_laber is a single-user tool for annotating construction-site video. A
PyQt desktop window and a Streamlit page both sit over one small data model.
This project states that model in Dafny and proves what the code promises:

- the `MM:SS.mmm` time codec, with times as integer milliseconds;
- the validation chain that decides whether a new segment is created;
- the per-video annotation records kept in an annotation folder, with load
  fallback, time-stamped save, the three-valued status and its lazy promotion,
  the annotated count and the export;
- the duplicate-free noun, verb and tag lists;
- the navigation index of both front ends;
- the video player's frame state;
- the duration report of `scripts/count_duration.py`.

The project has one module per component:

| file | module | component |
|---|---|---|
| `wrappers.dfy` | `Wrappers` | `Option` |
| `text.dfy` | `Text` | Python's `str.strip`, `str.split`, `int()`, `str(n)`, `{n:0wd}` and string order |
| `time_codec.dfy` | `TimeCodec` | `parse_time` / `format_time`, one shared model for all four copies |
| `config.dfy` | `Config` | record schema, templates, `DEFAULT_TAGS`, probe duration |
| `catalog.dfy` | `Catalog` | paths, annotation path, display name |
| `validation.dfy` | `Validation` | the ordered time checks of a new segment |
| `vocabulary.dfy` | `Vocabulary` | term-list edits as functions on sequences |
| `store.dfy` | `Store` | `DataManager` over an abstract map of annotation files |
| `panel.dfy` | `Panel` | the desktop `AnnotationPanel` |
| `player.dfy` | `Player` | `VideoPlayer` |
| `window.dfy` | `Window` | the desktop `MainWindow` |
| `annotator.dfy` | `Annotator` | the Streamlit page, `VideoAnnotator` |
| `duration_report.dfy` | `DurationReport` | `scripts/count_duration.py` |

State that the source updates in place is modelled with classes whose methods
say exactly what they change: `DataManager`, `AnnotationPanel`, `VideoPlayer`,
`MainWindow` and the Streamlit `Page`. A Python list that several owners share
is a `TermList` object, and a segment dictionary that several lists share is a
`SegmentDict` object. Each method is proved against a function on values
(`SaveTo`, `StatusStep`, `Exportable`, `Step`, `MoveDown`, …), and the
properties are proved about those functions.

The world outside the model comes in as parameters:

- the annotation folder is a `map` from annotation path to a record or to unreadable content;
- each write brings its outcome (written, open failed, interrupted) and the current time (`WriteEnv`);
- each video brings what opening it reports (`Probe`: opened, frame count, frame rate);
- the video list is the list the scan found, given sorted.

The two desktop panels, `annotation_panel.py` and `annotation_panel22.py`,
share one `AnnotationPanel` class. They differ in one place: adding a custom
noun or verb. In `annotation_panel.py` both combo boxes are then refilled, and
the other combo keeps its text only when that text is in its list
(`AddCustomNoun`, `AddCustomVerb`). The older copy refills only its own combo
(`AddCustomNounEarlier`, `AddCustomVerbEarlier`). The older copy has no tag
manager dialog. The
time codec is modelled once. The Streamlit `format_time` differs from the
others on negative times, so it is a second function (`FormatTimeTruncating`)
with lemmas relating the two.

## Model

| member | source | states |
|---|---|---|
| Text.Strip | annotation_panel.py:204-208 | the stripped text is the input minus leading and trailing whitespace, and neither of its ends is whitespace |
| Text.StripEmptyIff | annotation_panel.py:334-335 | `s.strip()` is empty exactly when `s` is all whitespace, which is what the `if noun` guard rejects |
| Text.StripIdempotent | annotation_panel.py:441-442 | stripping a term again changes nothing |
| Text.Split | annotation_panel.py:163-166 | `split(sep)` gives one more part than there are separators, and no part holds the separator |
| Text.JoinSplit | annotation_panel.py:163 | joining the parts of a split with the separator gives the text back |
| Text.ParseInt | annotation_panel.py:167-169 | `int()` succeeds exactly on an optional `-` followed by one or more ASCII digits; without `-` the value is not negative |
| Text.Decimal | scripts/count_duration.py:50-56 | `str(n)` is a digit string with value `n` and no leading zero |
| Text.ZeroPad | annotation_panel.py:179 | zero-padding gives the longer of the text and the width |
| Text.PadIntRoundTrip | annotation_panel.py:179 | `int()` reads back `{n:0wd}` as `n`, for every sign and width |
| Text.LexTotal | scripts/count_duration.py:154 | any two folder names are ordered one way or the other by `sorted` |
| Text.LexAntisymmetric | scripts/count_duration.py:154 | two names ordered both ways are equal |
| Text.LexTransitive | scripts/count_duration.py:154 | the order `sorted` uses on names is transitive |
| TimeCodec.TruncRem | annotation_panel.py:178 | the remainder after truncating division carries the sign of the time and is below one second |
| TimeCodec.ParseTime | annotation_panel.py:160-172 | `parse_time` succeeds only on text with exactly one `:` |
| TimeCodec.ParseTimeFields | annotation_panel.py:163-169 | `minutes:seconds.fraction` reads as `m*60000 + s*1000 + f` ms when all three fields are integers, and as None otherwise; ranges are not checked |
| TimeCodec.ParseTimeOfParts | annotation_panel.py:163-169 | once the two splits are known, the value is the three integer fields combined, or None |
| TimeCodec.ParseTimeNoFraction | annotation_panel.py:168 | a missing fraction counts as 0 ms |
| TimeCodec.ParseTimeNeedsOneColon | annotation_panel22.py:151-163 | text without exactly one `:` gives None, never an exception |
| TimeCodec.ParseTimeFractionIsMilliseconds | annotation_panel.py:168-169 | the fraction is an integer count of ms: "00:05.5" is 5005 ms |
| TimeCodec.ParseTimeRejectsBadField | video_annotator.py:25-37 | for any text `minutes:seconds.fraction`, a field `int()` rejects makes the whole text None |
| TimeCodec.ParseTimeRejectsLetters | video_annotator.py:25-37 | any character other than a digit or a minus sign in any of the three fields makes the whole text None |
| TimeCodec.FloorVersusTrunc | annotation_panel.py:176-178 | floor and truncating division by 1000 differ by one exactly for negative times that are not whole seconds |
| TimeCodec.FormatThenParse | annotation_panel.py:174-179 | `parse_time(format_time(t)) == t` for every `t >= 0`; a negative time with a fraction reads back one second lower |
| TimeCodec.FieldsSum | annotation_panel.py:176-178 | the three written fields add up to `t`, or to `t - 1000` for negative fractional times |
| TimeCodec.CanonicalRoundTrip | annotation_panel.py:160-179 | `format_time(parse_time(s)) == s` for canonical `s`: 2-digit minutes, seconds below 60, three ms digits |
| TimeCodec.CanonicalReads | annotation_panel.py:160-172 | a canonical text reads as its minutes, seconds and milliseconds combined |
| TimeCodec.CanonicalWrites | annotation_panel.py:174-179 | the time a canonical text denotes is written back as that text |
| TimeCodec.FormatTimeCanonical | annotation_panel22.py:165-170 | below 100 minutes `format_time` writes canonical text: seconds in 0..59, ms in 0..999 |
| TimeCodec.PaddedField | annotation_panel.py:179 | a field below `10^w` padded to width `w` is `w` digits with the field's value |
| TimeCodec.FormatVariantsAgree | video_annotator.py:16-23 | the Streamlit `format_time` equals the panel's on every non-negative time |
| TimeCodec.FormatVariantsDisagree | video_annotator.py:16-23 | the two differ on -0.5 s: one starts with `-`, the other with `0` |
| Config.AnnotationTemplate | config2.py:55-67 | the template has no segments, is not annotated, has no status key, empty texts and zero duration, so its flag matches its segments |
| Config.SegmentTemplate | config2.py:70-81 | the segment template has both times 0 and an empty description, noun, verb and tag list |
| Config.StatusOf | data_manager3.py:177 | a record without a status reads as 未标注; otherwise the stored status is read |
| Config.TemplateReadsUnannotated | config2.py:59-67 | a fresh template reads as 未标注 |
| Config.DefaultTagsDistinct | config2.py:20-41 | `DEFAULT_TAGS` holds twenty pairwise-distinct, non-empty tags |
| Config.DurationOf | data_manager3.py:68-81 | the duration is frames over frame rate, or 0 when the rate is not positive |
| Catalog.Parent | data_manager3.py:87 | a non-empty path is its parent followed by its name |
| Catalog.RFind | data_manager3.py:62 | `rfind` gives the last position of the character, or -1 |
| Catalog.Stem | data_manager3.py:62 | the stem is a prefix of the name |
| Catalog.RelativeTo | data_manager3.py:86 | `relative_to` succeeds exactly when the base is a prefix of the path, and gives the rest |
| Catalog.AnnotationPath | data_manager3.py:83-92 | a video has an annotation path exactly when it lies in the video folder, and the path lies strictly inside the annotation folder |
| Catalog.Mp4Stem | data_manager3.py:87 | the stem of an `.mp4` name is the name without ".mp4" |
| Catalog.AnnotationPathMirrorsFolders | data_manager3.py:86-87 | the folders below the video folder are repeated below the annotation folder, and ".mp4" becomes ".json" |
| Catalog.AnnotationPathInjective | data_manager3.py:83-92 | two `.mp4` videos in the video folder with the same annotation path are the same video |
| Catalog.RelativeAnnotationInjective | data_manager3.py:87 | below the annotation folder, folders plus stem plus ".json" determine the relative `.mp4` path |
| Catalog.AnnotationPathCollision | data_manager3.py:87 | ".mp4" and ".mp4.mp4" share one annotation file, so the injectivity needs names longer than the suffix |
| Catalog.DisplayNameDirectChild | data_manager3.py:55-66 | a video directly in the video folder is shown by its stem |
| Catalog.DisplayNameInSubfolder | data_manager3.py:64-65 | a video in a folder whose name is non-empty and not the video folder's name is shown as "folder/stem" |
| Catalog.DisplayNameComparesNames | data_manager3.py:64 | a sub-folder carrying the video folder's own name is not shown, because names are compared rather than paths |
| Validation.Validate | annotation_panel.py:184-201 | the verdict is a format error exactly when a time does not parse; it is acceptance exactly when both parse, start < end and end is within the duration; an accepted range carries the parsed times |
| Validation.OrderBeforeDuration | annotation_panel22.py:179-192 | the start-before-end check runs before the duration check, so an inverted range reports the inversion |
| Validation.AcceptedRangeFits | video_annotator.py:76-86 | an accepted range is non-empty and ends no later than the video |
| Validation.FormattedPositionsAccepted | annotation_panel.py:181-201 | two formatted player positions, ordered and within the video, are accepted as exactly those positions; the end may equal the duration |
| Validation.NegativeStartAccepted | annotation_panel.py:192-201 | the start is not checked against 0: -2 s to 1 s is accepted |
| Vocabulary.AppendIfAbsent | data_manager3.py:164-169 | a non-empty term ends up in the list; the old list is kept as a prefix and grows by at most one |
| Vocabulary.AppendIfAbsentKeepsDistinct | annotation_panel.py:335-336 | appending keeps the list duplicate-free and adds the term exactly when it is non-empty and new |
| Vocabulary.AppendIfAbsentIdempotent | annotation_panel.py:442-443 | adding the same term twice is adding it once |
| Vocabulary.RemoveFirst | annotation_panel.py:457 | `list.remove` fails exactly when the value is absent, and otherwise removes one element |
| Vocabulary.RemoveFirstFromDistinct | annotation_panel.py:457 | removing from a duplicate-free list removes the term completely and keeps every other term |
| Vocabulary.Swap | annotation_panel.py:464 | the two positions exchange their elements and nothing else moves |
| Vocabulary.SwapIsPermutation | annotation_panel.py:473 | a swap keeps the same terms with the same counts |
| Vocabulary.SwapKeepsDistinct | annotation_panel.py:464 | a swap keeps a list duplicate-free |
| Vocabulary.MoveUp | annotation_panel.py:460-467 | a selected row above 0 exchanges places with the row above |
| Vocabulary.MoveDown | annotation_panel.py:469-476 | corrected version (see Findings, first row): a selected row above the last exchanges places with the row below; with no row selected nothing changes |
| Vocabulary.MoveDownAsWritten | annotation_panel.py:471-473 | "move down" with only the `row < count - 1` guard keeps the length |
| Vocabulary.MoveDownAsWrittenWithoutSelection | annotation_panel.py:472-473 | with no selection, the as-written move turns ["a","b","c"] into ["c","b","a"], while the intended one leaves it alone |
| Vocabulary.MoveDownAgreesOnSelection | annotation_panel.py:469-476 | for a selected row both versions of "move down" agree |
| Vocabulary.MoveUpIsPermutation | annotation_panel.py:460-467 | "move up" keeps the same terms with the same counts, and keeps the list duplicate-free |
| Vocabulary.MoveDownIsPermutation | annotation_panel.py:469-476 | "move down" keeps the same terms with the same counts, and keeps the list duplicate-free |
| Vocabulary.MoveUpThenDown | annotation_panel.py:460-476 | moving a row up and then back down restores the list |
| Store.WriteFile | data_manager3.py:125-130 | a completed write stores the content; a failed open changes nothing; an interrupted write leaves an unreadable file |
| Store.FreshRecord | data_manager3.py:108-113 | the fallback is the template with the video's path, its file name and its probed duration |
| Store.LoadFrom | data_manager3.py:94-113 | a video outside the video folder raises; otherwise the stored record when it exists and parses, else the fresh template |
| Store.SaveTo | data_manager3.py:115-130 | the record is stamped with the current time before the write, the stamp survives a failed write, and the result is true exactly when the write completed |
| Store.SaveThenLoad | data_manager3.py:115-130 | after a successful save the next load returns the stamped record |
| Store.FailedOpenChangesNothing | data_manager3.py:125-130 | a save whose open fails leaves the next load as it was |
| Store.InterruptedWriteLosesRecord | data_manager3.py:125-126 | an interrupted save empties the file, so the next load is the fresh template |
| Store.SaveIsLocal | data_manager3.py:119-126 | saving one video never changes what a video with another annotation file loads |
| Store.AnnotatedCount | data_manager3.py:132-139 | the annotated count is at most the number of videos |
| Store.CountAnnotated | data_manager3.py:134-139 | the counting loop computes the number of listed videos whose record is flagged annotated |
| Store.Exportable | data_manager3.py:145-150 | every exported record has at least one segment, and there are no more records than videos |
| Store.ExportableMembership | data_manager3.py:147-150 | a listed video's record is exported exactly when it has segments |
| Store.AnnotatedCountIsExportCount | data_manager3.py:132-150 | when every stored flag matches its segments, the annotated count equals the number of exported records |
| Store.StatusStep | data_manager3.py:171-185 | a missing status reads as 未标注; 未标注 with segments is promoted to 已标注 and the files become exactly what saving the record with status 已标注 leaves; any other status comes back unchanged with nothing written |
| Store.StatusStepKeepsSettledStatus | data_manager3.py:185 | a status other than 未标注 is returned as stored and nothing is written |
| Store.StatusStepIdempotent | data_manager3.py:180-183 | once the promotion is written, asking again gives the same status and writes nothing |
| Store.StatusAfterInterruptedPromotion | data_manager3.py:180-183 | if the promotion write is interrupted, the next question reads the emptied file and answers 未标注 |
| Store.StatusSweep | data_manager3.py:206-208 | the sweep reads one status per listed video |
| Store.TallyKeys | data_manager3.py:204-208 | the keys of the counts are the three statuses plus every status read |
| Store.TallyCounts | data_manager3.py:204-208 | each key counts exactly the statuses equal to it |
| Store.TallySum | data_manager3.py:204-210 | when every status is one of the three, there are exactly three keys and their counts sum to the number of videos |
| Store.StatusStepValid | data_manager3.py:180-185 | with valid stored statuses, a status question answers one of the three and keeps the stored statuses valid |
| Store.StatusSweepValid | data_manager3.py:206-207 | the sweep keeps stored statuses valid and reads only the three statuses |
| Store.StatusCountsSum | data_manager3.py:199-210 | with valid stored statuses, `get_status_counts` has exactly the three keys and they sum to the number of videos |
| Store.TallyTotal | data_manager3.py:204-210 | for any statuses read, the three keys are always present and their counts plus the number of statuses outside the three equal the number of statuses |
| Store.StatusCountsTotal | data_manager3.py:199-210 | whatever the files hold, `get_status_counts` keeps the three keys, and their counts plus the answers outside the three sum to the number of videos |
| Store.UnknownStatusGetsOwnKey | data_manager3.py:208 | a stored status outside the three gets a key of its own |
| Store.CreateSegment | data_manager3.py:216-224 | the segment carries the given times and description, the given tags or none, and the template's empty noun and verb |
| Store.DataManager.constructor | data_manager3.py:25-28 | the tags start as the predefined list and the video list is loaded |
| Store.DataManager.LoadVideoList | data_manager3.py:30-43 | the video list becomes the files found, or empty when the folder does not exist; nothing else changes |
| Store.DataManager.GetVideoPath | data_manager3.py:49-53 | a path exactly for an index inside the list, and it is the listed one |
| Store.DataManager.SaveAnnotation | data_manager3.py:115-130 | the save changes the files as `SaveTo` says and nothing else |
| Store.DataManager.GetAnnotatedCount | data_manager3.py:132-139 | the count of listed videos loading as annotated, at most the list length |
| Store.DataManager.CollectExportable | data_manager3.py:145-150 | the collecting loop gathers exactly the records with segments, in list order |
| Store.DataManager.ExportAll | data_manager3.py:141-162 | the export document holds the records with segments and their number; it succeeds exactly when the write completes; the annotation files are untouched, so a second export collects the same records |
| Store.DataManager.AddTag | data_manager3.py:164-169 | a tag is appended, unstripped, exactly when it is non-empty and not yet listed; the result says whether it was; the list stays duplicate-free |
| Store.DataManager.GetVideoStatus | data_manager3.py:171-185 | the answer and the files are those of `StatusStep` |
| Store.DataManager.SetVideoStatus | data_manager3.py:187-197 | a value outside the three statuses is refused and nothing is touched; any of the three is written over any current status |
| Store.DataManager.GetStatusCounts | data_manager3.py:199-210 | the counts tally the statuses the sweep reads, and the files are those after its promotions |
| Panel.SegmentFromForm | annotation_panel.py:181-223 | rejected exactly when validation does not accept, with validation's reason; an emitted segment has the parsed times, the stripped description, noun and verb, and no tags |
| Panel.EmittedSegmentIsClean | annotation_panel22.py:195-214 | an emitted segment's texts have no surrounding whitespace and its range is non-empty and inside the video |
| Panel.QuickSelect | annotation_panel.py:500-518 | with an empty noun text the num-th noun is chosen, otherwise the num-th verb; past the end of that list nothing changes |
| Panel.QuickSelectNounThenVerb | annotation_panel.py:509-518 | two quick selections from an empty noun pick a noun and then a verb |
| Panel.AnnotationPanel.constructor | annotation_panel.py:28-37 | a new panel has two separate empty lists and zero duration |
| Panel.AnnotationPanel.SetVideoDuration | annotation_panel.py:316-318 | only the duration changes |
| Panel.AnnotationPanel.SetStartFromCurrent | annotation_panel.py:324-326 | the start text is the formatted position, which parses back to that position when it is non-negative |
| Panel.AnnotationPanel.SetEndFromCurrent | annotation_panel.py:328-330 | the end text is the formatted position, which parses back to that position when it is non-negative |
| Panel.AnnotationPanel.AddSegment | annotation_panel.py:181-230 | the outcome is `SegmentFromForm` of the inputs; a rejection changes nothing; an emission clears the description, noun and verb and keeps the time texts |
| Panel.AnnotationPanel.ClearInputs | annotation_panel.py:226-228 | the description, noun and verb inputs are emptied and nothing else changes |
| Panel.QuickSelectAfterRefill | annotation_panel.py:500-518 | right after the lists are set (both combo texts empty), quick-select key `num` fills the noun with the `num`-th noun and leaves the verb empty |
| Panel.Restored | annotation_panel.py:478-494 | after a refill, a combo keeps its text exactly when that text is in its list, and is otherwise empty (its placeholder shows); either way the text is in the list or empty |
| Panel.AnnotationPanel.UpdateComboBoxes | annotation_panel.py:478-494 | both combo boxes are refilled from their lists; each keeps its text when that text is in its list and is emptied otherwise; nothing else changes |
| Panel.AnnotationPanel.AddCustomNoun | annotation_panel.py:332-338 | the stripped noun text joins the noun list exactly when it is non-empty and new; then the noun combo shows it, and the verb text survives when it is in the verb list and is emptied otherwise; otherwise nothing changes |
| Panel.AnnotationPanel.AddCustomVerb | annotation_panel.py:340-346 | the stripped verb text joins the verb list exactly when it is non-empty and new; then the verb combo shows it, and the noun text survives when it is in the noun list and is emptied otherwise; otherwise nothing changes |
| Panel.AnnotationPanel.AddCustomNounEarlier | annotation_panel22.py:323-330 | the stripped noun text joins the noun list exactly when it is non-empty and new, the noun combo then shows it, and the verb text is untouched |
| Panel.AnnotationPanel.AddCustomVerbEarlier | annotation_panel22.py:332-339 | the stripped verb text joins the verb list exactly when it is non-empty and new, the verb combo then shows it, and the noun text is untouched |
| Panel.AnnotationPanel.GetNounVerbLists | annotation_panel.py:348-350 | the results are copies holding the current terms |
| Panel.AnnotationPanel.SetNounVerbLists | annotation_panel.py:352-359 | the panel keeps the caller's list objects, so later additions show in them; both combo texts are then empty (the placeholders show) |
| Panel.AnnotationPanel.QuickSelectTag | annotation_panel.py:500-518 | the noun and verb texts become what `QuickSelect` picks |
| Panel.AddTagInManager | annotation_panel.py:436-444 | a confirmed input is stripped and appended exactly when non-empty and new; a cancelled dialog changes nothing; the list stays duplicate-free |
| Panel.DeleteTagInManager | annotation_panel.py:446-458 | with a row selected and confirmed, the first occurrence of that term is removed; otherwise nothing changes |
| Panel.MoveTagUp | annotation_panel.py:460-467 | the list becomes `MoveUp` of it: a permutation that stays duplicate-free |
| Panel.MoveTagDown | annotation_panel.py:469-476 | corrected version (see Findings, first row): the list becomes `MoveDown` of it, a permutation that stays duplicate-free, unchanged with no selection |
| Player.TruncReal | video_player.py:237 | `int()` of a float truncates toward zero |
| Player.ClampFrame | video_player.py:238 | the frame is clamped into `[0, total - 1]`, or to 0 without frames; a frame inside is kept |
| Player.SeekTarget | video_player.py:237-238 | the seek target lies inside the video when there are frames |
| Player.SeekToFrameTime | video_player.py:226-239 | seeking to a frame's own time lands on that frame |
| Player.SeekTargetStable | video_player.py:232-239 | the frame a seek lands on is its own target |
| Player.FormatSeconds | video_player.py:241-247 | the player's `format_time` parses back to the position in whole ms |
| Player.VideoPlayer.constructor | video_player.py:22-32 | no capture, not playing, zero counts and frame |
| Player.VideoPlayer.CurrentTime | video_player.py:226-230 | the current frame over the rate, and 0 when the rate is not positive |
| Player.VideoPlayer.CurrentTimeMs | video_player.py:226-230 | a non-negative time gives a non-negative count of ms |
| Player.VideoPlayer.ShowFrame | video_player.py:110-143 | the current frame moves to `n` exactly when frame `n` can be read |
| Player.VideoPlayer.Load | video_player.py:80-108 | false exactly when the file does not open; the new capture always replaces the old one; on success the counts, rate and duration come from the file and the frame is 0; on failure they stay; the whole new state is `LoadedState` of the old one |
| Player.VideoPlayer.Pause | video_player.py:178-182 | playing stops and nothing else changes |
| Player.VideoPlayer.Play | video_player.py:166-176 | playing starts exactly when there is a capture |
| Player.VideoPlayer.Stop | video_player.py:184-187 | playing stops and the frame returns to 0 when it can be read |
| Player.VideoPlayer.TogglePlay | video_player.py:159-164 | playing flips, except that without a capture it stays off |
| Player.VideoPlayer.UpdateFrame | video_player.py:145-157 | nothing unless playing with a capture; at the last frame it stops; otherwise it advances one frame when readable |
| Player.VideoPlayer.SliderPressed | video_player.py:189-195 | remembers whether it was playing, and pauses |
| Player.VideoPlayer.SliderReleased | video_player.py:206-209 | plays again exactly when it was playing at the press |
| Player.VideoPlayer.SeekToTime | video_player.py:232-239 | shows the clamped target frame when there is a capture and the frame can be read |
| Window.LoadNounVerbCache | main1.py:347-355 | the cached lists with a missing key read as empty, or two empty lists when the cache cannot be read |
| Window.CacheRoundTrip | main1.py:340-355 | the cache reads back the lists last saved into it |
| Window.MainWindow.constructor | main1.py:23-42 | the start-up folder is current and the data manager lists its videos; index 0, no record, the files untouched; the window is coherent |
| Window.MainWindow.StatusBar | main1.py:217-226 | the unannotated count is total minus annotated, and lies in `[0, total]` |
| Window.MainWindow.LoadCachedTerms | main1.py:37-39 | the panel gets new lists holding the cached terms, and both combo texts are empty (the placeholders show); the description, time texts and duration stay |
| Window.MainWindow.LoadVideo | main1.py:238-264 | an index outside the list changes nothing; a listed video replaces the player's capture; only one that opens loads its record, gives the panel its duration, sets the player to its counts and frame 0, and moves the index; the panel's lists and texts and the files stay |
| Window.MainWindow.LoadFirstVideo | main1.py:228-236 | as `LoadVideo(0)` when there is a video: player, panel duration, record and index; the panel's lists and texts stay |
| Window.MainWindow.SaveAnnotation | main1.py:312-324 | nothing without a record; otherwise the record is saved for the current video and stamped in place |
| Window.MainWindow.OnSegmentAdded | main1.py:296-302 | the segment goes to the end of the current record, which is flagged annotated and saved; without a record it raises |
| Window.MainWindow.OnSegmentDeleted | main1.py:304-310 | an index inside the list removes exactly that segment, the flag follows the new length and the record is saved; any other index changes nothing |
| Window.MainWindow.OnVideoChanged | main1.py:267-273 | only a different, non-negative index acts: the current record is saved first and the files become what that save leaves; a video that opens is then loaded from those files, one that does not keeps the stamped record and the index; the player and the panel's duration follow `load_video`, and the panel's lists and texts stay |
| Window.MainWindow.PrevVideo | main1.py:275-279 | unless at the first video, saves the current record (the files become what that save leaves) and then loads the previous video from those files; the player and the panel's duration follow `load_video`, the panel's lists and texts stay, and the index stays in range |
| Window.MainWindow.NextVideo | main1.py:281-285 | unless at the last video, saves the current record (the files become what that save leaves) and then loads the next video from those files; the player and the panel's duration follow `load_video`, the panel's lists and texts stay, and the index stays in range |
| Window.MainWindow.SwitchSubfolderAsWritten | main1.py:412-492 | saves first (the files become what that save leaves); the same folder or a cancelled dialog keeps the stamped record and the index; a new folder is listed, the index resets to 0 and its first video is loaded from the saved files, but when that video does not load the old folder's stamped record stays current and the window is no longer coherent |
| Window.MainWindow.SwitchSubfolder | main1.py:412-492 | corrected version (see Findings, third row): saves first (the files become what that save leaves); the same folder keeps the stamped record; a new folder is listed, the index resets to 0 and the record is the first video's as loaded from the saved files, or none when it does not load; the window stays coherent |
| Window.StaleRecordOverwrites | main1.py:480-486 | saving the stale record at index 0 of the new folder makes it that video's stored record, although it names another video |
| Annotator.RenderSegmentList | video_annotator.py:136-217 | an empty list comes back unchanged; a delete drops that row; a saved edit replaces the row's description and tags; every other press gives the list back |
| Annotator.DeleteIsAChange | video_annotator.py:177-180 | a delete always changes the list, removing exactly that segment |
| Annotator.EditIsAChangeIff | video_annotator.py:205-210 | an edit changes the list exactly when it gives the row another description or other tags |
| Annotator.WithSegments | video_annotator.py:275-278 | the new segment list with the flag set to whether any segment is left |
| Annotator.WithAdded | video_annotator.py:259-262 | the segment appended and the record flagged annotated |
| Annotator.StepKeepsIndexInRange | video_annotator.py:292-306 | a run keeps the index in `[0, total - 1]` and only next and previous move it |
| Annotator.StepNavigation | video_annotator.py:293-306 | next moves exactly when not at the last video and previous exactly when not at the first; neither writes |
| Annotator.StepKeepsFlagsConsistent | video_annotator.py:259-290 | every record a run writes has its flag in step with its segments |
| Annotator.StepIsLocal | video_annotator.py:228-290 | a run touches no other video's annotation file |
| Annotator.StepAddAppends | video_annotator.py:257-262 | an accepted add, written, is the last segment the video loads with next, with the parsed times |
| Annotator.StepSavesEdit | video_annotator.py:205-210 | a saved edit, written, is what the video loads with next |
| Annotator.StepSaveEditOnlyFlags | video_annotator.py:205-208 | a saved edit clears the row's edit flag when the row exists and is being edited |
| Annotator.ReadDicts | video_annotator.py:235 | the loaded segments become new, distinct dictionaries holding them |
| Annotator.RenderSegmentListAsWritten | video_annotator.py:136-217 | the returned list holds `RenderSegmentList` of the input; a saved edit returns the caller's own dictionaries, with the edit written into them |
| Annotator.WriteRow | video_annotator.py:206-207 | writing an edit changes only that row's description and tags |
| Annotator.Page.Save | video_annotator.py:278 | the files change as `SaveTo` says |
| Annotator.Page.Run | video_annotator.py:224-306 | corrected version (see Findings, second row; `RunAsWritten` is the code as written): one run of the page moves the session and the files as `Step` says |
| Annotator.Page.RunOn | video_annotator.py:255-290 | corrected version (see Findings, second row): a press on the current record moves the session and the files as `StepOn` says |
| Annotator.Page.RunAsWritten | video_annotator.py:269-279 | as `Run` for every press but a saved edit, which writes nothing |
| Annotator.Page.SaveEditAsWritten | video_annotator.py:204-210 | the saved-edit press as written leaves the files unchanged and only clears the edit flag |
| DurationReport.DurationParts | scripts/count_duration.py:44-47 | days, hours, minutes and seconds add back to the count, with hours below 24 and minutes and seconds below 60 |
| DurationReport.DurationPartsUnique | scripts/count_duration.py:44-47 | that split is the only one within those bounds |
| DurationReport.DurationPartsOfNatural | scripts/count_duration.py:44 | a non-negative count has non-negative days, and none below a day |
| DurationReport.Tokens | scripts/count_duration.py:49-56 | all four fields with a day; otherwise from the largest non-zero unit down; the seconds always last |
| DurationReport.FormatDurationFields | scripts/count_duration.py:49-56 | the space-separated fields of the text are exactly the shown units |
| DurationReport.TokensRead | scripts/count_duration.py:49-56 | reading the shown fields back gives the seconds they stand for |
| DurationReport.FormatDurationReadsBack | scripts/count_duration.py:35-56 | the text reads back as the count for any non-negative count; for a negative count only the time of day is read back |
| DurationReport.ShownSeconds | scripts/count_duration.py:44-49 | the shown fields stand for the count when it is non-negative, else for its time of day |
| DurationReport.FormatDurationUnderAMinute | scripts/count_duration.py:55-56 | for every count under a minute the text is the seconds alone |
| DurationReport.FormatDurationUnderAnHour | scripts/count_duration.py:53-54 | for every count from a minute to an hour the text is the whole minutes and the remaining seconds, the seconds shown even when zero |
| DurationReport.FormatDurationUnderADay | scripts/count_duration.py:51-52 | for every count from an hour to a day the text shows hours, minutes and seconds, zeros included, with the whole hours first |
| DurationReport.FormatDurationFromADay | scripts/count_duration.py:49-50 | for every count from a day on, all four units are shown, zeros included, with the whole days first |
| DurationReport.ScanVideos | scripts/count_duration.py:59-106 | no entries when the root is missing; otherwise one entry per file found, in order, at the fixed duration; progress exactly at every hundredth file and the last |
| DurationReport.Folders | scripts/count_duration.py:143-146 | each file counts under the first part of its relative path |
| DurationReport.CountsMeaning | scripts/count_duration.py:142-149 | the counted folders are exactly the folders seen, each key once, and each count is how often the folder occurs |
| DurationReport.Insert | scripts/count_duration.py:154 | inserting into a sorted list keeps it sorted, keeps its elements and adds the new one |
| DurationReport.Sort | scripts/count_duration.py:154 | `sorted` gives the same keys, each once, in ascending order |
| DurationReport.CountFolders | scripts/count_duration.py:142-149 | the loop computes the count of each folder and its keys in insertion order |
| DurationReport.CountStep | scripts/count_duration.py:147-149 | one turn adds the folder as a key at its first occurrence and counts it once more |
| DurationReport.FolderRows | scripts/count_duration.py:154-156 | one row per key, its count times the fixed duration |
| DurationReport.RowsSum | scripts/count_duration.py:154-156 | the rows add up to the number of files their keys cover, times the fixed duration |
| DurationReport.GenerateReport | scripts/count_duration.py:109-158 | the total is files times 15 s; the estimates are 3, 4 and 5 times it; each folder appears once, ascending, with its count times 15 s; the folder durations sum to the total |
| DurationReport.ReportRows | scripts/count_duration.py:142-156 | the sorted rows cover every folder once and their durations sum to the total |
| DurationReport.SumOccurrencesCovers | scripts/count_duration.py:142-149 | distinct keys covering every folder account for every file exactly once |

## Left out

- Widgets and I/O: the Qt and Streamlit layout, dialogs, message boxes, signals, shortcuts, timers and list rendering. Only the texts, selections and confirmations they supply are modelled, as parameters.
- OpenCV decoding, colour conversion and probing. What opening a video reports is a parameter (`Probe`), and reading a frame succeeds exactly when the capture opened and the frame is in range.
- Floating point. Segment times are integer milliseconds. Float artefacts of `int((seconds - int(seconds)) * 1000)` are not modelled. Player positions reach the panel in whole milliseconds.
- JSON files and the file system. The annotation folder is an abstract map, and `mkdir`, `init_directories`, `rglob`, the `video_list.txt` write and the `ensure_ascii` detail are not part of this model. The annotation record is a value, so "each template call returns a fresh dict" has no counterpart.
- The video list is given as found and sorted. The scan itself is not part of this model.
- The noun/verb cache write (main1.py:340-345) is modelled only by what it produces (`CacheOf`), not as a file operation.
- Python `int()` leniency (spaces, `+`, `_`, non-ASCII digits): a time field is an optional `-` and ASCII digits.
- The clock: timestamps and the export time are opaque strings supplied by the caller.
- The sub-folder API that main1.py calls (`get_subfolders`, `load_videos_from_subfolder` and the rest) belongs to a data manager module that is not part of this model. The folder chosen in the start-up dialog and in the switch dialog, and that folder's videos, are parameters (of the window's constructor and of `SwitchSubfolder`). Cancelling the start-up dialog ends the program (main1.py:32-33), so no window is modelled for that case.
- The site-specific path constants of config2.py. Paths are parameters; in that file the export file and the annotation folder are the same path (config2.py:13, config2.py:16).
- The progress percentages, remaining-time estimates, timing and logging of count_duration.py. Only which positions log progress is modelled.
- `app.py`, the Streamlit sidebar.
- The slider-move mapping of the player (video_player.py:197-204).
- The wiring of the window's player signals (`on_video_loaded`, position updates), which only forwards values to the panel.
- Panel.Restored, Panel.AnnotationPanel.UpdateComboBoxes, Panel.AnnotationPanel.SetNounVerbLists, Panel.AnnotationPanel.AddCustomNoun, Panel.AnnotationPanel.AddCustomVerb, Window.MainWindow.LoadCachedTerms: the combo boxes carry placeholder text (annotation_panel.py:89, annotation_panel.py:104), so Qt makes no item current when `addItems` refills them and the edit text is empty afterwards. Only the text is modelled, not the combo's current row. One case is therefore lost: a typed text that is not in the list, with no row current, may survive `clear()` in Qt, but the model empties it. The `currentTextChanged` signals the refill emits are not modelled.
- The tag manager dialog (annotation_panel.py:361-434) is modelled by its actions on one list (`AddTagInManager`, `DeleteTagInManager`, `MoveTagUp`, `MoveTagDown`) followed by `UpdateComboBoxes` when it closes; the dialog's event loop is not modelled.
- Panel.AnnotationPanel.QuickSelectTag: requires `1 <= num <= 9`, the numbers the shortcut keys send; `QuickSelect` covers any `num >= 1`, and `num <= 0` (Python's negative combo index) is not modelled.
- Panel.AnnotationPanel.SetStartFromCurrent: takes the player position in whole milliseconds rather than float seconds.
- Panel.AnnotationPanel.SetEndFromCurrent: takes the player position in whole milliseconds rather than float seconds.
- DurationReport.FormatDurationReadsBack: states the read-back for integer seconds; `format_duration`'s own `int(seconds)` truncation of a float is not modelled.

## Findings

| source | as written | input that shows it | evidently intended | confidence | as-written member | corrected member |
|---|---|---|---|---|---|---|
| annotation_panel.py:469-476 | `move_tag_down` guards only `row < count - 1`, so row -1 (nothing selected) passes and `tag_list[-1]` swaps the first and last terms | list ["a","b","c"], no row selected | nothing happens without a selection, as in `move_tag_up` | high, not executed | Vocabulary.MoveDownAsWrittenWithoutSelection | Vocabulary.MoveDown |
| video_annotator.py:148-210 | `render_segment_list` returns a shallow copy, so a saved edit is written into the caller's own segment dictionaries; the change check at lines 275-279 then sees equal lists and nothing is saved | any saved edit of an existing row | the edit is saved, as deletes are | high, not executed | Annotator.Page.SaveEditAsWritten | Annotator.StepSavesEdit |
| main1.py:480-486 | `switch_subfolder` does not drop the previous record before loading the new folder; when the new folder's first video does not open, the old record stays current at index 0, and the next save writes it over that video's annotation file | switch to a folder whose first video cannot be opened, then save | the previous record is dropped, so nothing stale can be saved | medium, not executed | Window.MainWindow.SwitchSubfolderAsWritten | Window.MainWindow.SwitchSubfolder |
