/**
 * The record schema of the annotation tool and its defaults: one annotation
 * record per video, holding a list of segments, and the predefined tag list.
 * Times inside segments are integer milliseconds; a video's duration is a
 * real number of seconds, as the video probe reports it.
 */
module Config {
  import opened Wrappers
  import opened Vocabulary

  /** One annotated stretch of a video. */
  datatype Segment = Segment(
    startMs: int,
    endMs: int,
    description: string,
    noun: string,
    verb: string,
    tags: seq<string>)

  /**
   * The per-video record. `status` is absent (`None`) until something writes
   * it; the other keys are always present.
   */
  datatype AnnotationRecord = AnnotationRecord(
    videoPath: seq<string>,
    videoName: string,
    duration: real,
    segments: seq<Segment>,
    annotated: bool,
    annotator: string,
    timestamp: string,
    status: Option<string>)

  /** The three statuses a record may carry. */
  const Unannotated: string := "未标注"
  const Annotated: string := "已标注"
  const NotNeeded: string := "非必要"

  predicate IsStatus(s: string) {
    s == Unannotated || s == Annotated || s == NotNeeded
  }

  /** The `annotated` flag agrees with the segment list. */
  predicate FlagMatchesSegments(r: AnnotationRecord) {
    r.annotated == (|r.segments| > 0)
  }

  /**
   * `get_annotation_template`: no segments, not annotated, no status, empty
   * strings and a zero duration.
   */
  function AnnotationTemplate(): (r: AnnotationRecord)
    ensures r.segments == [] && !r.annotated && r.status == None
    ensures FlagMatchesSegments(r)
    ensures r.videoPath == [] && r.videoName == [] && r.annotator == [] && r.timestamp == []
    ensures r.duration == 0.0
  {
    AnnotationRecord([], "", 0.0, [], false, "", "", None)
  }

  /** `get_segment_template`: both times zero and every text and the tag list empty. */
  function SegmentTemplate(): (s: Segment)
    ensures s.startMs == 0 && s.endMs == 0
    ensures s.description == [] && s.noun == [] && s.verb == [] && s.tags == []
  {
    Segment(0, 0, "", "", "", [])
  }

  /** A record without a status reads as 未标注, so a fresh template is unannotated. */
  function StatusOf(r: AnnotationRecord): (s: string)
    ensures r.status.None? ==> s == Unannotated
    ensures r.status.Some? ==> s == r.status.value
  {
    r.status.GetOr(Unannotated)
  }

  lemma TemplateReadsUnannotated()
    ensures StatusOf(AnnotationTemplate()) == Unannotated
  {
  }

  /** `DEFAULT_TAGS`: the twenty predefined construction-site tags. */
  const DefaultTags: seq<string> := [
    "安全帽佩戴", "安全绳使用", "高空作业", "脚手架作业", "焊接",
    "切割", "吊装", "搬运材料", "浇筑混凝土", "钢筋绑扎",
    "模板安装", "抹灰", "砌墙", "电气安装", "管道安装",
    "测量放线", "安全检查", "危险行为", "机械操作", "清理现场"]

  /** The predefined tags are twenty pairwise-distinct, non-empty strings. */
  lemma DefaultTagsDistinct()
    ensures |DefaultTags| == 20
    ensures Distinct(DefaultTags)
    ensures forall i :: 0 <= i < |DefaultTags| ==> DefaultTags[i] != []
  {
  }

  /** What opening a video file reports: whether it opened, its frame count and its frame rate. */
  datatype Probe = Probe(opens: bool, frameCount: int, fps: real)

  /** What a video file that cannot be opened reports. */
  const Unopenable: Probe := Probe(false, 0, 0.0)

  /**
   * The duration in seconds derived from a probe: frames over frame rate, or
   * 0 when the frame rate is not positive (which is what an unopened file
   * reports).
   */
  function DurationOf(p: Probe): (d: real)
    ensures p.fps > 0.0 ==> d * p.fps == p.frameCount as real
    ensures p.fps <= 0.0 ==> d == 0.0
  {
    if p.fps > 0.0 then p.frameCount as real / p.fps else 0.0
  }
}
