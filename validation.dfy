/**
 * The checks a new segment's time fields go through before a segment is
 * created. Both desktop panels and the Streamlit page run the same chain:
 * both texts must parse, then the start must come before the end, then the
 * end must not pass the video's duration. The first failing check decides the
 * message. Times are milliseconds; the duration is seconds.
 */
module Validation {
  import opened Wrappers
  import opened TimeCodec

  datatype Verdict =
    | BadFormat          // a time field does not parse
    | StartNotBeforeEnd  // start >= end
    | EndAfterDuration   // end > duration
    | Accepted(startMs: int, endMs: int)

  /** Whether an end time (ms) lies past a duration (s). */
  predicate PastDuration(endMs: int, durationSec: real) {
    endMs as real > durationSec * 1000.0
  }

  function Validate(startText: string, endText: string, durationSec: real): (v: Verdict)
    ensures v == BadFormat <==> ParseTime(startText).None? || ParseTime(endText).None?
    ensures v.Accepted? <==>
      && ParseTime(startText).Some? && ParseTime(endText).Some?
      && ParseTime(startText).value < ParseTime(endText).value
      && !PastDuration(ParseTime(endText).value, durationSec)
    ensures v.Accepted? ==> v.startMs == ParseTime(startText).value && v.endMs == ParseTime(endText).value
  {
    var start := ParseTime(startText);
    var end := ParseTime(endText);
    if start.None? || end.None? then BadFormat
    else if start.value >= end.value then StartNotBeforeEnd
    else if PastDuration(end.value, durationSec) then EndAfterDuration
    else Accepted(start.value, end.value)
  }

  /** The start-before-end check comes before the duration check: an inverted range past the end reports the inversion. */
  lemma OrderBeforeDuration(startText: string, endText: string, durationSec: real)
    requires ParseTime(startText).Some? && ParseTime(endText).Some?
    requires ParseTime(startText).value >= ParseTime(endText).value
    ensures Validate(startText, endText, durationSec) == StartNotBeforeEnd
  {
  }

  /** An accepted range is non-empty and ends no later than the video. */
  lemma AcceptedRangeFits(startText: string, endText: string, durationSec: real)
    requires Validate(startText, endText, durationSec).Accepted?
    ensures var v := Validate(startText, endText, durationSec);
      v.startMs < v.endMs && (v.endMs as real) <= durationSec * 1000.0
  {
  }

  /**
   * Times written by `format_time` from two non-negative positions, the first
   * before the second and the second within the video, are accepted as exactly
   * those positions; the end may equal the duration.
   */
  lemma FormattedPositionsAccepted(startMs: int, endMs: int, durationSec: real)
    requires 0 <= startMs < endMs
    requires (endMs as real) <= durationSec * 1000.0
    ensures Validate(FormatTime(startMs), FormatTime(endMs), durationSec) == Accepted(startMs, endMs)
  {
    FormatThenParse(startMs);
    FormatThenParse(endMs);
  }

  /** The start is not checked against zero: a negative start that precedes the end is accepted. */
  lemma NegativeStartAccepted(durationSec: real)
    requires durationSec >= 1.0
    ensures Validate(FormatTime(-2000), FormatTime(1000), durationSec) == Accepted(-2000, 1000)
  {
    FormatThenParse(-2000);
    FormatThenParse(1000);
  }
}
