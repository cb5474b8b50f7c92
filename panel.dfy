/**
 * The desktop annotation panel (`AnnotationPanel` of annotation_panel.py,
 * and the older copy in annotation_panel22.py, which differs in how adding a
 * custom noun or verb refreshes the combo boxes: the `...Earlier` methods).
 * The panel owns a noun list and a verb list, which are mutable lists that
 * other code may share, the texts of its input widgets and the current
 * video's duration. Widgets themselves (combo boxes, list widgets, dialogs)
 * are represented only by the texts and the selected row they supply.
 */
module Panel {
  import opened Wrappers
  import opened Text
  import opened Vocabulary
  import opened TimeCodec
  import opened Config
  import opened Validation
  import Store

  /** A Python list of terms: a mutable object that several owners may hold. */
  class TermList {
    var items: seq<string>

    constructor(items: seq<string>)
      ensures this.items == items
    {
      this.items := items;
    }
  }

  /**
   * The text of an editable combo box with a placeholder after `clear()` and
   * `addItems(items)`: with a placeholder set, no item becomes current, so
   * the edit text is empty and the placeholder shows.
   */
  const Refilled: string := ""

  /**
   * The text a combo box shows after `update_combo_boxes` refills it from
   * `items`: the text it showed before when that is one of the items,
   * otherwise empty.
   */
  function Restored(text: string, items: seq<string>): (r: string)
    ensures text in items ==> r == text
    ensures text !in items ==> r == Refilled
    ensures r in items || r == []
  {
    if text in items then text else Refilled
  }

  /** Refilling a second time from the same items changes nothing. */
  lemma RestoredIdempotent(text: string, items: seq<string>)
    ensures Restored(Restored(text, items), items) == Restored(text, items)
  {
  }

  /**
   * Right after the lists are set, the first quick-select key fills the noun
   * slot (the noun text is empty) and leaves the verb empty.
   */
  lemma QuickSelectAfterRefill(nouns: seq<string>, verbs: seq<string>, num: int)
    requires 1 <= num <= |nouns|
    ensures QuickSelect(Refilled, Refilled, nouns, verbs, num) == (nouns[num - 1], Refilled)
  {
    StripEmptyIff(Refilled);
  }

  /** What pressing "add segment" produces: a rejection with its reason, or the emitted segment. */
  datatype AddResult = Rejected(reason: Verdict) | Emitted(segment: Segment)

  /**
   * `add_segment` as a function of the form's texts: the validation chain,
   * then a segment built by `create_segment` with the stripped description and
   * no tags, into which the stripped noun and verb are written.
   */
  function SegmentFromForm(startText: string, endText: string, durationSec: real,
                           description: string, noun: string, verb: string): (r: AddResult)
    ensures r.Rejected? <==> !Validate(startText, endText, durationSec).Accepted?
    ensures r.Rejected? ==> r.reason == Validate(startText, endText, durationSec)
    ensures r.Emitted? ==>
      && r.segment.startMs == ParseTime(startText).value && r.segment.endMs == ParseTime(endText).value
      && r.segment.description == Strip(description) && r.segment.noun == Strip(noun) && r.segment.verb == Strip(verb)
      && r.segment.tags == []
  {
    match Validate(startText, endText, durationSec)
    case Accepted(s, e) =>
      Emitted(Store.CreateSegment(s, e, Strip(description), Some([])).(noun := Strip(noun), verb := Strip(verb)))
    case other => Rejected(other)
  }

  /** An emitted segment's texts carry no surrounding whitespace, and its range is non-empty and inside the video. */
  lemma EmittedSegmentIsClean(startText: string, endText: string, durationSec: real,
                              description: string, noun: string, verb: string)
    requires SegmentFromForm(startText, endText, durationSec, description, noun, verb).Emitted?
    ensures var seg := SegmentFromForm(startText, endText, durationSec, description, noun, verb).segment;
      && Strip(seg.description) == seg.description && Strip(seg.noun) == seg.noun && Strip(seg.verb) == seg.verb
      && seg.startMs < seg.endMs && (seg.endMs as real) <= durationSec * 1000.0
  {
    StripIdempotent(description);
    StripIdempotent(noun);
    StripIdempotent(verb);
    AcceptedRangeFits(startText, endText, durationSec);
  }

  /**
   * `quick_select_tag`: with an empty (after stripping) noun text the noun
   * slot is filled with the `num`-th noun, otherwise the verb slot with the
   * `num`-th verb; a number past the end of that list changes nothing.
   */
  function QuickSelect(nounText: string, verbText: string, nouns: seq<string>, verbs: seq<string>, num: int): (r: (string, string))
    requires 1 <= num
    ensures Strip(nounText) == [] ==> r.1 == verbText && (r.0 == if num <= |nouns| then nouns[num - 1] else nounText)
    ensures Strip(nounText) != [] ==> r.0 == nounText && (r.1 == if num <= |verbs| then verbs[num - 1] else verbText)
  {
    if Strip(nounText) == [] then
      (if num <= |nouns| then nouns[num - 1] else nounText, verbText)
    else
      (nounText, if num <= |verbs| then verbs[num - 1] else verbText)
  }

  /** Two quick selections in a row, starting from an empty noun, pick a noun and then a verb. */
  lemma QuickSelectNounThenVerb(verbText: string, nouns: seq<string>, verbs: seq<string>, n1: int, n2: int)
    requires 1 <= n1 <= |nouns| && 1 <= n2 <= |verbs|
    requires Strip(nouns[n1 - 1]) != []
    ensures var (noun1, verb1) := QuickSelect("", verbText, nouns, verbs, n1);
      QuickSelect(noun1, verb1, nouns, verbs, n2) == (nouns[n1 - 1], verbs[n2 - 1])
  {
    assert Strip("") == [] by { StripEmptyIff(""); }
  }

  /** What the panel's inputs hold: its two list objects, their terms and the texts of its input widgets. */
  datatype PanelInputs = PanelInputs(nouns: TermList, verbs: TermList, nounItems: seq<string>, verbItems: seq<string>,
                                     nounText: string, verbText: string, descriptionText: string,
                                     startText: string, endText: string)

  class AnnotationPanel {
    var nouns: TermList
    var verbs: TermList
    var nounText: string         // the noun combo box's current text
    var verbText: string         // the verb combo box's current text
    var descriptionText: string
    var startText: string
    var endText: string
    var durationSec: real        // `current_video_duration`

    function Inputs(): PanelInputs
      reads this, nouns, verbs
    {
      PanelInputs(nouns, verbs, nouns.items, verbs.items, nounText, verbText, descriptionText, startText, endText)
    }

    /** A new panel: empty lists of its own, zero duration and the default time texts. */
    constructor()
      ensures fresh(nouns) && fresh(verbs) && nouns != verbs
      ensures nouns.items == [] && verbs.items == []
      ensures durationSec == 0.0
      ensures startText == "00:00.000" && endText == "00:00.000"
      ensures nounText == [] && verbText == [] && descriptionText == []
    {
      nouns := new TermList([]);
      verbs := new TermList([]);
      nounText, verbText, descriptionText := "", "", "";
      startText, endText := "00:00.000", "00:00.000";
      durationSec := 0.0;
    }

    /** `set_video_duration`. */
    method SetVideoDuration(d: real)
      modifies this
      ensures durationSec == d
      ensures nouns == old(nouns) && verbs == old(verbs)
      ensures nounText == old(nounText) && verbText == old(verbText) && descriptionText == old(descriptionText)
      ensures startText == old(startText) && endText == old(endText)
    {
      durationSec := d;
    }

    /**
     * `set_start_time_from_current` / `set_end_time_from_current`: the player
     * position, in whole milliseconds, written by `format_time`.
     */
    method SetStartFromCurrent(positionMs: int)
      modifies this
      ensures startText == FormatTime(positionMs)
      ensures positionMs >= 0 ==> ParseTime(startText) == Some(positionMs)
      ensures nouns == old(nouns) && verbs == old(verbs) && endText == old(endText) && durationSec == old(durationSec)
      ensures nounText == old(nounText) && verbText == old(verbText) && descriptionText == old(descriptionText)
    {
      var text := FormatTime(positionMs);
      FormatThenParse(positionMs);
      startText := text;
    }

    method SetEndFromCurrent(positionMs: int)
      modifies this
      ensures endText == FormatTime(positionMs)
      ensures positionMs >= 0 ==> ParseTime(endText) == Some(positionMs)
      ensures nouns == old(nouns) && verbs == old(verbs) && startText == old(startText) && durationSec == old(durationSec)
      ensures nounText == old(nounText) && verbText == old(verbText) && descriptionText == old(descriptionText)
    {
      var text := FormatTime(positionMs);
      FormatThenParse(positionMs);
      endText := text;
    }

    /**
     * `add_segment`: on a rejection nothing changes; on success the segment is
     * emitted and the description, noun and verb texts are cleared (the time
     * texts stay).
     */
    method AddSegment() returns (r: AddResult)
      modifies this
      ensures r == SegmentFromForm(old(startText), old(endText), old(durationSec), old(descriptionText), old(nounText), old(verbText))
      ensures r.Rejected? ==> descriptionText == old(descriptionText) && nounText == old(nounText) && verbText == old(verbText)
      ensures r.Emitted? ==> descriptionText == [] && nounText == [] && verbText == []
      ensures startText == old(startText) && endText == old(endText) && durationSec == old(durationSec)
      ensures nouns == old(nouns) && verbs == old(verbs)
    {
      r := SegmentFromForm(startText, endText, durationSec, descriptionText, nounText, verbText);
      if r.Emitted? {
        ClearInputs();
      }
    }

    /** After an emitted segment: the description, noun and verb inputs are emptied. */
    method ClearInputs()
      modifies this
      ensures descriptionText == [] && nounText == [] && verbText == []
      ensures startText == old(startText) && endText == old(endText) && durationSec == old(durationSec)
      ensures nouns == old(nouns) && verbs == old(verbs)
    {
      descriptionText, nounText, verbText := "", "", "";
    }

    /**
     * `update_combo_boxes` (also run when the tag manager dialog closes):
     * both combo boxes are refilled from their lists, and each keeps its
     * text only when that text is in its list.
     */
    method UpdateComboBoxes()
      modifies this
      ensures nounText == Restored(old(nounText), nouns.items)
      ensures verbText == Restored(old(verbText), verbs.items)
      ensures nouns == old(nouns) && verbs == old(verbs) && descriptionText == old(descriptionText)
      ensures startText == old(startText) && endText == old(endText) && durationSec == old(durationSec)
    {
      var currentNoun, currentVerb := nounText, verbText;
      nounText := Refilled;
      if currentNoun in nouns.items {
        nounText := currentNoun;
      }
      verbText := Refilled;
      if currentVerb in verbs.items {
        verbText := currentVerb;
      }
    }

    /**
     * `add_custom_noun`: the stripped noun text joins the noun list when it is
     * non-empty and new; both combo boxes are then refilled, so the verb text
     * survives only when it is in the verb list, and the noun combo shows the
     * new noun. Otherwise nothing changes.
     */
    method AddCustomNoun()
      modifies this, nouns
      ensures nouns == old(nouns) && verbs == old(verbs)
      ensures nouns.items == AppendIfAbsent(old(nouns.items), Strip(old(nounText)))
      ensures verbs != nouns ==> verbs.items == old(verbs.items)
      ensures nouns.items != old(nouns.items) ==>
        nounText == Strip(old(nounText)) && verbText == Restored(old(verbText), verbs.items)
      ensures nouns.items == old(nouns.items) ==> nounText == old(nounText) && verbText == old(verbText)
      ensures descriptionText == old(descriptionText) && startText == old(startText) && endText == old(endText)
    {
      var noun := Strip(nounText);
      if noun != [] && noun !in nouns.items {
        nouns.items := nouns.items + [noun];
        UpdateComboBoxes();
        nounText := noun;
      }
    }

    /** `add_custom_verb`, the same for the verb list, refilling both combo boxes. */
    method AddCustomVerb()
      modifies this, verbs
      ensures nouns == old(nouns) && verbs == old(verbs)
      ensures verbs.items == AppendIfAbsent(old(verbs.items), Strip(old(verbText)))
      ensures verbs != nouns ==> nouns.items == old(nouns.items)
      ensures verbs.items != old(verbs.items) ==>
        verbText == Strip(old(verbText)) && nounText == Restored(old(nounText), nouns.items)
      ensures verbs.items == old(verbs.items) ==> nounText == old(nounText) && verbText == old(verbText)
      ensures descriptionText == old(descriptionText) && startText == old(startText) && endText == old(endText)
    {
      var verb := Strip(verbText);
      if verb != [] && verb !in verbs.items {
        verbs.items := verbs.items + [verb];
        UpdateComboBoxes();
        verbText := verb;
      }
    }

    /**
     * `add_custom_noun` of the older copy of the panel: only the noun combo
     * box is refilled, and it then shows the new noun; the verb text stays.
     */
    method AddCustomNounEarlier()
      modifies this, nouns
      ensures nouns == old(nouns) && verbs == old(verbs)
      ensures nouns.items == AppendIfAbsent(old(nouns.items), Strip(old(nounText)))
      ensures nounText == if nouns.items == old(nouns.items) then old(nounText) else Strip(old(nounText))
      ensures verbs != nouns ==> verbs.items == old(verbs.items)
      ensures verbText == old(verbText) && descriptionText == old(descriptionText)
    {
      var noun := Strip(nounText);
      if noun != [] && noun !in nouns.items {
        nouns.items := nouns.items + [noun];
        nounText := noun;
      }
    }

    /** `add_custom_verb` of the older copy of the panel: only the verb combo box is refilled. */
    method AddCustomVerbEarlier()
      modifies this, verbs
      ensures nouns == old(nouns) && verbs == old(verbs)
      ensures verbs.items == AppendIfAbsent(old(verbs.items), Strip(old(verbText)))
      ensures verbText == if verbs.items == old(verbs.items) then old(verbText) else Strip(old(verbText))
      ensures verbs != nouns ==> nouns.items == old(nouns.items)
      ensures nounText == old(nounText) && descriptionText == old(descriptionText)
    {
      var verb := Strip(verbText);
      if verb != [] && verb !in verbs.items {
        verbs.items := verbs.items + [verb];
        verbText := verb;
      }
    }

    /** `get_noun_verb_lists`: copies of both lists. */
    method GetNounVerbLists() returns (n: seq<string>, v: seq<string>)
      ensures n == nouns.items && v == verbs.items
    {
      n, v := nouns.items, verbs.items;
    }

    /**
     * `set_noun_verb_lists`: the panel keeps the caller's list objects
     * themselves, so later additions through the panel show up in the
     * caller's lists; both combo boxes are refilled and show no text (their
     * placeholders).
     */
    method SetNounVerbLists(n: TermList, v: TermList)
      modifies this
      ensures nouns == n && verbs == v
      ensures nounText == Refilled && verbText == Refilled
      ensures descriptionText == old(descriptionText)
      ensures startText == old(startText) && endText == old(endText) && durationSec == old(durationSec)
    {
      nouns, verbs := n, v;
      nounText := Refilled;
      verbText := Refilled;
    }

    /** `quick_select_tag` for a number from 1 to 9 (the shortcut keys). */
    method QuickSelectTag(num: int)
      requires 1 <= num <= 9
      modifies this
      ensures (nounText, verbText) == QuickSelect(old(nounText), old(verbText), nouns.items, verbs.items, num)
      ensures nouns == old(nouns) && verbs == old(verbs) && descriptionText == old(descriptionText)
    {
      if Strip(nounText) == [] {
        if num <= |nouns.items| {
          nounText := nouns.items[num - 1];
        }
      } else {
        if num <= |verbs.items| {
          verbText := verbs.items[num - 1];
        }
      }
    }
  }

  // ---------------------------------------------------------------------------
  // The tag manager dialog's actions on one term list. `row` is the selected
  // row of the dialog's list widget, -1 when nothing is selected.

  /**
   * `add_tag_in_manager`: `input` is the dialog's text, `None` when the dialog
   * is cancelled; a non-empty input is stripped and appended when it is
   * non-empty and new.
   */
  method AddTagInManager(list: TermList, input: Option<string>)
    modifies list
    ensures list.items == if input.Some? then AppendIfAbsent(old(list.items), Strip(input.value)) else old(list.items)
    ensures Distinct(old(list.items)) ==> Distinct(list.items)
  {
    if input.Some? && input.value != [] {
      var tag := Strip(input.value);
      if Distinct(list.items) {
        AppendIfAbsentKeepsDistinct(list.items, tag);
      }
      if tag != [] && tag !in list.items {
        list.items := list.items + [tag];
      }
    } else if input.Some? {
      StripEmptyIff(input.value);
    }
  }

  /**
   * `delete_tag_in_manager`: with a row selected and the deletion confirmed,
   * the first occurrence of the selected term is removed.
   */
  method DeleteTagInManager(list: TermList, row: int, confirmed: bool)
    requires -1 <= row < |list.items|
    modifies list
    ensures row >= 0 && confirmed ==> list.items == RemoveFirst(old(list.items), old(list.items)[row]).value
    ensures !(row >= 0 && confirmed) ==> list.items == old(list.items)
    ensures row >= 0 && confirmed && Distinct(old(list.items)) ==>
      Distinct(list.items) && old(list.items)[row] !in list.items
  {
    if row >= 0 && confirmed {
      var tag := list.items[row];
      if Distinct(list.items) {
        RemoveFirstFromDistinct(list.items, tag);
      }
      list.items := RemoveFirst(list.items, tag).value;
    }
  }

  /** `move_tag_up`. */
  method MoveTagUp(list: TermList, row: int)
    requires -1 <= row < |list.items|
    modifies list
    ensures list.items == MoveUp(old(list.items), row)
    ensures multiset(list.items) == multiset(old(list.items))
    ensures Distinct(old(list.items)) ==> Distinct(list.items)
  {
    MoveUpIsPermutation(list.items, row);
    if row > 0 {
      list.items := Swap(list.items, row, row - 1);
    }
  }

  /** `move_tag_down`, with nothing happening when no row is selected (see `MoveDownAsWritten`). */
  method MoveTagDown(list: TermList, row: int)
    requires -1 <= row < |list.items|
    modifies list
    ensures list.items == MoveDown(old(list.items), row)
    ensures multiset(list.items) == multiset(old(list.items))
    ensures Distinct(old(list.items)) ==> Distinct(list.items)
  {
    MoveDownIsPermutation(list.items, row);
    if 0 <= row < |list.items| - 1 {
      list.items := Swap(list.items, row, row + 1);
    }
  }
}
