/**
 * The ordered, duplicate-free term lists of the annotation tool: the noun and
 * verb lists of the desktop panel and the tag list of the data manager. Each
 * edit the tool makes to such a list is stated here as a function on
 * sequences; the classes that own the lists are proved against them.
 */
module Vocabulary {
  import opened Wrappers
  import opened Text

  predicate Distinct<T(==)>(s: seq<T>) {
    forall i, j :: 0 <= i < j < |s| ==> s[i] != s[j]
  }

  /**
   * The guard every "add a term" action uses: the (already stripped, where the
   * caller strips) term is appended exactly when it is non-empty and not yet
   * in the list.
   */
  function AppendIfAbsent(s: seq<string>, t: string): (r: seq<string>)
    ensures t != [] ==> t in r
    ensures |r| == |s| || |r| == |s| + 1
    ensures r[..|s|] == s
  {
    if t != [] && t !in s then s + [t] else s
  }

  /** Appending keeps the list duplicate-free and adds at most the new term. */
  lemma AppendIfAbsentKeepsDistinct(s: seq<string>, t: string)
    requires Distinct(s)
    ensures Distinct(AppendIfAbsent(s, t))
    ensures multiset(AppendIfAbsent(s, t)) == if t != [] && t !in s then multiset(s) + multiset{t} else multiset(s)
  {
  }

  /** Adding the same term twice is adding it once. */
  lemma AppendIfAbsentIdempotent(s: seq<string>, t: string)
    ensures AppendIfAbsent(AppendIfAbsent(s, t), t) == AppendIfAbsent(s, t)
  {
  }

  /** The first position of `x` in `s`. */
  function IndexOf<T(==)>(s: seq<T>, x: T): (i: nat)
    requires x in s
    ensures i < |s| && s[i] == x && x !in s[..i]
  {
    if s[0] == x then 0
    else
      var k := IndexOf(s[1..], x);
      assert s[1..][..k] == s[1..k + 1];
      k + 1
  }

  /**
   * Python's `list.remove(x)`: drops the first occurrence of `x`; a value that
   * is not in the list is the `ValueError` case, `None` here.
   */
  function RemoveFirst(s: seq<string>, x: string): (r: Option<seq<string>>)
    ensures r.Some? <==> x in s
    ensures r.Some? ==> |r.value| == |s| - 1
  {
    if x in s then
      var i := IndexOf(s, x);
      Some(s[..i] + s[i + 1..])
    else None
  }

  /** Removing a term from a duplicate-free list removes it completely and keeps every other term, in order. */
  lemma RemoveFirstFromDistinct(s: seq<string>, x: string)
    requires Distinct(s) && x in s
    ensures var r := RemoveFirst(s, x).value;
      Distinct(r) && x !in r && multiset(r) == multiset(s) - multiset{x}
      && (forall y :: y in s && y != x ==> y in r)
  {
    var i := IndexOf(s, x);
    RemoveAtKeepsDistinct(s, i);
    RemoveAtCount(s, i);
  }

  /** Dropping position `i` of a duplicate-free list leaves a duplicate-free list without `s[i]`. */
  lemma RemoveAtKeepsDistinct<T>(s: seq<T>, i: nat)
    requires i < |s| && Distinct(s)
    ensures Distinct(s[..i] + s[i + 1..]) && s[i] !in s[..i] + s[i + 1..]
  {
    var r := s[..i] + s[i + 1..];
    forall p, q | 0 <= p < q < |r| ensures r[p] != r[q] {
      var p', q' := if p < i then p else p + 1, if q < i then q else q + 1;
      assert r[p] == s[p'] && r[q] == s[q'];
    }
    forall k | 0 <= k < |r| ensures r[k] != s[i] {
      if k < i { assert r[k] == s[k]; } else { assert r[k] == s[k + 1]; }
    }
  }

  /** Dropping position `i` takes exactly one `s[i]` out of the multiset and keeps every other element. */
  lemma RemoveAtCount<T>(s: seq<T>, i: nat)
    requires i < |s|
    ensures multiset(s[..i] + s[i + 1..]) == multiset(s) - multiset{s[i]}
    ensures forall y :: y in s && y != s[i] ==> y in s[..i] + s[i + 1..]
  {
    assert s == s[..i] + [s[i]] + s[i + 1..];
    assert multiset(s) == multiset(s[..i]) + multiset{s[i]} + multiset(s[i + 1..]);
    forall y | y in s && y != s[i] ensures y in s[..i] + s[i + 1..] {
      assert y in multiset(s);
    }
  }

  /** `s` with the elements at positions `i` and `j` exchanged. */
  function Swap<T>(s: seq<T>, i: nat, j: nat): (r: seq<T>)
    requires i < |s| && j < |s|
    ensures |r| == |s| && r[i] == s[j] && r[j] == s[i]
    ensures forall k :: 0 <= k < |s| && k != i && k != j ==> r[k] == s[k]
  {
    s[i := s[j]][j := s[i]]
  }

  lemma SwapIsPermutation<T>(s: seq<T>, i: nat, j: nat)
    requires i < |s| && j < |s|
    ensures multiset(Swap(s, i, j)) == multiset(s)
  {
    if i != j {
      var t := s[i := s[j]];
      assert multiset(t) == multiset(s) - multiset{s[i]} + multiset{s[j]};
    }
  }

  lemma SwapKeepsDistinct<T>(s: seq<T>, i: nat, j: nat)
    requires i < |s| && j < |s|
    ensures Distinct(s) ==> Distinct(Swap(s, i, j))
  {
    if Distinct(s) {
      var r := Swap(s, i, j);
      forall p, q | 0 <= p < q < |r| ensures r[p] != r[q] {
        var p' := if p == i then j else if p == j then i else p;
        var q' := if q == i then j else if q == j then i else q;
        assert r[p] == s[p'] && r[q] == s[q'] && p' != q';
      }
    }
  }

  /**
   * "Move up" on the selected row `row` (-1 when nothing is selected): the row
   * changes places with the one above it when there is one.
   */
  function MoveUp<T>(s: seq<T>, row: int): (r: seq<T>)
    requires -1 <= row < |s|
    ensures |r| == |s|
    ensures row > 0 ==> r[row - 1] == s[row] && r[row] == s[row - 1]
  {
    if row > 0 then Swap(s, row, row - 1) else s
  }

  /**
   * "Move down" with the guard it evidently intends: the selected row changes
   * places with the one below it when there is one, and nothing happens when
   * no row is selected.
   */
  function MoveDown<T>(s: seq<T>, row: int): (r: seq<T>)
    requires -1 <= row < |s|
    ensures |r| == |s|
    ensures 0 <= row < |s| - 1 ==> r[row + 1] == s[row] && r[row] == s[row + 1]
    ensures row == -1 ==> r == s
  {
    if 0 <= row < |s| - 1 then Swap(s, row, row + 1) else s
  }

  /** Python reads a negative index from the end of the list. */
  function PyIndex(n: nat, i: int): int {
    if i < 0 then i + n else i
  }

  /**
   * "Move down" as the panel writes it: the only guard is `row < count - 1`,
   * so row -1 passes, and `tag_list[-1]` then names the last element.
   */
  function MoveDownAsWritten<T>(s: seq<T>, row: int): (r: seq<T>)
    requires -1 <= row < |s|
    ensures |r| == |s|
  {
    if row < |s| - 1 then Swap(s, PyIndex(|s|, row), row + 1) else s
  }

  /** With no row selected, the as-written "move down" exchanges the first and the last term. */
  lemma MoveDownAsWrittenWithoutSelection()
    ensures MoveDownAsWritten(["a", "b", "c"], -1) == ["c", "b", "a"]
    ensures MoveDown(["a", "b", "c"], -1) == ["a", "b", "c"]
  {
  }

  /** For a selected row the two versions agree. */
  lemma MoveDownAgreesOnSelection<T>(s: seq<T>, row: int)
    requires 0 <= row < |s|
    ensures MoveDownAsWritten(s, row) == MoveDown(s, row)
  {
  }

  /** "Move up" reorders the list and nothing else: the terms and their number are kept. */
  lemma MoveUpIsPermutation<T>(s: seq<T>, row: int)
    requires -1 <= row < |s|
    ensures multiset(MoveUp(s, row)) == multiset(s)
    ensures Distinct(s) ==> Distinct(MoveUp(s, row))
  {
    if row > 0 {
      assert MoveUp(s, row) == Swap(s, row, row - 1);
      SwapIsPermutation(s, row, row - 1);
      SwapKeepsDistinct(s, row, row - 1);
    } else {
      assert MoveUp(s, row) == s;
    }
  }

  /** So does "move down". */
  lemma MoveDownIsPermutation<T>(s: seq<T>, row: int)
    requires -1 <= row < |s|
    ensures multiset(MoveDown(s, row)) == multiset(s)
    ensures Distinct(s) ==> Distinct(MoveDown(s, row))
  {
    if 0 <= row < |s| - 1 {
      assert MoveDown(s, row) == Swap(s, row, row + 1);
      SwapIsPermutation(s, row, row + 1);
      SwapKeepsDistinct(s, row, row + 1);
    } else {
      assert MoveDown(s, row) == s;
    }
  }

  /** Moving a row up and then moving it back down restores the list. */
  lemma MoveUpThenDown<T>(s: seq<T>, row: int)
    requires 0 < row < |s|
    ensures MoveDown(MoveUp(s, row), row - 1) == s
  {
  }
}
