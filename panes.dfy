/**
 * One pane of the browser: `FileList`, an ordered list of entries and an
 * optional cursor into it.
 */
module Panes {
  import opened Wrappers
  import opened DirListing

  /** The value of a `FileList`: its entries and its cursor. */
  datatype Pane = Pane(files: seq<FileInfo>, selected: Option<nat>)

  /** `FileList::default()`. */
  const EmptyPane := Pane([], None)

  /** The cursor, when present, indexes an entry. */
  predicate CursorInBounds(p: Pane) {
    p.selected.Some? ==> p.selected.value < |p.files|
  }

  function Min(a: nat, b: nat): nat {
    if a <= b then a else b
  }

  /** `usize::saturating_sub`: subtraction that stops at zero. */
  function SaturatingSub(a: nat, b: nat): (r: nat)
    ensures r <= a
    ensures b <= a ==> r + b == a
    ensures b > a ==> r == 0
  {
    if a >= b then a - b else 0
  }

  /** `FileList::get_selected_file`: the entry under the cursor, if the cursor is set and in range (`Vec::get`). */
  function GetSelectedFile(p: Pane): (r: Option<FileInfo>)
    ensures r.Some? <==> p.selected.Some? && p.selected.value < |p.files|
    ensures r.Some? ==> r.value == p.files[p.selected.value]
    ensures CursorInBounds(p) ==> (r.Some? <==> p.selected.Some?)
  {
    match p.selected
    case None => None
    case Some(i) => if i < |p.files| then Some(p.files[i]) else None
  }

  /**
   * The cursor `FileList::select_first` leaves: the first entry when there
   * is one, otherwise the cursor as it was.
   */
  function FirstSelection(p: Pane): (r: Option<nat>)
    ensures |p.files| > 0 ==> r == Some(0)
    ensures |p.files| == 0 ==> r == p.selected
  {
    if |p.files| > 0 then Some(0) else p.selected
  }

  /**
   * The cursor `FileList::select_next` leaves: `min(i + 1, len - 1)` with
   * saturating subtraction.
   */
  function NextSelection(p: Pane): (r: Option<nat>)
    ensures p.selected.None? ==> r.None?
    ensures p.selected.Some? && p.selected.value + 1 < |p.files| ==> r == Some(p.selected.value + 1)
    ensures p.selected.Some? && p.selected.value + 1 >= |p.files| && |p.files| > 0 ==> r == Some(|p.files| - 1)
    ensures p.selected.Some? && |p.files| == 0 ==> r == Some(0)
  {
    match p.selected
    case None => None
    case Some(i) => Some(Min(i + 1, SaturatingSub(|p.files|, 1)))
  }

  /** The cursor `FileList::select_prev` leaves: `i - 1`, saturating at zero. */
  function PrevSelection(p: Pane): (r: Option<nat>)
    ensures p.selected.None? ==> r.None?
    ensures p.selected.Some? && p.selected.value > 0 ==> r == Some(p.selected.value - 1)
    ensures p.selected == Some(0) ==> r == Some(0)
  {
    match p.selected
    case None => None
    case Some(i) => Some(SaturatingSub(i, 1))
  }

  /**
   * `select_next` keeps an in-range cursor in range (and pulls an
   * out-of-range one back to the last entry), and reports a move exactly
   * when the cursor was not already on the last entry.
   */
  lemma SelectNextBounds(p: Pane)
    ensures CursorInBounds(p) ==> CursorInBounds(p.(selected := NextSelection(p)))
    ensures p.selected.Some? && |p.files| > 0 ==> NextSelection(p).value < |p.files|
    ensures CursorInBounds(p) ==> (NextSelection(p) != p.selected <==> p.selected.Some? && p.selected.value + 1 < |p.files|)
  {
  }

  /**
   * `select_prev` keeps an in-range cursor in range, and reports a move
   * exactly when the cursor was not on the first entry.
   */
  lemma SelectPrevBounds(p: Pane)
    ensures CursorInBounds(p) ==> CursorInBounds(p.(selected := PrevSelection(p)))
    ensures PrevSelection(p) != p.selected <==> p.selected.Some? && p.selected.value > 0
  {
  }

  /** `select_first` on a pane leaves its cursor in range when it was. */
  lemma SelectFirstBounds(p: Pane)
    ensures CursorInBounds(p) ==> CursorInBounds(p.(selected := FirstSelection(p)))
    ensures |p.files| > 0 ==> GetSelectedFile(p.(selected := FirstSelection(p))) == Some(p.files[0])
  {
  }

  /** `FileList`, whose cursor moves in place. */
  class FileList {
    var files: seq<FileInfo>
    var selectedFile: Option<nat>

    function Value(): Pane
      reads this
    {
      Pane(files, selectedFile)
    }

    /** `FileList { files, selected_file }`. */
    constructor (files: seq<FileInfo>, selectedFile: Option<nat>)
      ensures Value() == Pane(files, selectedFile)
    {
      this.files := files;
      this.selectedFile := selectedFile;
    }

    /** `FileList::default()`. */
    constructor Default()
      ensures Value() == EmptyPane
    {
      files := [];
      selectedFile := None;
    }

    /** Overwrites the whole value, as `flists[i] = FileList { .. }` does. */
    method Replace(files: seq<FileInfo>, selectedFile: Option<nat>)
      modifies this
      ensures Value() == Pane(files, selectedFile)
    {
      this.files := files;
      this.selectedFile := selectedFile;
    }

    method UnselectFile()
      modifies this
      ensures Value() == old(Value()).(selected := None)
    {
      selectedFile := None;
    }

    method SelectFirst()
      modifies this
      ensures Value() == old(Value()).(selected := FirstSelection(old(Value())))
    {
      if |files| > 0 {
        selectedFile := Some(0);
      }
    }

    /** Moves the cursor one entry down; `changed` says whether it moved. */
    method SelectNext() returns (changed: bool)
      modifies this
      ensures Value() == old(Value()).(selected := NextSelection(old(Value())))
      ensures changed <==> selectedFile != old(selectedFile)
    {
      var prev := selectedFile;
      if selectedFile.Some? {
        selectedFile := Some(Min(selectedFile.value + 1, SaturatingSub(|files|, 1)));
      }
      changed := prev != selectedFile;
    }

    /** Moves the cursor one entry up; `changed` says whether it moved. */
    method SelectPrev() returns (changed: bool)
      modifies this
      ensures Value() == old(Value()).(selected := PrevSelection(old(Value())))
      ensures changed <==> selectedFile != old(selectedFile)
    {
      var prev := selectedFile;
      if selectedFile.Some? {
        selectedFile := Some(SaturatingSub(selectedFile.value, 1));
      }
      changed := prev != selectedFile;
    }
  }
}
