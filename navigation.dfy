/**
 * The navigation state machine of the browser as a value: `State` with its
 * base path, its window of two panes and the index of the active pane, and
 * every query and transition of `State` as a function of that value and of
 * the filesystem at the moment of the call.
 */
module Navigation {
  import opened Wrappers
  import opened Filesystem
  import opened DirListing
  import opened PathSearch
  import opened Panes

  /**
   * How the browser decides that an entry is a directory. The factored copy
   * of the code (`FileInfo::is_dir`) asks the filesystem each time; the
   * inline copy reads the `is_dir` field filled in at listing time.
   */
  datatype IsDirPolicy = LiveCheck | CachedAtListing

  /** The length of `flists: [FileList; 2]`. */
  const PaneCount: nat := 2

  /** The value of a `State`: `base_path`, `flists` and `selected_flist`. */
  datatype Window = Window(basePath: Path, panes: seq<Pane>, active: nat, policy: IsDirPolicy)

  /** Two panes, and an active index that is a valid index into them. */
  predicate WellShaped(w: Window) {
    |w.panes| == PaneCount && w.active < PaneCount
  }

  /**
   * `FileInfo::is_dir` (live) or the `is_dir` field (cached). The two agree
   * whenever the cached bit is still the filesystem's answer.
   */
  function EntryIsDir(policy: IsDirPolicy, f: FileInfo, fs: Fs): (r: bool)
    ensures policy == LiveCheck || f.isDir == IsDir(fs, f.path) ==> r == IsDir(fs, f.path)
    ensures policy == CachedAtListing ==> r == f.isDir
  {
    match policy
    case LiveCheck => IsDir(fs, f.path)
    case CachedAtListing => f.isDir
  }

  /** Both ways of asking agree on an entry as long as the filesystem is the one it was listed from. */
  lemma CachedAgreesWithLive(fs: Fs, dir: Path, f: FileInfo)
    requires f in Listing(fs, dir)
    ensures EntryIsDir(CachedAtListing, f, fs) == EntryIsDir(LiveCheck, f, fs)
  {
    ListedEntry(fs, dir, f);
  }

  /** What previews an entry: the listing of a directory, nothing for anything else. */
  function DirContents(policy: IsDirPolicy, f: FileInfo, fs: Fs): (r: seq<FileInfo>)
    ensures ChildrenOf(r, f.path)
    ensures EntryIsDir(policy, f, fs) ==> r == Listing(fs, f.path)
    ensures !EntryIsDir(policy, f, fs) ==> r == []
  {
    ListingChildren(fs, f.path);
    if EntryIsDir(policy, f, fs) then Listing(fs, f.path) else []
  }

  /** `State::current_list`: the active pane. */
  function CurrentList(w: Window): (r: Pane)
    requires WellShaped(w)
    ensures SelectedFileInList(w, w.active) == r.selected && FilesInList(w, w.active) == Some(r.files)
  {
    w.panes[w.active]
  }

  /** `State::space_to_right`: there is a pane right of the active one. */
  function SpaceToRight(w: Window): (r: bool)
    requires WellShaped(w)
    ensures r <==> w.active == 0
  {
    w.active < |w.panes| - 1
  }

  /** `State::selected_file_path`: the path of the entry under the active cursor. */
  function SelectedFilePath(w: Window): (r: Option<Path>)
    requires WellShaped(w)
    ensures r.Some? <==> GetSelectedFile(CurrentList(w)).Some?
    ensures r.Some? ==> r.value == GetSelectedFile(CurrentList(w)).value.path
  {
    match GetSelectedFile(CurrentList(w))
    case None => None
    case Some(f) => Some(f.path)
  }

  /** `State::selected_file_is_dir`: the entry under the active cursor is a directory. */
  function SelectedFileIsDir(w: Window, fs: Fs): (r: bool)
    requires WellShaped(w)
    ensures r ==> SelectedFilePath(w).Some?
    ensures r <==> GetSelectedFile(CurrentList(w)).Some? &&
                   EntryIsDir(w.policy, GetSelectedFile(CurrentList(w)).value, fs)
  {
    match GetSelectedFile(CurrentList(w))
    case None => false
    case Some(f) => EntryIsDir(w.policy, f, fs)
  }

  /**
   * `State::files_in_selected_dir`: the listing of the entry under the
   * active cursor when it is a directory, and nothing otherwise.
   */
  function FilesInSelectedDir(w: Window, fs: Fs): (r: seq<FileInfo>)
    requires WellShaped(w)
    ensures SelectedFileIsDir(w, fs) ==> r == Listing(fs, SelectedFilePath(w).value)
    ensures !SelectedFileIsDir(w, fs) ==> r == []
    ensures SelectedFilePath(w).Some? ==> ChildrenOf(r, SelectedFilePath(w).value)
  {
    match GetSelectedFile(CurrentList(w))
    case None => []
    case Some(f) => DirContents(w.policy, f, fs)
  }

  /** `State::selected_file_in_list`: the stored cursor of pane `list`; none for a pane that does not exist. */
  function SelectedFileInList(w: Window, list: nat): (r: Option<nat>)
    ensures list >= |w.panes| ==> r.None?
    ensures list < |w.panes| ==> r == w.panes[list].selected
  {
    if list < |w.panes| then w.panes[list].selected else None
  }

  /** `State::files_in_list`: the entries of pane `list`, if it exists. */
  function FilesInList(w: Window, list: nat): (r: Option<seq<FileInfo>>)
    ensures r.Some? <==> list < |w.panes|
    ensures r.Some? ==> r.value == w.panes[list].files
  {
    if list < |w.panes| then Some(w.panes[list].files) else None
  }

  /**
   * `State::refresh_files_to_right`: the pane right of the active one, if
   * any, becomes the preview of the active cursor, with no cursor of its own.
   */
  function RefreshFilesToRight(w: Window, fs: Fs): (r: Window)
    requires WellShaped(w)
    ensures WellShaped(r) && r.basePath == w.basePath && r.active == w.active && r.policy == w.policy
    ensures r.panes[w.active] == w.panes[w.active]
    ensures w.active == 0 ==> r.panes[1] == Pane(FilesInSelectedDir(w, fs), None)
    ensures w.active == 1 ==> r == w
  {
    if SpaceToRight(w) then
      w.(panes := w.panes[w.active + 1 := Pane(FilesInSelectedDir(w, fs), None)])
    else w
  }

  /**
   * `on_up` and `on_down` once the active pane's new cursor `sel` is known:
   * move the cursor, and refresh the pane to the right only if it moved.
   */
  function MoveCursor(w: Window, fs: Fs, sel: Option<nat>): (r: Window)
    requires WellShaped(w)
    ensures WellShaped(r) && r.basePath == w.basePath && r.active == w.active && r.policy == w.policy
    ensures r.panes[w.active] == CurrentList(w).(selected := sel)
    ensures sel != CurrentList(w).selected && w.active == 0 ==>
              r.panes[1] == Pane(FilesInSelectedDir(r, fs), None)
    ensures !(sel != CurrentList(w).selected && w.active == 0) ==>
              r.panes[1 - w.active] == w.panes[1 - w.active]
    ensures sel == CurrentList(w).selected ==> r == w
  {
    var moved := w.(panes := w.panes[w.active := CurrentList(w).(selected := sel)]);
    if sel != CurrentList(w).selected then RefreshFilesToRight(moved, fs) else moved
  }

  /**
   * `State::on_up`: the active cursor goes up one entry. With no cursor, or
   * on the first entry, nothing changes at all.
   */
  function OnUp(w: Window, fs: Fs): (r: Window)
    requires WellShaped(w)
    ensures WellShaped(r) && r.basePath == w.basePath && r.active == w.active && r.policy == w.policy
    ensures r.panes[w.active].files == CurrentList(w).files
    ensures CurrentList(w).selected.None? || CurrentList(w).selected == Some(0) ==> r == w
    ensures CurrentList(w).selected.Some? && CurrentList(w).selected.value > 0 ==>
              r.panes[w.active].selected == Some(CurrentList(w).selected.value - 1)
  {
    MoveCursor(w, fs, PrevSelection(CurrentList(w)))
  }

  /**
   * `State::on_down`: the active cursor goes down one entry. With no
   * cursor, or on the last entry, nothing changes at all.
   */
  function OnDown(w: Window, fs: Fs): (r: Window)
    requires WellShaped(w)
    ensures WellShaped(r) && r.basePath == w.basePath && r.active == w.active && r.policy == w.policy
    ensures r.panes[w.active].files == CurrentList(w).files
    ensures (CurrentList(w).selected.None? || CurrentList(w).selected.value + 1 == |CurrentList(w).files|) ==> r == w
    ensures CurrentList(w).selected.Some? && CurrentList(w).selected.value + 1 < |CurrentList(w).files| ==>
              r.panes[w.active].selected == Some(CurrentList(w).selected.value + 1)
  {
    MoveCursor(w, fs, NextSelection(CurrentList(w)))
  }

  /**
   * `State::on_left`. From the right pane: clear its cursor and activate the
   * left one. From the left pane at the root: nothing. From the left pane
   * elsewhere: the window moves out to the parent, whose listing becomes the
   * left pane, with its cursor on the directory just left as `lookup`
   * finds it; the old left pane, cursor cleared, becomes the right pane.
   * With `Bisection`, as the code is written, the cursor may stay unset
   * though the directory is listed; with `FirstMatch` it is unset only when
   * the directory is not in the listing.
   */
  function OnLeft(w: Window, fs: Fs, lookup: Lookup): (r: Window)
    requires WellShaped(w)
    ensures WellShaped(r) && r.policy == w.policy
    ensures w.active == 1 ==>
              r.active == 0 && r.basePath == w.basePath &&
              r.panes[0] == w.panes[0] && r.panes[1] == w.panes[1].(selected := None)
    ensures w.active == 0 && w.basePath == [] ==> r == w
    ensures w.active == 0 && w.basePath != [] ==>
              r.active == 0 && Parent(w.basePath) == Some(r.basePath) &&
              r.panes[1] == w.panes[0].(selected := None) &&
              r.panes[0].files == Listing(fs, r.basePath) &&
              (r.panes[0].selected.Some? ==>
                 r.panes[0].selected.value < |r.panes[0].files| &&
                 r.panes[0].files[r.panes[0].selected.value].path == w.basePath) &&
              (lookup == FirstMatch && r.panes[0].selected.None? ==>
                 forall i :: 0 <= i < |r.panes[0].files| ==> r.panes[0].files[i].path != w.basePath)
  {
    if w.active != 0 then
      w.(panes := w.panes[w.active := w.panes[w.active].(selected := None)], active := w.active - 1)
    else
      match Parent(w.basePath)
      case None => w
      case Some(parent) =>
        var files := Listing(fs, parent);
        Window(parent, [Pane(files, FindEntry(lookup, files, w.basePath)), w.panes[0].(selected := None)], w.active, w.policy)
  }

  /**
   * `State::on_right`; nothing happens unless the entry under the active
   * cursor is a directory. From the left pane: activate the right pane and
   * put its cursor on its first entry. From the right pane: the window moves
   * in, the right pane becoming the left one and the selected directory's
   * listing the right one, and the base path becomes that directory's
   * parent. The code unwraps that parent; here a directory without one
   * leaves the state as it is.
   */
  function OnRight(w: Window, fs: Fs): (r: Window)
    requires WellShaped(w)
    ensures WellShaped(r) && r.policy == w.policy
    ensures !SelectedFileIsDir(w, fs) ==> r == w
    ensures SelectedFileIsDir(w, fs) && w.active == 0 ==>
              r.active == 1 && r.basePath == w.basePath && r.panes[0] == w.panes[0] &&
              r.panes[1] == w.panes[1].(selected := FirstSelection(w.panes[1]))
    ensures SelectedFileIsDir(w, fs) && w.active == 1 && SelectedFilePath(w).value == [] ==> r == w
    ensures SelectedFileIsDir(w, fs) && w.active == 1 && SelectedFilePath(w).value != [] ==>
              var dir := SelectedFilePath(w).value;
              r.active == 1 && Parent(dir) == Some(r.basePath) &&
              r.panes[0] == w.panes[1] &&
              r.panes[1].files == Listing(fs, dir) &&
              (r.panes[1].selected.Some? <==> |r.panes[1].files| > 0) &&
              (r.panes[1].selected.Some? ==> r.panes[1].selected == Some(0))
  {
    if !SelectedFileIsDir(w, fs) then w
    else if SpaceToRight(w) then
      var next := w.active + 1;
      w.(active := next, panes := w.panes[next := w.panes[next].(selected := FirstSelection(w.panes[next]))])
    else
      match SelectedFilePath(w)
      case None => w
      case Some(dir) =>
        match Parent(dir)
        case None => w
        case Some(parent) =>
          var files := Listing(fs, dir);
          Window(parent, [w.panes[1], Pane(files, if |files| > 0 then Some(0) else None)], w.active, w.policy)
  }

  /**
   * `State::new` once the working directory `initPath` is known: the left
   * pane lists it with the cursor on its first entry, the right pane
   * previews that entry, the left pane is active.
   */
  function Init(fs: Fs, initPath: Path, policy: IsDirPolicy): (r: Window)
    ensures WellShaped(r) && r.active == 0 && r.basePath == initPath && r.policy == policy
    ensures r.panes[0].files == Listing(fs, initPath)
    ensures r.panes[0].selected.Some? <==> |r.panes[0].files| > 0
    ensures r.panes[0].selected.Some? ==> r.panes[0].selected == Some(0)
    ensures r.panes[1] == Pane(FilesInSelectedDir(r, fs), None)
  {
    var files := Listing(fs, initPath);
    var w := Window(initPath, [Pane(files, if |files| > 0 then Some(0) else None), EmptyPane], 0, policy);
    w.(panes := w.panes[1 := Pane(FilesInSelectedDir(w, fs), None)])
  }

  /**
   * What every reachable state satisfies, whatever the filesystem does
   * between calls: the active index is 0 or 1; every cursor is in range;
   * the left pane lists entries of the base path; the right pane lists
   * entries of the directory under the left cursor; the right pane has no
   * cursor while the left is active; the left pane keeps its cursor while
   * the right is active.
   */
  ghost predicate Inv(w: Window) {
    WellShaped(w) &&
    CursorInBounds(w.panes[0]) && CursorInBounds(w.panes[1]) &&
    ChildrenOf(w.panes[0].files, w.basePath) &&
    (w.panes[0].selected.Some? ==> ChildrenOf(w.panes[1].files, w.panes[0].files[w.panes[0].selected.value].path)) &&
    (w.active == 0 ==> w.panes[1].selected.None?) &&
    (w.active == 1 ==> w.panes[0].selected.Some?)
  }

  lemma InitInv(fs: Fs, initPath: Path, policy: IsDirPolicy)
    ensures Inv(Init(fs, initPath, policy))
  {
    ListingChildren(fs, initPath);
  }

  lemma OnUpInv(w: Window, fs: Fs)
    requires Inv(w)
    ensures Inv(OnUp(w, fs))
  {
    SelectPrevBounds(CurrentList(w));
  }

  lemma OnDownInv(w: Window, fs: Fs)
    requires Inv(w)
    ensures Inv(OnDown(w, fs))
  {
    SelectNextBounds(CurrentList(w));
  }

  lemma OnLeftInv(w: Window, fs: Fs, lookup: Lookup)
    requires Inv(w)
    ensures Inv(OnLeft(w, fs, lookup))
  {
    if w.active == 0 && w.basePath != [] {
      ListingChildren(fs, OnLeft(w, fs, lookup).basePath);
    }
  }

  lemma OnRightInv(w: Window, fs: Fs)
    requires Inv(w)
    ensures Inv(OnRight(w, fs))
  {
    if SelectedFileIsDir(w, fs) && w.active == 1 {
      ListingChildren(fs, SelectedFilePath(w).value);
    }
  }

  /**
   * The `unwrap` of the inward shift never fails on a reachable state: the
   * selected directory of the right pane is an entry of the directory under
   * the left cursor, which is therefore its parent.
   */
  lemma InwardShiftHasParent(w: Window, fs: Fs)
    requires Inv(w) && w.active == 1 && SelectedFileIsDir(w, fs)
    ensures Parent(SelectedFilePath(w).value) == Some(w.panes[0].files[w.panes[0].selected.value].path)
  {
  }

  /** A cursor the renderer reads always indexes an entry of the pane it reads. */
  lemma SelectedFileInListInRange(w: Window, list: nat)
    requires Inv(w) && SelectedFileInList(w, list).Some?
    ensures FilesInList(w, list).Some?
    ensures SelectedFileInList(w, list).value < |FilesInList(w, list).value|
  {
  }

  /**
   * The live-preview property, for a filesystem that stays as it is: the
   * left pane is the listing of the base path, and when the left cursor is
   * on an entry the right pane is that entry's preview. (With the left
   * cursor unset, after a parent listing that no longer holds the directory
   * just left, the right pane keeps the old listing.)
   */
  ghost predicate Coherent(w: Window, fs: Fs) {
    WellShaped(w) &&
    w.panes[0].files == Listing(fs, w.basePath) &&
    (GetSelectedFile(w.panes[0]).Some? ==>
       w.panes[1].files == DirContents(w.policy, GetSelectedFile(w.panes[0]).value, fs))
  }

  lemma InitCoherent(fs: Fs, initPath: Path, policy: IsDirPolicy)
    ensures Coherent(Init(fs, initPath, policy), fs)
  {
  }

  lemma OnUpCoherent(w: Window, fs: Fs)
    requires Inv(w) && Coherent(w, fs)
    ensures Coherent(OnUp(w, fs), fs)
  {
  }

  lemma OnDownCoherent(w: Window, fs: Fs)
    requires Inv(w) && Coherent(w, fs)
    ensures Coherent(OnDown(w, fs), fs)
  {
  }

  /**
   * Moving out keeps the preview: the new left cursor is on the directory
   * just left, and the right pane is that directory's listing. This needs a
   * well-formed filesystem, where what is not a directory lists as empty.
   */
  lemma OnLeftCoherent(w: Window, fs: Fs, lookup: Lookup)
    requires Inv(w) && Coherent(w, fs) && WellFormed(fs)
    ensures Coherent(OnLeft(w, fs, lookup), fs)
  {
    var r := OnLeft(w, fs, lookup);
    if w.active == 0 && w.basePath != [] && GetSelectedFile(r.panes[0]).Some? {
      var f := GetSelectedFile(r.panes[0]).value;
      assert f in Listing(fs, r.basePath);
      ListedEntry(fs, r.basePath, f);
      if !IsDir(fs, w.basePath) {
        ListingNotDir(fs, w.basePath);
      }
    }
  }

  /**
   * Moving in keeps the preview: the right pane, which becomes the left
   * one, is the listing of the new base path, and the new right pane is
   * the listing of the directory under the new left cursor.
   */
  lemma OnRightCoherent(w: Window, fs: Fs)
    requires Inv(w) && Coherent(w, fs)
    ensures Coherent(OnRight(w, fs), fs)
  {
    if SelectedFileIsDir(w, fs) && w.active == 1 {
      var f0 := GetSelectedFile(w.panes[0]).value;
      assert w.panes[1].files != [];
      assert w.panes[1].files == Listing(fs, f0.path);
      InwardShiftHasParent(w, fs);
    }
  }

  /**
   * Right then Left from the left pane, onto a directory, gives back the
   * state exactly, whatever the filesystem did in between.
   */
  lemma RightThenLeft(w: Window, fs: Fs, fs': Fs, lookup: Lookup)
    requires Inv(w) && w.active == 0 && SelectedFileIsDir(w, fs)
    ensures OnLeft(OnRight(w, fs), fs', lookup) == w
  {
    var r := OnLeft(OnRight(w, fs), fs', lookup);
    assert r.panes == w.panes;
  }

  /**
   * Left then Right from the right pane, when the entry under the left
   * cursor is still a directory: the right pane is active again with the
   * same entries and the same base path, but its cursor is back on the
   * first entry, since Left cleared it; a right pane that is empty (an
   * empty directory) comes back exactly, with no cursor.
   */
  lemma LeftThenRight(w: Window, fs: Fs, lookup: Lookup)
    requires Inv(w) && w.active == 1 && GetSelectedFile(w.panes[0]).Some?
    requires EntryIsDir(w.policy, GetSelectedFile(w.panes[0]).value, fs)
    ensures OnRight(OnLeft(w, fs, lookup), fs) ==
      w.(panes := [w.panes[0], w.panes[1].(selected := if w.panes[1].files == [] then None else Some(0))])
  {
    var l := OnLeft(w, fs, lookup);
    assert SelectedFileIsDir(l, fs);
    var r := OnRight(l, fs);
    assert r.panes == [w.panes[0], w.panes[1].(selected := if w.panes[1].files == [] then None else Some(0))];
  }

  /**
   * The other two round trips do not come back. From the left pane away
   * from the root, Left moves out; if the cursor lands on a directory,
   * Right then only activates the right pane, one level above where the
   * window started.
   */
  lemma LeftThenRightFromLeftPane(w: Window, fs: Fs, lookup: Lookup)
    requires Inv(w) && w.active == 0 && w.basePath != []
    requires SelectedFileIsDir(OnLeft(w, fs, lookup), fs)
    ensures var r := OnRight(OnLeft(w, fs, lookup), fs);
      r.active == 1 && Parent(w.basePath) == Some(r.basePath) && r.basePath != w.basePath
  {
    var r := OnRight(OnLeft(w, fs, lookup), fs);
    assert |r.basePath| < |w.basePath|;
  }

  /**
   * From the right pane onto a directory, Right moves in and Left then only
   * activates the left pane, whose base path is now the directory that was
   * under the left cursor, one level below where the window started.
   */
  lemma RightThenLeftFromRightPane(w: Window, fs: Fs, fs': Fs, lookup: Lookup)
    requires Inv(w) && w.active == 1 && SelectedFileIsDir(w, fs)
    ensures var r := OnLeft(OnRight(w, fs), fs', lookup);
      r.active == 0 && r.basePath == w.panes[0].files[w.panes[0].selected.value].path &&
      r.basePath != w.basePath
  {
    InwardShiftHasParent(w, fs);
    var left := w.panes[0].files[w.panes[0].selected.value].path;
    assert ChildOf(left, w.basePath) && |left| == |w.basePath| + 1;
  }
}
