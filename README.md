# naf: the navigation core, in Dafny

naf is a terminal file browser that shows the filesystem as "Miller
columns": a window of two panes, where the left pane lists a directory and
the right pane previews the entry under the left cursor. This project models
the browser's navigation state machine and proves properties about it:

- `FileList`, one pane: its entries and an optional cursor, with the
  saturating cursor moves `select_next`, `select_prev` and `select_first`;
- `State`: the base path that anchors the left pane, the two panes and the
  index of the active pane, with the key handlers `on_up`, `on_down`,
  `on_left` and `on_right`;
- `read_file_list`: listing a directory into entries sorted by name.

The repository holds this logic twice. `src/app.rs` is the factored copy,
which asks the filesystem whether an entry is a directory each time it needs
to know. `src/main.rs` (lines 74-305) is the older inline copy, which stores
that answer in the entry when it lists it. The model has both: the
`IsDirPolicy` of a state is `LiveCheck` (app.rs) or `CachedAtListing`
(main.rs). The navigation operations (the cursor moves, the four key
handlers, the refresh of the right pane, the listing) have the same
branches in both copies. The query `files_in_list` and the accessor
`base_path()` exist only in `src/app.rs`. The renderer in `src/main.rs`
reads `state.flists[thing].files` directly, which is what
`Navigation.FilesInList` returns.

The filesystem is a value `Filesystem.Fs` that is passed to every
operation: the directories `read_dir` can open, what it yields for each (a
name, or an error for an entry it cannot read), and the set of paths
`is_dir` says yes to. A path is a sequence of components, and `[]` is the
root. Since each call takes its own filesystem, the filesystem may change
between key presses. Where a property needs the filesystem to stay the same,
the lemma says so.

Layout, one module per file:

- `wrappers.dfy` (`Wrappers`): `Option`.
- `lexical.dfy` (`Lexical`): byte-order comparison of names, and
  component-wise comparison of paths.
- `filesystem.dfy` (`Filesystem`): the filesystem oracle, and `Parent`.
- `listing.dfy` (`DirListing`): `FileInfo`, `FileInfo::from`, the collect
  step, the stable sort by name (as a function, and as an in-place insertion
  sort on an array), and `read_file_list`.
- `search.dfy` (`PathSearch`): the binary search `on_left` uses, and the
  corrected search (see Findings).
- `panes.dfy` (`Panes`): the `Pane` value, the cursor functions, and the
  class `FileList`.
- `navigation.dfy` (`Navigation`): `State` as a value `Window`, with every
  query and transition as a function on it. It also has the invariant
  `Inv`, which holds whatever the filesystem does, and the preview property
  `Coherent`, which holds on a filesystem that stays the same. It has the
  lemmas that each transition keeps both, and the round-trip laws.
- `browser.dfy` (`Browser`): the class `State`. Its methods update the
  panes and fields in place. Each one is proved to produce the
  `Navigation` function's result and to keep `Inv`.
- `scenarios.dfy` (`Scenarios`): worked examples on small filesystems.

Behaviour of the code worth knowing. The model follows the code in each of
these:

- `select_first` on an empty pane leaves the cursor as it was. It does not
  clear it.
- `on_left` from the right pane clears the right pane's cursor. So after
  Left and then Right, the cursor is back on the first entry, not where it
  was. Over an empty directory it comes back unset, as it was
  (`Navigation.LeftThenRight`).
- `selected_file_in_list` returns every pane's stored cursor. It does not
  hide the cursor of a pane to the right of the active one.
- There is no paging: the key loop handles only `q`, Up, Down, Left and
  Right.
- Left and Right undo each other in only two of the four cases. From the
  left pane, Right then Left gives back the state (`Navigation.RightThenLeft`).
  From the right pane, Left then Right gives it back with the cursor reset
  to the first entry, or still unset over an empty directory
  (`Navigation.LeftThenRight`). Both hold whichever search `on_left` uses.
  Left then Right from the left pane, and
  Right then Left from the right pane, leave the window one level up or
  one level down, with the other pane active
  (`Navigation.LeftThenRightFromLeftPane`,
  `Navigation.RightThenLeftFromRightPane`, `Scenarios.LeftThenRightFromBanana`).
- `on_left` looks up the directory it came from with a binary search by
  path. The listing is sorted by name, not by path, so the search can miss
  (see Findings). `Navigation.OnLeft` takes the search as a parameter:
  `Bisection` for the code as written, `FirstMatch` for the search it
  needs. The invariant and the preview property are proved for both. The
  class `State` holds the search as a constant, set when it is created,
  just as it holds the policy.
- When `on_left` cannot find the directory it came from in the parent's
  listing, the left cursor is unset, but the right pane keeps the old
  listing. It is not emptied. `Coherent` therefore says nothing about the
  right pane while the left cursor is unset.

## Model

| member | source | states |
|---|---|---|
| `Filesystem.ReadDir` | src/app.rs:215 | `read_dir` succeeds exactly on the paths the filesystem can list |
| `Filesystem.Parent` | src/app.rs:148 | the root has no parent; any other path is its parent plus its last component |
| `Lexical.CompareStrings` | src/app.rs:221 | the name comparison reports equality exactly for equal strings |
| `Lexical.CompareStringsFlip` | src/app.rs:221 | swapping the operands flips the comparison (antisymmetry) |
| `Lexical.StrLeTotal` | src/app.rs:221 | of any two names, one sorts at or before the other |
| `Lexical.StrLeTransitive` | src/app.rs:221 | the name order is transitive |
| `Lexical.ComparePaths` | src/app.rs:155 | the path comparison reports equality exactly for equal paths |
| `DirListing.MakeEntry` | src/app.rs:78-89 | an entry's path is the directory plus its name; the name gets `/` appended exactly when `is_dir` holds; the cached bit is that answer |
| `DirListing.Collect` | src/app.rs:215-220 | the collected entries are exactly the readable raw entries, turned into `FileInfo`s; unreadable ones are dropped |
| `DirListing.Insert` | src/app.rs:221 | one step of the stable insertion sort adds exactly one entry; where it goes is `InsertAt`, and what it keeps is `InsertPermutes` and `InsertSorted` |
| `DirListing.SortByName` | src/app.rs:221 | `sort_by` on names keeps the length; that it sorts and permutes is `SortByNameSorted` and `SortByNamePermutes` |
| `DirListing.InsertPermutes` | src/app.rs:221 | one insertion step adds its element and loses nothing |
| `DirListing.InsertSorted` | src/app.rs:221 | inserting into a name-sorted sequence keeps it sorted |
| `DirListing.SortByNameSorted` | src/app.rs:221 | the sort by name yields a name-sorted sequence |
| `DirListing.SortByNamePermutes` | src/app.rs:221 | the sort by name is a permutation of its input |
| `DirListing.InsertAt` | src/app.rs:221 | an insertion places the element right after the last entry whose name is at most its own |
| `DirListing.InsertInPlace` | src/app.rs:221 | the in-place inner loop turns `a[..i+1]` into the insertion of `a[i]` into `a[..i]`, and leaves the rest alone |
| `DirListing.SortInPlace` | src/app.rs:221 | the in-place `sort_by` leaves the array equal to the sort by name of its old contents |
| `DirListing.Listing` | src/app.rs:214-223 | the value `read_file_list` returns: empty when `read_dir` fails, never longer than what `read_dir` yields; its order and contents are `ListingSorted` and `ListingContents` |
| `DirListing.ReadFileList` | src/app.rs:214-223 | the listing loop and sort return exactly `Listing(fs, path)` |
| `DirListing.ListingSorted` | src/app.rs:214-223 | a listing is sorted by name; an unreadable path lists as empty |
| `DirListing.CollectCounts` | src/app.rs:215-220 | the entry called `n` occurs in the collected entries exactly as often as `read_dir` yields a readable `n` |
| `DirListing.ListingContents` | src/app.rs:215-220 | a listing is a permutation of the collected entries: exactly the readable entries of the directory, each as often as `read_dir` yields it |
| `DirListing.ListedEntry` | src/main.rs:195-203 | a listed entry is a child of the directory; its cached `is_dir` is the filesystem's answer at listing time; on a well-formed filesystem its name ends in `/` exactly when it is a directory |
| `DirListing.ListingChildren` | src/app.rs:84-87 | every entry of a listing is a child of the listed directory |
| `DirListing.ListingNotDir` | src/app.rs:215 | on a well-formed filesystem, a path that is not a directory lists as empty |
| `PathSearch.BinarySearchByPath` | src/app.rs:154-155 | the bisection as the code calls it: a hit is an entry with that path |
| `PathSearch.Bisect` | src/app.rs:154-155 | each bisection step returns only an index inside its range that holds the key |
| `PathSearch.FindEntry` | src/app.rs:154-155 | either search returns only an entry with the path; the first-match search returns none exactly when no entry has it |
| `PathSearch.FindByPath` | src/app.rs:154-155 | the corrected search: the first entry with the path, and none exactly when no entry has it |
| `PathSearch.BinarySearchMissesListedDirectory` | src/app.rs:153-160 | on a concrete filesystem, proved well-formed, the bisection misses an entry that is in the listing, and the corrected search finds it |
| `Panes.SaturatingSub` | src/app.rs:32 | `usize::saturating_sub`: never above the minuend, exact when the subtrahend fits, otherwise 0 |
| `Panes.GetSelectedFile` | src/app.rs:10-15 | the entry under the cursor, returned exactly when the cursor is set and in range |
| `Panes.FirstSelection` | src/app.rs:21-25 | `select_first` puts the cursor on entry 0 of a non-empty pane and leaves an empty pane's cursor alone |
| `Panes.NextSelection` | src/app.rs:28-39 | `select_next` never sets an unset cursor; it advances by one unless on the last entry; an out-of-range cursor snaps to the last entry, or to 0 when the pane is empty |
| `Panes.PrevSelection` | src/app.rs:42-52 | `select_prev` never sets an unset cursor; it goes back by one, and stays put at 0 |
| `Panes.SelectNextBounds` | src/main.rs:98-108 | `select_next` keeps an in-range cursor in range, and reports a change exactly when the cursor was below the last entry |
| `Panes.SelectPrevBounds` | src/main.rs:111-121 | `select_prev` keeps an in-range cursor in range, and reports a change exactly when the cursor was above 0 |
| `Panes.SelectFirstBounds` | src/main.rs:91-95 | `select_first` keeps the cursor in range and, on a non-empty pane, selects the first entry |
| `Panes.FileList.constructor` | src/app.rs:107-110 | the struct literal `FileList { files, selected_file }` holds exactly the given entries and cursor |
| `Panes.FileList.Default` | src/app.rs:54-61 | the default pane is empty with no cursor |
| `Panes.FileList.Replace` | src/app.rs:120-123 | assigning a pane's whole value sets both of its fields |
| `Panes.FileList.UnselectFile` | src/app.rs:17-19 | only the cursor changes, and it becomes unset |
| `Panes.FileList.SelectFirst` | src/app.rs:21-25 | the cursor becomes `FirstSelection`; the entries stay the same |
| `Panes.FileList.SelectNext` | src/app.rs:28-39 | the cursor becomes `NextSelection`; the result is true exactly when the cursor changed |
| `Panes.FileList.SelectPrev` | src/app.rs:42-52 | the cursor becomes `PrevSelection`; the result is true exactly when the cursor changed |
| `Navigation.CachedAgreesWithLive` | src/main.rs:199-203 | on the filesystem an entry was listed from, the cached `is_dir` and a live `is_dir` agree |
| `Navigation.EntryIsDir` | src/app.rs:73-75 | `FileInfo::is_dir` asks the filesystem; the cached field is the answer stored at listing time; both give the filesystem's answer whenever the stored one is still current |
| `Navigation.DirContents` | src/app.rs:204-210 | the preview of a directory is its listing; the preview of anything else is empty; every previewed entry is a child of the previewed path |
| `Navigation.SpaceToRight` | src/app.rs:225-227 | there is a pane to the right exactly when pane 0 is active |
| `Navigation.CurrentList` | src/app.rs:248-250 | the active pane, whose cursor and entries are what `selected_file_in_list` and `files_in_list` return for the active index |
| `Navigation.SelectedFilePath` | src/app.rs:244-246 | the path of the entry under the active cursor, present exactly when there is such an entry |
| `Navigation.SelectedFileIsDir` | src/app.rs:238-242 | true exactly when the active cursor is on an entry that is a directory under the state's policy; then a selected path exists |
| `Navigation.FilesInSelectedDir` | src/app.rs:201-212 | the listing of the selected entry's path when it is a directory, else empty; always children of the selected path |
| `Navigation.SelectedFileInList` | src/app.rs:193-195 | no cursor for an index other than 0 or 1; otherwise that pane's stored cursor, unchanged |
| `Navigation.FilesInList` | src/app.rs:197-199 | the entries of pane `list`, present exactly for 0 and 1 |
| `Navigation.RefreshFilesToRight` | src/app.rs:229-236 | with pane 0 active, pane 1 becomes the preview of the selection with no cursor; with pane 1 active, nothing changes |
| `Navigation.MoveCursor` | src/app.rs:132-142 | Up and Down move the active cursor. Pane 1 is re-derived (preview of the new selection, no cursor) only when the cursor moved and pane 0 is active. Base path, active index and the other pane are otherwise unchanged. |
| `Navigation.OnUp` | src/app.rs:132-136 | the active cursor goes up one entry, with base path, active index and the active pane's entries unchanged; with no cursor or on the first entry, the state is unchanged. Its invariant and preview property are `OnUpInv` and `OnUpCoherent` |
| `Navigation.OnDown` | src/app.rs:138-142 | the active cursor goes down one entry, with base path, active index and the active pane's entries unchanged; with no cursor or on the last entry, the state is unchanged. Its invariant and preview property are `OnDownInv` and `OnDownCoherent` |
| `Navigation.OnLeft` | src/app.rs:144-167 | From pane 1: clear its cursor and activate pane 0, nothing else. At the root from pane 0: no change. Otherwise the base path becomes its parent, and pane 1 becomes old pane 0 with its cursor cleared. Pane 0 becomes the parent's listing; a set cursor is on an entry whose path is the old base path. With the first-match search the cursor is unset only when no entry has that path. |
| `Navigation.OnRight` | src/app.rs:169-191 | No change unless the selected entry is a directory. From pane 0: activate pane 1 and `select_first` on it. From pane 1: pane 0 becomes old pane 1 with its cursor, and pane 1 becomes the directory's listing, with cursor 0 exactly when it is non-empty. The base path becomes the directory's parent. A selected path without a parent leaves the state unchanged. |
| `Navigation.Init` | src/app.rs:101-126 | Active index 0, and the base path is the start directory. Pane 0 is its listing, with cursor 0 exactly when the listing is non-empty. Pane 1 is the preview of that entry, with no cursor. |
| `Navigation.InitInv` | src/main.rs:150-175 | the initial state satisfies the invariant |
| `Navigation.OnUpInv` | src/main.rs:246-250 | `on_up` keeps the invariant |
| `Navigation.OnDownInv` | src/main.rs:252-256 | `on_down` keeps the invariant |
| `Navigation.OnLeftInv` | src/main.rs:258-280 | `on_left` keeps the invariant, with either search |
| `Navigation.OnRightInv` | src/main.rs:282-304 | `on_right` keeps the invariant |
| `Navigation.InwardShiftHasParent` | src/main.rs:287-301 | on a reachable state, the directory entered by the inward shift has a parent, which is the path under the left cursor; the `unwrap` cannot fail |
| `Navigation.SelectedFileInListInRange` | src/main.rs:343-347 | on a reachable state, every cursor the renderer reads indexes an entry of the pane it draws |
| `Navigation.InitCoherent` | src/app.rs:120-123 | the initial right pane is the preview of the initial left selection |
| `Navigation.OnUpCoherent` | src/app.rs:132-136 | on an unchanged filesystem, `on_up` keeps the right pane the preview of the left selection |
| `Navigation.OnDownCoherent` | src/app.rs:138-142 | on an unchanged filesystem, `on_down` keeps the right pane the preview of the left selection |
| `Navigation.OnLeftCoherent` | src/app.rs:148-166 | on an unchanged well-formed filesystem, moving out keeps the preview property with either search: the old left pane is the preview of the directory the new left cursor is on |
| `Navigation.OnRightCoherent` | src/app.rs:174-189 | on an unchanged filesystem, moving in keeps the preview property: the new left pane lists the new base path, and the new right pane previews the new left selection |
| `Navigation.RightThenLeft` | src/app.rs:144-173 | from pane 0 on a directory, Right then Left gives back exactly the same state |
| `Navigation.LeftThenRightFromLeftPane` | src/app.rs:144-174 | from pane 0 away from the root, when the cursor lands on a directory, Left then Right ends with pane 1 active, one level above the start |
| `Navigation.RightThenLeftFromRightPane` | src/app.rs:144-191 | from pane 1 on a directory, Right then Left ends with pane 0 active and the base path one level below the start, at the directory that was under the left cursor |
| `Navigation.LeftThenRight` | src/app.rs:144-174 | from pane 1, while the entry under the left cursor is a directory, Left then Right restores the active index, base path and both panes' entries; pane 1's cursor is on entry 0, or unset when the pane is empty |
| `Browser.State.Init` | src/app.rs:101-126 | the new state is valid, its value is `Navigation.Init`, and it keeps the search it is given for `on_left` |
| `Browser.State.New` | src/app.rs:101-102 | fails exactly when the working directory is unknown; otherwise a fresh valid state as `Init`, with the given search |
| `Browser.State.RefreshFilesToRight` | src/app.rs:229-236 | the panes change as `Navigation.RefreshFilesToRight` says |
| `Browser.State.OnUp` | src/app.rs:132-136 | the in-place update keeps the invariant and yields `Navigation.OnUp` of the old value |
| `Browser.State.OnDown` | src/app.rs:138-142 | the in-place update keeps the invariant and yields `Navigation.OnDown` of the old value |
| `Browser.State.OnLeft` | src/app.rs:144-167 | the in-place update keeps the invariant and yields `Navigation.OnLeft` of the old value, with the state's search |
| `Browser.State.OnRight` | src/app.rs:169-191 | the in-place update keeps the invariant and yields `Navigation.OnRight` of the old value |
| `Scenarios.HomeListing` | src/app.rs:214-223 | a directory holding `apple`, `Banana/` and `cherry.txt` lists in byte order as `Banana/`, `apple`, `cherry.txt`; an unreadable entry is dropped |
| `Scenarios.StartInHome` | src/app.rs:101-126 | starting there puts the cursor on `Banana/` and shows Banana's contents on the right, under both policies |
| `Scenarios.RightIntoBananaThenOnFile` | src/app.rs:169-173 | Right enters the right pane with the cursor on its first entry; Right on a plain file then changes nothing |
| `Scenarios.LeftThenRightFromBanana` | src/app.rs:144-174 | started in `/home/Banana`, Left then Right ends in `/home` with the right pane active on `seed` |
| `Scenarios.LeftOutOfMissDir` | src/app.rs:148-160 | pressing Left in `/p/a`: as written the cursor of `/p` stays unset; with the first-match search it is on `a/` |

## Left out

- Terminal setup and teardown, the panic hook, and the key loop (src/main.rs:13-72, src/main.rs:377-392). These are crossterm I/O. The loop only dispatches `q`, Up, Down, Left and Right to the modelled handlers.
- All drawing (src/main.rs:307-375; src/ui.rs is not part of this model). It only reads the panes, the cursors and the base path.
- `State::base_path`, the display string of the base path (`to_string_lossy`). It is a rendering conversion. `FileInfo::name` is the `name` field.
- The real filesystem. `read_dir`, `is_dir` and `current_dir` are replaced by the `Fs` value and by the `currentDir` argument of `Browser.State.New`. Names are already Unicode strings, so lossy UTF-8 conversion does not arise.
- `current_list_mut`: a mutable borrow. The methods index `flists[selectedFlist]` directly.
- The width of `usize`. Integers are unbounded. The arithmetic in the code cannot overflow or underflow on a reachable state. `selected + 1` in `select_next` is applied to an in-range cursor. `selected_flist += 1` (src/app.rs:172, src/main.rs:285) and `selected_flist + 1` (src/app.rs:231, src/main.rs:217) happen only when `selected_flist` is 0. `flists.len() - 1` (src/app.rs:226, src/main.rs:212) is 1. `Navigation.Inv` keeps the active index below 2.
- The order `read_dir` yields entries in is whatever the `Fs` value lists. Rust's `sort_by` is a stable merge sort and the model uses a stable insertion sort, so both give the same result. That equality is argued, not proved.
- In src/main.rs the listing code asks `is_dir` twice per entry (lines 196 and 201). Under a concurrent change the two answers could differ. The model asks the filesystem once.
- `PathSearch.BinarySearchByPath`: follows the half-open bisection of Rust's `slice::binary_search_by` (the one in Rust 1.52 to 1.81). Other versions bisect differently. The miss in the Findings occurs with any bisection that probes the middle of three entries first.
- `Navigation.OnLeft`: the statement that an unset cursor means the parent's listing lacks the old base path holds only with `FirstMatch`. With `Bisection`, the search as written, the function promises only that a set cursor is on that path (see Findings).
- `Navigation.OnRight`: a selected directory without a parent is a no-op. The code instead panics in `unwrap`, after it has already replaced both panes. `Navigation.InwardShiftHasParent` proves this case unreachable from any state the browser can be in.
- `Navigation.Coherent`: does not say that the right pane is empty while the left cursor is unset. After a failed lookup in `on_left`, the code keeps the old listing there.

## Findings

| source | as written | input that shows it | evidently intended | confidence | as-written member | corrected member |
|---|---|---|---|---|---|---|
| src/app.rs:154-155 (also src/main.rs:268) | `on_left` bisects the parent's listing for the old base path by `path`. But the listing is sorted by `name`, and names of directories end in `/`. A `.` (0x2E) sorts before `/` (0x2F) in names, while in paths `a` sorts before `a.1`, so the listing is not sorted by path and the search can miss. | directory `/p` holding a directory `a` and files `a.1`, `a.2`; press Left while in `/p/a`. The listing is `a.1`, `a.2`, `a/`, and the bisection probes `a.2` and then `a.1`, both greater than `/p/a`, so it misses. | the left cursor lands on `a/`, the directory just left | not executed; follows the bisection of Rust's `binary_search_by` | `PathSearch.BinarySearchByPath`, shown by `PathSearch.BinarySearchMissesListedDirectory` | `PathSearch.FindByPath`, used by `Navigation.OnLeft` and by `Browser.State.OnLeft` with `FirstMatch`; `Scenarios.LeftOutOfMissDir` shows both on the whole transition |
