/**
 * Locating a path in a listing, as `on_left` does to put the cursor of the
 * parent's listing back on the directory it came from.
 */
module PathSearch {
  import opened Wrappers
  import opened Lexical
  import opened Filesystem
  import opened DirListing

  /**
   * `files.binary_search_by_key(&key, |f| f.path.clone()).ok()`, with the
   * bisection of Rust's `slice::binary_search_by` over the half-open range
   * `[left, right)`: probe the middle, continue right of it on `Less`, left of
   * it on `Greater`. A hit is always a real hit; a miss means something only
   * when the slice is sorted by path.
   */
  function BinarySearchByPath(files: seq<FileInfo>, key: Path): (r: Option<nat>)
    ensures r.Some? ==> r.value < |files| && files[r.value].path == key
  {
    Bisect(files, key, 0, |files|)
  }

  function Bisect(files: seq<FileInfo>, key: Path, left: nat, right: nat): (r: Option<nat>)
    requires left <= right <= |files|
    ensures r.Some? ==> left <= r.value < right && files[r.value].path == key
    decreases right - left
  {
    if left >= right then None
    else
      var mid := left + (right - left) / 2;
      match ComparePaths(files[mid].path, key)
      case Less => Bisect(files, key, mid + 1, right)
      case Greater => Bisect(files, key, left, mid)
      case Equal => Some(mid)
  }

  /**
   * The search `on_left` needs: the first entry whose path is `key`, and
   * `None` only when no entry has that path.
   */
  function FindByPath(files: seq<FileInfo>, key: Path): (r: Option<nat>)
    ensures r.Some? ==> r.value < |files| && files[r.value].path == key
    ensures r.Some? ==> forall i :: 0 <= i < r.value ==> files[i].path != key
    ensures r.None? <==> forall i :: 0 <= i < |files| ==> files[i].path != key
  {
    if files == [] then None
    else if files[0].path == key then Some(0)
    else
      match FindByPath(files[1..], key)
      case None => None
      case Some(i) => Some(i + 1)
  }

  /**
   * Which search `on_left` uses to find the directory it came from in the
   * parent's listing: `Bisection` is the code as written, `FirstMatch` the
   * search it needs.
   */
  datatype Lookup = Bisection | FirstMatch

  function FindEntry(lookup: Lookup, files: seq<FileInfo>, key: Path): (r: Option<nat>)
    ensures r.Some? ==> r.value < |files| && files[r.value].path == key
    ensures lookup == FirstMatch ==> (r.None? <==> forall i :: 0 <= i < |files| ==> files[i].path != key)
  {
    match lookup
    case Bisection => BinarySearchByPath(files, key)
    case FirstMatch => FindByPath(files, key)
  }

  /**
   * Directory `/p` holding a directory `a` and files `a.1` and `a.2`. Listed
   * by name, `a/` comes last because `'.'` sorts before `'/'`; by path,
   * `/p/a` comes first, because `a` is a prefix of `a.1`.
   */
  const MissFs := Fs(map[["p"] := [Readable("a"), Readable("a.1"), Readable("a.2")]], {["p"], ["p", "a"]})

  const MissDir := FileInfo("a/", ["p", "a"], true)
  const MissOne := FileInfo("a.1", ["p", "a.1"], false)
  const MissTwo := FileInfo("a.2", ["p", "a.2"], false)

  lemma MissCollected()
    ensures Collect(MissFs, ["p"], MissFs.listings[["p"]]) == [MissDir, MissOne, MissTwo]
  {
    var raw := MissFs.listings[["p"]];
    assert ["p"] + ["a"] == ["p", "a"] && "a" + "/" == "a/";
    assert IsDir(MissFs, ["p", "a"]);
    assert ["p"] + ["a.1"] == ["p", "a.1"] && ["p", "a.1"] != ["p", "a"] && ["p", "a.1"] != ["p"];
    assert ["p"] + ["a.2"] == ["p", "a.2"] && ["p", "a.2"] != ["p", "a"] && ["p", "a.2"] != ["p"];
    assert MakeEntry(MissFs, ["p"], "a") == MissDir;
    assert MakeEntry(MissFs, ["p"], "a.1") == MissOne;
    assert MakeEntry(MissFs, ["p"], "a.2") == MissTwo;
    assert raw[..2] == [Readable("a"), Readable("a.1")] && raw[..2][..1] == [Readable("a")];
  }

  lemma MissSorted()
    ensures SortByName([MissDir, MissOne, MissTwo]) == [MissOne, MissTwo, MissDir]
  {
    var collected := [MissDir, MissOne, MissTwo];
    assert CompareStrings("a/", "a.1") == Greater;
    assert CompareStrings("a/", "a.2") == Greater;
    assert CompareStrings("a.1", "a.2") == Less;
    assert collected[..2] == [MissDir, MissOne] && collected[..2][..1] == [MissDir] && [MissDir][..0] == [];
    assert SortByName([MissDir]) == [MissDir];
    assert Insert([MissDir], MissOne) == [MissOne, MissDir];
    assert SortByName([MissDir, MissOne]) == [MissOne, MissDir];
    assert Insert([MissOne, MissDir], MissTwo) == [MissOne, MissTwo, MissDir];
  }

  /**
   * The listing of `/p` is sorted by name, not by path, so the bisection
   * probes `a.2`, then `a.1`, finds both greater than `/p/a` and misses
   * the entry `a/` that is there: pressing Left in `/p/a` leaves the cursor
   * of `/p` unset. The linear search finds it.
   */
  lemma BinarySearchMissesListedDirectory()
    ensures WellFormed(MissFs)
    ensures |Listing(MissFs, ["p"])| == 3
    ensures Listing(MissFs, ["p"])[2].path == ["p", "a"]
    ensures BinarySearchByPath(Listing(MissFs, ["p"]), ["p", "a"]) == None
    ensures FindByPath(Listing(MissFs, ["p"]), ["p", "a"]) == Some(2)
  {
    MissCollected();
    MissSorted();
    var files := Listing(MissFs, ["p"]);
    assert files == [MissOne, MissTwo, MissDir];
    assert ComparePaths(MissTwo.path, ["p", "a"]) == Greater;
    assert ComparePaths(MissOne.path, ["p", "a"]) == Greater;
    assert Bisect(files, ["p", "a"], 0, 1) == None;
    assert files[1..][1..] == [MissDir];
  }
}
