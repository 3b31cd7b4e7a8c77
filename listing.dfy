/**
 * Listing a directory: `State::read_file_list` and `FileInfo::from`.
 *
 * The entries `read_dir` yields are turned into `FileInfo`s (unreadable
 * entries are dropped), a `/` is appended to the name of every directory,
 * and the result is sorted by name with the stable `Vec::sort_by`. A
 * directory that cannot be read lists as empty.
 */
module DirListing {
  import opened Wrappers
  import opened Lexical
  import opened Filesystem

  /**
   * One entry of a listing. `isDir` is what `is_dir` answered when the entry
   * was listed; the inline copy of the browser keeps and uses it, the
   * factored copy asks the filesystem again instead.
   */
  datatype FileInfo = FileInfo(name: string, path: Path, isDir: bool)

  /** `FileInfo::from(DirEntry)`: the entry called `name` of directory `dir`. */
  function MakeEntry(fs: Fs, dir: Path, name: string): (f: FileInfo)
    ensures f.path == dir + [name] && ChildOf(f.path, dir)
    ensures f.isDir == IsDir(fs, f.path)
    ensures f.name == if f.isDir then name + "/" else name
  {
    ChildOfAppend(dir, name);
    var path := dir + [name];
    FileInfo(if IsDir(fs, path) then name + "/" else name, path, IsDir(fs, path))
  }

  /** `filter_map(Result::ok).map(FileInfo::from).collect()` over the entries `raw` of `dir`. */
  function Collect(fs: Fs, dir: Path, raw: seq<RawEntry>): (files: seq<FileInfo>)
    ensures |files| <= |raw|
    ensures forall f :: f in files <==>
      exists k :: 0 <= k < |raw| && raw[k].Readable? && f == MakeEntry(fs, dir, raw[k].name)
  {
    if raw == [] then []
    else
      var init := Collect(fs, dir, raw[..|raw| - 1]);
      var last := raw[|raw| - 1];
      var files := if last.Readable? then init + [MakeEntry(fs, dir, last.name)] else init;
      assert forall k :: 0 <= k < |raw| - 1 ==> raw[..|raw| - 1][k] == raw[k];
      files
  }

  /** Different names give different entries: the name is the path's last component. */
  lemma MakeEntryInjective(fs: Fs, dir: Path, n: string, m: string)
    requires MakeEntry(fs, dir, n) == MakeEntry(fs, dir, m)
    ensures n == m
  {
    assert (dir + [n])[|dir|] == n && (dir + [m])[|dir|] == m;
  }

  /**
   * `Collect` keeps multiplicities: the entry called `n` occurs as often as
   * `read_dir` yields a readable `n`.
   */
  lemma {:induction false} CollectCounts(fs: Fs, dir: Path, raw: seq<RawEntry>)
    ensures forall n :: multiset(Collect(fs, dir, raw))[MakeEntry(fs, dir, n)] == multiset(raw)[Readable(n)]
  {
    if raw != [] {
      var init, last := raw[..|raw| - 1], raw[|raw| - 1];
      CollectCounts(fs, dir, init);
      assert raw == init + [last];
      forall n ensures multiset(Collect(fs, dir, raw))[MakeEntry(fs, dir, n)] == multiset(raw)[Readable(n)] {
        if last.Readable? && MakeEntry(fs, dir, last.name) == MakeEntry(fs, dir, n) {
          MakeEntryInjective(fs, dir, last.name, n);
        }
      }
    }
  }

  /** Every entry of `files` is an entry of directory `dir`. */
  predicate ChildrenOf(files: seq<FileInfo>, dir: Path) {
    forall i :: 0 <= i < |files| ==> ChildOf(files[i].path, dir)
  }

  predicate SortedByName(s: seq<FileInfo>) {
    forall i, j :: 0 <= i < j < |s| ==> StrLe(s[i].name, s[j].name)
  }

  /**
   * Inserts `x` after every entry whose name is at most `x`'s, scanning from
   * the right: one step of a stable insertion sort.
   */
  function Insert(s: seq<FileInfo>, x: FileInfo): (r: seq<FileInfo>)
    ensures |r| == |s| + 1
  {
    if s == [] then [x]
    else if StrLe(s[|s| - 1].name, x.name) then s + [x]
    else Insert(s[..|s| - 1], x) + [s[|s| - 1]]
  }

  /** Inserting adds `x` and loses nothing. */
  lemma {:induction false} InsertPermutes(s: seq<FileInfo>, x: FileInfo)
    ensures multiset(Insert(s, x)) == multiset(s) + multiset{x}
  {
    if s != [] && !StrLe(s[|s| - 1].name, x.name) {
      InsertPermutes(s[..|s| - 1], x);
      assert s == s[..|s| - 1] + [s[|s| - 1]];
    }
  }

  /** Inserting into a sorted sequence keeps it sorted. */
  lemma {:induction false} InsertSorted(s: seq<FileInfo>, x: FileInfo)
    requires SortedByName(s)
    ensures SortedByName(Insert(s, x))
  {
    if s == [] {
    } else {
      var init, last := s[..|s| - 1], s[|s| - 1];
      if StrLe(last.name, x.name) {
        forall i | 0 <= i < |s| ensures StrLe(s[i].name, x.name) {
          if i < |s| - 1 { StrLeTransitive(s[i].name, last.name, x.name); }
        }
      } else {
        var front := Insert(init, x);
        InsertSorted(init, x);
        InsertPermutes(init, x);
        StrLeTotal(last.name, x.name);
        forall i | 0 <= i < |front| ensures StrLe(front[i].name, last.name) {
          assert front[i] in multiset(front);
          if front[i] != x {
            assert front[i] in multiset(init);
            var k :| 0 <= k < |init| && init[k] == front[i];
            assert s[k] == init[k];
          }
        }
        assert Insert(s, x) == front + [last];
      }
    }
  }

  /** The stable sort by name: insert each entry, left to right, into the sorted prefix. */
  function SortByName(s: seq<FileInfo>): (r: seq<FileInfo>)
    ensures |r| == |s|
  {
    if s == [] then [] else Insert(SortByName(s[..|s| - 1]), s[|s| - 1])
  }

  /** `SortByName` sorts. */
  lemma {:induction false} SortByNameSorted(s: seq<FileInfo>)
    ensures SortedByName(SortByName(s))
  {
    if s != [] {
      SortByNameSorted(s[..|s| - 1]);
      InsertSorted(SortByName(s[..|s| - 1]), s[|s| - 1]);
    }
  }

  /** `SortByName` neither loses nor adds an entry. */
  lemma {:induction false} SortByNamePermutes(s: seq<FileInfo>)
    ensures multiset(SortByName(s)) == multiset(s)
  {
    if s != [] {
      var init, last := s[..|s| - 1], s[|s| - 1];
      SortByNamePermutes(init);
      InsertPermutes(SortByName(init), last);
      SnocMultiset(s);
    }
  }

  lemma SnocMultiset(s: seq<FileInfo>)
    requires s != []
    ensures multiset(s) == multiset(s[..|s| - 1]) + multiset{s[|s| - 1]}
  {
    assert s == s[..|s| - 1] + [s[|s| - 1]];
  }

  /** The listing `read_file_list(path)` returns. */
  function Listing(fs: Fs, path: Path): (r: seq<FileInfo>)
    ensures ReadDir(fs, path).None? ==> r == []
    ensures path in fs.listings ==> |r| <= |fs.listings[path]|
  {
    match ReadDir(fs, path)
    case None => []
    case Some(raw) => SortByName(Collect(fs, path, raw))
  }

  /** A listing is sorted by name; a directory that cannot be read lists as empty. */
  lemma ListingSorted(fs: Fs, path: Path)
    ensures SortedByName(Listing(fs, path))
    ensures path !in fs.listings ==> Listing(fs, path) == []
  {
    if path in fs.listings {
      SortByNameSorted(Collect(fs, path, fs.listings[path]));
    }
  }

  /**
   * The listing holds exactly the readable entries of the directory (the
   * unreadable ones are dropped), each once for every time `read_dir`
   * yields it.
   */
  lemma ListingContents(fs: Fs, path: Path)
    requires path in fs.listings
    ensures multiset(Listing(fs, path)) == multiset(Collect(fs, path, fs.listings[path]))
    ensures forall n :: multiset(Listing(fs, path))[MakeEntry(fs, path, n)] == multiset(fs.listings[path])[Readable(n)]
    ensures forall f :: f in Listing(fs, path) <==>
      exists k :: 0 <= k < |fs.listings[path]| && fs.listings[path][k].Readable? &&
        f == MakeEntry(fs, path, fs.listings[path][k].name)
  {
    var raw := fs.listings[path];
    SortByNamePermutes(Collect(fs, path, raw));
    CollectCounts(fs, path, raw);
    forall f ensures f in Listing(fs, path) <==> f in Collect(fs, path, raw) {
      assert f in Listing(fs, path) <==> f in multiset(Listing(fs, path));
      assert f in Collect(fs, path, raw) <==> f in multiset(Collect(fs, path, raw));
    }
  }

  /**
   * Every listed entry is a child of the listed directory, its cached
   * `isDir` is what `is_dir` says of it at listing time, and on a
   * well-formed filesystem its name ends in `/` exactly when it is a
   * directory.
   */
  lemma ListedEntry(fs: Fs, path: Path, f: FileInfo)
    requires f in Listing(fs, path)
    ensures ChildOf(f.path, path)
    ensures f.isDir == IsDir(fs, f.path)
    ensures WellFormed(fs) ==> (f.name != [] && f.name[|f.name| - 1] == '/' <==> f.isDir)
  {
    ListingContents(fs, path);
    var raw := fs.listings[path];
    var k :| 0 <= k < |raw| && raw[k].Readable? && f == MakeEntry(fs, path, raw[k].name);
    if WellFormed(fs) && !f.isDir {
      assert f.name == raw[k].name && ValidName(raw[k].name);
      assert f.name[|f.name| - 1] in f.name;
    }
  }

  lemma ListingChildren(fs: Fs, path: Path)
    ensures ChildrenOf(Listing(fs, path), path)
  {
    forall i | 0 <= i < |Listing(fs, path)| ensures ChildOf(Listing(fs, path)[i].path, path) {
      ListedEntry(fs, path, Listing(fs, path)[i]);
    }
  }

  /** On a well-formed filesystem, something that is not a directory lists as empty. */
  lemma ListingNotDir(fs: Fs, path: Path)
    requires WellFormed(fs) && !IsDir(fs, path)
    ensures Listing(fs, path) == []
  {
  }

  /**
   * Where `Insert` puts `x`: right after the last entry whose name is at most
   * `x`'s (at the front when there is none).
   */
  lemma {:induction false} InsertAt(s: seq<FileInfo>, x: FileInfo, j: nat)
    requires j <= |s|
    requires forall k :: j <= k < |s| ==> !StrLe(s[k].name, x.name)
    requires j == 0 || StrLe(s[j - 1].name, x.name)
    ensures Insert(s, x) == s[..j] + [x] + s[j..]
  {
    if j < |s| {
      var init, last := s[..|s| - 1], s[|s| - 1];
      assert !StrLe(last.name, x.name);
      assert Insert(s, x) == Insert(init, x) + [last];
      InsertAt(init, x, j);
      assert s[..j] == init[..j];
      assert s[j..] == init[j..] + [last];
    } else if s != [] {
      assert StrLe(s[|s| - 1].name, x.name);
    }
  }

  /**
   * The inner loop of the insertion sort: with `a[..i]` sorted, moves `a[i]`
   * left past every entry whose name is greater than its own.
   */
  method InsertInPlace(a: array<FileInfo>, i: nat)
    requires i < a.Length
    modifies a
    ensures a[..i + 1] == Insert(old(a[..i]), old(a[i]))
    ensures a[i + 1..] == old(a[i + 1..])
  {
    ghost var sorted := a[..i];
    var x := a[i];
    var j := i;
    while j > 0 && !StrLe(a[j - 1].name, x.name)
      invariant 0 <= j <= i
      invariant forall k :: 0 <= k < j ==> a[k] == sorted[k]
      invariant forall k :: j < k <= i ==> a[k] == sorted[k - 1]
      invariant forall k :: i < k < a.Length ==> a[k] == old(a[k])
      invariant forall k :: j <= k < i ==> !StrLe(sorted[k].name, x.name)
    {
      a[j] := a[j - 1];
      j := j - 1;
    }
    a[j] := x;
    InsertAt(sorted, x, j);
    assert a[..i + 1] == sorted[..j] + [x] + sorted[j..];
  }

  lemma SortByNamePrefix(s: seq<FileInfo>, i: nat)
    requires i < |s|
    ensures SortByName(s[..i + 1]) == Insert(SortByName(s[..i]), s[i])
  {
    assert s[..i + 1][..i] == s[..i];
  }

  /** `Vec::sort_by(|f1, f2| f1.name.cmp(&f2.name))`, done as an in-place insertion sort. */
  method SortInPlace(a: array<FileInfo>)
    modifies a
    ensures a[..] == SortByName(old(a[..]))
  {
    ghost var input := a[..];
    for i := 0 to a.Length
      invariant a[..i] == SortByName(input[..i])
      invariant a[i..] == input[i..]
    {
      SortByNamePrefix(input, i);
      assert a[i] == input[i];
      InsertInPlace(a, i);
    }
    assert input[..a.Length] == input;
  }

  /** `State::read_file_list`: read the directory, collect the readable entries, sort them by name. */
  method ReadFileList(fs: Fs, path: Path) returns (files: seq<FileInfo>)
    ensures files == Listing(fs, path)
  {
    var raw: seq<RawEntry> := [];
    var readable := ReadDir(fs, path);
    if readable.Some? {
      raw := readable.value;
    }
    var collected: seq<FileInfo> := [];
    for k := 0 to |raw|
      invariant collected == Collect(fs, path, raw[..k])
    {
      assert raw[..k + 1][..k] == raw[..k];
      if raw[k].Readable? {
        collected := collected + [MakeEntry(fs, path, raw[k].name)];
      }
    }
    assert raw[..|raw|] == raw;
    var a := new FileInfo[|collected|](i requires 0 <= i < |collected| => collected[i]);
    assert a[..] == collected;
    SortInPlace(a);
    files := a[..];
  }
}
