/**
 * The filesystem as the browser sees it: an oracle that answers "what are
 * the entries of this directory" (`Path::read_dir`) and "is this path a
 * directory" (`Path::is_dir`). It is a value handed to every operation, so
 * that it may differ from one key press to the next.
 */
module Filesystem {
  import opened Wrappers

  /** An absolute path as its components; `[]` is the root `/`. */
  type Path = seq<string>

  /** One item of a `read_dir` iterator: an entry, or an `Err` for an entry that could not be read. */
  datatype RawEntry = Readable(name: string) | Unreadable

  /**
   * `listings` holds the directories `read_dir` can open and what it yields
   * for each; a path not in it makes `read_dir` fail. `dirs` is the set of
   * paths `is_dir` answers true for.
   */
  datatype Fs = Fs(listings: map<Path, seq<RawEntry>>, dirs: set<Path>)

  function ReadDir(fs: Fs, p: Path): (r: Option<seq<RawEntry>>)
    ensures r.Some? <==> p in fs.listings
  {
    if p in fs.listings then Some(fs.listings[p]) else None
  }

  predicate IsDir(fs: Fs, p: Path) {
    p in fs.dirs
  }

  /** A file name as a real filesystem allows it: not empty and without a separator. */
  predicate ValidName(n: string) {
    n != [] && '/' !in n
  }

  /**
   * What a real filesystem guarantees: only directories can be listed, and
   * every name it lists is a valid file name.
   */
  ghost predicate WellFormed(fs: Fs) {
    (forall p :: p in fs.listings ==> IsDir(fs, p)) &&
    (forall p, k :: p in fs.listings && 0 <= k < |fs.listings[p]| && fs.listings[p][k].Readable? ==>
       ValidName(fs.listings[p][k].name))
  }

  /** `Path::parent`: the path without its last component; the root has none. */
  function Parent(p: Path): (r: Option<Path>)
    ensures r.None? <==> p == []
    ensures r.Some? ==> r.value + [p[|p| - 1]] == p
  {
    if p == [] then None else Some(p[..|p| - 1])
  }

  /** `p` names an entry of directory `dir`. */
  predicate ChildOf(p: Path, dir: Path) {
    |p| > 0 && p[..|p| - 1] == dir
  }

  lemma ChildOfAppend(dir: Path, name: string)
    ensures ChildOf(dir + [name], dir)
  {
    assert (dir + [name])[..|dir|] == dir;
  }
}
