/** Worked examples of the browser's behaviour on small filesystems. */
module Scenarios {
  import opened Wrappers
  import opened Lexical
  import opened Filesystem
  import opened DirListing
  import opened PathSearch
  import opened Panes
  import opened Navigation

  /**
   * `/home` holds `apple`, a directory `Banana`, an entry `read_dir` fails
   * on, and `cherry.txt`; `Banana` holds `seed`.
   */
  const HomeFs := Fs(
    map[["home"] := [Readable("apple"), Readable("Banana"), Unreadable, Readable("cherry.txt")],
        ["home", "Banana"] := [Readable("seed")]],
    {["home"], ["home", "Banana"]})

  const Apple := FileInfo("apple", ["home", "apple"], false)
  const Banana := FileInfo("Banana/", ["home", "Banana"], true)
  const Cherry := FileInfo("cherry.txt", ["home", "cherry.txt"], false)
  const Seed := FileInfo("seed", ["home", "Banana", "seed"], false)

  lemma HomeCollected()
    ensures Collect(HomeFs, ["home"], HomeFs.listings[["home"]]) == [Apple, Banana, Cherry]
  {
    var raw := HomeFs.listings[["home"]];
    assert ["home"] + ["apple"] == ["home", "apple"] && ["home"] + ["Banana"] == ["home", "Banana"];
    assert ["home"] + ["cherry.txt"] == ["home", "cherry.txt"] && "Banana" + "/" == "Banana/";
    assert !IsDir(HomeFs, ["home", "apple"]) && !IsDir(HomeFs, ["home", "cherry.txt"]);
    assert MakeEntry(HomeFs, ["home"], "apple") == Apple;
    assert MakeEntry(HomeFs, ["home"], "Banana") == Banana;
    assert MakeEntry(HomeFs, ["home"], "cherry.txt") == Cherry;
    assert raw[..3] == [Readable("apple"), Readable("Banana"), Unreadable];
    assert raw[..3][..2] == [Readable("apple"), Readable("Banana")] && raw[..3][..2][..1] == [Readable("apple")];
    assert raw[..3][..2][..1][..0] == [];
    assert Collect(HomeFs, ["home"], [Readable("apple")]) == [Apple];
    assert Collect(HomeFs, ["home"], raw[..3][..2]) == [Apple, Banana];
    assert Collect(HomeFs, ["home"], raw[..3]) == [Apple, Banana];
  }

  lemma HomeSorted()
    ensures SortByName([Apple, Banana, Cherry]) == [Banana, Apple, Cherry]
  {
    var collected := [Apple, Banana, Cherry];
    assert CompareStrings("apple", "Banana/") == Greater;
    assert CompareStrings("Banana/", "cherry.txt") == Less;
    assert CompareStrings("apple", "cherry.txt") == Less;
    assert collected[..2] == [Apple, Banana] && collected[..2][..1] == [Apple] && [Apple][..0] == [];
    assert SortByName([Apple]) == [Apple];
    assert Insert([Apple], Banana) == [Banana, Apple];
    assert SortByName([Apple, Banana]) == [Banana, Apple];
    assert Insert([Banana, Apple], Cherry) == [Banana, Apple, Cherry];
  }

  /**
   * Byte order puts `B` (0x42) before `a` (0x61): `/home` lists as
   * `Banana/`, `apple`, `cherry.txt`, and the entry that could not be read
   * is not there.
   */
  lemma HomeListing()
    ensures Listing(HomeFs, ["home"]) == [Banana, Apple, Cherry]
  {
    HomeCollected();
    HomeSorted();
  }

  lemma BananaListing()
    ensures Listing(HomeFs, ["home", "Banana"]) == [Seed]
  {
    var raw := HomeFs.listings[["home", "Banana"]];
    assert ["home", "Banana"] + ["seed"] == ["home", "Banana", "seed"];
    assert !IsDir(HomeFs, ["home", "Banana", "seed"]);
    assert MakeEntry(HomeFs, ["home", "Banana"], "seed") == Seed;
    assert raw[..0] == [];
    assert Collect(HomeFs, ["home", "Banana"], raw) == [Seed];
    assert [Seed][..0] == [];
  }

  /**
   * Started in `/home`, the browser has its cursor on `Banana/` and shows
   * `Banana`'s contents on the right, with either way of telling
   * directories apart.
   */
  lemma StartInHome(policy: IsDirPolicy)
    ensures Init(HomeFs, ["home"], policy).panes ==
      [Pane([Banana, Apple, Cherry], Some(0)), Pane([Seed], None)]
  {
    HomeListing();
    BananaListing();
    var w := Init(HomeFs, ["home"], policy);
    assert GetSelectedFile(w.panes[0]) == Some(Banana);
    assert EntryIsDir(policy, Banana, HomeFs);
  }

  /**
   * Right on `Banana/` activates the right pane with its cursor on `seed`;
   * Right again on the plain file `seed` does nothing.
   */
  lemma RightIntoBananaThenOnFile(policy: IsDirPolicy)
    ensures OnRight(Init(HomeFs, ["home"], policy), HomeFs).active == 1
    ensures OnRight(Init(HomeFs, ["home"], policy), HomeFs).panes[1] == Pane([Seed], Some(0))
    ensures OnRight(OnRight(Init(HomeFs, ["home"], policy), HomeFs), HomeFs) ==
            OnRight(Init(HomeFs, ["home"], policy), HomeFs)
  {
    StartInHome(policy);
    var w := OnRight(Init(HomeFs, ["home"], policy), HomeFs);
    assert GetSelectedFile(w.panes[1]) == Some(Seed);
    assert !EntryIsDir(policy, Seed, HomeFs);
  }

  /**
   * Left then Right from the left pane does not come back: started in
   * `/home/Banana`, the window ends in `/home` with the right pane active.
   */
  lemma LeftThenRightFromBanana(policy: IsDirPolicy)
    ensures var r := OnRight(OnLeft(Init(HomeFs, ["home", "Banana"], policy), HomeFs, FirstMatch), HomeFs);
      r.basePath == ["home"] && r.active == 1 &&
      r.panes == [Pane([Banana, Apple, Cherry], Some(0)), Pane([Seed], Some(0))]
  {
    HomeListing();
    BananaListing();
    var w := Init(HomeFs, ["home", "Banana"], policy);
    assert GetSelectedFile(w.panes[0]) == Some(Seed);
    assert !EntryIsDir(policy, Seed, HomeFs);
    assert ["home", "Banana"][..1] == ["home"];
    var l := OnLeft(w, HomeFs, FirstMatch);
    assert l.panes[0] == Pane([Banana, Apple, Cherry], Some(0));
    assert EntryIsDir(policy, Banana, HomeFs);
  }

  /**
   * The bisection on a whole transition: pressing Left in `/p/a` lists
   * `/p` as `a.1`, `a.2`, `a/`. As written, the cursor of `/p` stays unset;
   * with the first-match search it is on `a/`.
   */
  lemma LeftOutOfMissDir(policy: IsDirPolicy)
    ensures var w := Init(MissFs, ["p", "a"], policy);
      OnLeft(w, MissFs, Bisection).basePath == ["p"] &&
      OnLeft(w, MissFs, Bisection).panes[0] == Pane([MissOne, MissTwo, MissDir], None) &&
      OnLeft(w, MissFs, FirstMatch).panes[0] == Pane([MissOne, MissTwo, MissDir], Some(2))
  {
    BinarySearchMissesListedDirectory();
    MissCollected();
    MissSorted();
    assert ["p", "a"][..1] == ["p"];
    assert Listing(MissFs, ["p"]) == [MissOne, MissTwo, MissDir];
  }
}
