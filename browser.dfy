/**
 * `State`, the object the key loop drives: its fields are updated in place
 * by `on_up`, `on_down`, `on_left` and `on_right`. Each method is proved to
 * leave the value `Model()` that the matching function of `Navigation`
 * computes, and to keep `Navigation.Inv`.
 */
module Browser {
  import opened Wrappers
  import opened Filesystem
  import opened DirListing
  import opened PathSearch
  import opened Panes
  import opened Navigation

  class State {
    var basePath: Path
    /** `flists: [FileList; 2]`; each pane is overwritten in place, never swapped for another object. */
    const flists: array<FileList>
    var selectedFlist: nat
    const policy: IsDirPolicy
    /** The search `on_left` uses: `Bisection` as the code is written, `FirstMatch` to correct it. */
    const lookup: Lookup

    function Model(): Window
      reads this, flists, flists[..]
      requires flists.Length == PaneCount
    {
      Window(basePath, [flists[0].Value(), flists[1].Value()], selectedFlist, policy)
    }

    ghost predicate Valid()
      reads this, flists, flists[..]
    {
      flists.Length == PaneCount && flists[0] != flists[1] && Inv(Model())
    }

    /** `State::new` once `std::env::current_dir` has given `initPath`. */
    constructor Init(fs: Fs, initPath: Path, policy: IsDirPolicy, lookup: Lookup)
      ensures Valid() && fresh(flists) && fresh(flists[0]) && fresh(flists[1])
      ensures this.lookup == lookup
      ensures Model() == Navigation.Init(fs, initPath, policy)
    {
      var files := ReadFileList(fs, initPath);
      var left := new FileList(files, if |files| > 0 then Some(0) else None);
      var right := new FileList.Default();
      basePath := initPath;
      flists := new FileList[PaneCount] [left, right];
      selectedFlist := 0;
      this.policy := policy;
      this.lookup := lookup;
      new;
      right.Replace(FilesInSelectedDir(Model(), fs), None);
      InitInv(fs, initPath, policy);
    }

    /**
     * `State::new`: fails, as `current_dir()?` does, when the working
     * directory cannot be determined.
     */
    static method New(fs: Fs, currentDir: Option<Path>, policy: IsDirPolicy, lookup: Lookup) returns (r: Option<State>)
      ensures r.None? <==> currentDir.None?
      ensures r.Some? ==> fresh(r.value) && r.value.Valid() && r.value.lookup == lookup &&
                          r.value.Model() == Navigation.Init(fs, currentDir.value, policy)
    {
      if currentDir.None? {
        return None;
      }
      var state := new State.Init(fs, currentDir.value, policy, lookup);
      return Some(state);
    }

    method RefreshFilesToRight(fs: Fs)
      requires flists.Length == PaneCount && flists[0] != flists[1] && selectedFlist < PaneCount
      modifies flists[..]
      ensures Model() == Navigation.RefreshFilesToRight(old(Model()), fs)
    {
      if SpaceToRight(Model()) {
        flists[selectedFlist + 1].Replace(FilesInSelectedDir(Model(), fs), None);
      }
    }

    method OnUp(fs: Fs)
      requires Valid()
      modifies flists[..]
      ensures Valid() && Model() == Navigation.OnUp(old(Model()), fs)
    {
      OnUpInv(Model(), fs);
      var changed := flists[selectedFlist].SelectPrev();
      if changed {
        RefreshFilesToRight(fs);
      }
    }

    method OnDown(fs: Fs)
      requires Valid()
      modifies flists[..]
      ensures Valid() && Model() == Navigation.OnDown(old(Model()), fs)
    {
      OnDownInv(Model(), fs);
      var changed := flists[selectedFlist].SelectNext();
      if changed {
        RefreshFilesToRight(fs);
      }
    }

    method OnLeft(fs: Fs)
      requires Valid()
      modifies this, flists[..]
      ensures Valid() && Model() == Navigation.OnLeft(old(Model()), fs, lookup)
    {
      OnLeftInv(Model(), fs, lookup);
      if selectedFlist != 0 {
        flists[selectedFlist].UnselectFile();
        selectedFlist := selectedFlist - 1;
      } else {
        var parent := Parent(basePath);
        if parent.Some? {
          flists[selectedFlist].UnselectFile();
          var files := ReadFileList(fs, parent.value);
          var selectedFile := FindEntry(lookup, files, basePath);
          flists[1].Replace(flists[0].files, flists[0].selectedFile);
          flists[0].Replace(files, selectedFile);
          basePath := parent.value;
        }
      }
    }

    method OnRight(fs: Fs)
      requires Valid()
      modifies this, flists[..]
      ensures Valid() && Model() == Navigation.OnRight(old(Model()), fs)
    {
      OnRightInv(Model(), fs);
      if SelectedFileIsDir(Model(), fs) {
        if SpaceToRight(Model()) {
          selectedFlist := selectedFlist + 1;
          flists[selectedFlist].SelectFirst();
        } else {
          var selectedDirPath := SelectedFilePath(Model());
          if selectedDirPath.Some? {
            var parent := Parent(selectedDirPath.value);
            if parent.Some? {
              var files := ReadFileList(fs, selectedDirPath.value);
              flists[0].Replace(flists[1].files, flists[1].selectedFile);
              flists[1].Replace(files, if |files| > 0 then Some(0) else None);
              basePath := parent.value;
            }
          }
        }
      }
    }
  }
}
