/**
 The visitor's tests that subscribe observers, or stop enumerating early, on
 the test tree: what each of them collects and which events the walk raises.
 */
module HandlerScenarios {
  import opened Common
  import opened ItemFoundInfo
  import opened FileSystemVisitor
  import opened VisitorReference
  import opened VisitorProofs
  import opened VisitorScenarios

  /** An observer that sets `Stop`. */
  function SetStop(a: ItemArgs): ItemArgs { a.WithStop(true) }

  /** An observer that sets `Exclude`. */
  function SetExclude(a: ItemArgs): ItemArgs { a.WithExclude(true) }

  /** The paths of the four directories below the root, in walk order. */
  function DirPaths(base: string): seq<Path> {
    [Under(base, D0Rel), Under(base, D1Rel), Under(base, D2Rel), Under(base, D3Rel)]
  }

  /** The paths of the four files, in walk order: those of `dir2` first. */
  function FilePaths(base: string): seq<Path> {
    [Under(base, F3Rel), Under(base, F4Rel), Under(base, F1Rel), Under(base, F2Rel)]
  }

  /** The entries of the test tree split into its four directories and its four files. */
  lemma EntriesSplit(base: string)
    ensures |Entries(TestTree(base))| == 8
    ensures Entries(TestTree(base))[..4]
         == [DirEntry(Under(base, RootRel), Under(base, D0Rel)), DirEntry(Under(base, D0Rel), Under(base, D1Rel)),
             DirEntry(Under(base, D1Rel), Under(base, D2Rel)), DirEntry(Under(base, D2Rel), Under(base, D3Rel))]
    ensures Entries(TestTree(base))[4..] == FileEntries(FilePaths(base))
    ensures Paths(Entries(TestTree(base))) == DirPaths(base) + FilePaths(base)
    ensures Paths(Entries(TestTree(base))[..4]) == DirPaths(base)
    ensures Paths(Entries(TestTree(base))[4..]) == FilePaths(base)
    ensures forall e :: e in Entries(TestTree(base))[..4] ==> e.DirEntry?
  {
    TestTreeEntries(base);
    var es := Entries(TestTree(base));
    var dirs := [DirEntry(Under(base, RootRel), Under(base, D0Rel)), DirEntry(Under(base, D0Rel), Under(base, D1Rel)),
                 DirEntry(Under(base, D1Rel), Under(base, D2Rel)), DirEntry(Under(base, D2Rel), Under(base, D3Rel))];
    var files := FileEntries(FilePaths(base));
    assert es == dirs + files;
    assert es[..4] == dirs;
    assert es[4..] == files;
    PathsOfParts(base, dirs, files);
    assert Paths(es) == Paths(dirs) + Paths(files);
  }

  lemma PathsOfParts(base: string, dirs: seq<Entry>, files: seq<Entry>)
    requires dirs == [DirEntry(Under(base, RootRel), Under(base, D0Rel)), DirEntry(Under(base, D0Rel), Under(base, D1Rel)),
                      DirEntry(Under(base, D1Rel), Under(base, D2Rel)), DirEntry(Under(base, D2Rel), Under(base, D3Rel))]
    requires files == FileEntries(FilePaths(base))
    ensures Paths(dirs) == DirPaths(base)
    ensures Paths(files) == FilePaths(base)
  {
  }

  /** The directory paths of directory entries alone are all their paths. */
  lemma {:induction false} DirectoryPathsOfDirectories(es: seq<Entry>)
    requires forall e :: e in es ==> e.DirEntry?
    ensures DirectoryPaths(es) == Paths(es)
    decreases |es|
  {
    if es != [] {
      assert es[0] in es;
      forall e | e in es[1..] ensures e.DirEntry? {
        assert e in es;
      }
      DirectoryPathsOfDirectories(es[1..]);
      assert Paths(es) == [es[0].path] + Paths(es[1..]);
    }
  }

  /** A word with an `f` the base lacks is in none of the directory paths. */
  lemma DirectoriesLackWord(base: string, w: string)
    requires '/' !in w && !Contains(base, w) && 'f' in w
    ensures forall p :: p in DirPaths(base) ==> !Containing(w)(p)
  {
    NoDirectoryHasF(w);
    DirRelFacts(w);
    ContainingUnder(base, D0Rel, w);
    ContainingUnder(base, D1Rel, w);
    ContainingUnder(base, D2Rel, w);
    ContainingUnder(base, D3Rel, w);
  }

  /** A word inside `Test` is in every path below the root. */
  lemma EveryPathHasWord(base: string, w: string)
    requires '/' !in w && Contains("Test", w)
    ensures forall p :: p in DirPaths(base) + FilePaths(base) ==> Containing(w)(p)
  {
    DirRelFacts(w);
    FileRelFacts(w);
    ContainingUnder(base, D0Rel, w);
    ContainingUnder(base, D1Rel, w);
    ContainingUnder(base, D2Rel, w);
    ContainingUnder(base, D3Rel, w);
    ContainingUnder(base, F1Rel, w);
    ContainingUnder(base, F2Rel, w);
    ContainingUnder(base, F3Rel, w);
    ContainingUnder(base, F4Rel, w);
  }

  /** Entries none of which is admitted select nothing. */
  lemma {:induction false} SelectedNone(es: seq<Entry>, filter: Path -> bool, h: Handlers)
    requires forall e :: e in es ==> !Admitted(e, filter, h)
    ensures Selected(es, filter, h) == []
    decreases |es|
  {
    if es != [] {
      assert es[0] in es;
      forall e | e in es[1..] ensures !Admitted(e, filter, h) {
        assert e in es;
      }
      SelectedNone(es[1..], filter, h);
    }
  }

  /** Only the empty sequence is a subsequence of the empty one. */
  lemma SubsequenceOfEmpty<T>(a: seq<T>)
    requires Subsequence(a, [])
    ensures a == []
  {
  }

  // ---------------------------------------------------------------------------
  // Default visitor
  // ---------------------------------------------------------------------------

  /** Without a filter or observers every directory below the root and every file is collected: eight paths. */
  lemma DefaultCollectsEverything(base: string)
    ensures Collected(NewVisitor(Some(TestTree(base))).value, NoObservers) == DirPaths(base) + FilePaths(base)
    ensures |Collected(NewVisitor(Some(TestTree(base))).value, NoObservers)| == 8
  {
    var v := NewVisitor(Some(TestTree(base))).value;
    WalkShape(v, NoObservers);
    DefaultWalkYieldsEverything(TestTree(base));
    EntriesSplit(base);
  }

  /**
   A consumer that breaks after the first item has seen `Start` and the first
   directory, and `Finish` has not fired; one that drains the sequence sees
   `Finish` last.
   */
  lemma BreakAfterFirstItem(base: string)
    ensures Finish !in Enumerate(NewVisitor(Some(TestTree(base))).value, NoObservers, 1)
    ensures Enumerate(NewVisitor(Some(TestTree(base))).value, NoObservers, 1)[0] == Start
    ensures Yields(Enumerate(NewVisitor(Some(TestTree(base))).value, NoObservers, 1)) == [Under(base, D0Rel)]
    ensures Finish in Enumerate(NewVisitor(Some(TestTree(base))).value, NoObservers, 9)
  {
    var v := NewVisitor(Some(TestTree(base))).value;
    DefaultCollectsEverything(base);
    WalkShape(v, NoObservers);
    FinishIffDrained(v, NoObservers, 1);
    FinishIffDrained(v, NoObservers, 9);
    StartFiresOnceFirst(v, NoObservers, 1);
  }

  // ---------------------------------------------------------------------------
  // Observers of the found events
  // ---------------------------------------------------------------------------

  /**
   Stopping at every file found still collects the four directories: each
   stop ends only the frame of the directory holding the file, after all the
   directories below it have been yielded.
   */
  lemma StopAtFileFound(base: string)
    ensures Collected(NewVisitor(Some(TestTree(base))).value, Handlers(Unchanged, Unchanged, SetStop, Unchanged))
         == DirPaths(base)
    ensures |Collected(NewVisitor(Some(TestTree(base))).value, Handlers(Unchanged, Unchanged, SetStop, Unchanged))| == 4
  {
    var v := NewVisitor(Some(TestTree(base))).value;
    var h := Handlers(Unchanged, Unchanged, SetStop, Unchanged);
    WalkYields(v, h);
    StopOnEveryFileFound(TestTree(base), AcceptAll, h);
    assert Collected(v, h) == DirectoryPaths(Entries(TestTree(base)));
    EntriesSplit(base);
    var es := Entries(TestTree(base));
    assert es == es[..4] + es[4..];
    DirectoryPathsAppend(es[..4], es[4..]);
    DirectoryPathsOfFiles(FilePaths(base));
    DirectoryPathsOfDirectories(es[..4]);
    assert DirectoryPaths(es) == DirPaths(base) + [];
  }

  /**
   Excluding every file found with a filter for a word that no directory path
   contains collects nothing, while every directory and file still raises its
   found event, in walk order, and nothing else is raised.
   */
  lemma ExcludeAtFileFound(base: string, w: string)
    requires '/' !in w && !Contains(base, w) && 'f' in w
    ensures Walk(NewFilteredVisitor(Some(TestTree(base)), Some(Containing(w))).value,
                 Handlers(Unchanged, Unchanged, SetExclude, Unchanged))
         == [Start] + FoundEvents(Entries(TestTree(base))) + [Finish]
    ensures Collected(NewFilteredVisitor(Some(TestTree(base)), Some(Containing(w))).value,
                      Handlers(Unchanged, Unchanged, SetExclude, Unchanged)) == []
  {
    var h := Handlers(Unchanged, Unchanged, SetExclude, Unchanged);
    var filter := Containing(w);
    var v := NewFilteredVisitor(Some(TestTree(base)), Some(filter)).value;
    EntriesSplit(base);
    DirectoriesLackWord(base, w);
    var es := Entries(TestTree(base));
    forall e | e in es ensures !PassesFoundStage(e, filter, h) {
      assert e in es[..4] || e in es[4..] by { assert es == es[..4] + es[4..]; }
      if e in es[..4] {
        assert e.path in DirPaths(base);
      }
    }
    NothingPassesFoundStage(TestTree(base), filter, h);
    WalkShape(v, h);
  }

  /**
   Excluding every directory found with a filter for a word inside `Test`
   collects the four files: excluded directories are still searched.
   */
  lemma ExcludeAtDirectoryFound(base: string, w: string)
    requires '/' !in w && Contains("Test", w)
    ensures Collected(NewFilteredVisitor(Some(TestTree(base)), Some(Containing(w))).value,
                      Handlers(SetExclude, Unchanged, Unchanged, Unchanged)) == FilePaths(base)
    ensures |Collected(NewFilteredVisitor(Some(TestTree(base)), Some(Containing(w))).value,
                       Handlers(SetExclude, Unchanged, Unchanged, Unchanged))| == 4
  {
    var h := Handlers(SetExclude, Unchanged, Unchanged, Unchanged);
    var filter := Containing(w);
    var v := NewFilteredVisitor(Some(TestTree(base)), Some(filter)).value;
    WalkShape(v, h);
    ExcludedDirectoriesAreStillSearched(TestTree(base), filter, h);
    SelectedFilesOnly(base, w);
  }

  /** With every directory excluded and every path holding the word, the selected entries are the four files. */
  lemma SelectedFilesOnly(base: string, w: string)
    requires '/' !in w && Contains("Test", w)
    ensures Selected(Entries(TestTree(base)), Containing(w), Handlers(SetExclude, Unchanged, Unchanged, Unchanged))
         == FilePaths(base)
  {
    var h := Handlers(SetExclude, Unchanged, Unchanged, Unchanged);
    var filter := Containing(w);
    EntriesSplit(base);
    var es := Entries(TestTree(base));
    assert es == es[..4] + es[4..];
    SelectedAppend(es[..4], es[4..], filter, h);
    SelectedNone(es[..4], filter, h);
    FilesAdmitted(base, w);
    SelectedAllAdmitted(es[4..], filter, h);
  }

  /** Every file of the test tree passes a filter for a word inside `Test` and is not excluded. */
  lemma FilesAdmitted(base: string, w: string)
    requires '/' !in w && Contains("Test", w)
    ensures forall e :: e in FileEntries(FilePaths(base))
              ==> Admitted(e, Containing(w), Handlers(SetExclude, Unchanged, Unchanged, Unchanged))
  {
    EveryPathHasWord(base, w);
    forall e | e in FileEntries(FilePaths(base))
      ensures Admitted(e, Containing(w), Handlers(SetExclude, Unchanged, Unchanged, Unchanged))
    {
      assert e.path in FilePaths(base);
    }
  }

  // ---------------------------------------------------------------------------
  // Observers of the filtered-found events
  // ---------------------------------------------------------------------------

  /**
   Stopping at the first filtered directory ends the root's frame at once:
   the walk raises the found and filtered-found events of `Test/Test` and
   nothing else, and collects nothing.
   */
  lemma StopAtFilteredDirectoryFound(base: string, w: string)
    requires '/' !in w && Contains("Test", w)
    ensures Walk(NewFilteredVisitor(Some(TestTree(base)), Some(Containing(w))).value,
                 Handlers(Unchanged, SetStop, Unchanged, Unchanged))
         == [Start, DirectoryFound(Fresh(Under(base, RootRel)), Under(base, D0Rel)),
             FilteredDirectoryFound(Fresh(Under(base, RootRel)), Under(base, D0Rel)), Finish]
    ensures Collected(NewFilteredVisitor(Some(TestTree(base)), Some(Containing(w))).value,
                      Handlers(Unchanged, SetStop, Unchanged, Unchanged)) == []
  {
    var h := Handlers(Unchanged, SetStop, Unchanged, Unchanged);
    var filter := Containing(w);
    var v := NewFilteredVisitor(Some(TestTree(base)), Some(filter)).value;
    EveryPathHasWord(base, w);
    assert filter(Under(base, D0Rel));
    var root := TestTree(base);
    assert DirTrace(root, filter, h) == SubdirsTrace(root, 0, filter, h);
    WalkShape(v, h);
  }

  /**
   Stopping at every filtered file with a filter for a word that no directory
   path contains collects nothing: no directory passes the filter and every
   file that does ends its frame.
   */
  lemma StopAtFilteredFileFound(base: string, w: string)
    requires '/' !in w && !Contains(base, w) && 'f' in w
    ensures Collected(NewFilteredVisitor(Some(TestTree(base)), Some(Containing(w))).value,
                      Handlers(Unchanged, Unchanged, Unchanged, SetStop)) == []
  {
    var h := Handlers(Unchanged, Unchanged, Unchanged, SetStop);
    var filter := Containing(w);
    var v := NewFilteredVisitor(Some(TestTree(base)), Some(filter)).value;
    EntriesSplit(base);
    DirectoriesLackWord(base, w);
    var es := Entries(TestTree(base));
    forall e | e in es ensures !Admitted(e, filter, h) {
      assert e in es[..4] || e in es[4..] by { assert es == es[..4] + es[4..]; }
      if e in es[..4] {
        assert e.path in DirPaths(base);
      }
    }
    SelectedNone(es, filter, h);
    DirYieldsSelected(TestTree(base), filter, h);
    SubsequenceOfEmpty(Yields(DirTrace(TestTree(base), filter, h)));
    WalkShape(v, h);
  }

  // ---------------------------------------------------------------------------
  // The words the tests filter for
  // ---------------------------------------------------------------------------

  /** Filter "file4.txt", exclude at every file found: nothing is collected. */
  lemma ExpectedExcludeAtFileFound(base: string)
    requires !Contains(base, "file4.txt")
    ensures Collected(NewFilteredVisitor(Some(TestTree(base)), Some(Containing("file4.txt"))).value,
                      Handlers(Unchanged, Unchanged, SetExclude, Unchanged)) == []
  {
    ExcludeAtFileFound(base, "file4.txt");
  }

  /** Filter "Test", exclude at every directory found: the four files are collected. */
  lemma ExpectedExcludeAtDirectoryFound(base: string)
    ensures |Collected(NewFilteredVisitor(Some(TestTree(base)), Some(Containing("Test"))).value,
                       Handlers(SetExclude, Unchanged, Unchanged, Unchanged))| == 4
  {
    ContainsPrefix("Test", "Test");
    ExcludeAtDirectoryFound(base, "Test");
  }

  /** Filter "Test", stop at the first filtered directory: nothing is collected. */
  lemma ExpectedStopAtFilteredDirectoryFound(base: string)
    ensures Collected(NewFilteredVisitor(Some(TestTree(base)), Some(Containing("Test"))).value,
                      Handlers(Unchanged, SetStop, Unchanged, Unchanged)) == []
  {
    ContainsPrefix("Test", "Test");
    StopAtFilteredDirectoryFound(base, "Test");
  }

  /** Filter "file4", stop at every filtered file: nothing is collected. */
  lemma ExpectedStopAtFilteredFileFound(base: string)
    requires !Contains(base, "file4")
    ensures Collected(NewFilteredVisitor(Some(TestTree(base)), Some(Containing("file4"))).value,
                      Handlers(Unchanged, Unchanged, Unchanged, SetStop)) == []
  {
    StopAtFilteredFileFound(base, "file4");
  }

  // ---------------------------------------------------------------------------
  // A stop is local to its directory
  // ---------------------------------------------------------------------------

  /** The events of a subdirectory that passes both found stages untouched yield its path alone. */
  lemma YieldsOfDirectoryHead(parent: Path, p: Path)
    ensures Yields([DirectoryFound(Fresh(parent), p), FilteredDirectoryFound(Fresh(parent), p), Yielded(p)]) == [p]
  {
    var t := [DirectoryFound(Fresh(parent), p), FilteredDirectoryFound(Fresh(parent), p), Yielded(p)];
    assert t[1..][1..] == [Yielded(p)];
    YieldsOfOne(Yielded(p));
  }

  /** A root holding `A`, which holds one file, and then `B`. */
  function TwoSiblings(): Dir {
    Dir("r", [Dir("r/A", [], ["r/A/f"]), Dir("r/B", [], [])], [])
  }

  /**
   Stopping at a file found inside `A` ends the frame of `A` only: the walk
   goes on with `B`, collects both directories, and finishes when drained.
   */
  lemma StopInSubdirectoryContinuesWithSibling()
    ensures Collected(NewVisitor(Some(TwoSiblings())).value, Handlers(Unchanged, Unchanged, SetStop, Unchanged))
         == ["r/A", "r/B"]
    ensures Finish in Enumerate(NewVisitor(Some(TwoSiblings())).value, Handlers(Unchanged, Unchanged, SetStop, Unchanged), 3)
  {
    var v := NewVisitor(Some(TwoSiblings())).value;
    var h := Handlers(Unchanged, Unchanged, SetStop, Unchanged);
    var d := TwoSiblings();
    var a := d.subdirs[0];
    var b := d.subdirs[1];
    assert FilesTrace(a.files, AcceptAll, h) == [FileFound(Fresh("r/A/f"), "r/A/f")];
    assert DirTrace(a, AcceptAll, h) == SubdirsTrace(a, 0, AcceptAll, h) == FilesTrace(a.files, AcceptAll, h);
    assert DirTrace(b, AcceptAll, h) == [];
    assert SubdirsTrace(d, 2, AcceptAll, h) == [];
    assert SubdirsTrace(d, 1, AcceptAll, h)
        == [DirectoryFound(Fresh("r"), "r/B"), FilteredDirectoryFound(Fresh("r"), "r/B"), Yielded("r/B")];
    var headA := [DirectoryFound(Fresh("r"), "r/A"), FilteredDirectoryFound(Fresh("r"), "r/A"), Yielded("r/A")];
    assert DirTrace(d, AcceptAll, h) == headA + DirTrace(a, AcceptAll, h) + SubdirsTrace(d, 1, AcceptAll, h);
    YieldsAppend(headA + DirTrace(a, AcceptAll, h), SubdirsTrace(d, 1, AcceptAll, h));
    YieldsAppend(headA, DirTrace(a, AcceptAll, h));
    YieldsOfDirectoryHead("r", "r/A");
    YieldsOfDirectoryHead("r", "r/B");
    assert Yields(DirTrace(a, AcceptAll, h)) == [] by {
      YieldsOfOne(FileFound(Fresh("r/A/f"), "r/A/f"));
    }
    WalkShape(v, h);
    FinishIffDrained(v, h, 3);
  }
}
