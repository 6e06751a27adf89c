/**
 Properties of the visitor's walk: the order and multiplicity of the yielded
 paths, what the filter and the two flags do, where `Stop` takes effect, and
 when `Start` and `Finish` fire for a lazy consumer.
 */
module VisitorProofs {
  import opened Common
  import opened ItemFoundInfo
  import opened FileSystemVisitor
  import opened VisitorReference

  // ---------------------------------------------------------------------------
  // Sequence helpers
  // ---------------------------------------------------------------------------

  lemma {:induction false} YieldsAppend(a: seq<Event>, b: seq<Event>)
    ensures Yields(a + b) == Yields(a) + Yields(b)
    decreases |a|
  {
    if a == [] {
      assert a + b == b;
    } else {
      var t := a + b;
      var x := if a[0].Yielded? then [a[0].path] else [];
      assert t[0] == a[0];
      assert t[1..] == a[1..] + b;
      assert Yields(t) == x + Yields(a[1..] + b);
      assert Yields(a) == x + Yields(a[1..]);
      YieldsAppend(a[1..], b);
      assert x + (Yields(a[1..]) + Yields(b)) == (x + Yields(a[1..])) + Yields(b);
    }
  }

  lemma YieldsOfOne(ev: Event)
    ensures Yields([ev]) == if ev.Yielded? then [ev.path] else []
  {
    assert [ev][1..] == [];
  }

  lemma {:induction false} SelectedAppend(a: seq<Entry>, b: seq<Entry>, filter: Path -> bool, h: Handlers)
    ensures Selected(a + b, filter, h) == Selected(a, filter, h) + Selected(b, filter, h)
    decreases |a|
  {
    if a == [] {
      assert a + b == b;
    } else {
      assert (a + b)[1..] == a[1..] + b;
      SelectedAppend(a[1..], b, filter, h);
    }
  }

  lemma SelectedCons(e: Entry, es: seq<Entry>, filter: Path -> bool, h: Handlers)
    ensures Selected([e] + es, filter, h) == (if Admitted(e, filter, h) then [e.path] else []) + Selected(es, filter, h)
  {
    assert ([e] + es)[1..] == es;
  }

  lemma {:induction false} DirectoryPathsAppend(a: seq<Entry>, b: seq<Entry>)
    ensures DirectoryPaths(a + b) == DirectoryPaths(a) + DirectoryPaths(b)
    decreases |a|
  {
    if a == [] {
      assert a + b == b;
    } else {
      var t := a + b;
      var x := if a[0].DirEntry? then [a[0].path] else [];
      assert t[0] == a[0];
      assert t[1..] == a[1..] + b;
      assert DirectoryPaths(t) == x + DirectoryPaths(a[1..] + b);
      assert DirectoryPaths(a) == x + DirectoryPaths(a[1..]);
      DirectoryPathsAppend(a[1..], b);
      assert x + (DirectoryPaths(a[1..]) + DirectoryPaths(b)) == (x + DirectoryPaths(a[1..])) + DirectoryPaths(b);
    }
  }

  lemma {:induction false} DirectoryPathsOfFiles(files: seq<Path>)
    ensures DirectoryPaths(FileEntries(files)) == []
    decreases |files|
  {
    if files != [] {
      FileEntriesCons(files);
      DirectoryPathsOfFiles(files[1..]);
    }
  }

  lemma FileEntriesCons(files: seq<Path>)
    requires files != []
    ensures FileEntries(files) == [FileEntry(files[0])] + FileEntries(files[1..])
  {
  }

  lemma EntriesFromCons(d: Dir, i: nat)
    requires i < |d.subdirs|
    ensures EntriesFrom(d, i)
         == [DirEntry(d.path, d.subdirs[i].path)] + (Entries(d.subdirs[i]) + EntriesFrom(d, i + 1))
  {
  }

  lemma SubsequenceOfSelf<T>(a: seq<T>)
    ensures Subsequence(a, a)
    decreases |a|
  {
    if a != [] {
      SubsequenceOfSelf(a[1..]);
    }
  }

  lemma {:induction false} SubsequenceAppend<T>(a: seq<T>, b: seq<T>, c: seq<T>, d: seq<T>)
    requires Subsequence(a, b) && Subsequence(c, d)
    ensures Subsequence(a + c, b + d)
    decreases |b|
  {
    if b == [] {
      assert a == [];
      assert a + c == c && b + d == d;
    } else {
      assert (b + d)[1..] == b[1..] + d;
      if a == [] {
        assert Subsequence(a, b[1..]);
        SubsequenceAppend(a, b[1..], c, d);
      } else {
        assert (a + c)[1..] == a[1..] + c;
        if a[0] == b[0] && Subsequence(a[1..], b[1..]) {
          SubsequenceAppend(a[1..], b[1..], c, d);
        } else {
          SubsequenceAppend(a, b[1..], c, d);
        }
      }
    }
  }

  lemma {:induction false} SubsequenceMembers<T>(a: seq<T>, b: seq<T>)
    requires Subsequence(a, b)
    ensures forall x :: x in a ==> x in b
    decreases |b|
  {
    if a != [] {
      if a[0] == b[0] && Subsequence(a[1..], b[1..]) {
        SubsequenceMembers(a[1..], b[1..]);
        assert forall x :: x in a ==> x == a[0] || x in a[1..];
      } else {
        SubsequenceMembers(a, b[1..]);
      }
    }
  }

  lemma {:induction false} SelectedMembers(es: seq<Entry>, filter: Path -> bool, h: Handlers)
    ensures forall p :: p in Selected(es, filter, h) ==> exists e :: e in es && e.path == p && Admitted(e, filter, h)
    decreases |es|
  {
    if es != [] {
      SelectedMembers(es[1..], filter, h);
      var head := if Admitted(es[0], filter, h) then [es[0].path] else [];
      assert Selected(es, filter, h) == head + Selected(es[1..], filter, h);
      forall p | p in Selected(es, filter, h)
        ensures exists e :: e in es && e.path == p && Admitted(e, filter, h)
      {
        if p in head {
          assert es[0] in es;
        } else {
          var e :| e in es[1..] && e.path == p && Admitted(e, filter, h);
          assert e in es;
        }
      }
    }
  }

  // ---------------------------------------------------------------------------
  // Which paths are yielded
  // ---------------------------------------------------------------------------

  /** The events the walker raises for file `f` before it moves on to the next file or ends the frame. */
  function FileHead(f: Path, filter: Path -> bool, h: Handlers): seq<Event> {
    var a := Fresh(f);
    if !PassesFoundStage(FileEntry(f), filter, h) || h.fileFound(a).stop then [FileFound(a, f)]
    else
      [FileFound(a, f), FilteredFileFound(a, f)]
      + (if h.filteredFileFound(a).stop || h.filteredFileFound(a).exclude then [] else [Yielded(f)])
  }

  lemma FilesTraceCons(files: seq<Path>, filter: Path -> bool, h: Handlers)
    requires files != []
    ensures FilesTrace(files, filter, h)
         == FileHead(files[0], filter, h)
            + (if Halts(FileEntry(files[0]), filter, h) then [] else FilesTrace(files[1..], filter, h))
    ensures Yields(FileHead(files[0], filter, h))
         == if Admitted(FileEntry(files[0]), filter, h) then [files[0]] else []
  {
    var f := files[0];
    var a := Fresh(f);
    assert FoundVerdict(FileEntry(f), h) == h.fileFound(a);
    assert FilteredVerdict(FileEntry(f), h) == h.filteredFileFound(a);
    var rest := FilesTrace(files[1..], filter, h);
    var head := [FileFound(a, f)];
    if filter(f) && !h.fileFound(a).exclude && !h.fileFound(a).stop {
      var head' := head + [FilteredFileFound(a, f)];
      var tl := if h.filteredFileFound(a).exclude then [] else [Yielded(f)];
      if !h.filteredFileFound(a).stop {
        assert FilesTrace(files, filter, h) == head' + tl + rest;
        assert head' + tl == FileHead(f, filter, h);
      }
    } else if !filter(f) || h.fileFound(a).exclude {
      assert FilesTrace(files, filter, h) == head + rest;
    }
    FileHeadYields(f, filter, h);
  }

  lemma FileHeadYields(f: Path, filter: Path -> bool, h: Handlers)
    ensures Yields(FileHead(f, filter, h))
         == if Admitted(FileEntry(f), filter, h) then [f] else []
  {
    var a := Fresh(f);
    assert FoundVerdict(FileEntry(f), h) == h.fileFound(a);
    assert FilteredVerdict(FileEntry(f), h) == h.filteredFileFound(a);
    if !PassesFoundStage(FileEntry(f), filter, h) || h.fileFound(a).stop {
      YieldsOfOne(FileFound(a, f));
    } else {
      var tl := if h.filteredFileFound(a).stop || h.filteredFileFound(a).exclude then [] else [Yielded(f)];
      YieldsAppend([FileFound(a, f)], [FilteredFileFound(a, f)] + tl);
      YieldsAppend([FilteredFileFound(a, f)], tl);
      YieldsOfOne(FileFound(a, f));
      YieldsOfOne(FilteredFileFound(a, f));
      if tl != [] { YieldsOfOne(Yielded(f)); }
    }
  }

  /** The events the walker raises for the `i`-th subdirectory of `d` before descending into it or ending the frame. */
  function SubdirHead(d: Dir, i: nat, filter: Path -> bool, h: Handlers): seq<Event>
    requires i < |d.subdirs|
  {
    var a := Fresh(d.path);
    var p := d.subdirs[i].path;
    if !PassesFoundStage(DirEntry(d.path, p), filter, h) || h.directoryFound(a).stop then [DirectoryFound(a, p)]
    else
      [DirectoryFound(a, p), FilteredDirectoryFound(a, p)]
      + (if h.filteredDirectoryFound(a).stop || h.filteredDirectoryFound(a).exclude then [] else [Yielded(p)])
  }

  lemma SubdirsTraceCons(d: Dir, i: nat, filter: Path -> bool, h: Handlers)
    requires i < |d.subdirs|
    ensures SubdirsTrace(d, i, filter, h)
         == SubdirHead(d, i, filter, h)
            + (if Halts(DirEntry(d.path, d.subdirs[i].path), filter, h) then []
               else DirTrace(d.subdirs[i], filter, h) + SubdirsTrace(d, i + 1, filter, h))
    ensures Yields(SubdirHead(d, i, filter, h))
         == if Admitted(DirEntry(d.path, d.subdirs[i].path), filter, h)
            then [d.subdirs[i].path] else []
  {
    var e := DirEntry(d.path, d.subdirs[i].path);
    assert FoundVerdict(e, h) == h.directoryFound(Fresh(d.path));
    assert FilteredVerdict(e, h) == h.filteredDirectoryFound(Fresh(d.path));
    SubdirHeadYields(d, i, filter, h);
  }

  lemma SubdirHeadYields(d: Dir, i: nat, filter: Path -> bool, h: Handlers)
    requires i < |d.subdirs|
    ensures Yields(SubdirHead(d, i, filter, h))
         == if Admitted(DirEntry(d.path, d.subdirs[i].path), filter, h)
            then [d.subdirs[i].path] else []
  {
    var a := Fresh(d.path);
    var p := d.subdirs[i].path;
    assert FoundVerdict(DirEntry(d.path, p), h) == h.directoryFound(a);
    assert FilteredVerdict(DirEntry(d.path, p), h) == h.filteredDirectoryFound(a);
    if !PassesFoundStage(DirEntry(d.path, p), filter, h) || h.directoryFound(a).stop {
      YieldsOfOne(DirectoryFound(a, p));
    } else {
      var tl := if h.filteredDirectoryFound(a).stop || h.filteredDirectoryFound(a).exclude then [] else [Yielded(p)];
      YieldsAppend([DirectoryFound(a, p)], [FilteredDirectoryFound(a, p)] + tl);
      YieldsAppend([FilteredDirectoryFound(a, p)], tl);
      YieldsOfOne(DirectoryFound(a, p));
      YieldsOfOne(FilteredDirectoryFound(a, p));
      if tl != [] { YieldsOfOne(Yielded(p)); }
    }
  }

  /**
   A file frame yields the admitted files in order, except that a stop cuts it
   short; with no stop ever acted on it yields exactly the admitted files.
   */
  lemma {:induction false} FilesYieldSelected(files: seq<Path>, filter: Path -> bool, h: Handlers)
    ensures Subsequence(Yields(FilesTrace(files, filter, h)), Selected(FileEntries(files), filter, h))
    ensures NoneHalts(FileEntries(files), filter, h) ==> Yields(FilesTrace(files, filter, h)) == Selected(FileEntries(files), filter, h)
    decreases |files|
  {
    if files != [] {
      var f := files[0];
      FileEntriesCons(files);
      SelectedCons(FileEntry(f), FileEntries(files[1..]), filter, h);
      FilesYieldSelected(files[1..], filter, h);
      FilesTraceCons(files, filter, h);
      var hd := FileHead(f, filter, h);
      var tl := if Halts(FileEntry(f), filter, h) then [] else FilesTrace(files[1..], filter, h);
      YieldsAppend(hd, tl);
      if !Halts(FileEntry(f), filter, h) {
        SubsequenceOfSelf(Yields(hd));
        SubsequenceAppend(Yields(hd), Yields(hd), Yields(tl), Selected(FileEntries(files[1..]), filter, h));
      }
    }
  }

  /**
   The walk of a directory yields, in order, a subsequence of its admitted
   entries in depth-first order (a stop cuts some out); when no stop is ever
   acted on it yields exactly the admitted entries.
   */
  lemma {:induction false} DirYieldsSelected(d: Dir, filter: Path -> bool, h: Handlers)
    ensures Subsequence(Yields(DirTrace(d, filter, h)), Selected(Entries(d), filter, h))
    ensures NoneHalts(Entries(d), filter, h) ==> Yields(DirTrace(d, filter, h)) == Selected(Entries(d), filter, h)
    decreases d, 1
  {
    SubdirsYieldSelected(d, 0, filter, h);
  }

  lemma {:induction false} SubdirsYieldSelected(d: Dir, i: nat, filter: Path -> bool, h: Handlers)
    requires i <= |d.subdirs|
    ensures Subsequence(Yields(SubdirsTrace(d, i, filter, h)), Selected(EntriesFrom(d, i), filter, h))
    ensures NoneHalts(EntriesFrom(d, i), filter, h) ==> Yields(SubdirsTrace(d, i, filter, h)) == Selected(EntriesFrom(d, i), filter, h)
    decreases d, 0, |d.subdirs| - i
  {
    if i == |d.subdirs| {
      FilesYieldSelected(d.files, filter, h);
    } else {
      var s := d.subdirs[i];
      var e := DirEntry(d.path, s.path);
      DirYieldsSelected(s, filter, h);
      SubdirsYieldSelected(d, i + 1, filter, h);
      EntriesFromCons(d, i);
      SelectedCons(e, Entries(s) + EntriesFrom(d, i + 1), filter, h);
      SelectedAppend(Entries(s), EntriesFrom(d, i + 1), filter, h);
      SubdirsTraceCons(d, i, filter, h);
      var hd := SubdirHead(d, i, filter, h);
      var sub := DirTrace(s, filter, h);
      var rest := SubdirsTrace(d, i + 1, filter, h);
      var tl := if Halts(DirEntry(d.path, d.subdirs[i].path), filter, h) then [] else sub + rest;
      YieldsAppend(hd, tl);
      if !Halts(DirEntry(d.path, d.subdirs[i].path), filter, h) {
        YieldsAppend(sub, rest);
        SubsequenceOfSelf(Yields(hd));
        SubsequenceAppend(Yields(sub), Selected(Entries(s), filter, h), Yields(rest), Selected(EntriesFrom(d, i + 1), filter, h));
        SubsequenceAppend(Yields(hd), Yields(hd), Yields(sub) + Yields(rest),
                          Selected(Entries(s), filter, h) + Selected(EntriesFrom(d, i + 1), filter, h));
      }
    }
  }

  /**
   Every path the walk yields is an entry below the root that passes the
   filter and that no observer excluded; directories that fail the filter are
   still searched, so their admitted descendants can be yielded.
   */
  lemma YieldedPathsAreAdmitted(d: Dir, filter: Path -> bool, h: Handlers)
    ensures forall p :: p in Yields(DirTrace(d, filter, h)) ==>
      filter(p) && exists e :: e in Entries(d) && e.path == p && Admitted(e, filter, h)
  {
    DirYieldsSelected(d, filter, h);
    SubsequenceMembers(Yields(DirTrace(d, filter, h)), Selected(Entries(d), filter, h));
    SelectedMembers(Entries(d), filter, h);
  }

  // ---------------------------------------------------------------------------
  // The default walk
  // ---------------------------------------------------------------------------

  lemma {:induction false} SelectedAllAdmitted(es: seq<Entry>, filter: Path -> bool, h: Handlers)
    requires forall e :: e in es ==> Admitted(e, filter, h)
    ensures Selected(es, filter, h) == Paths(es)
    decreases |es|
  {
    if es != [] {
      SelectedAllAdmitted(es[1..], filter, h);
      assert Paths(es) == [es[0].path] + Paths(es[1..]);
    }
  }

  lemma {:induction false} EntriesCount(d: Dir)
    ensures |Entries(d)| == DirCount(d) + FileCount(d)
    ensures |DirectoryPaths(Entries(d))| == DirCount(d)
    decreases d, 1
  {
    EntriesFromCount(d, 0);
  }

  lemma {:induction false} EntriesFromCount(d: Dir, i: nat)
    requires i <= |d.subdirs|
    ensures |EntriesFrom(d, i)| == DirCountFrom(d, i) + FileCountFrom(d, i)
    ensures |DirectoryPaths(EntriesFrom(d, i))| == DirCountFrom(d, i)
    decreases d, 0, |d.subdirs| - i
  {
    if i == |d.subdirs| {
      DirectoryPathsOfFiles(d.files);
    } else {
      var s := d.subdirs[i];
      EntriesCount(s);
      EntriesFromCount(d, i + 1);
      EntriesFromCons(d, i);
      DirectoryPathsAppend([DirEntry(d.path, s.path)], Entries(s) + EntriesFrom(d, i + 1));
      DirectoryPathsAppend(Entries(s), EntriesFrom(d, i + 1));
      assert DirectoryPaths([DirEntry(d.path, s.path)]) == [s.path];
    }
  }

  /**
   With the default filter and nobody subscribed, the walk yields every
   directory strictly below the root and every file, each once, in depth-first
   order with a directory's own files after all its subdirectories.
   */
  lemma DefaultWalkYieldsEverything(d: Dir)
    ensures Yields(DirTrace(d, AcceptAll, NoObservers)) == Paths(Entries(d))
    ensures |Yields(DirTrace(d, AcceptAll, NoObservers))| == DirCount(d) + FileCount(d)
  {
    DirYieldsSelected(d, AcceptAll, NoObservers);
    SelectedAllAdmitted(Entries(d), AcceptAll, NoObservers);
    EntriesCount(d);
  }

  // ---------------------------------------------------------------------------
  // Where Stop takes effect
  // ---------------------------------------------------------------------------

  /** A stop read for the `k`-th file ends its frame: the files after it raise no event at all. */
  lemma {:induction false} FileStopSkipsRemainingFiles(files: seq<Path>, k: nat, filter: Path -> bool, h: Handlers)
    requires k < |files| && Halts(FileEntry(files[k]), filter, h)
    ensures FilesTrace(files, filter, h) == FilesTrace(files[..k + 1], filter, h)
    decreases k
  {
    var f := files[0];
    if !Halts(FileEntry(f), filter, h) {
      assert k > 0;
      assert files[..k + 1][1..] == files[1..][..k];
      FileStopSkipsRemainingFiles(files[1..], k - 1, filter, h);
    }
  }

  /**
   A stop read for the `i`-th subdirectory of `d` ends the frame of `d`: the
   walk of `d` is the same as if `d` had no later subdirectories and no files.
   */
  lemma DirectoryStopSkipsRestOfFrame(d: Dir, i: nat, filter: Path -> bool, h: Handlers)
    requires i < |d.subdirs| && Halts(DirEntry(d.path, d.subdirs[i].path), filter, h)
    ensures DirTrace(d, filter, h) == DirTrace(Dir(d.path, d.subdirs[..i + 1], []), filter, h)
  {
    SubdirsStopSkipsRest(d, 0, i, filter, h);
  }

  lemma {:induction false} SubdirsStopSkipsRest(d: Dir, j: nat, i: nat, filter: Path -> bool, h: Handlers)
    requires j <= i < |d.subdirs| && Halts(DirEntry(d.path, d.subdirs[i].path), filter, h)
    ensures SubdirsTrace(d, j, filter, h) == SubdirsTrace(Dir(d.path, d.subdirs[..i + 1], []), j, filter, h)
    decreases i - j
  {
    var d' := Dir(d.path, d.subdirs[..i + 1], []);
    assert d'.subdirs[j] == d.subdirs[j];
    if j < i {
      SubdirsStopSkipsRest(d, j + 1, i, filter, h);
    }
  }

  /**
   `Stop` is local to the frame that reads it. When every found file stops,
   each directory's file frame ends at its first file, yet every enclosing
   frame goes on: the walk yields every directory below the root and no file.
   */
  lemma {:induction false} StopOnEveryFileFound(d: Dir, filter: Path -> bool, h: Handlers)
    requires forall p :: filter(p)
    requires forall n :: h.fileFound(Fresh(n)).stop && !h.fileFound(Fresh(n)).exclude
    requires forall n :: !h.directoryFound(Fresh(n)).stop && !h.directoryFound(Fresh(n)).exclude
    requires forall n :: !h.filteredDirectoryFound(Fresh(n)).stop && !h.filteredDirectoryFound(Fresh(n)).exclude
    ensures Yields(DirTrace(d, filter, h)) == DirectoryPaths(Entries(d))
    ensures |Yields(DirTrace(d, filter, h))| == DirCount(d)
    decreases d, 1
  {
    SubdirsStopOnEveryFileFound(d, 0, filter, h);
    EntriesCount(d);
  }

  lemma {:induction false} SubdirsStopOnEveryFileFound(d: Dir, i: nat, filter: Path -> bool, h: Handlers)
    requires i <= |d.subdirs|
    requires forall p :: filter(p)
    requires forall n :: h.fileFound(Fresh(n)).stop && !h.fileFound(Fresh(n)).exclude
    requires forall n :: !h.directoryFound(Fresh(n)).stop && !h.directoryFound(Fresh(n)).exclude
    requires forall n :: !h.filteredDirectoryFound(Fresh(n)).stop && !h.filteredDirectoryFound(Fresh(n)).exclude
    ensures Yields(SubdirsTrace(d, i, filter, h)) == DirectoryPaths(EntriesFrom(d, i))
    decreases d, 0, |d.subdirs| - i
  {
    if i == |d.subdirs| {
      DirectoryPathsOfFiles(d.files);
      if d.files != [] {
        var f := d.files[0];
        assert filter(f) && h.fileFound(Fresh(f)).stop && !h.fileFound(Fresh(f)).exclude;
        FilesTraceCons(d.files, filter, h);
        assert FilesTrace(d.files, filter, h) == FileHead(f, filter, h) + [];
      }
    } else {
      var s := d.subdirs[i];
      var e := DirEntry(d.path, s.path);
      StopOnEveryFileFound(s, filter, h);
      SubdirsStopOnEveryFileFound(d, i + 1, filter, h);
      assert filter(s.path);
      assert !h.directoryFound(Fresh(d.path)).stop && !h.directoryFound(Fresh(d.path)).exclude;
      assert !h.filteredDirectoryFound(Fresh(d.path)).stop && !h.filteredDirectoryFound(Fresh(d.path)).exclude;
      assert Admitted(e, filter, h) && !Halts(DirEntry(d.path, d.subdirs[i].path), filter, h);
      SubdirsTraceCons(d, i, filter, h);
      var hd := SubdirHead(d, i, filter, h);
      var sub := DirTrace(s, filter, h);
      var rest := SubdirsTrace(d, i + 1, filter, h);
      YieldsAppend(hd, sub + rest);
      YieldsAppend(sub, rest);
      EntriesFromCons(d, i);
      DirectoryPathsAppend([e], Entries(s) + EntriesFrom(d, i + 1));
      DirectoryPathsAppend(Entries(s), EntriesFrom(d, i + 1));
      assert DirectoryPaths([e]) == [s.path];
    }
  }

  // ---------------------------------------------------------------------------
  // Stops that are never read
  // ---------------------------------------------------------------------------

  /**
   When no entry passes the found stage (the filter rejects it or an observer
   excludes it), the walk raises exactly one found event per entry, in
   depth-first order, whatever else the observers do: a stop set on such an
   event is never read and no filtered-found event is raised.
   */
  lemma {:induction false} NothingPassesFoundStage(d: Dir, filter: Path -> bool, h: Handlers)
    requires forall e :: e in Entries(d) ==> !PassesFoundStage(e, filter, h)
    ensures DirTrace(d, filter, h) == FoundEvents(Entries(d))
    ensures Yields(DirTrace(d, filter, h)) == []
    decreases d, 1
  {
    SubdirsNothingPassesFoundStage(d, 0, filter, h);
    FoundEventsYieldNothing(Entries(d));
  }

  lemma {:induction false} FoundEventsYieldNothing(es: seq<Entry>)
    ensures Yields(FoundEvents(es)) == []
    decreases |es|
  {
    if es != [] {
      FoundEventsAppend([es[0]], es[1..]);
      assert [es[0]] + es[1..] == es;
      FoundEventsYieldNothing(es[1..]);
      YieldsAppend(FoundEvents([es[0]]), FoundEvents(es[1..]));
      YieldsOfOne(FoundEvent(es[0]));
      assert FoundEvents([es[0]]) == [FoundEvent(es[0])];
    }
  }

  lemma {:induction false} SubdirsNothingPassesFoundStage(d: Dir, i: nat, filter: Path -> bool, h: Handlers)
    requires i <= |d.subdirs|
    requires forall e :: e in EntriesFrom(d, i) ==> !PassesFoundStage(e, filter, h)
    ensures SubdirsTrace(d, i, filter, h) == FoundEvents(EntriesFrom(d, i))
    decreases d, 0, |d.subdirs| - i
  {
    if i == |d.subdirs| {
      FilesNothingPassesFoundStage(d.files, filter, h);
    } else {
      var s := d.subdirs[i];
      var e := DirEntry(d.path, s.path);
      EntriesFromCons(d, i);
      NothingPassesFoundStage(s, filter, h);
      SubdirsNothingPassesFoundStage(d, i + 1, filter, h);
      assert !PassesFoundStage(e, filter, h);
      FoundEventsAppend([e], Entries(s) + EntriesFrom(d, i + 1));
      FoundEventsAppend(Entries(s), EntriesFrom(d, i + 1));
    }
  }

  lemma {:induction false} FilesNothingPassesFoundStage(files: seq<Path>, filter: Path -> bool, h: Handlers)
    requires forall e :: e in FileEntries(files) ==> !PassesFoundStage(e, filter, h)
    ensures FilesTrace(files, filter, h) == FoundEvents(FileEntries(files))
    decreases |files|
  {
    if files != [] {
      var f := files[0];
      var rest := FileEntries(files[1..]);
      FileEntriesCons(files);
      assert FileEntries(files) == [FileEntry(f)] + rest;
      assert !PassesFoundStage(FileEntry(f), filter, h);
      assert FoundVerdict(FileEntry(f), h) == h.fileFound(Fresh(f));
      assert FilesTrace(files, filter, h) == [FileFound(Fresh(f), f)] + FilesTrace(files[1..], filter, h);
      FilesNothingPassesFoundStage(files[1..], filter, h);
      FoundEventsAppend([FileEntry(f)], rest);
      assert FoundEvents([FileEntry(f)]) == [FileFound(Fresh(f), f)];
    }
  }

  lemma FoundEventsAppend(a: seq<Entry>, b: seq<Entry>)
    ensures FoundEvents(a + b) == FoundEvents(a) + FoundEvents(b)
  {
  }

  /**
   Excluding every directory at the found stage hides the directories but not
   their contents: with file observers that never stop, the walk yields the
   admitted files of the whole tree.
   */
  lemma ExcludedDirectoriesAreStillSearched(d: Dir, filter: Path -> bool, h: Handlers)
    requires forall n :: h.directoryFound(Fresh(n)).exclude
    requires forall n :: !h.fileFound(Fresh(n)).stop && !h.filteredFileFound(Fresh(n)).stop
    ensures Yields(DirTrace(d, filter, h)) == Selected(Entries(d), filter, h)
    ensures forall p :: p in Yields(DirTrace(d, filter, h)) ==> FileEntry(p) in Entries(d)
  {
    forall e | e in Entries(d) ensures !Halts(e, filter, h) {
      if e.DirEntry? {
        assert h.directoryFound(Fresh(e.parent)).exclude;
      } else {
        assert !h.fileFound(Fresh(e.path)).stop && !h.filteredFileFound(Fresh(e.path)).stop;
      }
    }
    DirYieldsSelected(d, filter, h);
    SelectedMembers(Entries(d), filter, h);
    forall p | p in Yields(DirTrace(d, filter, h)) ensures FileEntry(p) in Entries(d) {
      var e :| e in Entries(d) && e.path == p && Admitted(e, filter, h);
      assert e.FileEntry?;
    }
  }

  // ---------------------------------------------------------------------------
  // The event protocol
  // ---------------------------------------------------------------------------

  /**
   What an event says about the tree: directory events carry a fresh args
   record named after the parent directory, file events one named after the
   file itself, and both name an entry of the tree.
   */
  predicate Describes(ev: Event, es: seq<Entry>) {
    match ev
    case Start => false
    case Finish => false
    case DirectoryFound(a, p) => a.itemName.Str? && a == Fresh(a.itemName.chars) && DirEntry(a.itemName.chars, p) in es
    case FilteredDirectoryFound(a, p) => a.itemName.Str? && a == Fresh(a.itemName.chars) && DirEntry(a.itemName.chars, p) in es
    case FileFound(a, p) => a == Fresh(p) && FileEntry(p) in es
    case FilteredFileFound(a, p) => a == Fresh(p) && FileEntry(p) in es
    case Yielded(_) => true
  }

  /**
   Every event of a directory's walk describes an entry below it; in particular
   no walk of a subtree raises `Start` or `Finish`.
   */
  lemma {:induction false} EventsDescribeEntries(d: Dir, filter: Path -> bool, h: Handlers)
    ensures forall ev :: ev in DirTrace(d, filter, h) ==> Describes(ev, Entries(d))
    decreases d, 1
  {
    SubdirsEventsDescribeEntries(d, 0, filter, h);
  }

  lemma {:induction false} SubdirsEventsDescribeEntries(d: Dir, i: nat, filter: Path -> bool, h: Handlers)
    requires i <= |d.subdirs|
    ensures forall ev :: ev in SubdirsTrace(d, i, filter, h) ==> Describes(ev, EntriesFrom(d, i))
    decreases d, 0, |d.subdirs| - i
  {
    if i == |d.subdirs| {
      FilesEventsDescribeEntries(d.files, filter, h);
    } else {
      var s := d.subdirs[i];
      EntriesFromCons(d, i);
      EventsDescribeEntries(s, filter, h);
      SubdirsEventsDescribeEntries(d, i + 1, filter, h);
      var es := EntriesFrom(d, i);
      assert DirEntry(d.path, s.path) in es;
      forall ev | ev in Entries(s) + EntriesFrom(d, i + 1) ensures ev in es { }
      forall ev | ev in SubdirsTrace(d, i, filter, h) ensures Describes(ev, es) {
        DescribesMonotone(ev, Entries(s), es);
        DescribesMonotone(ev, EntriesFrom(d, i + 1), es);
      }
    }
  }

  lemma DescribesMonotone(ev: Event, small: seq<Entry>, big: seq<Entry>)
    requires forall e :: e in small ==> e in big
    ensures Describes(ev, small) ==> Describes(ev, big)
  {
  }

  lemma {:induction false} FilesEventsDescribeEntries(files: seq<Path>, filter: Path -> bool, h: Handlers)
    ensures forall ev :: ev in FilesTrace(files, filter, h) ==> Describes(ev, FileEntries(files))
    decreases |files|
  {
    if files != [] {
      FileEntriesCons(files);
      FilesEventsDescribeEntries(files[1..], filter, h);
      forall ev | ev in FilesTrace(files, filter, h) ensures Describes(ev, FileEntries(files)) {
        DescribesMonotone(ev, FileEntries(files[1..]), FileEntries(files));
      }
    }
  }

  /**
   The protocol at position `i` of a trace: a filtered-found event directly
   follows the found event of the same item, which passed the filter and was
   neither excluded nor stopped; a yielded path directly follows the
   filtered-found event of that item, which was neither excluded nor stopped.
   */
  predicate StepFollowsProtocol(t: seq<Event>, i: int, filter: Path -> bool, h: Handlers)
    requires 0 <= i < |t|
  {
    match t[i]
    case FilteredDirectoryFound(a, p) =>
      0 < i && t[i - 1] == DirectoryFound(a, p) && filter(p)
      && !h.directoryFound(a).exclude && !h.directoryFound(a).stop
    case FilteredFileFound(a, p) =>
      0 < i && t[i - 1] == FileFound(a, p) && filter(p)
      && !h.fileFound(a).exclude && !h.fileFound(a).stop
    case Yielded(p) =>
      0 < i && (match t[i - 1]
        case FilteredDirectoryFound(a, q) =>
          q == p && !h.filteredDirectoryFound(a).exclude && !h.filteredDirectoryFound(a).stop
        case FilteredFileFound(a, q) =>
          q == p && !h.filteredFileFound(a).exclude && !h.filteredFileFound(a).stop
        case _ => false)
    case _ => true
  }

  predicate FollowsProtocol(t: seq<Event>, filter: Path -> bool, h: Handlers) {
    forall i :: 0 <= i < |t| ==> StepFollowsProtocol(t, i, filter, h)
  }

  lemma ProtocolAppend(a: seq<Event>, b: seq<Event>, filter: Path -> bool, h: Handlers)
    requires FollowsProtocol(a, filter, h) && FollowsProtocol(b, filter, h)
    ensures FollowsProtocol(a + b, filter, h)
  {
    var t := a + b;
    forall i | 0 <= i < |t| ensures StepFollowsProtocol(t, i, filter, h) {
      if i < |a| {
        assert StepFollowsProtocol(a, i, filter, h);
        assert t[i] == a[i];
        if 0 < i { assert t[i - 1] == a[i - 1]; }
      } else {
        assert StepFollowsProtocol(b, i - |a|, filter, h);
        assert t[i] == b[i - |a|];
        if 0 < i - |a| { assert t[i - 1] == b[i - |a| - 1]; }
      }
    }
  }

  /**
   Every walk follows the protocol: filtered-found events are raised only for
   items that passed the filter and were neither excluded nor stopped at the
   found stage, and a path is yielded only after its filtered-found event.
   */
  lemma {:induction false} WalkFollowsProtocol(d: Dir, filter: Path -> bool, h: Handlers)
    ensures FollowsProtocol(DirTrace(d, filter, h), filter, h)
    decreases d, 1
  {
    SubdirsFollowProtocol(d, 0, filter, h);
  }

  lemma {:induction false} SubdirsFollowProtocol(d: Dir, i: nat, filter: Path -> bool, h: Handlers)
    requires i <= |d.subdirs|
    ensures FollowsProtocol(SubdirsTrace(d, i, filter, h), filter, h)
    decreases d, 0, |d.subdirs| - i
  {
    if i == |d.subdirs| {
      FilesFollowProtocol(d.files, filter, h);
    } else {
      var s := d.subdirs[i];
      var head := SubdirHead(d, i, filter, h);
      SubdirsTraceCons(d, i, filter, h);
      SubdirHeadFollowsProtocol(d, i, filter, h);
      if Halts(DirEntry(d.path, s.path), filter, h) {
        assert SubdirsTrace(d, i, filter, h) == head + [];
      } else {
        WalkFollowsProtocol(s, filter, h);
        SubdirsFollowProtocol(d, i + 1, filter, h);
        ProtocolAppend(DirTrace(s, filter, h), SubdirsTrace(d, i + 1, filter, h), filter, h);
        ProtocolAppend(head, DirTrace(s, filter, h) + SubdirsTrace(d, i + 1, filter, h), filter, h);
      }
    }
  }

  /** The events a directory frame raises for one subdirectory follow the protocol. */
  lemma SubdirHeadFollowsProtocol(d: Dir, i: nat, filter: Path -> bool, h: Handlers)
    requires i < |d.subdirs|
    ensures FollowsProtocol(SubdirHead(d, i, filter, h), filter, h)
  {
    var a := Fresh(d.path);
    var p := d.subdirs[i].path;
    var one := [DirectoryFound(a, p)];
    assert StepFollowsProtocol(one, 0, filter, h);
    assert FollowsProtocol(one, filter, h);
    if PassesFoundStage(DirEntry(d.path, p), filter, h) && !h.directoryFound(a).stop {
      var two := one + [FilteredDirectoryFound(a, p)];
      assert StepFollowsProtocol(two, 0, filter, h);
      assert StepFollowsProtocol(two, 1, filter, h);
      assert FollowsProtocol(two, filter, h);
      var head := SubdirHead(d, i, filter, h);
      if |head| == 3 {
        assert head == two + [Yielded(p)];
        assert StepFollowsProtocol(head, 2, filter, h);
        assert forall k | 0 <= k < 2 :: StepFollowsProtocol(head, k, filter, h) == StepFollowsProtocol(two, k, filter, h);
      }
    }
  }


  lemma {:induction false} FilesFollowProtocol(files: seq<Path>, filter: Path -> bool, h: Handlers)
    ensures FollowsProtocol(FilesTrace(files, filter, h), filter, h)
    decreases |files|
  {
    if files != [] {
      var f := files[0];
      var a := Fresh(f);
      var found := h.fileFound(a);
      var filtered := h.filteredFileFound(a);
      FilesFollowProtocol(files[1..], filter, h);
      var tail := FilesTrace(files[1..], filter, h);
      var one := [FileFound(a, f)];
      var two := one + [FilteredFileFound(a, f)];
      assert StepFollowsProtocol(one, 0, filter, h);
      if filter(f) && !found.exclude {
        assert FollowsProtocol(one, filter, h);
        if !found.stop {
          assert StepFollowsProtocol(two, 1, filter, h);
          assert FollowsProtocol(two, filter, h);
          if !filtered.stop {
            var head := two + (if filtered.exclude then [] else [Yielded(f)]);
            assert StepFollowsProtocol(head, |head| - 1, filter, h);
            assert FollowsProtocol(head, filter, h);
            ProtocolAppend(head, tail, filter, h);
            assert FilesTrace(files, filter, h) == head + tail;
          }
        }
      } else {
        assert FollowsProtocol(one, filter, h);
        ProtocolAppend(one, tail, filter, h);
        assert FilesTrace(files, filter, h) == one + tail;
      }
    }
  }

  // ---------------------------------------------------------------------------
  // Start and Finish seen by a lazy consumer
  // ---------------------------------------------------------------------------

  lemma WalkShape(v: Visitor, h: Handlers)
    ensures Walk(v, h)[0] == Start && Walk(v, h)[|Walk(v, h)| - 1] == Finish
    ensures forall i :: 0 < i < |Walk(v, h)| ==> Walk(v, h)[i] != Start
    ensures forall i :: 0 <= i < |Walk(v, h)| - 1 ==> Walk(v, h)[i] != Finish
    ensures Yields(Walk(v, h)) == Yields(DirTrace(v.root, v.filter, h))
  {
    var body := DirTrace(v.root, v.filter, h);
    EventsDescribeEntries(v.root, v.filter, h);
    var w := Walk(v, h);
    forall i | 0 < i < |w| - 1 ensures w[i] != Start && w[i] != Finish {
      assert w[i] == body[i - 1];
      assert w[i] in body;
    }
    WalkYields(v, h);
  }

  /** `Start` and `Finish` yield nothing: a walk yields what the walk of its root yields. */
  lemma WalkYields(v: Visitor, h: Handlers)
    ensures Yields(Walk(v, h)) == Yields(DirTrace(v.root, v.filter, h))
  {
    var body := DirTrace(v.root, v.filter, h);
    YieldsAppend([Start] + body, [Finish]);
    YieldsAppend([Start], body);
    YieldsOfOne(Start);
    YieldsOfOne(Finish);
  }

  /**
   What a consumer observes is a prefix of the walk, and all of it once the
   consumer asks for more items than the walk yields.
   */
  lemma {:induction false} ObservedIsPrefix(t: seq<Event>, pulls: nat)
    ensures Observed(t, pulls) == t[..|Observed(t, pulls)|]
    ensures pulls > |Yields(t)| ==> Observed(t, pulls) == t
    decreases |t|
  {
    if pulls > 0 && t != [] {
      var p := if t[0].Yielded? then pulls - 1 else pulls;
      ObservedIsPrefix(t[1..], p);
      var rest := Observed(t[1..], p);
      assert Observed(t, pulls) == [t[0]] + rest;
      assert Yields(t) == (if t[0].Yielded? then [t[0].path] else []) + Yields(t[1..]);
      assert t[..1 + |rest|] == [t[0]] + t[1..][..|rest|];
    }
    if pulls > |Yields(t)| {
      ObservedAll(t, pulls);
    }
  }

  /** A consumer asking for more items than a trace yields observes all of it. */
  lemma {:induction false} ObservedAll(t: seq<Event>, pulls: nat)
    requires pulls > |Yields(t)|
    ensures Observed(t, pulls) == t
    decreases |t|
  {
    if t != [] {
      var p := if t[0].Yielded? then pulls - 1 else pulls;
      assert Yields(t) == (if t[0].Yielded? then [t[0].path] else []) + Yields(t[1..]);
      ObservedAll(t[1..], p);
      assert Observed(t, pulls) == [t[0]] + t[1..];
      assert t == [t[0]] + t[1..];
    }
  }

  /**
   A consumer that asks for `pulls` items gets that many, or all the walk has;
   when it gets all it asked for, the last event it observed is the yield of
   its last item, so nothing after that yield has run.
   */
  lemma ObservedYields(t: seq<Event>, pulls: nat)
    ensures |Yields(Observed(t, pulls))| == if pulls <= |Yields(t)| then pulls else |Yields(t)|
    ensures 0 < pulls <= |Yields(t)| ==> Observed(t, pulls) != [] && Observed(t, pulls)[|Observed(t, pulls)| - 1].Yielded?
  {
    ObservedCount(t, pulls);
    if 0 < pulls <= |Yields(t)| {
      ObservedEndsWithYield(t, pulls);
    }
  }

  /** A trace hands the consumer exactly the paths of its `Yielded` events. */
  lemma {:induction false} YieldsMembers(t: seq<Event>)
    ensures forall p :: p in Yields(t) <==> Yielded(p) in t
    decreases |t|
  {
    if t != [] {
      YieldsMembers(t[1..]);
      YieldsCons(t);
      assert t == [t[0]] + t[1..];
    }
  }

  lemma YieldsCons(t: seq<Event>)
    requires t != []
    ensures Yields(t) == (if t[0].Yielded? then [t[0].path] else []) + Yields(t[1..])
  {
  }

  /** A consumer asking for `pulls` items receives that many, or all there are. */
  lemma {:induction false} ObservedCount(t: seq<Event>, pulls: nat)
    ensures |Yields(Observed(t, pulls))| == if pulls <= |Yields(t)| then pulls else |Yields(t)|
    decreases |t|
  {
    if pulls > 0 && t != [] {
      var p := if t[0].Yielded? then pulls - 1 else pulls;
      ObservedCount(t[1..], p);
      var rest := Observed(t[1..], p);
      var r := [t[0]] + rest;
      assert Observed(t, pulls) == r;
      assert r[1..] == rest && r[0] == t[0];
      YieldsCons(r);
      YieldsCons(t);
    }
  }

  /** A consumer that receives every item it asks for stops right after the last one. */
  lemma {:induction false} ObservedEndsWithYield(t: seq<Event>, pulls: nat)
    requires 0 < pulls <= |Yields(t)|
    ensures Observed(t, pulls) != [] && Observed(t, pulls)[|Observed(t, pulls)| - 1].Yielded?
    decreases |t|
  {
    assert t != [];
    YieldsCons(t);
    var p := if t[0].Yielded? then pulls - 1 else pulls;
    var rest := Observed(t[1..], p);
    var r := [t[0]] + rest;
    assert Observed(t, pulls) == r;
    if p > 0 {
      ObservedEndsWithYield(t[1..], p);
      assert r[|r| - 1] == rest[|rest| - 1];
    } else {
      assert rest == [];
    }
  }


  /**
   `Start` fires once per enumeration, as its first event, as soon as the
   consumer asks for the first item; an enumeration that is never advanced
   raises nothing.
   */
  lemma StartFiresOnceFirst(v: Visitor, h: Handlers, pulls: nat)
    ensures pulls == 0 ==> Enumerate(v, h, pulls) == []
    ensures pulls > 0 ==> |Enumerate(v, h, pulls)| > 0 && Enumerate(v, h, pulls)[0] == Start
    ensures forall i :: 0 < i < |Enumerate(v, h, pulls)| ==> Enumerate(v, h, pulls)[i] != Start
  {
    WalkShape(v, h);
    var w := Walk(v, h);
    var r := Enumerate(v, h, pulls);
    ObservedIsPrefix(w, pulls);
    assert r == w[..|r|];
    if pulls > 0 {
      ObservedYields(w, pulls);
      assert w[0] == Start;
    }
  }

  /**
   `Finish` fires exactly when the consumer drains the sequence, i.e. asks
   for one more item than the walk yields, and then as the very last event.
   This holds whatever the observers did: a stop ends frames of the walk but
   never the walk itself, so a drained walk always finishes.
   */
  lemma FinishIffDrained(v: Visitor, h: Handlers, pulls: nat)
    ensures Finish in Enumerate(v, h, pulls) <==> pulls > |Yields(DirTrace(v.root, v.filter, h))|
    ensures Finish in Enumerate(v, h, pulls) ==> Enumerate(v, h, pulls)[|Enumerate(v, h, pulls)| - 1] == Finish
    ensures Yields(Enumerate(v, h, pulls))
         == Yields(DirTrace(v.root, v.filter, h))[..if pulls <= |Yields(DirTrace(v.root, v.filter, h))| then pulls
                                                       else |Yields(DirTrace(v.root, v.filter, h))|]
  {
    var w, r, y := Walk(v, h), Enumerate(v, h, pulls), Yields(DirTrace(v.root, v.filter, h));
    assert r == Observed(w, pulls);
    WalkYields(v, h);
    assert Yields(w) == y;
    ObservedFinish(w, pulls);
    ObservedYieldsPrefix(w, pulls);
    assert Finish in r <==> pulls > |y|;
    assert Yields(r) == y[..if pulls <= |y| then pulls else |y|];
  }

  /** In a trace whose only `Finish` is its last event, a consumer sees `Finish` exactly when it asks for more items than there are. */
  lemma ObservedFinish(t: seq<Event>, pulls: nat)
    requires t != [] && t[|t| - 1] == Finish && Finish !in t[..|t| - 1]
    ensures Finish in Observed(t, pulls) <==> pulls > |Yields(t)|
    ensures Finish in Observed(t, pulls) ==> Observed(t, pulls)[|Observed(t, pulls)| - 1] == Finish
  {
    var r := Observed(t, pulls);
    ObservedIsPrefix(t, pulls);
    ObservedYields(t, pulls);
    if pulls <= |Yields(t)| {
      if pulls > 0 {
        assert r[|r| - 1].Yielded?;
        assert |r| != |t|;
      }
      assert r == t[..|t| - 1][..|r|];
    }
  }

  /** A consumer asking for `pulls` items receives the first `pulls` items of the trace, or all of them. */
  lemma ObservedYieldsPrefix(t: seq<Event>, pulls: nat)
    ensures Yields(Observed(t, pulls)) == Yields(t)[..if pulls <= |Yields(t)| then pulls else |Yields(t)|]
  {
    var r := Observed(t, pulls);
    ObservedIsPrefix(t, pulls);
    ObservedYields(t, pulls);
    assert t == r + t[|r|..];
    YieldsAppend(r, t[|r|..]);
  }

}
