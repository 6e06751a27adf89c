/**
 The file-system visitor: a depth-first walk below a root directory that raises
 `Start`, per-item "found" and "filtered found" events, yields the accepted paths
 lazily and raises `Finish` when the consumer drains it.

 The directory tree is an immutable value whose sequence order stands for the
 operating system's enumeration order. The observers of each found event are
 collapsed into one function from the args they receive to the args they leave
 behind. The walk is a pure function producing the full trace of events and
 yielded paths; a lazy consumer sees a prefix of it (`Observed`).
 */
module FileSystemVisitor {
  import opened Common
  import opened ItemFoundInfo

  type Path = string

  /** A directory: its full path, its subdirectories and the full paths of its files, in enumeration order. */
  datatype Dir = Dir(path: Path, subdirs: seq<Dir>, files: seq<Path>)

  /** A constructed visitor: the root and the filter, both fixed at construction. */
  datatype Visitor = Visitor(root: Dir, filter: Path -> bool)

  /**
   The combined effect of the observers subscribed to each found event: they
   receive the args the visitor created and leave them in some state, of which
   the visitor reads `Stop` and `Exclude`.
   */
  datatype Handlers = Handlers(
    directoryFound: ItemArgs -> ItemArgs,
    filteredDirectoryFound: ItemArgs -> ItemArgs,
    fileFound: ItemArgs -> ItemArgs,
    filteredFileFound: ItemArgs -> ItemArgs)

  /**
   One step of a walk. The four found events record the args delivered to the
   observers and the entry the visitor is looking at when it raises them;
   `Yielded` is a path handed to the consumer.
   */
  datatype Event =
    | Start
    | Finish
    | DirectoryFound(args: ItemArgs, item: Path)
    | FilteredDirectoryFound(args: ItemArgs, item: Path)
    | FileFound(args: ItemArgs, item: Path)
    | FilteredFileFound(args: ItemArgs, item: Path)
    | Yielded(path: Path)

  /** The default filter of the one-argument constructor. */
  function AcceptAll(p: Path): bool { true }

  /** The observers nobody subscribed to: the args come back untouched. */
  function Unchanged(a: ItemArgs): ItemArgs { a }

  const NoObservers: Handlers := Handlers(Unchanged, Unchanged, Unchanged, Unchanged)

  /** `new FileSystemVisitor(rootPath)`. */
  function NewVisitor(root: Option<Dir>): (r: Result<Visitor>)
    ensures r.Throws? <==> root.None?
    ensures r.Throws? ==> r.error == ArgumentNull
    ensures r.Ok? ==> r.value.root == root.value && forall p :: r.value.filter(p)
  {
    if root.None? then Throws(ArgumentNull) else Ok(Visitor(root.value, AcceptAll))
  }

  /** `new FileSystemVisitor(rootPath, filter)`: the root is checked first, then the filter. */
  function NewFilteredVisitor(root: Option<Dir>, filter: Option<Path -> bool>): (r: Result<Visitor>)
    ensures r.Throws? <==> root.None? || filter.None?
    ensures r.Throws? ==> r.error == ArgumentNull
    ensures r.Ok? ==> r.value.root == root.value && r.value.filter == filter.value
  {
    match NewVisitor(root)
    case Throws(e) => Throws(e)
    case Ok(v) => if filter.None? then Throws(ArgumentNull) else Ok(v.(filter := filter.value))
  }

  /** An event a file frame can raise: a file event or a yielded path. */
  predicate FileEvent(ev: Event) {
    ev.FileFound? || ev.FilteredFileFound? || ev.Yielded?
  }

  /**
   `GetFiles(path)`: one found event per file; a file that passes the filter and
   is not excluded gets a filtered-found event and is yielded unless excluded
   there. A stop read in either branch ends this frame only.
   */
  function FilesTrace(files: seq<Path>, filter: Path -> bool, h: Handlers): (r: seq<Event>)
    ensures files != [] ==> r != [] && r[0] == FileFound(Fresh(files[0]), files[0])
    ensures |r| <= 3 * |files|
    ensures forall k :: 0 <= k < |r| ==> FileEvent(r[k])
    decreases |files|
  {
    if files == [] then []
    else
      var f := files[0];
      var found := h.fileFound(Fresh(f));
      var head := [FileFound(Fresh(f), f)];
      if filter(f) && !found.exclude then
        if found.stop then head
        else
          var filtered := h.filteredFileFound(Fresh(f));
          var head' := head + [FilteredFileFound(Fresh(f), f)];
          if filtered.stop then head'
          else head' + (if filtered.exclude then [] else [Yielded(f)]) + FilesTrace(files[1..], filter, h)
      else head + FilesTrace(files[1..], filter, h)
  }

  /** `GetDirectories(d.path)`: the subdirectories from the first, then the files. */
  function DirTrace(d: Dir, filter: Path -> bool, h: Handlers): (r: seq<Event>)
    ensures Start !in r && Finish !in r
    decreases d, 1
  {
    SubdirsTrace(d, 0, filter, h)
  }

  /**
   The loop of `GetDirectories(d.path)` from its `i`-th subdirectory on. The
   events of a subdirectory carry the path of `d` as item name. A stop read
   here ends the frame of `d`, skipping its remaining subdirectories and its
   files; a subdirectory that fails the filter or is excluded is still
   descended into.
   */
  function SubdirsTrace(d: Dir, i: nat, filter: Path -> bool, h: Handlers): (r: seq<Event>)
    requires i <= |d.subdirs|
    ensures Start !in r && Finish !in r
    decreases d, 0, |d.subdirs| - i
  {
    if i == |d.subdirs| then FilesTrace(d.files, filter, h)
    else
      var s := d.subdirs[i];
      var found := h.directoryFound(Fresh(d.path));
      var head := [DirectoryFound(Fresh(d.path), s.path)];
      if filter(s.path) && !found.exclude then
        if found.stop then head
        else
          var filtered := h.filteredDirectoryFound(Fresh(d.path));
          var head' := head + [FilteredDirectoryFound(Fresh(d.path), s.path)];
          if filtered.stop then head'
          else
            head' + (if filtered.exclude then [] else [Yielded(s.path)])
            + DirTrace(s, filter, h) + SubdirsTrace(d, i + 1, filter, h)
      else head + DirTrace(s, filter, h) + SubdirsTrace(d, i + 1, filter, h)
  }

  /** `GetDirectoriesAndFilesFromRoot()` run to completion: `Start`, the walk of the root, `Finish`. */
  function Walk(v: Visitor, h: Handlers): (r: seq<Event>)
    ensures |r| >= 2 && r[0] == Start && r[|r| - 1] == Finish
    ensures Start !in r[1..] && Finish !in r[..|r| - 1]
  {
    [Start] + DirTrace(v.root, v.filter, h) + [Finish]
  }

  /** The paths a trace hands to the consumer, in order. */
  function Yields(t: seq<Event>): (r: seq<Path>)
    ensures |r| <= |t|
  {
    if t == [] then []
    else (if t[0].Yielded? then [t[0].path] else []) + Yields(t[1..])
  }

  /**
   What happens when the consumer calls `MoveNext` `pulls` times: each call runs
   the walk up to and including its next yielded path, or to the end of the
   walk when none is left. A `foreach` that breaks after the k-th item has made
   k calls; one that drains the sequence has made one more than there are items.
   */
  function Observed(t: seq<Event>, pulls: nat): (r: seq<Event>)
    ensures |r| <= |t|
  {
    if pulls == 0 || t == [] then []
    else
      var rest := if t[0].Yielded? then Observed(t[1..], pulls - 1) else Observed(t[1..], pulls);
      [t[0]] + rest
  }

  /** Enumerating a visitor with `pulls` calls of `MoveNext`. */
  function Enumerate(v: Visitor, h: Handlers, pulls: nat): (r: seq<Event>)
    ensures r == [] <==> pulls == 0
    ensures pulls > 0 ==> r[0] == Start
  {
    Observed(Walk(v, h), pulls)
  }
}
