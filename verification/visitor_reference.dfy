/**
 Reference definitions the walk is measured against, written independently of
 the event protocol: the entries below a directory in depth-first order, the
 number of directories and files below it, and which entries the observers
 and the filter admit.
 */
module VisitorReference {
  import opened ItemFoundInfo
  import opened FileSystemVisitor

  /** An entry below the root: a directory together with its parent's path, or a file. */
  datatype Entry = DirEntry(parent: Path, path: Path) | FileEntry(path: Path)

  /**
   Every entry strictly below `d` in depth-first order: each subdirectory
   followed by its whole subtree, in enumeration order, then the files of `d`.
   */
  function Entries(d: Dir): seq<Entry>
    decreases d, 1
  {
    EntriesFrom(d, 0)
  }

  function EntriesFrom(d: Dir, i: nat): seq<Entry>
    requires i <= |d.subdirs|
    decreases d, 0, |d.subdirs| - i
  {
    if i == |d.subdirs| then FileEntries(d.files)
    else [DirEntry(d.path, d.subdirs[i].path)] + Entries(d.subdirs[i]) + EntriesFrom(d, i + 1)
  }

  function FileEntries(files: seq<Path>): (r: seq<Entry>)
    ensures |r| == |files|
    ensures forall k :: 0 <= k < |files| ==> r[k] == FileEntry(files[k])
  {
    seq(|files|, k requires 0 <= k < |files| => FileEntry(files[k]))
  }

  function Paths(es: seq<Entry>): (r: seq<Path>)
    ensures |r| == |es|
    ensures forall k :: 0 <= k < |es| ==> r[k] == es[k].path
  {
    seq(|es|, k requires 0 <= k < |es| => es[k].path)
  }

  /** The paths of the directory entries alone, in order. */
  function DirectoryPaths(es: seq<Entry>): seq<Path> {
    if es == [] then []
    else (if es[0].DirEntry? then [es[0].path] else []) + DirectoryPaths(es[1..])
  }

  /** The number of directories strictly below `d`. */
  function DirCount(d: Dir): nat
    decreases d, 1
  {
    DirCountFrom(d, 0)
  }

  function DirCountFrom(d: Dir, i: nat): nat
    requires i <= |d.subdirs|
    decreases d, 0, |d.subdirs| - i
  {
    if i == |d.subdirs| then 0 else 1 + DirCount(d.subdirs[i]) + DirCountFrom(d, i + 1)
  }

  /** The number of files anywhere below `d`. */
  function FileCount(d: Dir): nat
    decreases d, 1
  {
    FileCountFrom(d, 0)
  }

  function FileCountFrom(d: Dir, i: nat): nat
    requires i <= |d.subdirs|
    decreases d, 0, |d.subdirs| - i
  {
    if i == |d.subdirs| then |d.files| else FileCount(d.subdirs[i]) + FileCountFrom(d, i + 1)
  }

  /** The args the walker hands to the observers of an entry's events: directories carry their parent's path. */
  function ArgsOf(e: Entry): ItemArgs {
    match e
    case DirEntry(parent, _) => Fresh(parent)
    case FileEntry(p) => Fresh(p)
  }

  /** The found event the walker raises for an entry. */
  function FoundEvent(e: Entry): Event {
    match e
    case DirEntry(_, p) => DirectoryFound(ArgsOf(e), p)
    case FileEntry(p) => FileFound(ArgsOf(e), p)
  }

  function FoundEvents(es: seq<Entry>): (r: seq<Event>)
    ensures |r| == |es|
    ensures forall k :: 0 <= k < |es| ==> r[k] == FoundEvent(es[k])
  {
    seq(|es|, k requires 0 <= k < |es| => FoundEvent(es[k]))
  }

  /** The observers' verdict at the found stage. */
  function FoundVerdict(e: Entry, h: Handlers): ItemArgs {
    if e.DirEntry? then h.directoryFound(ArgsOf(e)) else h.fileFound(ArgsOf(e))
  }

  /** The observers' verdict at the filtered-found stage. */
  function FilteredVerdict(e: Entry, h: Handlers): ItemArgs {
    if e.DirEntry? then h.filteredDirectoryFound(ArgsOf(e)) else h.filteredFileFound(ArgsOf(e))
  }

  /** The entry passes the filter and nobody excluded it at the found stage. */
  predicate PassesFoundStage(e: Entry, filter: Path -> bool, h: Handlers) {
    filter(e.path) && !FoundVerdict(e, h).exclude
  }

  /**
   The walker reads a stop for this entry: it passes the found stage and an
   observer stops it there, or at the filtered-found stage.
   */
  predicate Halts(e: Entry, filter: Path -> bool, h: Handlers) {
    PassesFoundStage(e, filter, h) && (FoundVerdict(e, h).stop || FilteredVerdict(e, h).stop)
  }

  /** The entry passes the filter and nobody excluded or stopped it at either stage. */
  predicate Admitted(e: Entry, filter: Path -> bool, h: Handlers) {
    PassesFoundStage(e, filter, h) && !Halts(e, filter, h) && !FilteredVerdict(e, h).exclude
  }

  /** The paths of the admitted entries, in order. */
  function Selected(es: seq<Entry>, filter: Path -> bool, h: Handlers): seq<Path> {
    if es == [] then []
    else (if Admitted(es[0], filter, h) then [es[0].path] else []) + Selected(es[1..], filter, h)
  }

  /** No stop set for any of these entries would ever be read. */
  predicate NoneHalts(es: seq<Entry>, filter: Path -> bool, h: Handlers) {
    forall e :: e in es ==> !Halts(e, filter, h)
  }

  /** `a` is `b` with some elements left out, order kept. */
  predicate Subsequence<T(==)>(a: seq<T>, b: seq<T>)
    decreases |b|
  {
    if a == [] then true
    else if b == [] then false
    else (a[0] == b[0] && Subsequence(a[1..], b[1..])) || Subsequence(a, b[1..])
  }
}
