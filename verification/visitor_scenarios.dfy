/**
 The directory tree the visitor's unit tests build, and the outcomes those
 tests expect, derived from the general properties of the walk.

 The tests create, below `<base>/Test`, the chain `Test/dir1/dir2/dir3`, two
 files in `dir1` and two in `dir2`, where `<base>` is the directory the tests
 run from. The base is a parameter here; a filter count the tests expect holds
 only when the base path does not itself contain the word filtered for.
 */
module VisitorScenarios {
  import opened Common
  import opened ItemFoundInfo
  import opened FileSystemVisitor
  import opened VisitorReference
  import opened VisitorProofs

  // ---------------------------------------------------------------------------
  // `string.Contains` on paths
  // ---------------------------------------------------------------------------

  /** `s` begins with `sub`. */
  predicate StartsWith(s: string, sub: string)
    decreases |sub|
  {
    sub == [] || (s != [] && s[0] == sub[0] && StartsWith(s[1..], sub[1..]))
  }

  /** `s` contains `sub` as a contiguous part, as `string.Contains` decides. */
  predicate Contains(s: string, sub: string)
    decreases |s|
  {
    StartsWith(s, sub) || (s != [] && Contains(s[1..], sub))
  }

  /** The filter `s => s.Contains(sub)` of the tests. */
  function Containing(sub: string): Path -> bool {
    p => Contains(p, sub)
  }

  /** A path made of its components joined by `/`, as `Path.Combine` joins them. */
  function Join(cs: seq<string>): Path
    requires cs != []
  {
    if |cs| == 1 then cs[0] else cs[0] + "/" + Join(cs[1..])
  }

  /** Some component contains `sub`. */
  predicate AnyContains(cs: seq<string>, sub: string) {
    cs != [] && (Contains(cs[0], sub) || AnyContains(cs[1..], sub))
  }

  lemma {:induction false} StartsWithAcrossSeparator(a: string, b: string, sub: string)
    requires '/' !in sub
    ensures StartsWith(a + "/" + b, sub) <==> StartsWith(a, sub)
    decreases |sub|
  {
    if sub != [] && a != [] {
      assert (a + "/" + b)[1..] == a[1..] + "/" + b;
      StartsWithAcrossSeparator(a[1..], b, sub[1..]);
    } else if sub != [] {
      assert (a + "/" + b)[0] == '/';
    }
  }

  /** A word without `/` occurs in a joined path exactly when it occurs on one side of the separator. */
  lemma {:induction false} ContainsAcrossSeparator(a: string, b: string, sub: string)
    requires '/' !in sub
    ensures Contains(a + "/" + b, sub) <==> Contains(a, sub) || Contains(b, sub)
    decreases |a|
  {
    StartsWithAcrossSeparator(a, b, sub);
    if a == [] {
      assert (a + "/" + b)[1..] == b;
    } else {
      assert (a + "/" + b)[1..] == a[1..] + "/" + b;
      ContainsAcrossSeparator(a[1..], b, sub);
    }
  }

  /** A word without `/` occurs in a path exactly when it occurs in one of its components. */
  lemma {:induction false} ContainsJoin(cs: seq<string>, sub: string)
    requires cs != [] && '/' !in sub
    ensures Contains(Join(cs), sub) <==> AnyContains(cs, sub)
    decreases |cs|
  {
    if |cs| > 1 {
      ContainsAcrossSeparator(cs[0], Join(cs[1..]), sub);
      ContainsJoin(cs[1..], sub);
    } else {
      assert cs[1..] == [];
    }
  }

  lemma {:induction false} StartsWithPrefix(s: string, sub: string)
    ensures StartsWith(s, sub) <==> |sub| <= |s| && s[..|sub|] == sub
    decreases |sub|
  {
    if sub != [] && s != [] {
      StartsWithPrefix(s[1..], sub[1..]);
      if |sub| <= |s| {
        assert s[..|sub|] == [s[0]] + s[1..][..|sub| - 1];
        assert sub == [sub[0]] + sub[1..];
      }
    }
  }

  /** A word that begins the path is contained in it. */
  lemma ContainsPrefix(s: string, sub: string)
    requires |sub| <= |s| && s[..|sub|] == sub
    ensures Contains(s, sub)
  {
    StartsWithPrefix(s, sub);
  }

  /** Every character of a contained word occurs in the path. */
  lemma {:induction false} ContainedCharsOccur(s: string, sub: string, c: char)
    requires Contains(s, sub) && c in sub
    ensures c in s
    decreases |s|
  {
    if StartsWith(s, sub) {
      StartsWithPrefix(s, sub);
      assert c in s[..|sub|];
    } else {
      ContainedCharsOccur(s[1..], sub, c);
    }
  }

  /** A word with a character the path lacks is not contained in it. */
  lemma Lacks(s: string, sub: string, c: char)
    requires c in sub && c !in s
    ensures !Contains(s, sub)
  {
    if Contains(s, sub) {
      ContainedCharsOccur(s, sub, c);
    }
  }

  lemma AnyContainsSnoc(cs: seq<string>, c: string, sub: string)
    ensures AnyContains(cs + [c], sub) <==> AnyContains(cs, sub) || Contains(c, sub)
    decreases |cs|
  {
    if cs == [] {
      assert ([] + [c])[1..] == [];
    } else {
      assert (cs + [c])[1..] == cs[1..] + [c];
      AnyContainsSnoc(cs[1..], c, sub);
    }
  }

  // ---------------------------------------------------------------------------
  // The test tree
  // ---------------------------------------------------------------------------

  /** The path of `rel` below the base directory. */
  function Under(base: string, rel: seq<string>): Path {
    Join([base] + rel)
  }

  /** Whether a path below the base contains a word: the base or one of the relative components does. */
  lemma ContainingUnder(base: string, rel: seq<string>, sub: string)
    requires '/' !in sub
    ensures Containing(sub)(Under(base, rel)) <==> Contains(base, sub) || AnyContains(rel, sub)
  {
    ContainsJoin([base] + rel, sub);
    assert ([base] + rel)[0] == base;
    assert ([base] + rel)[1..] == rel;
  }

  const RootRel: seq<string> := ["Test"]
  const D0Rel: seq<string> := RootRel + ["Test"]
  const D1Rel: seq<string> := D0Rel + ["dir1"]
  const D2Rel: seq<string> := D1Rel + ["dir2"]
  const D3Rel: seq<string> := D2Rel + ["dir3"]
  const F1Rel: seq<string> := D1Rel + ["file1.txt"]
  const F2Rel: seq<string> := D1Rel + ["file2.txt"]
  const F3Rel: seq<string> := D2Rel + ["file3.txt"]
  const F4Rel: seq<string> := D2Rel + ["file4.txt"]

  /** The tree the tests' set-up creates below `base`, rooted at `base/Test`. */
  function TestTree(base: string): Dir {
    var t3 := Dir(Under(base, D3Rel), [], []);
    var t2 := Dir(Under(base, D2Rel), [t3], [Under(base, F3Rel), Under(base, F4Rel)]);
    var t1 := Dir(Under(base, D1Rel), [t2], [Under(base, F1Rel), Under(base, F2Rel)]);
    var t0 := Dir(Under(base, D0Rel), [t1], []);
    Dir(Under(base, RootRel), [t0], [])
  }

  /** Each directory of the test tree has a single subdirectory: its entries are that one, its subtree, then its files. */
  lemma SingleChildEntries(d: Dir)
    requires |d.subdirs| == 1
    ensures Entries(d) == [DirEntry(d.path, d.subdirs[0].path)] + Entries(d.subdirs[0]) + FileEntries(d.files)
  {
    EntriesFromCons(d, 0);
  }

  /** The entries of the test tree in walk order: the four directories down the chain, then the files deepest first. */
  lemma TestTreeEntries(base: string)
    ensures Entries(TestTree(base))
         == [DirEntry(Under(base, RootRel), Under(base, D0Rel)), DirEntry(Under(base, D0Rel), Under(base, D1Rel)),
             DirEntry(Under(base, D1Rel), Under(base, D2Rel)), DirEntry(Under(base, D2Rel), Under(base, D3Rel)),
             FileEntry(Under(base, F3Rel)), FileEntry(Under(base, F4Rel)),
             FileEntry(Under(base, F1Rel)), FileEntry(Under(base, F2Rel))]
  {
    var t0 := TestTree(base).subdirs[0];
    var t1 := t0.subdirs[0];
    var t2 := t1.subdirs[0];
    var t3 := t2.subdirs[0];
    assert Entries(t3) == [];
    SingleChildEntries(t2);
    assert FileEntries(t2.files) == [FileEntry(Under(base, F3Rel)), FileEntry(Under(base, F4Rel))];
    SingleChildEntries(t1);
    assert FileEntries(t1.files) == [FileEntry(Under(base, F1Rel)), FileEntry(Under(base, F2Rel))];
    SingleChildEntries(t0);
    SingleChildEntries(TestTree(base));
  }

  /** The relative paths of the entries of the test tree, in walk order. */
  const WalkRels: seq<seq<string>> := [D0Rel, D1Rel, D2Rel, D3Rel, F3Rel, F4Rel, F1Rel, F2Rel]

  function UnderAll(base: string, rels: seq<seq<string>>): (r: seq<Path>)
    ensures |r| == |rels|
    ensures forall k :: 0 <= k < |rels| ==> r[k] == Under(base, rels[k])
  {
    seq(|rels|, k requires 0 <= k < |rels| => Under(base, rels[k]))
  }

  lemma TestTreePaths(base: string)
    ensures Paths(Entries(TestTree(base))) == UnderAll(base, WalkRels)
  {
    TestTreeEntries(base);
  }

  /** How many of the paths the filter accepts. */
  function CountWhere(ps: seq<Path>, filter: Path -> bool): nat {
    if ps == [] then 0 else (if filter(ps[0]) then 1 else 0) + CountWhere(ps[1..], filter)
  }

  /** How many of the relative paths contain `sub`. */
  function RelHits(rels: seq<seq<string>>, sub: string): nat {
    if rels == [] then 0 else Hit(rels[0], sub) + RelHits(rels[1..], sub)
  }

  /** A word the base contains is in every path below it; otherwise it is decided on the relative parts. */
  lemma {:induction false} CountUnderAll(base: string, rels: seq<seq<string>>, sub: string)
    requires '/' !in sub
    ensures CountWhere(UnderAll(base, rels), Containing(sub)) == if Contains(base, sub) then |rels| else RelHits(rels, sub)
    decreases |rels|
  {
    if rels != [] {
      ContainingUnder(base, rels[0], sub);
      CountUnderAll(base, rels[1..], sub);
      assert UnderAll(base, rels)[1..] == UnderAll(base, rels[1..]);
      assert UnderAll(base, rels)[0] == Under(base, rels[0]);
    }
  }

  /** With nobody subscribed exactly the entries the filter accepts are selected. */
  lemma {:induction false} SelectedWithoutObservers(es: seq<Entry>, filter: Path -> bool)
    ensures |Selected(es, filter, NoObservers)| == CountWhere(Paths(es), filter)
    decreases |es|
  {
    if es != [] {
      SelectedWithoutObservers(es[1..], filter);
      assert Paths(es)[1..] == Paths(es[1..]);
    }
  }

  /** The paths a `foreach` over the visitor collects when it runs to the end. */
  function Collected(v: Visitor, h: Handlers): seq<Path> {
    Yields(Walk(v, h))
  }

  // ---------------------------------------------------------------------------
  // The expected outcomes
  // ---------------------------------------------------------------------------

  /**
   With nobody subscribed, a filtered visitor collects one path per entry that
   contains the word, in the base or in the part below it.
   */
  lemma FilteredCount(base: string, sub: string)
    requires '/' !in sub
    ensures |Collected(NewFilteredVisitor(Some(TestTree(base)), Some(Containing(sub))).value, NoObservers)|
         == if Contains(base, sub) then 8 else RelHits(WalkRels, sub)
  {
    var filter := Containing(sub);
    var v := NewFilteredVisitor(Some(TestTree(base)), Some(filter)).value;
    WalkShape(v, NoObservers);
    DirYieldsSelected(TestTree(base), filter, NoObservers);
    SelectedWithoutObservers(Entries(TestTree(base)), filter);
    TestTreePaths(base);
    CountUnderAll(base, WalkRels, sub);
  }

  function Hit(rel: seq<string>, sub: string): nat {
    if AnyContains(rel, sub) then 1 else 0
  }

  /** How many of the four directories below the root contain `sub` below the base. */
  function DirHits(sub: string): nat {
    Hit(D0Rel, sub) + Hit(D1Rel, sub) + Hit(D2Rel, sub) + Hit(D3Rel, sub)
  }

  /** How many of the four files contain `sub` below the base. */
  function FileHits(sub: string): nat {
    Hit(F3Rel, sub) + Hit(F4Rel, sub) + Hit(F1Rel, sub) + Hit(F2Rel, sub)
  }

  lemma WalkRelHits(sub: string)
    ensures RelHits(WalkRels, sub) == DirHits(sub) + FileHits(sub)
  {
    var rs := WalkRels;
    assert RelHits(rs[8..], sub) == 0;
    assert rs[7..][1..] == rs[8..];
    assert RelHits(rs[7..], sub) == Hit(rs[7], sub) + RelHits(rs[8..], sub);
    assert rs[6..][1..] == rs[7..];
    assert RelHits(rs[6..], sub) == Hit(rs[6], sub) + RelHits(rs[7..], sub);
    assert rs[5..][1..] == rs[6..];
    assert RelHits(rs[5..], sub) == Hit(rs[5], sub) + RelHits(rs[6..], sub);
    assert rs[4..][1..] == rs[5..];
    assert RelHits(rs[4..], sub) == Hit(rs[4], sub) + RelHits(rs[5..], sub);
    assert rs[3..][1..] == rs[4..];
    assert RelHits(rs[3..], sub) == Hit(rs[3], sub) + RelHits(rs[4..], sub);
    assert rs[2..][1..] == rs[3..];
    assert RelHits(rs[2..], sub) == Hit(rs[2], sub) + RelHits(rs[3..], sub);
    assert rs[1..][1..] == rs[2..];
    assert RelHits(rs[1..], sub) == Hit(rs[1], sub) + RelHits(rs[2..], sub);
    assert rs[0..][1..] == rs[1..];
    assert RelHits(rs[0..], sub) == Hit(rs[0], sub) + RelHits(rs[1..], sub);
    assert rs[0..] == rs;
  }

  /** The directory paths below the root, in terms of their components. */
  lemma DirRelFacts(w: string)
    ensures AnyContains(D0Rel, w) <==> Contains("Test", w)
    ensures AnyContains(D1Rel, w) <==> Contains("Test", w) || Contains("dir1", w)
    ensures AnyContains(D2Rel, w) <==> AnyContains(D1Rel, w) || Contains("dir2", w)
    ensures AnyContains(D3Rel, w) <==> AnyContains(D2Rel, w) || Contains("dir3", w)
  {
    AnyContainsSnoc([], "Test", w);
    AnyContainsSnoc(RootRel, "Test", w);
    AnyContainsSnoc(D0Rel, "dir1", w);
    AnyContainsSnoc(D1Rel, "dir2", w);
    AnyContainsSnoc(D2Rel, "dir3", w);
  }

  /** The file paths, in terms of their directory and their name. */
  lemma FileRelFacts(w: string)
    ensures AnyContains(F1Rel, w) <==> AnyContains(D1Rel, w) || Contains("file1.txt", w)
    ensures AnyContains(F2Rel, w) <==> AnyContains(D1Rel, w) || Contains("file2.txt", w)
    ensures AnyContains(F3Rel, w) <==> AnyContains(D2Rel, w) || Contains("file3.txt", w)
    ensures AnyContains(F4Rel, w) <==> AnyContains(D2Rel, w) || Contains("file4.txt", w)
  {
    AnyContainsSnoc(D1Rel, "file1.txt", w);
    AnyContainsSnoc(D1Rel, "file2.txt", w);
    AnyContainsSnoc(D2Rel, "file3.txt", w);
    AnyContainsSnoc(D2Rel, "file4.txt", w);
  }

  function One(b: bool): nat {
    if b then 1 else 0
  }

  /**
   How many entries below the root a word matches, given which components
   contain it: each entry contains the word when one of its components does.
   */
  function MatchCount(test: bool, dir1: bool, dir2: bool, dir3: bool,
                      file1: bool, file2: bool, file3: bool, file4: bool): nat {
    One(test) + One(test || dir1) + One(test || dir1 || dir2) + One(test || dir1 || dir2 || dir3)
    + One(test || dir1 || dir2 || file3) + One(test || dir1 || dir2 || file4)
    + One(test || dir1 || file1) + One(test || dir1 || file2)
  }

  lemma DirHitsByComponent(w: string)
    ensures DirHits(w) == One(Contains("Test", w)) + One(Contains("Test", w) || Contains("dir1", w))
                        + One(Contains("Test", w) || Contains("dir1", w) || Contains("dir2", w))
                        + One(Contains("Test", w) || Contains("dir1", w) || Contains("dir2", w) || Contains("dir3", w))
  {
    DirRelFacts(w);
  }

  lemma FileHitsByComponent(w: string)
    ensures FileHits(w)
         == One(Contains("Test", w) || Contains("dir1", w) || Contains("dir2", w) || Contains("file3.txt", w))
          + One(Contains("Test", w) || Contains("dir1", w) || Contains("dir2", w) || Contains("file4.txt", w))
          + One(Contains("Test", w) || Contains("dir1", w) || Contains("file1.txt", w))
          + One(Contains("Test", w) || Contains("dir1", w) || Contains("file2.txt", w))
  {
    DirRelFacts(w);
    FileRelFacts(w);
  }

  /** `MatchCount` for the components of the test tree. */
  function Matches(w: string): nat {
    MatchCount(Contains("Test", w), Contains("dir1", w), Contains("dir2", w), Contains("dir3", w),
               Contains("file1.txt", w), Contains("file2.txt", w), Contains("file3.txt", w), Contains("file4.txt", w))
  }

  /** The entries of the test tree below the base that contain a word, by component. */
  lemma RelHitsByComponent(w: string)
    ensures RelHits(WalkRels, w) == Matches(w)
  {
    WalkRelHits(w);
    DirHitsByComponent(w);
    FileHitsByComponent(w);
  }

  /*
   Which entries a test's word matches, argued from the characters of the word
   rather than by evaluating `Contains` on the literal paths.
   */

  /** With nobody subscribed, a filter for a word the base lacks collects the entries that `Matches` counts. */
  lemma CountFromMatches(base: string, w: string)
    requires '/' !in w
    ensures |Collected(NewFilteredVisitor(Some(TestTree(base)), Some(Containing(w))).value, NoObservers)|
         == if Contains(base, w) then 8 else Matches(w)
  {
    FilteredCount(base, w);
    RelHitsByComponent(w);
  }

  /** A word inside `Test` matches every entry. */
  lemma MatchesTest(w: string)
    requires Contains("Test", w)
    ensures Matches(w) == 8
  {
  }

  lemma WordTest(base: string, w: string)
    requires '/' !in w && Contains("Test", w)
    ensures |Collected(NewFilteredVisitor(Some(TestTree(base)), Some(Containing(w))).value, NoObservers)| == 8
  {
    CountFromMatches(base, w);
    MatchesTest(w);
  }

  /** A word inside `dir1` with a `d` matches every entry except `Test/Test`. */
  lemma MatchesDir1(w: string)
    requires Contains("dir1", w) && 'd' in w
    ensures Matches(w) == 7
  {
    Lacks("Test", w, 'd');
  }

  lemma WordDir1(base: string, w: string)
    requires '/' !in w && !Contains(base, w) && Contains("dir1", w) && 'd' in w
    ensures |Collected(NewFilteredVisitor(Some(TestTree(base)), Some(Containing(w))).value, NoObservers)| == 7
  {
    CountFromMatches(base, w);
    MatchesDir1(w);
  }

  /** A word inside `dir2` with a `d` and a `2` matches `dir2`, `dir3` and the files in `dir2`. */
  lemma MatchesDir2(w: string)
    requires Contains("dir2", w) && 'd' in w && '2' in w
    ensures Matches(w) == 4
  {
    Lacks("Test", w, 'd');
    Lacks("dir1", w, '2');
    Lacks("file1.txt", w, 'd');
    Lacks("file2.txt", w, 'd');
  }

  lemma WordDir2(base: string, w: string)
    requires '/' !in w && !Contains(base, w) && Contains("dir2", w) && 'd' in w && '2' in w
    ensures |Collected(NewFilteredVisitor(Some(TestTree(base)), Some(Containing(w))).value, NoObservers)| == 4
  {
    CountFromMatches(base, w);
    MatchesDir2(w);
  }

  /** A word with an `f` matches none of the directories. */
  lemma NoDirectoryHasF(w: string)
    requires 'f' in w
    ensures !Contains("Test", w) && !Contains("dir1", w) && !Contains("dir2", w) && !Contains("dir3", w)
  {
    Lacks("Test", w, 'f');
    Lacks("dir1", w, 'f');
    Lacks("dir2", w, 'f');
    Lacks("dir3", w, 'f');
  }

  /** A word inside `file4.txt` with an `f` and a `4` matches that file alone. */
  lemma MatchesFile4(w: string)
    requires Contains("file4.txt", w) && 'f' in w && '4' in w
    ensures Matches(w) == 1
  {
    NoDirectoryHasF(w);
    Lacks("file1.txt", w, '4');
    Lacks("file2.txt", w, '4');
    Lacks("file3.txt", w, '4');
  }

  lemma WordFile4(base: string, w: string)
    requires '/' !in w && !Contains(base, w) && Contains("file4.txt", w) && 'f' in w && '4' in w
    ensures |Collected(NewFilteredVisitor(Some(TestTree(base)), Some(Containing(w))).value, NoObservers)| == 1
  {
    CountFromMatches(base, w);
    MatchesFile4(w);
  }

  /** A word inside `file1.txt` with an `f` and a `1` matches that file alone. */
  lemma MatchesFile1(w: string)
    requires Contains("file1.txt", w) && 'f' in w && '1' in w
    ensures Matches(w) == 1
  {
    NoDirectoryHasF(w);
    Lacks("file2.txt", w, '1');
    Lacks("file3.txt", w, '1');
    Lacks("file4.txt", w, '1');
  }

  lemma WordFile1(base: string, w: string)
    requires '/' !in w && !Contains(base, w) && Contains("file1.txt", w) && 'f' in w && '1' in w
    ensures |Collected(NewFilteredVisitor(Some(TestTree(base)), Some(Containing(w))).value, NoObservers)| == 1
  {
    CountFromMatches(base, w);
    MatchesFile1(w);
  }

  /** A word with an `f` and a `5` matches nothing. */
  lemma MatchesFile5(w: string)
    requires 'f' in w && '5' in w
    ensures Matches(w) == 0
  {
    NoDirectoryHasF(w);
    Lacks("file1.txt", w, '5');
    Lacks("file2.txt", w, '5');
    Lacks("file3.txt", w, '5');
    Lacks("file4.txt", w, '5');
  }

  lemma WordFile5(base: string, w: string)
    requires '/' !in w && !Contains(base, w) && 'f' in w && '5' in w
    ensures |Collected(NewFilteredVisitor(Some(TestTree(base)), Some(Containing(w))).value, NoObservers)| == 0
  {
    CountFromMatches(base, w);
    MatchesFile5(w);
  }

  /**
   The filtered counts the tests expect, each for a base path that does not
   itself contain the word: "dir1" 7, "dir2" 4, "Test" 8, "file4.txt" 1,
   "file1" 1, "file5" 0.
   */
  lemma ExpectedCountDir1(base: string)
    requires !Contains(base, "dir1")
    ensures |Collected(NewFilteredVisitor(Some(TestTree(base)), Some(Containing("dir1"))).value, NoObservers)| == 7
  {
    ContainsPrefix("dir1", "dir1");
    WordDir1(base, "dir1");
  }

  lemma ExpectedCountDir2(base: string)
    requires !Contains(base, "dir2")
    ensures |Collected(NewFilteredVisitor(Some(TestTree(base)), Some(Containing("dir2"))).value, NoObservers)| == 4
  {
    ContainsPrefix("dir2", "dir2");
    WordDir2(base, "dir2");
  }

  lemma ExpectedCountTest(base: string)
    ensures |Collected(NewFilteredVisitor(Some(TestTree(base)), Some(Containing("Test"))).value, NoObservers)| == 8
  {
    ContainsPrefix("Test", "Test");
    WordTest(base, "Test");
  }

  lemma ExpectedCountFile4(base: string)
    requires !Contains(base, "file4.txt")
    ensures |Collected(NewFilteredVisitor(Some(TestTree(base)), Some(Containing("file4.txt"))).value, NoObservers)| == 1
  {
    ContainsPrefix("file4.txt", "file4.txt");
    WordFile4(base, "file4.txt");
  }

  lemma ExpectedCountFile1(base: string)
    requires !Contains(base, "file1")
    ensures |Collected(NewFilteredVisitor(Some(TestTree(base)), Some(Containing("file1"))).value, NoObservers)| == 1
  {
    ContainsPrefix("file1.txt", "file1");
    WordFile1(base, "file1");
  }

  lemma ExpectedCountFile5(base: string)
    requires !Contains(base, "file5")
    ensures |Collected(NewFilteredVisitor(Some(TestTree(base)), Some(Containing("file5"))).value, NoObservers)| == 0
  {
    WordFile5(base, "file5");
  }
}
