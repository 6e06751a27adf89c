# mentoringProgram core, modelled in Dafny

This project models the three small components of the mentoringProgram repository that hold real logic. It proves what they do.

- **The file-system visitor.** `FileSystemVisitor` walks a directory tree lazily, depth first. It raises `Start`, then a `DirectoryFound` or `FileFound` event for every entry it reaches. An entry that passes the filter and is not excluded also gets a `FilteredDirectoryFound` or `FilteredFileFound` event, unless an observer set `Stop` at the found stage. The visitor yields the path unless an observer excluded it or stopped at the filtered stage, and raises `Finish` when the consumer drains the sequence. Observers talk back through the `Stop` and `Exclude` flags of `ItemFoundInfoEventArgs`.
- **The string-to-`int` converter.** `ConverterToInt.ConvertToInt` rejects a blank string. It strips a leading sign by converting the rest again, and otherwise adds up the digits weighted by their places with checked arithmetic.
- **The first-character extension.** `ExtensionString.FirstChar` rejects a null or empty string and returns the first character.

## Layout

| file | module | contents |
|---|---|---|
| `common.dfy` | `Common` | nullable strings, the three exceptions, `Result`, the 32-bit range, checked `+` and `*` |
| `item_found_info.dfy` | `ItemFoundInfo` | the event args record, its constructors and setters |
| `file_system_visitor.dfy` | `FileSystemVisitor` | the tree, the observers, the constructors, the walk as an event trace, the lazy consumer |
| `visitor_reference.dfy` | `VisitorReference` | reference definitions: depth-first entries, counts, which entries the filter and observers admit |
| `visitor_proofs.dfy` | `VisitorProofs` | the walk against the reference: order, filter, `Exclude`, frame-local `Stop`, `Start`/`Finish` |
| `visitor_scenarios.dfy` | `VisitorScenarios` | the unit tests' directory tree and their filtered counts |
| `handler_scenarios.dfy` | `HandlerScenarios` | the unit tests' observer scenarios |
| `converter_to_int.dfy` | `ConverterToInt` | the closed-form outcome `Convert` and the loop `ConvertToInt` proved equal to it |
| `converter_proofs.dfy` | `ConverterProofs` | decimal value, round trip, signs, error classes, the unit tests' cases |
| `extension_string.dfy` | `ExtensionString` | `FirstChar` |

## How the visitor is modelled

- **The tree.** The file system is an immutable tree `Dir(path, subdirs, files)`. Sequence order stands for the order in which the operating system enumerates entries.
- **Observers.** All the observers of one event are collapsed into one function. It maps the args the visitor creates to the args the observers leave behind. The visitor reads only `Stop` and `Exclude` from the result.
- **The walk.** The walk is a pure function from the visitor and the observers to the full trace of events and yielded paths (`Walk`).
- **Laziness.** A consumer that calls `MoveNext` `pulls` times sees a prefix of the trace (`Observed`). That prefix runs up to the last path handed out, or to the end of the trace once the consumer asks for more than there is.

Each property is proved against independent reference definitions in `VisitorReference`:

- `Entries` lists every entry strictly below the root in depth-first order.
- `Admitted` says which entries pass the filter and are neither excluded nor stopped.
- `Selected` lists the paths of the admitted entries.
- `Halts` says which entries end their frame.

Three behaviours of the code shape the model:

- **`Stop` is frame-local.** `yield break` ends only the `GetDirectories` or `GetFiles` iterator that reads the flag, and the enclosing loop goes on. `Finish` is raised whenever the consumer drains the sequence, whatever the observers set. `HandlerScenarios.StopInSubdirectoryContinuesWithSibling` shows a stop inside one subdirectory followed by the walk of its sibling.
- **A stop on a found event is read only in the branch where the item passes the filter and is not excluded.**
- **Directory events carry the parent directory's path as `ItemName`.** File events carry the file's own path.

The converter is modelled over `seq<char>`, in three parts:

- `Convert` states its outcome in closed form.
- `ConvertToInt` is the loop of the source, with checked `Math.Pow`, `*` and `+`. It is proved equal to `Convert`.
- `ConverterProofs` relates `Convert` to an independent decimal value (`Value`) and to the decimal text of a number (`Decimal`).

One test in `FileSystemVisitorTests.cs` (lines 225-240) is named after `DirectoryFound` but subscribes to `FileFound`, so it repeats the scenario of lines 175-190. `HandlerScenarios.StopAtFileFound` covers both.

## Model

| member | source | states |
|---|---|---|
| `Common.CheckedAdd` | Mentoring.A1.Gutovec.03/ConverterToIntLib/ConverterToInt.cs:12 | in a checked context a sum is returned exactly when it fits the 32-bit range, and throws `OverflowException` otherwise |
| `Common.CheckedMul` | Mentoring.A1.Gutovec.03/ConverterToIntLib/ConverterToInt.cs:12 | in a checked context a product is returned exactly when it fits the 32-bit range, and throws `OverflowException` otherwise |
| `ItemFoundInfo.Default` | Mentoring.A1.Gutovec.02/FileSystemVisitorLib/ItemFoundInfoEventArgs.cs:7-9 | the parameterless constructor leaves `ItemName` null and both flags false |
| `ItemFoundInfo.New` | Mentoring.A1.Gutovec.02/FileSystemVisitorLib/ItemFoundInfoEventArgs.cs:11-16 | the three-argument constructor throws `ArgumentNullException` exactly when the name is null, and otherwise stores name, `Stop` and `Exclude` as given |
| `ItemFoundInfo.WithItemName` | Mentoring.A1.Gutovec.02/FileSystemVisitorLib/ItemFoundInfoEventArgs.cs:18 | setting `ItemName` changes the name and leaves both flags as they were |
| `ItemFoundInfo.WithStop` | Mentoring.A1.Gutovec.02/FileSystemVisitorLib/ItemFoundInfoEventArgs.cs:20 | setting `Stop` changes that flag and leaves the name and `Exclude` as they were |
| `ItemFoundInfo.WithExclude` | Mentoring.A1.Gutovec.02/FileSystemVisitorLib/ItemFoundInfoEventArgs.cs:22 | setting `Exclude` changes that flag and leaves the name and `Stop` as they were |
| `ItemFoundInfo.Fresh` | Mentoring.A1.Gutovec.02/FileSystemVisitorLib/FileSystemVisitor.cs:93 | the args the visitor creates for an event carry the given name and have both flags cleared |
| `ItemFoundInfo.NewIsDefaultThenSetters` | Mentoring.A1.Gutovec.02/FileSystemVisitorLib/ItemFoundInfoEventArgs.cs:7-22 | constructing with a non-null name and two flags equals constructing empty and then setting the three properties |
| `ItemFoundInfo.SettersIndependent` | Mentoring.A1.Gutovec.02/FileSystemVisitorLib/ItemFoundInfoEventArgs.cs:18-22 | the three setters commute pairwise, a second set of `Stop` overrides the first, and setting any property to its current value changes nothing |
| `FileSystemVisitor.NewVisitor` | Mentoring.A1.Gutovec.02/FileSystemVisitorLib/FileSystemVisitor.cs:16-20 | a null root throws `ArgumentNullException`; otherwise the visitor keeps the root and a filter that accepts every path |
| `FileSystemVisitor.NewFilteredVisitor` | Mentoring.A1.Gutovec.02/FileSystemVisitorLib/FileSystemVisitor.cs:22-25 | a null root or a null filter throws `ArgumentNullException`; otherwise the visitor keeps both as given |
| `FileSystemVisitor.FilesTrace` | Mentoring.A1.Gutovec.02/FileSystemVisitorLib/FileSystemVisitor.cs:129-157 | the first file of a frame always raises its `FileFound` event first; a frame of n files raises at most 3n events, a found event, a filtered event and a yield per file; and it raises only file events and yielded paths, never a directory event, `Start` or `Finish` |
| `FileSystemVisitor.SubdirsTrace` | Mentoring.A1.Gutovec.02/FileSystemVisitorLib/FileSystemVisitor.cs:89-127 | the loop of `GetDirectories` from any subdirectory on, with the files after it, never raises `Start` or `Finish` |
| `FileSystemVisitor.DirTrace` | Mentoring.A1.Gutovec.02/FileSystemVisitorLib/FileSystemVisitor.cs:89-127 | the walk below a directory never raises `Start` or `Finish`: only the enumeration of the root raises them |
| `FileSystemVisitor.Walk` | Mentoring.A1.Gutovec.02/FileSystemVisitorLib/FileSystemVisitor.cs:43-53 | a complete enumeration raises `Start` as its first event and `Finish` as its last, and neither anywhere else |
| `FileSystemVisitor.Yields` | Mentoring.A1.Gutovec.02/FileSystemVisitorLib/FileSystemVisitor.cs:161-164 | a trace hands the consumer at most one path per event |
| `FileSystemVisitor.Observed` | Mentoring.A1.Gutovec.02/FileSystemVisitorLib/FileSystemVisitor.cs:161-164 | a consumer never observes more events than the whole walk holds |
| `FileSystemVisitor.Enumerate` | Mentoring.A1.Gutovec.02/FileSystemVisitorLib/FileSystemVisitor.cs:161-164 | an enumeration never advanced raises nothing, and the first `MoveNext` raises `Start` before anything else |
| `VisitorProofs.FilesTraceCons` | Mentoring.A1.Gutovec.02/FileSystemVisitorLib/FileSystemVisitor.cs:131-156 | a file frame raises the events of its first file, yields that file exactly when it is admitted, and goes on with the other files unless a stop was read for it |
| `VisitorProofs.SubdirsTraceCons` | Mentoring.A1.Gutovec.02/FileSystemVisitorLib/FileSystemVisitor.cs:91-121 | a directory frame raises the events of a subdirectory, yields it exactly when it is admitted, and then descends into it and goes on, unless a stop was read for it |
| `VisitorProofs.FilesYieldSelected` | Mentoring.A1.Gutovec.02/FileSystemVisitorLib/FileSystemVisitor.cs:129-157 | a file frame yields, in order, some of the admitted files; when no stop is read it yields exactly the admitted files |
| `VisitorProofs.DirYieldsSelected` | Mentoring.A1.Gutovec.02/FileSystemVisitorLib/FileSystemVisitor.cs:89-127 | the walk below a directory yields, in depth-first order, some of the admitted entries; when no stop is read it yields exactly the admitted entries |
| `VisitorProofs.SubdirsYieldSelected` | Mentoring.A1.Gutovec.02/FileSystemVisitorLib/FileSystemVisitor.cs:91-126 | the loop over the subdirectories from the i-th on, followed by the files, yields some of the admitted entries in order, and all of them when no stop is read |
| `VisitorProofs.YieldedPathsAreAdmitted` | Mentoring.A1.Gutovec.02/FileSystemVisitorLib/FileSystemVisitor.cs:96-114 | every yielded path satisfies the filter and belongs to an entry below the root that no observer excluded or stopped |
| `VisitorProofs.DefaultWalkYieldsEverything` | Mentoring.A1.Gutovec.02/FileSystemVisitorLib/FileSystemVisitor.cs:89-157 | with the default filter and no observers, every directory strictly below the root and every file is yielded once, in depth-first order with a directory's files after its subdirectories; the count is directories plus files |
| `VisitorProofs.FileStopSkipsRemainingFiles` | Mentoring.A1.Gutovec.02/FileSystemVisitorLib/FileSystemVisitor.cs:138-149 | a stop read for the k-th file ends the file frame: the walk of the files equals the walk of the first k+1 files |
| `VisitorProofs.DirectoryStopSkipsRestOfFrame` | Mentoring.A1.Gutovec.02/FileSystemVisitorLib/FileSystemVisitor.cs:98-109 | a stop read for the i-th subdirectory ends the directory's frame: its walk equals that of the same directory without its later subdirectories and without its files |
| `VisitorProofs.SubdirsStopSkipsRest` | Mentoring.A1.Gutovec.02/FileSystemVisitorLib/FileSystemVisitor.cs:98-109 | the same, for the loop from any subdirectory j up to the one that stops |
| `VisitorProofs.StopOnEveryFileFound` | Mentoring.A1.Gutovec.02/FileSystemVisitorLib/FileSystemVisitor.cs:117-149 | with a filter every path passes, observers that stop at every file found, and directory observers that neither stop nor exclude, each file frame ends at its first file but the enclosing frames go on: every directory below the root is yielded, in order, and no file |
| `VisitorProofs.SubdirsStopOnEveryFileFound` | Mentoring.A1.Gutovec.02/FileSystemVisitorLib/FileSystemVisitor.cs:117-126 | the same, for the loop from the i-th subdirectory on |
| `VisitorProofs.NothingPassesFoundStage` | Mentoring.A1.Gutovec.02/FileSystemVisitorLib/FileSystemVisitor.cs:96-101 | when no entry passes the filter unexcluded, the walk is exactly one found event per entry in depth-first order and yields nothing, whatever `Stop` the observers set |
| `VisitorProofs.ExcludedDirectoriesAreStillSearched` | Mentoring.A1.Gutovec.02/FileSystemVisitorLib/FileSystemVisitor.cs:96-120 | excluding every directory at the found stage still walks their contents: with file observers that never stop, exactly the admitted entries are yielded, and all of them are files |
| `VisitorProofs.EventsDescribeEntries` | Mentoring.A1.Gutovec.02/FileSystemVisitorLib/FileSystemVisitor.cs:93-104 | every event of a walk names an entry below the root; directory events carry fresh args named after the parent directory and file events fresh args named after the file |
| `VisitorProofs.SubdirsEventsDescribeEntries` | Mentoring.A1.Gutovec.02/FileSystemVisitorLib/FileSystemVisitor.cs:91-104 | the same, for the loop from the i-th subdirectory on |
| `VisitorProofs.FilesEventsDescribeEntries` | Mentoring.A1.Gutovec.02/FileSystemVisitorLib/FileSystemVisitor.cs:133-144 | every event of a file frame carries fresh args named after one of its files |
| `VisitorProofs.WalkFollowsProtocol` | Mentoring.A1.Gutovec.02/FileSystemVisitorLib/FileSystemVisitor.cs:96-114 | a filtered-found event directly follows the found event of an item that passed the filter unexcluded and unstopped, and a path is yielded only directly after its filtered-found event, unexcluded and unstopped |
| `VisitorProofs.SubdirsFollowProtocol` | Mentoring.A1.Gutovec.02/FileSystemVisitorLib/FileSystemVisitor.cs:91-126 | the same protocol, for the loop from the i-th subdirectory on |
| `VisitorProofs.FilesFollowProtocol` | Mentoring.A1.Gutovec.02/FileSystemVisitorLib/FileSystemVisitor.cs:136-154 | the same protocol, for a file frame |
| `VisitorProofs.WalkShape` | Mentoring.A1.Gutovec.02/FileSystemVisitorLib/FileSystemVisitor.cs:43-53 | a walk starts with `Start`, ends with `Finish`, raises neither anywhere else, and yields what the walk of the root yields |
| `VisitorProofs.ObservedIsPrefix` | Mentoring.A1.Gutovec.02/FileSystemVisitorLib/FileSystemVisitor.cs:161-164 | what a lazy consumer observes is a prefix of the walk, and the whole walk once it asks for more items than there are |
| `VisitorProofs.ObservedYields` | Mentoring.A1.Gutovec.02/FileSystemVisitorLib/FileSystemVisitor.cs:47-50 | a consumer asking for k items receives k of them, or all there are; when it receives all it asked for, nothing has run after the last one was handed out |
| `VisitorProofs.YieldsMembers` | Mentoring.A1.Gutovec.02/FileSystemVisitorLib/FileSystemVisitor.cs:161-164 | a path reaches the consumer exactly when the trace holds a `Yielded` event for it |
| `VisitorProofs.ObservedAll` | Mentoring.A1.Gutovec.02/FileSystemVisitorLib/FileSystemVisitor.cs:161-164 | a consumer asking for more items than the walk yields observes the whole walk |
| `VisitorProofs.ObservedCount` | Mentoring.A1.Gutovec.02/FileSystemVisitorLib/FileSystemVisitor.cs:161-164 | a consumer asking for k items receives k of them, or all there are |
| `VisitorProofs.ObservedEndsWithYield` | Mentoring.A1.Gutovec.02/FileSystemVisitorLib/FileSystemVisitor.cs:47-50 | when the consumer receives every item it asked for, the walk has not gone past the last item handed out |
| `VisitorProofs.ObservedYieldsPrefix` | Mentoring.A1.Gutovec.02/FileSystemVisitorLib/FileSystemVisitor.cs:161-164 | the items a consumer receives are the first items of the walk, in order |
| `VisitorProofs.ObservedFinish` | Mentoring.A1.Gutovec.02/FileSystemVisitorLib/FileSystemVisitor.cs:43-53 | in a trace whose only `Finish` is its last event, a consumer observes `Finish` exactly when it asks for more items than there are, and then as its last event |
| `VisitorProofs.WalkYields` | Mentoring.A1.Gutovec.02/FileSystemVisitorLib/FileSystemVisitor.cs:43-53 | `Start` and `Finish` hand out nothing: an enumeration yields what the walk of the root yields |
| `VisitorProofs.StartFiresOnceFirst` | Mentoring.A1.Gutovec.02/FileSystemVisitorLib/FileSystemVisitor.cs:43-47 | `Start` is raised once per enumeration, as its first event, when the first item is asked for; an enumeration never advanced raises nothing |
| `VisitorProofs.FinishIffDrained` | Mentoring.A1.Gutovec.02/FileSystemVisitorLib/FileSystemVisitor.cs:43-53 | `Finish` is raised exactly when the consumer asks for more items than the walk yields, whatever the observers set, and then as the last event; the consumer receives the first items of the walk |
| `VisitorScenarios.TestTreeEntries` | Mentoring.A1.Gutovec.02/FileSystemVisitorLib.Tests/FileSystemVisitorTests.cs:13-44 | the tests' tree has, in walk order, the four directories of the chain `Test/dir1/dir2/dir3` and then the files of `dir2` before those of `dir1` |
| `VisitorScenarios.FilteredCount` | Mentoring.A1.Gutovec.02/FileSystemVisitorLib.Tests/FileSystemVisitorTests.cs:64-81 | a visitor filtering for a word with no observers collects one path per entry whose path contains the word |
| `VisitorScenarios.ExpectedCountDir1` | Mentoring.A1.Gutovec.02/FileSystemVisitorLib.Tests/FileSystemVisitorTests.cs:64 | filtering for "dir1" collects 7 paths |
| `VisitorScenarios.ExpectedCountDir2` | Mentoring.A1.Gutovec.02/FileSystemVisitorLib.Tests/FileSystemVisitorTests.cs:65 | filtering for "dir2" collects 4 paths |
| `VisitorScenarios.ExpectedCountTest` | Mentoring.A1.Gutovec.02/FileSystemVisitorLib.Tests/FileSystemVisitorTests.cs:66 | filtering for "Test" collects 8 paths |
| `VisitorScenarios.ExpectedCountFile4` | Mentoring.A1.Gutovec.02/FileSystemVisitorLib.Tests/FileSystemVisitorTests.cs:67 | filtering for "file4.txt" collects 1 path |
| `VisitorScenarios.ExpectedCountFile1` | Mentoring.A1.Gutovec.02/FileSystemVisitorLib.Tests/FileSystemVisitorTests.cs:68 | filtering for "file1" collects 1 path |
| `VisitorScenarios.ExpectedCountFile5` | Mentoring.A1.Gutovec.02/FileSystemVisitorLib.Tests/FileSystemVisitorTests.cs:69 | filtering for "file5" collects nothing |
| `HandlerScenarios.DefaultCollectsEverything` | Mentoring.A1.Gutovec.02/FileSystemVisitorLib.Tests/FileSystemVisitorTests.cs:83-95 | with no filter and no observers the four directories and then the four files are collected, 8 paths |
| `HandlerScenarios.BreakAfterFirstItem` | Mentoring.A1.Gutovec.02/FileSystemVisitorLib.Tests/FileSystemVisitorTests.cs:111-141 | breaking after the first item `Test/Test` leaves `Finish` unraised after `Start` has fired; draining raises it |
| `HandlerScenarios.StopAtFileFound` | Mentoring.A1.Gutovec.02/FileSystemVisitorLib.Tests/FileSystemVisitorTests.cs:175-190 | stopping at every file found collects the four directories and no file |
| `HandlerScenarios.ExcludeAtFileFound` | Mentoring.A1.Gutovec.02/FileSystemVisitorLib.Tests/FileSystemVisitorTests.cs:157-173 | with a filter for a file word, excluding at every file found raises one found event per entry and collects nothing |
| `HandlerScenarios.ExcludeAtDirectoryFound` | Mentoring.A1.Gutovec.02/FileSystemVisitorLib.Tests/FileSystemVisitorTests.cs:206-222 | with a filter for "Test" or any part of it, excluding at every directory found collects exactly the four files |
| `HandlerScenarios.StopAtFilteredDirectoryFound` | Mentoring.A1.Gutovec.02/FileSystemVisitorLib.Tests/FileSystemVisitorTests.cs:242-258 | with a filter for "Test" or any part of it, stopping at the first filtered directory raises the two events of `Test/Test`, then `Finish`, and collects nothing |
| `HandlerScenarios.StopAtFilteredFileFound` | Mentoring.A1.Gutovec.02/FileSystemVisitorLib.Tests/FileSystemVisitorTests.cs:260-276 | with a filter for a file word, stopping at every filtered file collects nothing |
| `HandlerScenarios.ExpectedExcludeAtFileFound` | Mentoring.A1.Gutovec.02/FileSystemVisitorLib.Tests/FileSystemVisitorTests.cs:157-173 | the test's filter "file4.txt" with exclusion at every file found collects 0 paths |
| `HandlerScenarios.ExpectedExcludeAtDirectoryFound` | Mentoring.A1.Gutovec.02/FileSystemVisitorLib.Tests/FileSystemVisitorTests.cs:206-222 | the test's filter "Test" with exclusion at every directory found collects 4 paths |
| `HandlerScenarios.ExpectedStopAtFilteredDirectoryFound` | Mentoring.A1.Gutovec.02/FileSystemVisitorLib.Tests/FileSystemVisitorTests.cs:242-258 | the test's filter "Test" with a stop at the filtered directory found collects 0 paths |
| `HandlerScenarios.ExpectedStopAtFilteredFileFound` | Mentoring.A1.Gutovec.02/FileSystemVisitorLib.Tests/FileSystemVisitorTests.cs:260-276 | the test's filter "file4" with a stop at the filtered file found collects 0 paths |
| `HandlerScenarios.StopInSubdirectoryContinuesWithSibling` | Mentoring.A1.Gutovec.02/FileSystemVisitorLib/FileSystemVisitor.cs:117-120 | a stop at a file found inside one subdirectory ends that subdirectory's file frame only: the parent goes on to the sibling subdirectory, both directories are collected, and `Finish` fires on drain |
| `ConverterToInt.IsWhiteSpace` | Mentoring.A1.Gutovec.03/ConverterToIntLib/ConverterToInt.cs:18-21 | a white-space character is never a digit or a sign, so the blank guard, the sign branches and the digit test never claim the same character |
| `ConverterToInt.IsBlank` | Mentoring.A1.Gutovec.03/ConverterToIntLib/ConverterToInt.cs:18-21 | the guard's `IsNullOrEmpty` test adds nothing to `IsNullOrWhiteSpace`, and a string that passes the guard is neither null nor empty |
| `ConverterToInt.Negated` | Mentoring.A1.Gutovec.03/ConverterToIntLib/ConverterToInt.cs:34-37 | the minus branch passes an exception from the rest through unchanged, and for every value from `-int.MaxValue` to `int.MaxValue` its result equals the checked multiplication by -1 |
| `ConverterToInt.IsFormatCorrect` | Mentoring.A1.Gutovec.03/ConverterToIntLib/ConverterToInt.cs:48-51 | a character is accepted exactly when it is a decimal digit `0`-`9` |
| `ConverterToInt.CheckedPow10` | Mentoring.A1.Gutovec.03/ConverterToIntLib/ConverterToInt.cs:42 | the checked cast of ten to the k-th power succeeds exactly for k up to 9, with the exact power, and throws `OverflowException` otherwise |
| `ConverterToInt.Convert` | Mentoring.A1.Gutovec.03/ConverterToIntLib/ConverterToInt.cs:16-46 | a successful conversion lies between `-int.MaxValue` and `int.MaxValue`, so `int.MinValue` is never returned |
| `ConverterToInt.ConvertToInt` | Mentoring.A1.Gutovec.03/ConverterToIntLib/ConverterToInt.cs:16-46 | the loop with checked power, product and sum, and the recursive sign branches, computes the closed-form outcome: blank throws `ArgumentNullException`; a sign strips and negates; a digit run overflows when too long or too large, otherwise a non-digit is a format error and digits only give their sum |
| `ConverterToInt.ConvertStopsAtNonDigit` | Mentoring.A1.Gutovec.03/ConverterToIntLib/ConverterToInt.cs:27-39 | a string that starts with neither a sign nor white space, and whose leading digits do not overflow, throws `FormatException` at its first non-digit |
| `ConverterToInt.ConvertOverflowsInRun` | Mentoring.A1.Gutovec.03/ConverterToIntLib/ConverterToInt.cs:42 | once the running sum of the leading digits, or the place of the first digit, exceeds the `int` range, the conversion throws `OverflowException` |
| `ConverterToInt.ConvertAllDigits` | Mentoring.A1.Gutovec.03/ConverterToIntLib/ConverterToInt.cs:23-45 | a non-empty string of digits, at most ten long, whose weighted sum fits converts to that sum |
| `ConverterProofs.WeightedIsValue` | Mentoring.A1.Gutovec.03/ConverterToIntLib/ConverterToInt.cs:42 | adding each digit times ten to the number of characters after it gives the decimal value of a digit string |
| `ConverterProofs.AllDigitsConvert` | Mentoring.A1.Gutovec.03/ConverterToIntLib/ConverterToInt.cs:23-45 | a non-empty digit string converts to its decimal value when it has at most ten characters and the value fits, and throws `OverflowException` otherwise |
| `ConverterProofs.LeadingZerosOverflow` | Mentoring.A1.Gutovec.03/ConverterToIntLib/ConverterToInt.cs:42 | a digit string longer than ten characters overflows even when its value is small, because the first place does not fit |
| `ConverterProofs.UnsignedRoundTrip` | Mentoring.A1.Gutovec.03/ConverterToIntLib/ConverterToInt.cs:23-45 | the decimal text of every n from 0 to `int.MaxValue` converts back to n |
| `ConverterProofs.RoundTrip` | Mentoring.A1.Gutovec.03/ConverterToIntLib/ConverterToInt.cs:16-46 | for every n from 0 to `int.MaxValue` the decimal text of n, of +n and of -n converts back to n, n and -n |
| `ConverterProofs.MinValueOverflows` | Mentoring.A1.Gutovec.03/ConverterToIntLib/ConverterToInt.cs:36-42 | the text of `int.MinValue` throws `OverflowException`, because its magnitude is accumulated as an `int`, and no string converts to `int.MinValue` |
| `ConverterProofs.SignsStack` | Mentoring.A1.Gutovec.03/ConverterToIntLib/ConverterToInt.cs:29-37 | any run of leading signs is stripped, and the rest's outcome is negated when the run holds an odd number of minus signs |
| `ConverterProofs.ArgumentNullIffBlank` | Mentoring.A1.Gutovec.03/ConverterToIntLib/ConverterToInt.cs:18-21 | `ArgumentNullException` is thrown exactly for a null string or one that is blank after its leading signs, so a lone sign throws it too |
| `ConverterProofs.ShortStrings` | Mentoring.A1.Gutovec.03/ConverterToIntLib/ConverterToInt.cs:25-43 | a string of at most nine characters never overflows; if it is not blank after its signs, it converts exactly when the rest is all digits and throws `FormatException` otherwise |
| `ConverterProofs.ShortUnsigned` | Mentoring.A1.Gutovec.03/ConverterToIntLib/ConverterToInt.cs:25-43 | a string of at most nine characters that starts with no sign never overflows; if it is not blank, it converts exactly when it is all digits and throws `FormatException` otherwise |
| `ConverterProofs.Signed` | Mentoring.A1.Gutovec.03/ConverterToIntLib/ConverterToInt.cs:29-37 | a leading `+` converts the rest, and a leading `-` converts the rest and negates it, passing an exception through |
| `ConverterProofs.FormatAtStart` | Mentoring.A1.Gutovec.03/ConverterToIntLib/ConverterToInt.cs:27-39 | a first character that is neither digit, sign nor white space throws `FormatException` |
| `ConverterProofs.OverlongOverflows` | Mentoring.A1.Gutovec.03/ConverterToIntLib/ConverterToInt.cs:42 | a digit followed by ten or more characters of any kind throws `OverflowException`, before any later non-digit is reached |
| `ConverterProofs.FormatAfterDigits` | Mentoring.A1.Gutovec.03/ConverterToIntLib/ConverterToInt.cs:25-43 | a string that starts with digits and has a non-digit further on throws `FormatException` when nothing can overflow first: at most nine characters, or ten starting with `0` or `1` |
| `ConverterProofs.BlankInputs` | Mentoring.A1.Gutovec.03/ConverterToIntLib.Tests/ConverterToIntLibTests.cs:9-23 | null, the empty string and a space throw `ArgumentNullException` |
| `ConverterProofs.Converts123487645` | Mentoring.A1.Gutovec.03/ConverterToIntLib.Tests/ConverterToIntLibTests.cs:44 | "123487645" converts to 123487645 |
| `ConverterProofs.ConvertsPlus1896` | Mentoring.A1.Gutovec.03/ConverterToIntLib.Tests/ConverterToIntLibTests.cs:45 | "+1896" converts to 1896 |
| `ConverterProofs.ConvertsPlus123328` | Mentoring.A1.Gutovec.03/ConverterToIntLib.Tests/ConverterToIntLibTests.cs:46 | "+123328" converts to 123328 |
| `ConverterProofs.ConvertsMinus85543328` | Mentoring.A1.Gutovec.03/ConverterToIntLib.Tests/ConverterToIntLibTests.cs:47 | "-85543328" converts to -85543328 |
| `ConverterProofs.ConvertsMinus855` | Mentoring.A1.Gutovec.03/ConverterToIntLib.Tests/ConverterToIntLibTests.cs:48 | "-855" converts to -855 |
| `ConverterProofs.MalformedInputs` | Mentoring.A1.Gutovec.03/ConverterToIntLib.Tests/ConverterToIntLibTests.cs:25-34 | "#123456789", "somestring" and "-somestring" throw `FormatException` |
| `ConverterProofs.RejectsStrayCharacters` | Mentoring.A1.Gutovec.03/ConverterToIntLib.Tests/ConverterToIntLibTests.cs:26-30 | "-123456789-", "-789-7895", "+123456+789", "+515+" and "+1258774a" throw `FormatException`: a sign or letter after the digits is reached before anything can overflow |
| `ConverterProofs.OverflowsPastMaxValue` | Mentoring.A1.Gutovec.03/ConverterToIntLib.Tests/ConverterToIntLibTests.cs:36-37 | `int.MaxValue` followed by "15" or by "1" throws `OverflowException` |
| `ConverterProofs.OverflowsPastMinValue` | Mentoring.A1.Gutovec.03/ConverterToIntLib.Tests/ConverterToIntLibTests.cs:38-39 | `int.MinValue` followed by "-1" or by "-100" throws `OverflowException`, not the `FormatException` of its stray `-` |
| `ExtensionString.FirstChar` | Mentoring.A1.Gutovec.03/FirstCharGetter/ExtensionString.cs:13-21 | a null or empty string throws `ArgumentNullException`, and any other string returns its character at index 0 |
| `ExtensionString.FirstOfPrepended` | Mentoring.A1.Gutovec.03/FirstCharGetter/ExtensionString.cs:20 | the first character of c followed by anything is c |
| `ExtensionString.WhiteSpaceAccepted` | Mentoring.A1.Gutovec.03/FirstCharGetter/ExtensionString.cs:15 | a non-empty string of white space returns its first character, a white-space one, where the integer conversion rejects the same string as blank |
| `ExtensionString.Examples` | Mentoring.A1.Gutovec.03/FirstCharGetter/ExtensionString.cs:13-21 | null and "" throw `ArgumentNullException`; " " gives ' ' and "abc" gives 'a' |

## Left out

- **Real file-system access.** `Directory.EnumerateDirectories`, `Directory.EnumerateFiles` and `DirectoryInfo.FullName` become a given tree whose sequence order stands for the enumeration order. I/O errors while enumerating are not modelled.
- **The constructor of `DirectoryInfo`.** It rejects a null path before the visitor is built (`FileSystemVisitorTests.cs`:56-58), so it is not part of this model.
- **Event delegates and `sender`.** The observers of one event are one pure function of the args. Observers that keep their own state, such as the tests' `isCalled` flags, are visible only through the events in the trace. An observer that renames `ItemName` has no effect, because the visitor reads only the two flags.
- **C# iterator suspension.** Laziness is a prefix of the trace rather than a coroutine.
- **UTF-16 code units.** Strings are sequences of Unicode scalar values. A character outside the Basic Multilingual Plane, such as an emoji, is one position here and two UTF-16 code units in .NET. That changes `Length`, so it shifts the digit places `ConvertToInt` computes: "100000000" followed by an emoji is a `FormatException` here but an `OverflowException` in .NET. It also changes `FirstChar`, which in .NET returns the high surrogate of such a character.
- FileSystemVisitor.Yields: its own contract bounds the count only. Which paths it hands out is stated by `VisitorProofs.YieldsMembers`, and their order by `VisitorProofs.DirYieldsSelected`.
- FileSystemVisitor.Observed: its own contract bounds the length only, to keep the proofs that use it small. The prefix property and the item count are stated by `VisitorProofs.ObservedIsPrefix`, `VisitorProofs.ObservedCount` and `VisitorProofs.ObservedYieldsPrefix`.
- FileSystemVisitor.SubdirsTrace: its own contract states only that no `Start` or `Finish` is raised. The order and content of its events are stated by `VisitorProofs.SubdirsTraceCons`, `VisitorProofs.SubdirsYieldSelected` and `VisitorProofs.SubdirsFollowProtocol`.
- FileSystemVisitor.DirTrace: its own contract states only that no `Start` or `Finish` is raised. The order and content of its events are stated by the `VisitorProofs` lemmas on the walk below a directory.
- **`char.IsNumber` on non-ASCII digits.** Only `0`-`9` are digits here. The source also accepts other Unicode numeric characters, for which `c - 48` has no meaning as a digit value.
- **`Math.Pow` in floating point.** It is the exact integer power, which the double equals for exponents up to 9. From 10 on, the checked cast throws.
- **Culture-sensitive `StartsWith("+")` and `StartsWith("-")`.** They are modelled as a comparison of the first character. Under a culture comparison, characters the culture ignores could precede the sign; that is not modelled.
- **Builds without overflow checking.** Wrap-around and the unspecified conversion of a large double to `int` are out of scope. `ConverterToInt.cs`:12 leaves the choice to the build, and the tests expect the checked behaviour.
- **The `ToInt()` extension.** The tests call it, but it is not part of this model. The test cases are stated against `ConvertToInt`.
- **The console programs and `HelloWithTime`.** `FirstCharGetter/Program.cs` and `ConsoleCoreApplication/Program.cs` are interactive read and print loops, and `HelloWithTime` reads the system clock.
- **The tests' set-up and tear-down.** They create and delete real directories. Their tree is `VisitorScenarios.TestTree`, and the directory the tests run from is a parameter.
- ConverterToInt.Convert: its own contract states only the range of a result. The full outcome is stated by `ConverterToInt.ConvertToInt`, which equals it, and by the lemmas of `ConverterProofs`.
- **The literal text `-2147483648`.** `ConverterProofs.MinValueOverflows` states the overflow of `int.MinValue` through `Decimal(int.MaxValue + 1)`, the decimal text of its magnitude, rather than through the literal.
- VisitorScenarios.ExpectedCountDir1: requires that the base directory's path does not contain "dir1", because the tests' count depends on where they run.
- VisitorScenarios.ExpectedCountDir2: requires that the base directory's path does not contain "dir2", for the same reason.
- VisitorScenarios.ExpectedCountFile4: requires that the base directory's path does not contain "file4.txt", for the same reason.
- VisitorScenarios.ExpectedCountFile1: requires that the base directory's path does not contain "file1", for the same reason.
- VisitorScenarios.ExpectedCountFile5: requires that the base directory's path does not contain "file5", for the same reason.
- HandlerScenarios.ExpectedExcludeAtFileFound: requires that the base directory's path does not contain "file4.txt", for the same reason.
- HandlerScenarios.ExpectedStopAtFilteredFileFound: requires that the base directory's path does not contain "file4", for the same reason.
- HandlerScenarios.ExcludeAtFileFound: stated for any word that contains an `f` and no `/` and that the base lacks. The test's word "file4.txt" is one such word.
- HandlerScenarios.StopAtFilteredFileFound: stated for the same words. The test's word "file4" is one of them.
