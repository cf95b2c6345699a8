# Verified models of the CHERI OS test suite

This project models six parts of the repository that hold general logic of their own and proves what they
promise. Each module belongs to one source file, or to one layer of it. `dafny verify dfyconfig.toml` checks
everything.

* **The meta file reader** (`mk/meta2deps.py`). `PyStrings`, `CleanPath` and `MetaSpec` say what its string and
  path functions, its dependency rules and its record loop compute; `MetaFile` is the class as it runs, its
  fields updated by its methods. `MetaProcess` proves that the one cached `cwd` is every process's own directory
  and that `pids` is who still runs; `MetaLastDir` what the one `last_dir` is to each of them; `MetaPaths` where a
  chdir leads and what a name names, against a walk through the tree; `MetaEntries` what the entries of the lists
  are; `MetaRoots` that the first root found is the longest. `SeenCache` and
  `MetaCache` run the parser side by side with a parser whose `seen` tests are removed, `MetaHides` has the traces
  on which the two differ, `MetaTransparent` says exactly when they do not, and `MetaExample` is a file system of
  six directories to see it on.
* **The TLS handshake** (`cheriostest_tls_threads.c`). `TlsHandshake` interleaves main, the worker and spurious
  wakeups, one step per statement another thread can observe.
* **The feature note patcher** (`set-feature-ctl-note.cpp`). `LittleEndian` has bytes and the numbers in them.
  `ElfNotes` is the walk over raw bytes with 32- and 64-bit wrap-around, against notes in the Note Section format of
  the System V gABI, chapter 5; `ElfFile` is whole files, laid out byte by byte; `FeaturePatch` is the rewrite of one
  word, once and many times, and `PatchedFile` what it does to a laid-out file.
* **Address space gaps** (`cheriostest_util_vm.c`) and unrepresentable lengths (`cheriostest_vm.c`).
  `AddressGap` has both searches; `Representable` has 64-bit alignment, rounding to a power-of-two granule and
  the search for a length that no capability can describe.
* **The revocation driver** (`cheriostest_vm.c`). `Revocation` runs it against a revoker that kills exactly the
  capabilities whose slot is painted, in all four modes.
* **The test controller** (`cheriostest.c`, `cheriostest_util.c`). `ChildReports` is the page shared with the
  child, `Verdicts` the judgement of a run, `TestController` the counters, lists and exit status, `ExecArgs` the
  command line from a test to its exec'd child and back.

## What turned out

* `cleanpath` leaves its loop at a `..` with nothing to pop. So it reads an absolute path as a walk from the root
  exactly when the path never climbs above the root or ends at the root anyway, and cleaning the front of a path
  first is harmless exactly when the front does not climb or the back names the root.
* The `seen` cache is invisible in the dependency lists of traces of absolute names exactly when no readable file
  lies in a source directory that is reached elsewhere through a symbolic link of another source name: the file
  behind the link marks the real directory as seen, under the name of the link alone. The traces this is about use
  canonical names, have CWD records of one directory only, and execute no directory. Each of these shuts out traces
  that fail where nothing is hidden by a link. A doubled slash is never cleaned, so a directory spelt with one is
  listed under another name and marks the real directory. A directory that was home earlier stays seen after its
  files have come to count; that happens within one meta file, and with two files of different directories that
  share the cache, which is what `reset` is for. And what is executed is never asked whether it is a directory,
  so a directory inside a link counts as its file. Chdir records may lead anywhere.
* For traces with relative names the same holds, under four more conditions on the trace, each of which shuts out
  a family of traces that fail; the paths that relative names spell, and the targets of links, are canonical too.
  A name is used from one directory: the cache remembers it without its directory. No directory is read: the cached
  parser leaves `parse_path` before it moves `last_dir` there when the parent directory is seen, and later names
  are then looked for in another place. No relative name is that of an excluded file, unless the name itself is
  excluded: the exclude list is matched against the name as it was used. And a name that starts with a dot and a
  slash is that of a file: `resolve` does not look whether there is one, and a file that is not there marks the
  directory behind a link like any other. For each family there is a trace that differs, all in one file system
  where nothing is hidden by a link.
* `last_dir` is each process's own as long as nothing forks. A fork puts the parent's directory aside as the child's
  `last_dir`, but the child gets the parent's `last_dir` all the same, and the parent goes on with the one it had when
  it was last switched from or changed directory.
* A chdir goes where a walk through the tree goes, with one exception: from the root, a name is spelt with a doubled
  slash, which stays unless something else in the path has it cleaned.
* The list form of `find_address_space_gap` starts at the top. Where the top gap cannot be aligned within 64 bits
  and the last mapping starts high enough, the wrapped alignment gives address zero, the value that also says
  that nothing was found, and the search ends in failure whatever lies below. The array form meets that gap last.
* The vector of `mk_exec_args` holds its null pointer unless there are extra arguments and both `-c` and `-v`
  are passed on; then it needs one slot more than is allocated.
* A test refused for the prefix of its name is judged by `flaky_reason` before that is set. The model lets the
  pointer hold anything, and the counters still add up.

## Model

| member | source | states |
|---|---|---|
| CleanPath.CleanUp | mk/meta2deps.py:120-139 | the loop with its pushes, pops and early exit computes the cleaning that the lemmas below are about |
| CleanPath.CleanIsWalkExactly | mk/meta2deps.py:120-139 | an absolute path is cleaned to the directory a walk from the root reaches if and only if it never climbs above the root or ends there; if it climbs, the result is the root |
| CleanPath.CleanCanMiss | mk/meta2deps.py:131-136 | /../a is cleaned to the root, where a walk from the root reaches /a |
| CleanPath.CanonicalExactly | mk/meta2deps.py:120-139 | cleaning leaves alone exactly the root and the paths of proper names each after one slash |
| CleanPath.CleanIdempotent | mk/meta2deps.py:120-139 | cleaning twice is cleaning once, and absolute paths stay absolute and relative ones relative |
| CleanPath.CleanParts | mk/meta2deps.py:120-139 | no component left is empty, a dot, a double dot or holds a slash |
| CleanPath.CleanFrontExactly | mk/meta2deps.py:120-139 | cleaning the front of a path first gives the same as cleaning the whole, for an absolute front and any back, if and only if the front does not climb or the back names the root |
| CleanPath.CleanFrontCanMiss | mk/meta2deps.py:131-136 | /.. is cleaned to the root, below which a is /a, but /../a as a whole is cleaned to the root |
| MetaFile.ResolvePath | mk/meta2deps.py:76-118 | the loops over trailing and leading dots and over last_dir and cwd give the path the specification resolves to, or none |
| MetaFile.AbsolutePath | mk/meta2deps.py:141-156 | the resolved path, cleaned where it may need it; none for an absolute path that does not exist |
| MetaSpec.NeedsCleaningExactly | mk/meta2deps.py:151-155 | a path is cleaned if and only if it has no slash, or an up-step or a dot before a slash in it; one that starts with a dot and a slash, only for an up-step |
| MetaSpec.MachineAndRestExactly | mk/meta2deps.py:397-400 | the pattern matches exactly a machine without slash, a slash and something more |
| PyStrings.RemoveFirst | mk/meta2deps.py:393-397 | removing a root from a path takes out its first occurrence and goes on behind it |
| PyStrings.SplitPathExactly | mk/meta2deps.py:612-612 | a path is taken apart into a head, slashes and a name without slash, the head ending in a slash only if it has nothing else |
| PyStrings.AddExactly | mk/meta2deps.py:360-365 | a list keeps what it has in front, and gets an entry behind it if and only if it had it not |
| PyStrings.EndsWithExactly | mk/meta2deps.py:82-83 | ending in a string is being something followed by it |
| MetaPaths.ChdirWalks | mk/meta2deps.py:512-524 | for `..`, `.` and proper names found below a directory other than the root, a chdir leads where a walk from the root leads; `..` to the parent, and the root to itself |
| MetaPaths.ChdirCleans | mk/meta2deps.py:141-156 | a relative path that is cleaned leads where the walk leads if and only if it does not climb above the root or ends there |
| MetaPaths.ChdirFromRootExactly | mk/meta2deps.py:106-118 | from the root, a proper name leads below the root if and only if something in the doubled-slash path has it cleaned |
| MetaPaths.ChdirMissing | mk/meta2deps.py:512-520 | where nothing is there the new directory is the name itself, cleaned if it is relative and asks for it |
| MetaPaths.NameFoundExactly | mk/meta2deps.py:98-118 | a relative name resolves to the path under last_dir if that exists, else to the one under cwd if that exists, and to nothing else |
| MetaPaths.DotsFromLastDir | mk/meta2deps.py:100-104 | two dots are the directory above last_dir |
| MetaPaths.StripDotsExactly | mk/meta2deps.py:76-84 | of a name goes exactly its longest end of slashes with dots |
| MetaPaths.ExcludedExactly | mk/meta2deps.py:601-605 | a name is excluded if and only if a non-empty entry of the list begins it |
| MetaFile.Top | mk/meta2deps.py:367-374 | the loop gives the first root of the list that starts the path |
| MetaRoots.FindTopIsLongest | mk/meta2deps.py:297-299 | on a descending list the root found is the longest that starts the path, and none is found if and only if none does |
| MetaRoots.SourceRoots | mk/meta2deps.py:264-273 | the source roots are every configured root and the real path behind it, each ending in a slash, each once, descending |
| MetaRoots.SortDownSorts | mk/meta2deps.py:298-299 | sorting in reverse keeps the roots and puts no string before one that sorts after it |
| MetaRoots.BeforeExactly | mk/meta2deps.py:298-299 | a string sorts before another if and only if it is smaller where they first differ, or ends there |
| MetaFile.MetaFile.SeenIt | mk/meta2deps.py:356-358 | one more key is seen and nothing else changes |
| MetaFile.MetaFile.IsSource | mk/meta2deps.py:577-590 | the first of the two names that lies under a source root is listed and marked, without its root |
| MetaFile.MetaFile.FindObject | mk/meta2deps.py:376-408 | the object dependency of a directory, with its machine as a suffix unless it is the one built for; the directory and the raw input become seen |
| MetaFile.MetaFile.ClassifyFile | mk/meta2deps.py:642-668 | the tail for executed and read files leaves the fields as specified, including which of the two names is marked when neither has an object root |
| MetaFile.MetaFile.LookAt | mk/meta2deps.py:592-668 | every exit of parse_path leaves the fields that the specification gives |
| MetaFile.MetaFile.DirectoryNames | mk/meta2deps.py:616-625 | the directory part of a path as an absolute name, with the real directory if that differs |
| MetaFile.MetaFile.Chdir | mk/meta2deps.py:512-524 | the new directory of the process, absolute where it can be, and last_dir with it |
| MetaFile.MetaFile.FileRecord | mk/meta2deps.py:533-550 | a file record is skipped when its raw token was seen; otherwise an exec enters its pid and both names of a link are looked at in order |
| MetaFile.MetaFile.SwitchTo | mk/meta2deps.py:497-503 | the context switch saves last_dir under the last pid and takes cwd and last_dir of the new one |
| MetaFile.MetaFile.ReadHeader | mk/meta2deps.py:474-489 | before the first V record only CWD and V lines have an effect, the specified one |
| MetaFile.MetaFile.ReadAll | mk/meta2deps.py:446-550 | the loop over the lines leaves fields and flags where the specified run ends, exceptions included |
| MetaFile.MetaFile.ProcessRecord | mk/meta2deps.py:497-550 | context switch and operation together take the loop state where one step of the specification takes it |
| MetaFile.MetaFile.CheckPids | mk/meta2deps.py:557-573 | what is left in pids is every process without a set-id file, and any of them is an error |
| MetaFile.MetaFile.Parse | mk/meta2deps.py:419-575 | for every trace parse ends in the outcome and the fields of the specification's run |
| MetaProcess.CwdRefines | mk/meta2deps.py:497-524 | whatever the trace, the pids and the cache, the cached cwd a record is processed with is the directory that a plain model of forks and chdirs gives its process |
| MetaProcess.StepControl | mk/meta2deps.py:474-531 | directories, flags and the last pid move by the records alone, never by what the cache or the dependencies hold |
| MetaProcess.PidsAreLive | mk/meta2deps.py:526-550 | pids holds exactly the processes with a recorded exec and no later exit, each with the path of its last recorded exec |
| MetaProcess.ParsedExactly | mk/meta2deps.py:552-573 | a parse ends normally if and only if a V record with a non-zero version came, a Bye line after it, no V, CWD or CMD line after it, and every process still running names a set-id file |
| MetaProcess.ErrorExactly | mk/meta2deps.py:552-573 | each error a parse can end in has its own condition: a stray header record, version zero, no Bye line, a process lost, the first of these |
| MetaProcess.NoDataExactly | mk/meta2deps.py:552-553 | a trace without V record ends in missing data |
| MetaProcess.SeenHolds | mk/meta2deps.py:442-489 | nothing seen is forgotten, and the directory run in and all CWD directories are seen |
| MetaLastDir.LastDirRefines | mk/meta2deps.py:497-503 | in a trace without forks the one last_dir a record is processed with is the one its process left at its own last record |
| MetaLastDir.ForkExactly | mk/meta2deps.py:506-511 | after a fork the child has the last_dir of its parent, and the parent the one last put aside for it |
| MetaLastDir.ForkForgets | mk/meta2deps.py:497-511 | the last_dir of the process that forks is kept if and only if it had not moved since it was put aside |
| MetaLastDir.DirectoryMovesExactly | mk/meta2deps.py:612-640 | reading or linking to a directory moves last_dir there, unless it is last_dir, the process's directory, home or curdir, or its parent was seen |
| MetaEntries.SourceListed | mk/meta2deps.py:577-590 | a file of directory rest under a source root adds rest to src_deps and marks the directory and the file |
| MetaEntries.ObjectListed | mk/meta2deps.py:393-408 | a file of directory machine/rest under an object root adds rest to obj_deps, with the machine behind a dot unless it is the one built for or the host's own; machine/rest where the machine is none |
| MetaEntries.LinkListsBoth | mk/meta2deps.py:616-668 | a directory that is a link between a source and an object tree is listed as both |
| MetaEntries.BareListsNothing | mk/meta2deps.py:397-408 | a directory right under an object root lists nothing |
| MetaEntries.TreeListsObjects | mk/meta2deps.py:393-408 | a lawful file system with an object root, in which the entries are spelt out for every machine |
| MetaEntries.TreeListsSources | mk/meta2deps.py:577-590 | and in its source tree |
| MetaEntries.LinkListsSource | mk/meta2deps.py:537-543 | a link record lists what reading its source would, and nothing for its target |
| MetaEntries.SkippedExactly | mk/meta2deps.py:533-550 | a record is skipped on its raw word alone, quotes included |
| MetaEntries.Unquotes | mk/meta2deps.py:540-541 | the quotes around a name of a link record go |
| SeenCache.NoteAgrees | mk/meta2deps.py:612-615 | skipping what is seen loses no entry, as long as whatever a directory marks gives nothing that the directory itself does not give |
| MetaCache.ClassifyEffect | mk/meta2deps.py:642-668 | what a directory lists and marks depends on the directory alone, not on the file |
| MetaCache.ReadEffect | mk/meta2deps.py:592-668 | reading a file by an absolute name, or by a relative one where last_dir is the process's directory, lists and marks what its directory gives, or nothing if the file does not count |
| MetaCache.RunsAgree | mk/meta2deps.py:474-550 | along every fitting trace of either kind the parsers with and without the seen tests hold equal lists, directories and flags |
| MetaHides.HiddenPairShows | mk/meta2deps.py:577-590 | reading a file through a hiding link and then one behind it, by absolute names, is a fitting trace of either kind on which the two parsers differ |
| MetaHides.RelativeNameHides | mk/meta2deps.py:533-536 | a relative name used in two directories that give different entries is listed once with the cache and twice without |
| MetaHides.ReadDirectoryHides | mk/meta2deps.py:608-640 | a directory read after a file beside it moves last_dir without the cache and not with it, and a name found only there is then listed by one parser and not by the other |
| MetaHides.ExcludedNameHides | mk/meta2deps.py:598-615 | a file behind a hiding link, read by a relative name from inside, hides the real directory although its path is excluded |
| MetaHides.MissingNameHides | mk/meta2deps.py:94-97 | a name that starts with a dot and a slash marks the directory behind a hiding link although the file is not there |
| MetaHides.SpellingHides | mk/meta2deps.py:612-625 | a file read by a name with an uncleaned spelling of its directory, and then one by a canonical name, are listed as two entries without the cache and as one with it |
| MetaHides.EarlierHomeHides | mk/meta2deps.py:484-489 | with two CWD records, a file of the first directory is listed without the cache and not with it |
| MetaHides.EarlierFileHides | mk/meta2deps.py:330-335 | the same with a meta file of each directory, read one after the other without a reset |
| MetaHides.RunDirectoryHides | mk/meta2deps.py:630-645 | a directory that lies behind a hiding link and is executed marks the real directory, whose file is then listed only without the cache |
| MetaTransparent.CacheTransparentExactly | mk/meta2deps.py:533-668 | for every file system and configuration: the cache changes src_deps or obj_deps of no trace of canonical absolute names in which every CWD record names the one home directory and no directory is executed, if and only if no readable file lies behind a hiding link |
| MetaTransparent.RelativeTransparentExactly | mk/meta2deps.py:533-668 | the same if and only if for such traces that also use relative names, where every name and link target spells a canonical path, each token names files of one directory, no directory is read, a relative name of an excluded file is excluded itself, and a name that starts with a dot and a slash is that of a file |
| MetaTransparent.AllFilesTransparentExactly | mk/meta2deps.py:200-203 | the same if and only if over all lists of meta files of one directory that share one cache, the parser started in one place for each, for both kinds of traces and one assignment of relative tokens to directories |
| MetaExample.LinkShows | mk/meta2deps.py:577-590 | there is a file system that meets the assumptions of the claim, with a hidden pair and a trace that differs |
| MetaExample.OthersShow | mk/meta2deps.py:533-668 | there is one that meets the assumptions, in which nothing is hidden and each of the eight other families makes the parsers differ |
| MetaExample.RelativeNameShows | mk/meta2deps.py:533-536 | in every file system of that shape a name used in two directories does |
| MetaExample.DirectoryShows | mk/meta2deps.py:608-640 | so does a directory that is read |
| MetaExample.ExcludedNameShows | mk/meta2deps.py:598-615 | and a relative name of an excluded file |
| MetaExample.SpellingShows | mk/meta2deps.py:612-625 | and a doubled slash |
| MetaExample.EarlierHomeShows | mk/meta2deps.py:484-489 | and an earlier home, in one meta file and in two |
| MetaExample.RunDirectoryShows | mk/meta2deps.py:630-645 | and a directory that is executed |
| MetaExample.MissingNameShows | mk/meta2deps.py:94-97 | and a name of no file |
| TlsHandshake.RunKeepsInv | cheriostest/cheriostest_tls_threads.c:75-190 | every state of every interleaving keeps the invariant of the lock, of thread_done with the sleepers, and of the variables |
| TlsHandshake.HandshakeIsSafe | cheriostest/cheriostest_tls_threads.c:139-190 | the threads are never both inside; main reads through the pointers only when all are set and incremented and the worker has not returned; main's copies keep their values and no check fails |
| TlsHandshake.DoneMovesUp | cheriostest/cheriostest_tls_threads.c:94-155 | thread_done moves from 0 to 1 by the worker and from 1 to 2 by main, and in no other way |
| TlsHandshake.RankDrops | cheriostest/cheriostest_tls_threads.c:91-161 | every step of a thread lowers the ranking, and a spurious wakeup raises it by three |
| TlsHandshake.RunsAreBounded | cheriostest/cheriostest_tls_threads.c:91-161 | no run is longer than a bound given by the number of variables and of its spurious wakeups |
| TlsHandshake.StuckOnlyAtTheEnd | cheriostest/cheriostest_tls_threads.c:99-161 | neither thread can step by itself if and only if main has succeeded and the worker has returned: no deadlock, no lost wakeup |
| TlsHandshake.EveryRunCanFinish | cheriostest/cheriostest_tls_threads.c:75-234 | every run can be carried on without spurious wakeups to success with the right values read |
| ElfNotes.FindFeatureCtlDesc | tools/set-feature-ctl-note/set-feature-ctl-note.cpp:72-97 | the loop over program headers gives the result of the specified search, on any bytes |
| ElfNotes.WalkSegment | tools/set-feature-ctl-note/set-feature-ctl-note.cpp:80-94 | the inner loop ends on any bytes with the result of the specified walk |
| ElfNotes.WalkIsShort | tools/set-feature-ctl-note/set-feature-ctl-note.cpp:82-94 | on any bytes and any wrapped bounds the note headers read take at least 12 bytes each of what is left of the file |
| ElfNotes.WalkTakesFirst | tools/set-feature-ctl-note/set-feature-ctl-note.cpp:80-94 | in a well-formed segment under 2^32 bytes the wrapping sums find the first matching note, at its descriptor, and nothing exactly when there is none |
| ElfFile.FindsTheFirstNote | tools/set-feature-ctl-note/set-feature-ctl-note.cpp:71-97 | on every file laid out byte by byte, header, program headers and notes, the search equals parsing all notes of the PT_NOTE segments at p_offset in header order and taking the first match |
| LittleEndian.FieldsExactly | tools/set-feature-ctl-note/elf_defs.h:50-82 | a field is read as a number if and only if the bytes there are that number, lowest byte first |
| ElfNotes.PaddingExactly | tools/set-feature-ctl-note/set-feature-ctl-note.cpp:57-94 | sizes are padded to the next multiple of four, or to zero within three of 2^32, and added modulo 2^32 |
| ElfNotes.WrappedSegment | tools/set-feature-ctl-note/set-feature-ctl-note.cpp:80-83 | of a note segment whose end wraps around 2^64 nothing is found, unless its first header wraps too and the read fails |
| ElfFile.WrappedHeader | tools/set-feature-ctl-note/set-feature-ctl-note.cpp:80-81 | a program header that reaches beyond 2^64 is read as a segment with such an end |
| ElfNotes.FindSame | tools/set-feature-ctl-note/set-feature-ctl-note.cpp:72-97 | changing a word that nothing read before it overlaps does not change what is found |
| FeaturePatch.SetFeature | tools/set-feature-ctl-note/set-feature-ctl-note.cpp:101-140 | the program rewrites the file in place as specified, or leaves every byte and gives the error of the first check that fails |
| FeaturePatch.StoreLoad | tools/set-feature-ctl-note/set-feature-ctl-note.cpp:132-136 | the word written is there lowest byte first and is the word read back, and no other byte changes |
| FeaturePatch.RefusesExactly | tools/set-feature-ctl-note/set-feature-ctl-note.cpp:117-133 | which files are patched, and for each refusal exactly when: the magic, class and byte order, the header size, no note, a descriptor too small |
| FeaturePatch.PatchTouchesTwoBits | tools/set-feature-ctl-note/set-feature-ctl-note.cpp:104-136 | a run keeps the length, every other byte and the other 30 bits, and of bits 31 and 5 leaves exactly the one asked for |
| FeaturePatch.PatchTwice | tools/set-feature-ctl-note/set-feature-ctl-note.cpp:101-140 | if the word is clear of what the search reads, a second run finds it again and leaves what it alone would have left |
| FeaturePatch.LastRunWins | tools/set-feature-ctl-note/set-feature-ctl-note.cpp:101-140 | any non-empty sequence of runs leaves the file that its last run alone would have left |
| PatchedFile.LaidOutLastRunWins | tools/set-feature-ctl-note/set-feature-ctl-note.cpp:72-97 | in a laid-out file whose headers and note segments do not overlap the word is clear, so the last run wins |
| PatchedFile.PatchesExactly | tools/set-feature-ctl-note/set-feature-ctl-note.cpp:72-140 | a laid-out file with a good header is refused if and only if it has no feature control note or the first one has no room for the word |
| PatchedFile.PatchesTheNote | tools/set-feature-ctl-note/set-feature-ctl-note.cpp:132-136 | and otherwise the first four bytes of the descriptor of the first feature control note change, from the old word to the right new one, and no others |
| PatchedFile.TestFileIsPatched | tools/set-feature-ctl-note/test_set_feature_ctl_note.cpp:56-170 | any runs on the file of the tool's test leave in it the bit of the last one and no other |
| Representable.AlignUpIs | cheriostest/cheriostest_util_vm.c:99 | aligning up gives the least multiple that is not below, when there is one within 64 bits |
| Representable.AlignUpWraps | cheriostest/cheriostest_util_vm.c:164 | otherwise it gives zero, although no 64-bit multiple is high enough |
| Representable.RepresentableExactly | cheriostest/cheriostest_util_vm.c:93-96 | rounding leaves a length alone if and only if its granule divides it, and never lowers one that stays within 64 bits |
| Representable.GranuleIsLeast | cheriostest/cheriostest_util_vm.c:93-96 | the granule of a length is the least power of two of which 2^m exceed the length |
| Representable.RoundedIsRepresentable | cheriostest/cheriostest_util_vm.c:93-96 | a rounded length is a multiple of its own granule, even where rounding has made that larger |
| Representable.ShortIsRepresentable | cheriostest/cheriostest_vm.c:1247-1255 | every length of at most 2^m pages has a representable page rounding |
| Representable.GetUnrepresentableLength | cheriostest/cheriostest_vm.c:1241-1257 | the loop ends with 2^m pages and one byte, the shortest of all lengths whose page rounding is unrepresentable, and its representable length exceeds its page rounding as the tests that use it check |
| AddressGap.GapTest | cheriostest/cheriostest_util_vm.c:98-107 | the test on one gap succeeds if and only if the range fits there, or alignment wraps and the next mapping starts high enough; its address is the lowest in the gap |
| AddressGap.FoundIsDescribable | cheriostest/cheriostest_util_vm.c:71-75 | with no alignment given, address and length found by either search are multiples of the length's granule, so a capability describes the range exactly, and the length asked for fits in it |
| AddressGap.FindUpwards | cheriostest/cheriostest_util_vm.c:76-118 | the array search gives the lowest of all free ranges between the first and the last mapping, aligned as asked or, with no alignment given, to the granule of the representable length; it fails if and only if there is none |
| AddressGap.BuildList | cheriostest/cheriostest_util_vm.c:146-151 | inserting at the head makes a list that meets the mappings from the last one down |
| AddressGap.SearchList | cheriostest/cheriostest_util_vm.c:162-173 | the loop down the list gives the lowest place of the highest gap that has one, and fails if and only if no gap has one or the top gap misleads |
| AddressGap.FindDownwards | cheriostest/cheriostest_util_vm.c:128-180 | the list search from the mappings read to the address returned, for the same length and alignment |
| AddressGap.SearchesAgreeExactly | cheriostest/cheriostest_util_vm.c:98-173 | the two searches fail on the same inputs if and only if the top gap does not mislead or there is nothing to find, and the list search is never lower |
| AddressGap.ListSearchCanMiss | cheriostest/cheriostest_util_vm.c:162-177 | three mappings on which the list search fails although the array search succeeds |
| Revocation.Arena.constructor | cheriostest/cheriostest_vm.c:2510-2538 | every slot holds a live capability to itself and nothing is painted |
| Revocation.Arena.SetShadow | cheriostest/cheriostest_vm.c:2609-2612 | a chunk is painted, or refused unchanged if and only if a slot of it is painted already |
| Revocation.Arena.Revoke | cheriostest/cheriostest_vm.c:2629-2643 | the assumed revoker: exactly the capabilities to painted slots die, and only a last pass closes the epoch |
| Revocation.Arena.ClearShadow | cheriostest/cheriostest_vm.c:2685 | the chunk's paint is cleared, which the driver only ever asks for while no epoch is open |
| Revocation.Arena.Check | cheriostest/cheriostest_vm.c:2645-2672 | the three loops find a dead capability outside the chunk or a live one inside, at the paranoia given |
| Revocation.CheckDetectsExactly | cheriostest/cheriostest_vm.c:2645-2672 | with full paranoia and everything live before, the checks pass after any revoker if and only if it left alive exactly what the exact one leaves alive |
| Revocation.Arena.PutBack | cheriostest/cheriostest_vm.c:2688-2693 | the chunk's slots, and no others, hold live capabilities to themselves again |
| Revocation.Arena.Turn | cheriostest/cheriostest_vm.c:2590-2694 | one turn of the loop in each mode, with the jump of the closing half, does what the specification says |
| Revocation.Arena.LibRun | cheriostest/cheriostest_vm.c:2545-2695 | the driver's verdict, final arena and chunks are those of the specified loop |
| Revocation.RunPassesExactly | cheriostest/cheriostest_vm.c:2553-2694 | for every non-empty arena whose slots point to themselves, every paranoia and any random draws, modes ONCE and SPLIT pass if and only if nothing is painted and, where the surroundings are checked, no slot outside the first chunk is dead; a collision is reported if and only if the first chunk is painted somewhere, or anything is where surroundings are not checked; a pass leaves the arena as initialised |
| Revocation.OpeningPassesExactly | cheriostest/cheriostest_vm.c:2558-2675 | the opening half passes if and only if nothing is painted, and leaves everything painted and dead |
| Revocation.ClosingRestores | cheriostest/cheriostest_vm.c:2590-2694 | the closing half passes from any arena of capabilities to themselves and leaves it as initialised |
| Revocation.RunsPassExactly | cheriostest/cheriostest_vm.c:2734-2843 | any sequence of runs on a fresh arena passes, whatever is drawn, if and only if each opening half is followed at once by a closing half, if by anything |
| Revocation.ChunksPartition | cheriostest/cheriostest_vm.c:2553-2588 | the chunks of a run follow one another, random ones have at most 1024 slots, and in a run that passes every slot is in exactly one |
| Revocation.ChunksDrawn | cheriostest/cheriostest_vm.c:2558-2573 | every chunk of ONCE and SPLIT has the size drawn for it, from 1 to 1024 slots, or what is left; the halves of a split run take all |
| Revocation.CheriRevokeLib | cheriostest/cheriostest_vm.c:2718-2742 | the test of ONCE and then SPLIT succeeds |
| Revocation.CheriRevokeLibForkSplit | cheriostest/cheriostest_vm.c:2826-2853 | the test of the opening and then the closing half succeeds |
| ChildReports.ChildPage.FailureErrx | cheriostest/cheriostest_util.c:66-78 | failure and the message cut to the buffer replace result, warning and message, and nothing else |
| ChildReports.ChildPage.FailureErrc | cheriostest/cheriostest_util.c:80-101 | the message after both prints is message, colon and cause as one bounded print would leave them |
| ChildReports.PrintedTwice | cheriostest/cheriostest_util.c:94-100 | printing a cause behind a message that fits equals printing both at once |
| ChildReports.ChildPage.Success | cheriostest/cheriostest_util.c:134-141 | success replaces the result and clears the warning |
| ChildReports.ChildPage.SuccessWithWarn | cheriostest/cheriostest_util.c:143-151 | success with a warning, its text terminated whether or not it fits |
| ChildReports.ChildPage.SetExpectedSiAddr | cheriostest/cheriostest_util.c:153-163 | the expected address and its tag replace the earlier ones and nothing else |
| ChildReports.ChildPage.SignalHandler | cheriostest/cheriostest.c:197-221 | the five signal fields are those of the signal caught last and the rest of the page stays |
| Verdicts.Judge | cheriostest/cheriostest.c:448-619 | the chain of jumps gives the first fault in the order of the checks, or none |
| Verdicts.FaultExactly | cheriostest/cheriostest.c:448-619 | the chain gets to pass if and only if a predicate over flags, status, page and output holds; it ends in a harness error if and only if a test that should not have faulted, and did not, declared nothing |
| Verdicts.ReasonExactly | cheriostest/cheriostest.c:448-619 | each reason, with its expected and got values, is given if and only if its own condition on flags, page, status and output holds |
| Verdicts.RunPassesExactly | cheriostest/cheriostest.c:446-619 | for every run of a single process, by its end: a reported failure never passes, a declared success does where no signal is expected, a caught signal where just that one is, a death where just that one is, each with the right output |
| Verdicts.PassMeansReported | cheriostest/cheriostest.c:446-619 | over any writes by any processes of a test, a pass means the last report was no failure, and without the two signal flags that it was a success and no signal was caught |
| Verdicts.AfterIsLast | cheriostest/cheriostest_util.c:66-163 | the page holds the last report with its warning, the last message cut to the buffer, the last signal and the last address expected |
| Verdicts.FitIsPrefix | cheriostest/cheriostest_util.c:72-77 | what is cut off a message is what the buffer has no room for beside its terminator |
| Verdicts.FailureIsTold | cheriostest/cheriostest.c:453-464 | whatever the flags and the output, the reason given for a reported failure is the child's message with its cause, cut to 1023 characters |
| Verdicts.EndIsTold | cheriostest/cheriostest.c:466-500 | the reason for a process that reported nothing is the signal or the status it ended by |
| TestController.Controller.RunTest | cheriostest/cheriostest.c:270-336 | name check, filter and skip leave counters and lists as the books say for the test's outcome |
| TestController.Controller.RunConsidered | cheriostest/cheriostest.c:328-686 | so does the rest of the way, with its jumps to pass and fail |
| TestController.Controller.RunTests | cheriostest/cheriostest.c:1107-1185 | the counters and lists after all calls are the books of those calls, and the exit status is non-zero if and only if some test failed outright |
| TestController.BooksCount | cheriostest/cheriostest.c:621-677 | every counter is the number of tests with its outcome and every list has one entry for each |
| TestController.BooksList | cheriostest/cheriostest.c:306-677 | every list names the tests of its outcome in the order of the calls, each with its reason or message |
| TestController.NothingIsLost | cheriostest/cheriostest.c:306-677 | skipped, passed, failed, expectedly failed and unexpectedly passed tests are all the calls but the slow tests filtered out |
| TestController.ExpectationsAddUp | cheriostest/cheriostest.c:328-677 | expected failures are the expectedly failed, the unexpectedly passed and the harness errors of tests expected to fail; the tests run are the finished ones but for those refused before the fork |
| TestController.FailsExactly | cheriostest/cheriostest.c:548-677 | a test fails outright if and only if it is at fault and either no failure was expected or it ended without declaring anything |
| TestController.OutcomeExactly | cheriostest/cheriostest.c:283-677 | each outcome, with its reason, comes about if and only if its own condition holds: prefix, speed, skip check, input, verdict and what was expected |
| TestController.OutcomeByRun | cheriostest/cheriostest.c:446-643 | the outcome of a test done by a single process is a pass, expected or not, if and only if its end and its output are passing ones |
| ExecArgs.MkExecArgs | cheriostest/cheriostest.c:757-795 | the vector is the path, the flags that apply in order, the test's name and the extra arguments in order |
| ExecArgs.VectorParts | cheriostest/cheriostest.c:775-793 | the path comes first, the name and the extra arguments last, and between them each flag that applies, once |
| ExecArgs.VectorFitsExactly | cheriostest/cheriostest.c:775-793 | the vector fits its allocation if and only if not all of extra arguments, core dumps and verbosity are there |
| ExecArgs.ReadOptions | cheriostest/cheriostest.c:950-1015 | the option loop over clustered letters gives the options and the rest that the specification gives, or refuses |
| ExecArgs.WordsRead | cheriostest/cheriostest.c:950-1015 | options given one letter to an argument are read like their letters, whatever follows |
| ExecArgs.TestsChosen | cheriostest/cheriostest.c:952-978 | what -a, -f, -g and -l set on a command line, and nothing else |
| ExecArgs.ChildTold | cheriostest/cheriostest.c:955-1004 | what -c, -E, -K and -v set |
| ExecArgs.OthersSet | cheriostest/cheriostest.c:958-1010 | what -d, -s and -x set |
| ExecArgs.TracingSet | cheriostest/cheriostest.c:979-1001 | what -q and -Q set where tracing can be had |
| ExecArgs.OthersRefused | cheriostest/cheriostest.c:950-1014 | every other letter is refused, and these two without tracing |
| ExecArgs.FlagsReadBack | cheriostest/cheriostest.c:950-1015 | the flags written are read back as child mode, extra arguments, core dumps and verbosity, whatever follows them |
| ExecArgs.RoundTripExactly | cheriostest/cheriostest.c:1016-1077 | the child runs the test it was started for with its extra arguments in order and the flags handed down, and passes the checks, if and only if the test's name cannot be taken for an option |
| ExecArgs.DispatchExactly | cheriostest/cheriostest.c:1016-1077 | which options and arguments run a child, all tests, a list, matching tests or named tests: each if and only if its own condition holds, and a child gets every argument |
| ExecArgs.CommandLines | cheriostest/cheriostest.c:1016-1077 | what main does with no argument, -l, -a, a name, -g and a pattern, -E and a name, and with a name too many |
| ExecArgs.ClusterSplits | cheriostest/cheriostest.c:950 | option letters may be given together or apart |

## Left out

* `.dirdep` files, `file_deps` and `DPDEPS`, `OBJROOTS` trimming, option parsing and debug output of `meta2deps.py`.
* Cutting lines into words: a trace is a list of records, with M, W, D and S lines dropped as the loop drops them.
  A CMD line after the V record is taken to raise, as `int()` of a command does unless the command is a number.
* What a `MetaFile` holds in `last_dir` after `parse` has raised an exception on a stray V record.
* `parse` is modelled as called with an open file, `cwd` and `last_dir` starting in the object's directory. Called
  with a name, as `MetaFile(name)` does, it opens the file itself and leaves `cwd` unset until a CWD record; traces
  with a CWD record before the V record come to the same.
* The file system is three functions of a path that do not change during a run; `os.getcwd` is a parameter.
* Relative names with a dot or a double dot as a component, other than one leading dot, and relative names used in the
  root directory are outside the claim about the `seen` cache: the paths the parser spells for them are not canonical.
  So are link records whose first word starts with a slash and ends with a quote.
* Records of process number 0, which the context switch takes for none: nothing is claimed about their `last_dir`.
* The error branches of the pthread calls, and the checks of capability bounds after the handshake.
* The two threads of the handshake are one transition system, not two programs: steps are whole statements.
* `open`, `close` and failing writes of the patcher; its file is an array of bytes that pread and pwrite reach.
* Reading the mappings from the kernel or from `/proc`; the mappings are a sorted, disjoint, non-empty list.
* The mantissa width and the page size are parameters; with p + m above 30 the shift in the search for a length
  would leave a 32-bit int, and the model asks its caller to stay below.
* Kernel revocation: epoch clocks, load barriers and the asynchronous tests.
* Texts of reasons: a reason is a value with its parameters, without formatting, escaping and libxo output.
* Which tests main selects by name or pattern; the calls it makes are given as a list.
* A `getopt` that permutes its arguments, as glibc's does. The model's stops at the first non-option, as on FreeBSD and
  with musl; with the other an extra argument that begins with a dash would not come back as one.
* Arguments that libxo takes for itself before the option loop sees them.
- MetaFile.MetaFile.IsSource: does not model `file_deps`, which only `DPDEPS` asks for.
- MetaFile.MetaFile.FindObject: does not model `.dirdep` files, whose first line would replace the dependency.
- MetaFile.MetaFile.ClassifyFile: does not model `file_deps`, nor its entries for files below `/stage/`.
- MetaFile.MetaFile.LookAt: does not model `.dirdep` files and `file_deps`, as above.
- MetaFile.MetaFile.Parse: does not model a CMD line whose command is a number, which the source takes for a pid.
- MetaProcess.ParsedExactly: does not model that CMD line either.
- Revocation.Arena.Revoke: is an assumption about the kernel written as a method, not a model of its code.
- Revocation.Arena.Turn: does not model the comparisons of the epoch clock with the one the kernel shares, because
  the clock is the kernel's.
- Revocation.Arena.LibRun: does not model those comparisons, nor mode NONE, which no caller passes on.
- Revocation.CheriRevokeLibForkSplit: does not model the fork; both halves run on one arena, as the child has a copy
  of it.
- ChildReports.ChildPage.FailureErrx: does not model an absent page, where an exec'd child reports to its terminal.
- ChildReports.ChildPage.FailureErrc: does not model an absent page, nor a vsnprintf that fails.
- Verdicts.PassMeansReported: for tests of several processes nothing more is claimed, because their writes to the
  page race and the last one counts.
- ExecArgs.MkExecArgs: builds the vector as a sequence, because the source's array is one slot short in the one
  case that VectorFitsExactly names.
