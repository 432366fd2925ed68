# C++ revision exercises: directory walkers, an int128 printer, timing statistics and an undoable org chart

This project is a Dafny model of four small C++ programs from a C++ revision repository.

- **Two directory walkers.**
  - `recursive_dirwalk` is written twice, once over `std::filesystem` (moderncpp/filesystem.cpp) and once over `boost::filesystem` (boost/filesystem.cpp). It prints a directory tree depth first as it goes. Each directory gets a header line, or an "empty folder" line when it has no entries, and each plain file gets one line one level deeper.
  - `looped_dirwalk` (moderncpp/filesystem.cpp) walks the tree another way and does not list the same entries. It grows a `std::forward_list` of `file` nodes, pass by pass, until every node is walked. It then flattens the forest into `clean_file`s, sorts them by path and prints each one. A node at the depth limit is created already walked and is never expanded, so a directory reached there is listed without its files, where `recursive_dirwalk` still prints them; below depth 1 only the root is listed.
- **A stream inserter for `__int128_t`.** It writes the decimal digits backwards into a 128-character buffer and hands them to the stream buffer with `sputn`.
- **The timing summary.** A loop keeps the minimum, the maximum and the sum of the measured durations, with `-1` standing for "no minimum yet".
- **A company of departments of workers, edited through commands.** The `Invoker` runs these commands and can undo and redo them. The model also covers the split `main` applies to the argument of `addwrk`.

The filesystem is a snapshot. A directory is an `Entry` holding its entries in the order `directory_iterator` yields them, and every entry carries the path the iterator gives it. `canonicalize_file_name` is a function parameter `canon`, because every path of the snapshot exists. Standard output is a sequence of `Line`s, each with an indentation in units of four spaces, a text and its colour (directory or file).

The modules are:

- `Wrappers`: `Option` and `Result`.
- `StrOrder`: `std::string`'s `operator<`.
- `Paths`: the alias tests, `readable_name`, path joining and separator counting.
- `FsTree`: the snapshot.
- `Console`: output lines.
- `RecursiveWalk`: both `recursive_dirwalk`s and boost's `main`. The `Flavour` parameter selects the library.
- `LoopedWalk`: the classes `file` and `clean_file` and `looped_dirwalk`.
- `Int128Format`: `operator<<(std::ostream&, __int128_t)`.
- `Durations`: the timing loop.
- `OrgChart`: design_patterns/design_pattern_1.cpp.

The imperative parts are modelled imperatively:

- `recursive_dirwalk` with its `empty` flag;
- the `file` node as a class whose `walked` flag and file list change in place;
- the while loop that grows the forest, and the loops that flatten and print it;
- the do-while digit loop over a 128-character array;
- the `Company` and `Invoker` objects;
- the `addwrk` split loops.

Each is proved against a specification function, and the properties are proved about those functions.

## Model

| member | source | states |
|---|---|---|
| StrOrder.LessIsLexLess | design_patterns/design_pattern_1.cpp:11-13 | `std::string`'s `operator<` is lexicographic order: a proper prefix, or smaller at the first differing character |
| StrOrder.LessIrreflexive | design_patterns/design_pattern_1.cpp:36-38 | no name is less than itself, as `std::set`'s comparator requires |
| StrOrder.LessAsymmetric | design_patterns/design_pattern_1.cpp:36-38 | two names are never each less than the other |
| StrOrder.LessTransitive | design_patterns/design_pattern_1.cpp:51-53 | the order used by the set of departments is transitive |
| StrOrder.LessTotal | moderncpp/filesystem.cpp:188-190 | two different paths are always ordered one way or the other, so that sorting by path is well defined |
| Paths.AfterLastSlashIsLastComponent | moderncpp/filesystem.cpp:59-65 | `rfind('/')` then `substr`: the result has no separator, is a suffix of the string, and is either the whole string or preceded by a `/` |
| Paths.NoSlashKeepsWhole | moderncpp/filesystem.cpp:63-65 | without a separator the whole string is returned |
| Paths.AfterSeparator | moderncpp/filesystem.cpp:60-62 | whatever follows a final separator is exactly what is returned |
| Paths.ReadableNameIsOneComponent | boost/filesystem.cpp:19-31 | with either library a readable name holds no `/`. It is the last component of the canonical path whenever `canonicalize_file_name` is consulted (always for std; for an alias only, with boost) and otherwise `leaf()` |
| Paths.LeafOfJoin | boost/filesystem.cpp:29 | `leaf()` of a path handed out by `directory_iterator` is the name it was listed under |
| Paths.ChildIsNoAlias | moderncpp/filesystem.cpp:19-25 | no child path formed by the iterator is ever `.` or `..`: only the root handed in can be an alias |
| Paths.AliasTestsDiffer | boost/filesystem.cpp:20 | boost's `filename_is_dot_dot` accepts `a/..` while the std version's whole-string test does not |
| Paths.SlashCount | moderncpp/filesystem.cpp:164 | `std::count(..., '/')` equals the multiplicity of `/` in the path |
| Paths.SlashCountOfJoin | moderncpp/filesystem.cpp:175 | a child's indentation is one more than its directory's, unless the directory path already ends in `/` |
| Console.IndentWithT | moderncpp/filesystem.cpp:10 | the loop of `indent_with_t(c)` prints four spaces per unit, `c` units, and nothing for `c <= 0` |
| RecursiveWalk.OutputRendersWalk | moderncpp/filesystem.cpp:68-105 | the printed listing is exactly the walk's steps, each rendered |
| RecursiveWalk.RecursiveDirwalk | moderncpp/filesystem.cpp:68-105 | the loop with its `empty` flag prints exactly the listing of the directory |
| RecursiveWalk.VisitEntry | moderncpp/filesystem.cpp:88-95 | one entry adds a file line, a subdirectory's whole listing one level deeper, or nothing for a subdirectory at depth 0 |
| RecursiveWalk.OutputPrefix | moderncpp/filesystem.cpp:70-95 | what the first entries printed stays a prefix of the directory's output: each entry only appends |
| RecursiveWalk.FileLines | boost/filesystem.cpp:56-60 | every plain file of the directory gets its own line, indented `c`, with its readable name and the file colour, placed after what the entries before it printed, so files appear in enumeration order |
| RecursiveWalk.AliasOnlyAtRoot | moderncpp/filesystem.cpp:75-77 | in a well-formed snapshot no step below the root is for `.` or `..` under either library's test, so only the root's header can take the quoted " a.k.a. " form |
| RecursiveWalk.WalkDirCount | moderncpp/filesystem.cpp:88-90 | one directory line per directory visited |
| RecursiveWalk.WalkFileCount | moderncpp/filesystem.cpp:91-94 | one file line per file of a visited directory |
| RecursiveWalk.ListingCounts | boost/filesystem.cpp:33-70 | the listing holds exactly one directory line per visited directory and one file line per shown file |
| RecursiveWalk.WalkHead | moderncpp/filesystem.cpp:69-87 | the header (or the empty-folder line) comes first |
| RecursiveWalk.WalkLevels | moderncpp/filesystem.cpp:90-93 | every step after the first is at level `c` or deeper |
| RecursiveWalk.ListingShape | boost/filesystem.cpp:33-70 | exactly one header, first, at indent `c - 1`; the empty-folder text is used exactly when there are no entries; every later line is at least `c` deep |
| RecursiveWalk.NegativeDepthShowsAll | moderncpp/filesystem.cpp:89-90 | with a negative depth `if (depth)` never stops the recursion: every directory and every file is printed |
| RecursiveWalk.DepthZeroShowsDirectFiles | moderncpp/filesystem.cpp:88-94 | at depth 0 only the start directory is visited, yet its own files are still printed |
| RecursiveWalk.Suffixes | moderncpp/filesystem.cpp:75-103 | for a non-zero depth a header ends in " - a directory containing:" and an empty directory's line ends in " - an empty folder.", never the other one; at depth 0 neither is added |
| RecursiveWalk.Launch | boost/filesystem.cpp:72-78 | the root defaults to "." and the depth to 3. A root that is not a directory is rejected with "Provided path doesn't name a directory.", and otherwise accepted. From a consistent snapshot the tree to walk is well formed and carries the root's path |
| RecursiveWalk.Run | boost/filesystem.cpp:72-86 | boost's `main` fails exactly when validation fails. Otherwise it prints `recursive_dirwalk(p, 1, depth)` of the root: first the root's header, or its empty-folder line, at indent 0, then lines at least one unit deep. From a consistent snapshot that first line names the root exactly as it was passed in, e.g. the quoted canonical name, " a.k.a. " and `"."` for the default |
| LoopedWalk.ConstructorsDiffer | moderncpp/filesystem.cpp:155-176 | the two `clean_file` constructors agree on everything except that only the path constructor quotes an alias's name; the indentation is the `/` count |
| LoopedWalk.OutShape | moderncpp/filesystem.cpp:177-187 | `out` prints the name, followed by " a.k.a " and the path only for an aliased directory, at the `/`-count indentation, coloured by `dir` |
| LoopedWalk.FileNode.constructor | moderncpp/filesystem.cpp:114-117 | a new node is walked unless its depth is positive, and has no files |
| LoopedWalk.FileNode.DirectoryContents | moderncpp/filesystem.cpp:133-143 | marks the node walked, pushes its files to the front of its list and pushes one fresh node of depth `d - 1` per subdirectory to the front of the forest |
| LoopedWalk.FileNode.Enter | moderncpp/filesystem.cpp:136-141 | one entry: a file goes to the node's list, a subdirectory becomes a new node unless the depth is 0, and earlier nodes are unchanged |
| LoopedWalk.PushedPending | moderncpp/filesystem.cpp:198-206 | the nodes a walk pushes are coherent and have fewer entries left to enumerate, which bounds the while loop |
| LoopedWalk.ExpansionAccounts | moderncpp/filesystem.cpp:133-143 | the files recorded plus what the pushed nodes will yield are exactly what lies below the walked directory |
| LoopedWalk.WalkedAccounts | moderncpp/filesystem.cpp:201-204 | walking one node trades its account for the walked node's plus the pushed nodes', and leaves it nothing pending |
| LoopedWalk.ExpandAccounts | moderncpp/filesystem.cpp:200-204 | walking any node of the forest keeps what the forest stands for and strictly shrinks what is left to enumerate |
| LoopedWalk.Expand | moderncpp/filesystem.cpp:203 | `f.directory_containts(fl)` on node `j`: the new forest's views are the pushed nodes followed by the old ones, with node `j` walked |
| LoopedWalk.Visit | moderncpp/filesystem.cpp:201-204 | expanding an unwalked node keeps the forest coherent, keeps its account and decreases what is pending |
| LoopedWalk.VisitAt | moderncpp/filesystem.cpp:200-204 | the same for the node the range-for reaches after earlier nodes were pushed in front |
| LoopedWalk.PassStep | moderncpp/filesystem.cpp:200-205 | one iteration of the range-for: `all_walked` stays true only while every node seen so far was walked and nothing was pushed |
| LoopedWalk.Pass | moderncpp/filesystem.cpp:199-205 | one pass keeps the account. It returns `all_walked` only when the forest is unchanged and every node was walked; otherwise the pending work shrank |
| LoopedWalk.Plant | moderncpp/filesystem.cpp:194-196 | the start forest is the single node `file(p, depth)`, standing for everything collected for the root |
| LoopedWalk.Grow | moderncpp/filesystem.cpp:197-206 | the while loop terminates with every node walked, and the forest stands for exactly what is collected for the root |
| LoopedWalk.FlatAccounts | moderncpp/filesystem.cpp:207-213 | once all nodes are walked, the flattened vector holds exactly what the forest stands for |
| LoopedWalk.Flatten | moderncpp/filesystem.cpp:207-213 | the nested loops build the vector of each node followed by its files |
| LoopedWalk.PushFiles | moderncpp/filesystem.cpp:210-212 | the inner loop appends the node's files, in list order, as path-constructed `clean_file`s |
| LoopedWalk.SortByPath | moderncpp/filesystem.cpp:214 | sorting is a permutation of its input |
| LoopedWalk.InsertSorted | moderncpp/filesystem.cpp:214 | inserting into a sorted vector keeps it sorted |
| LoopedWalk.SortByPathSorts | moderncpp/filesystem.cpp:214 | `std::sort` with `clean_file::operator<` yields a sorted permutation |
| LoopedWalk.ShallowWalksDiffer | moderncpp/filesystem.cpp:114-117 | below depth 1 `looped_dirwalk` lists the root alone, while `recursive_dirwalk` lists the root's files (depth 0) or the whole tree (negative depth) |
| LoopedWalk.DepthLimitDiffers | moderncpp/filesystem.cpp:114-143 | at depth 1, with `r` holding `r/s` holding the file `r/s/f`, `looped_dirwalk` collects `r` and `r/s` only, while `recursive_dirwalk` prints the file too |
| LoopedWalk.SynonymsOnlyAtRoot | moderncpp/filesystem.cpp:154-176 | in a well-formed snapshot the root's `clean_file` has a synonym exactly when the root is `.` or `..`, and no other collected `clean_file` has one |
| LoopedWalk.NoSynonymsBelow | moderncpp/filesystem.cpp:154-165 | in a well-formed snapshot nothing collected below a directory has a synonym |
| LoopedWalk.NoSynonymsCollected | moderncpp/filesystem.cpp:166-176 | in a well-formed snapshot a directory that is not `.` or `..` contributes no `clean_file` with a synonym |
| LoopedWalk.ChildIndents | moderncpp/filesystem.cpp:164-175 | both constructors give every entry its directory's indentation plus one, or plus nothing when the directory's path ends in `/` |
| LoopedWalk.LoopedDirwalk | moderncpp/filesystem.cpp:193-218 | the printed `clean_file`s are exactly those collected for the root (as a multiset), in ascending path order, one printed line each |
| LoopedWalk.Print | moderncpp/filesystem.cpp:215-217 | `out()` on every element, in order |
| Int128Format.DigitChar | moderncpp/filesystem.cpp:38 | `"0123456789"[n]` is the digit character of value `n` |
| Int128Format.DigitsRoundTrip | moderncpp/filesystem.cpp:35-40 | reading the digits back gives the number |
| Int128Format.DigitsShape | moderncpp/filesystem.cpp:35-40 | at least one digit, only digits, and a leading zero only for zero, which is written "0" |
| Int128Format.DigitsLength | moderncpp/filesystem.cpp:33 | a number below 10^k has at most k digits |
| Int128Format.MagnitudeDigits | moderncpp/filesystem.cpp:32-33 | every magnitude handled has at most 39 digits, so the buffer never underflows |
| Int128Format.DecimalFacts | intersection/statistics.cpp:8-32 | the text is at most 40 characters and starts with '-' exactly for a negative value. Then come the digits of the magnitude with no leading zero, and reading the text back gives the value |
| Int128Format.DigitsLeftStep | moderncpp/filesystem.cpp:36-39 | one turn of the do-while moves the last digit of `tmp` into the text |
| Int128Format.Put | moderncpp/filesystem.cpp:42-43 | `--d; *d = c` prepends `c` to the filled tail of the buffer |
| Int128Format.WriteDigits | moderncpp/filesystem.cpp:34-40 | the do-while loop leaves exactly the digits of the magnitude in the buffer's tail (at least one, even for zero) |
| Int128Format.FillBuffer | moderncpp/filesystem.cpp:32-44 | the buffer's tail holds exactly the decimal text of the value |
| Int128Format.Ostream.Sputn | moderncpp/filesystem.cpp:46 | `sputn` stores as many characters as the buffer takes and returns that count |
| Int128Format.Ostream.PutInt128 | moderncpp/filesystem.cpp:27-51 | a stream that is not good gets nothing written; the sentry adds failbit to one already marked bad and otherwise leaves its flags alone. Otherwise the longest prefix of the text that fits is written, and badbit is set exactly when it is not the whole text |
| Durations.Aggregate | intersection/statistics.cpp:168-182 | the loop computes the summary of the durations |
| Durations.SummaryIsMinMaxSum | intersection/statistics.cpp:170-181 | with non-negative durations the result is the minimum, the maximum and the sum (-1 and 0 with no duration) |
| Durations.SentinelNeedsNonNegative | intersection/statistics.cpp:177-178 | a duration of -1 would be taken for "no minimum yet": over 5, -1, 7 the minimum comes out as 7 |
| OrgChart.InsertNameFacts | design_patterns/design_pattern_1.cpp:25-27 | `std::set::insert` keeps the order, adds exactly the name, and is a no-op for a name already there |
| OrgChart.EraseNameFacts | design_patterns/design_pattern_1.cpp:28-35 | erasing keeps the order and removes exactly that name |
| OrgChart.EraseAfterInsert | design_patterns/design_pattern_1.cpp:25-35 | erasing a name just inserted gives back the set exactly when the name was new |
| OrgChart.InsertAfterErase | design_patterns/design_pattern_1.cpp:25-35 | re-inserting an erased name gives back the set |
| OrgChart.NewDp | design_patterns/design_pattern_1.cpp:70-77 | fails with "There is a dept with the same name " + name exactly when the department exists; otherwise adds it with no workers |
| OrgChart.DelDp | design_patterns/design_pattern_1.cpp:78-85 | fails with "There was no dept with name " + name exactly when it is missing; otherwise removes it with its workers |
| OrgChart.NewWrk | design_patterns/design_pattern_1.cpp:86-93 | fails with "There was no dept with name " exactly when the department is missing; otherwise changes only that department |
| OrgChart.DelWrk | design_patterns/design_pattern_1.cpp:94-101 | a missing department is reported first, then a missing worker with "There was no worker with name "; otherwise only that department changes |
| OrgChart.NewDpFacts | design_patterns/design_pattern_1.cpp:70-77 | `newdp` keeps the company well formed and adds exactly one department |
| OrgChart.DelDpFacts | design_patterns/design_pattern_1.cpp:78-85 | `deldp` keeps the company well formed and removes exactly that department |
| OrgChart.NewWrkFacts | design_patterns/design_pattern_1.cpp:86-93 | `newwrk` keeps the company well formed and adds the worker once; an existing worker leaves the company unchanged |
| OrgChart.DelWrkFacts | design_patterns/design_pattern_1.cpp:94-101 | `delwrk` keeps the company well formed and removes exactly that worker |
| OrgChart.UndoAddDept | design_patterns/design_pattern_1.cpp:124-135 | undoing an added department restores the company |
| OrgChart.UndoAddWorker | design_patterns/design_pattern_1.cpp:137-148 | undoing an added worker restores the company exactly when the worker was new. When the worker was already there, the undo removes that worker from its department and changes nothing else |
| OrgChart.RedoAfterUndo | design_patterns/design_pattern_1.cpp:171-190 | redoing right after undoing brings back the company as the command left it |
| OrgChart.WorkersLines | design_patterns/design_pattern_1.cpp:14-16 | the workers' text has one line per worker |
| OrgChart.DeptsLines | design_patterns/design_pattern_1.cpp:39-46 | the departments' text has one line per department and one per worker |
| OrgChart.ShowLines | design_patterns/design_pattern_1.cpp:62-69 | `show` writes one line for the company, one per department and one per worker |
| OrgChart.DepartmentRepr | design_patterns/design_pattern_1.cpp:39-46 | the header line, then every worker's line in set order |
| OrgChart.DepartmentsRepr | design_patterns/design_pattern_1.cpp:65-67 | every department's text, in set order |
| OrgChart.Company.constructor | design_patterns/design_pattern_1.cpp:61 | a new company is "Roga i kopita", with no department |
| OrgChart.Company.Newdp | design_patterns/design_pattern_1.cpp:70-77 | the outcome and the new state are those of `NewDp`, and the company stays well formed |
| OrgChart.Company.Deldp | design_patterns/design_pattern_1.cpp:78-85 | the outcome and the new state are those of `DelDp`, and the company stays well formed |
| OrgChart.Company.Newwrk | design_patterns/design_pattern_1.cpp:86-93 | the outcome and the new state are those of `NewWrk`, and the company stays well formed |
| OrgChart.Company.Delwrk | design_patterns/design_pattern_1.cpp:94-101 | the outcome and the new state are those of `DelWrk`, and the company stays well formed |
| OrgChart.Company.Show | design_patterns/design_pattern_1.cpp:62-69 | the company line, then each department's text in set order |
| OrgChart.Run | design_patterns/design_pattern_1.cpp:129-143 | `Execute` of each command is `newdp` or `newwrk` on its company |
| OrgChart.Revert | design_patterns/design_pattern_1.cpp:132-146 | `unExecute` of each command is `deldp` or `delwrk` on its company |
| OrgChart.Invoker.constructor | design_patterns/design_pattern_1.cpp:150-155 | no command done or undone, and a new company |
| OrgChart.Invoker.Addwrk | design_patterns/design_pattern_1.cpp:157-163 | clears the undone commands, runs the command, and records it as done unless it threw |
| OrgChart.Invoker.Adddpt | design_patterns/design_pattern_1.cpp:164-170 | the same for a department |
| OrgChart.Invoker.Undo | design_patterns/design_pattern_1.cpp:171-180 | with nothing done: "There's nothing to undo" and no change. Otherwise it pops the last command done and reverts it, recording it as undone unless reverting threw |
| OrgChart.Invoker.Redo | design_patterns/design_pattern_1.cpp:181-190 | with nothing undone: "There's nothing to redo" and no change. Otherwise it pops the last undone command and runs it again, recording it as done unless it threw |
| OrgChart.Invoker.Show | design_patterns/design_pattern_1.cpp:191-193 | prints the company's text |
| OrgChart.SplitWorkerArg | design_patterns/design_pattern_1.cpp:205-215 | the two loops split the argument at its first ':': the department before it, the worker from two characters after it |
| OrgChart.SplitJoin | design_patterns/design_pattern_1.cpp:207-215 | d, then ':', then any one character, then w splits into d and w, and into nothing else, when d has no ':' |
| OrgChart.TokenLosesFirstLetter | design_patterns/design_pattern_1.cpp:203-215 | `std::cin >> val` delivers a token without blanks, so "d:w" splits into d and w without its first letter, and into nothing else |
| OrgChart.SplitWorkerToken | design_patterns/design_pattern_1.cpp:205-215 | the split loops with the index moved past the ':' alone: the department before the first ':' and the worker right after it |
| OrgChart.ColonSplitJoin | design_patterns/design_pattern_1.cpp:207-215 | that split gives back exactly the d and w that "d:w" was made of, when d has no ':' |

## Left out

**The filesystem**
- Real filesystem access is not modelled. `directory_iterator`, `is_directory` and `canonicalize_file_name` become a snapshot tree and a total function `canon`.
- Symbolic links, directory cycles, permission errors, concurrent changes and a `filesystem_error` thrown by the iterator are not modelled.
- The order of entries is whatever the snapshot says.
- `Paths.Leaf`: boost's `leaf()` is modelled as the text after the last `/`. Boost's special cases for a trailing separator or a root name are not modelled. In a well-formed snapshot (`FsTree.WellFormed`: every entry's path is its directory's path joined with a plain name) only the root path handed in can take those forms.
- The walkers do not demand a well-formed snapshot. Well-formedness is a hypothesis of the lemmas that rely on it (`AliasOnlyAtRoot`, `SynonymsOnlyAtRoot`, `ChildIndents`), and `Launch` delivers it from a consistent lookup.
- `Paths.Quote`: the escaping that `operator<<(ostream&, path)` applies to quotes inside a path is not modelled.

**Output**
- ANSI colours become a tag on each line, and `rst` is not modelled.
- The "Walking through:" line of both `main`s and the `std::endl` flushing are left out.
- A `Line` keeps its indentation as a number of units. `Console.IndentWithT` is the loop that turns units into spaces.
- `RecursiveWalk.Run` models boost's `main`. The std `main` shares only its validation, through `Launch`.

**moderncpp/filesystem.cpp `main`**
- Only the root and depth validation is modelled, through the same `Launch` that boost's `main` uses.
- The timing loops (moderncpp/filesystem.cpp:229-258) have the same shape as the one in `Durations.Aggregate`.
- The clock, the 100 repetitions, the csv file and the printed averages are not modelled.
- `std::stol` failing on a bad depth argument is not modelled; the depth is taken as already converted.

**`LoopedWalk.LoopedDirwalk`**
- It requires the root to be a directory, which `main` checks before calling it.
- Handing it a plain file would make `directory_iterator` throw, and that path is not modelled.
- The `canon` parameter of the forest-growing methods is ghost: it only names what the forest stands for.
- `std::sort` is modelled as an insertion-sort function, and the model proves what `std::sort` promises: a sorted permutation. Where elements compare equal, the exact order `std::sort` picks is not modelled. Paths from one snapshot are distinct anyway.
- `looped_dirwalk`'s loop bodies are split into helper methods (`Expand`, `Visit`, `VisitAt`, `PassStep`, `Plant`, `PushFiles`, `Print`). They perform the same steps in the same order.

**`Int128Format.PutInt128`**
- It requires a value above the `__int128` minimum, whose negation overflows in the source.
- The stream buffer is modelled by a capacity, `room`, which bounds what `sputn` accepts. Other stream-buffer failures are not modelled.
- `Int128Format.Ostream.constructor` is a modelling device, not part of the source.
- The sentry's flush of a tied stream is not modelled.
- `Int128Format.Ostream.PutInt128`: the sentry follows current libstdc++, which adds failbit to a bad stream only. Older libstdc++ releases also add failbit to a stream with only eofbit set; that variant is not modelled.

**`Durations.Aggregate`**
- It computes on unbounded integers. With 1000 durations of at most 2^63 - 1 microseconds each, the `__int128_t` sum cannot overflow, and neither can `long long` min or max.
- The clock is replaced by the sequence of durations, and the final division by 1000 for the average is not modelled.

**The org chart**
- A `std::logic_error` thrown by a company operation is the `Thrown` outcome. `main` has no handler, so in the source the program then ends. The model stops at the outcome and keeps the state as it was at the throw.
- Departments are kept by value, keyed by name, rather than as leaked `Department*` in a set with `DeptPtrComp`.
- The `new Department(dp)` allocated for every lookup, and the commands never deleted, are memory leaks and are not modelled.
- `Company::load` and `Company::save` are empty in the source and are not modelled.
- `Command::setCompany` is replaced by passing the company to `Run` and `Revert`.
- The command objects are values.
- `OrgChart.SplitWorkerArg` and `OrgChart.SplitWorkerToken` require a ':' in the argument. Without one, the source's first loop reads past the end of the string, which is undefined behaviour.
- The `std::cin` command loop of `main` (unknown commands, "show", "undo", "redo", "exit") is not modelled. Only the `addwrk` split is.

## Findings

| source | as written | input that shows it | evidently intended | confidence | as-written member | corrected member |
|---|---|---|---|---|---|---|
| design_patterns/design_pattern_1.cpp:203-215 | after the ':' the index skips two characters (`i += 2`), as if a blank followed it, yet `std::cin >> val` reads one token without blanks | `addwrk Sales:Bob` adds the worker "ob" to "Sales" | skip only the ':', so that "Sales:Bob" adds "Bob" | not executed; high, since the loop cannot see a blank | OrgChart.TokenLosesFirstLetter | OrgChart.SplitWorkerToken |
