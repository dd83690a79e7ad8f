# line-counter-cli in Dafny

A model of the counting core of `line-counter-cli`, a Go command that walks a
directory, counts the lines of the files that look like source code and
prints them sorted by line count with a grand total. Four pieces of
`main.go` are modelled, each in its own module. The modules follow the
program's structure. Two more modules support them.

- `Classify` (`isCodeFile`) is a pure predicate. It takes the extension of a
  name the way `filepath.Ext` does, lower-cases it the way `strings.ToLower`
  does (as far as the ASCII allow-list can tell), and looks it up in the
  46-entry allow-list.
- `LineCounter` (`countLines`) takes a file as a `FileState` value:
  - it cannot be opened;
  - it fails part-way through reading, holding the bytes read before the failure;
  - or it can be read in full.

  `CountLines` is the scan loop of `bufio.Scanner` with `ScanLines`, one
  line token per iteration. It is proved against `LineCount`, which is the
  number of `\n` bytes plus one for a last line with no line break.
- `Scan` (`scanDirectory`) works over a directory tree given as an `Entry`
  value:
  - a file carries its `FileState`;
  - a directory carries the entries that reading it returns, and a flag
    saying whether that read failed.

  `WalkDir`, `WalkEntries` and `Visit` are the recursive walk of
  `filepath.WalkDir` and the source's callback. The shallow mode is the loop
  over `os.ReadDir` inside `ScanDirectory`. Both are proved against the
  specification functions `Walk` and `Shallow`.
- `Printer` (`printResults`) covers the report:
  - `SortByLines` sorts an `array` of records in place;
  - `EmitRows` is the row and total loop;
  - `PrintResults` ties the two together.

  The result is a `Report` value. It is the not-found case, a full table
  (rows, total, file count), or the rows written before a panic.
- `Wrappers` holds `Option`, the model of Go's value-or-`nil` returns.
- `Scenarios` holds whole runs on small trees:
  - a recursive scan that skips a `.git` directory holding a code file;
  - the same tree taken from the scan through the sort to the report;
  - a shallow scan against a recursive scan of a tree with a subdirectory.

Two behaviours of the code worth stating:
- In recursive mode, `scanDirectory` never returns an error. The callback
  answers `nil` for every error it is given, including a root that does not
  exist. Only the shallow mode fails, when the root cannot be listed.
- When a path and its count are wider than 80 bytes, the dash count is
  negative and `strings.Repeat` panics. It is not a row without dashes. The
  model reports this as `FillPanic`, carrying the rows written before it.

## Model

| member | source | states |
|---|---|---|
| Classify.IsCodeExtension | main.go:23-73 | the `codeExtensions` map and its lookup: exactly the 46 listed extensions, lower case with the leading `.` |
| Classify.IsCodeFile | main.go:22-74 | `isCodeFile`: the extension of the name, lower-cased, is one of the 46 listed |
| Classify.ToLowerChar | main.go:72 | the lower case of one character: ASCII capitals, U+0130 and the Kelvin sign map to ASCII letters, every other character is kept |
| Classify.ToLower | main.go:72 | `strings.ToLower` as `ToLowerChar` on every character, the length unchanged |
| Classify.IsCodeFileIff | main.go:22-74 | a name is code exactly when some `.` in it has neither a `.` nor a separator after it, and the suffix from that `.`, lower-cased, is in the allow-list |
| Classify.EmptyIsNotCodeExtension | main.go:23-70 | the empty extension is not in the allow-list, so a name without an extension is never code |
| Classify.LastSep | main.go:72 | the index found is a separator, and no separator follows it up to the given index |
| Classify.ExtStart | main.go:72 | the backward scan of `filepath.Ext` answers -1 or an index of a `.` no later than where it started |
| Classify.ExtStartIsLastDot | main.go:72 | the `.` found has no `.` or separator after it; when none is found, the final path element holds no `.` |
| Classify.ExtStartFindsDot | main.go:72 | a `.` with no later `.` or separator is exactly where the scan stops |
| Classify.Ext | main.go:72 | a non-empty extension is a suffix of the path that starts with `.` |
| Classify.ExtIsSuffix | main.go:72 | a non-empty extension starts at a `.` that has no `.` or separator after it |
| Classify.ExtAtLastDot | main.go:72 | the extension is the suffix from the last `.` of the final element |
| Classify.ExtStartIgnoresCase | main.go:72 | upper-casing the ASCII letters of a path does not move the start of its extension |
| Classify.IsCodeFileIgnoresCase | main.go:72-73 | upper-casing the ASCII letters of a name never changes whether it is code |
| Classify.ExtStartAfterSeparator | main.go:72 | behind a separator, the scan over `dir + name` finds the `.` that the scan over `name` finds, shifted by the length of `dir` |
| Classify.ExtAfterSeparator | main.go:72 | a `.` in the directory part is never taken for an extension: `Ext(dir + name) == Ext(name)` |
| Classify.ExampleAcceptsLowerCase | main.go:22-74 | `foo.py` is code |
| Classify.ExampleAcceptsUpperCase | main.go:22-74 | `FOO.PY` is code |
| Classify.ExampleRejectsUnlistedExtension | main.go:22-74 | `foo.pyc` is not code |
| Classify.ExampleRejectsNameWithoutDot | main.go:22-74 | `Makefile` is not code |
| Classify.ExampleUsesLastDotOnly | main.go:22-74 | `a.py.gz` is not code: only the last extension counts |
| Classify.ExampleAcceptsHiddenFileByExtension | main.go:22-74 | `.eslintrc.json` is code |
| Classify.ExampleRejectsDotfileWithoutExtension | main.go:22-74 | `.bashrc` is not code: its extension `.bashrc` is not listed |
| Classify.ExampleFoldsKelvinSign | main.go:72-73 | a Kelvin sign lower-cases to `k`, so `unit.KT` written with it is code |
| LineCounter.LineCount | main.go:87-89 | the number of tokens `bufio.ScanLines` yields: one per `\n`, plus one for a last line with content but no `\n` |
| LineCounter.TokenEnd | main.go:87 | a line token starting at a position ends just after its `\n`, or at the end of the data, and holds no other `\n` |
| LineCounter.CountLines | main.go:77-96 | an open failure gives 0 and an open error; a read failure gives 0 and a read error; otherwise no error and `LineCount` of the content |
| LineCounter.LineCountOfToken | main.go:87-89 | each token scanned from a line start adds exactly one line |
| LineCounter.NewlinesUnchanged | main.go:87-89 | bytes without a `\n` add no newline |
| LineCounter.LineCountZeroIffEmpty | main.go:84-95 | the count is 0 exactly for empty content |
| LineCounter.NewlinesIsOccurrences | main.go:87-89 | the newline count is the number of occurrences of byte 10 |
| LineCounter.NewlinesConcat | main.go:87-89 | newline counts add up over concatenation |
| LineCounter.LineCountConcat | main.go:87-89 | after content ending in `\n`, line counts add up |
| LineCounter.LineCountAtMostLength | main.go:87-89 | there are never more lines than bytes |
| LineCounter.ExampleUnterminatedLastLine | main.go:87-89 | `x\ny\nz` has three lines |
| Scan.FileInfo | main.go:16-19 | the `FileInfo` struct: a path and its line count |
| Scan.IsHidden | main.go:111 | `strings.HasPrefix(name, ".")` |
| Scan.Join | main.go:142 | `filepath.Join` of a clean directory and a name: nothing added to an empty or `.` directory, otherwise exactly one `/` between the two |
| Scan.FileRecord | main.go:116-126 | what the callback appends for a file: its path and line count when its name is code and it can be read, nothing otherwise |
| Scan.Walk | main.go:104-130 | the records of the walk below an entry, in walk order: a file's record, nothing for a hidden directory below the root, otherwise the walk of its entries |
| Scan.WalkChildren | main.go:104-130 | the walks of the entries of a directory, one after another in listing order, each at its joined path |
| Scan.WalkTwoChildren | main.go:104-130 | the walk of two entries is the walk of the first followed by the walk of the second |
| Scan.WalkOneChild | main.go:104-130 | the walk of one entry is the walk of that entry |
| Scan.Shallow | main.go:140-154 | the records of the shallow loop: `FileRecord` of each direct non-directory entry at its joined path, in listing order |
| Scan.Visit | main.go:104-129 | the callback skips exactly a hidden directory that is not the root; it adds nothing for a directory, and for a file it adds the file's record when the file is code and readable |
| Scan.WalkDir | main.go:104-130 | the walk below an entry appends exactly `Walk` of that entry |
| Scan.WalkEntries | main.go:104-130 | the walk over the entries of a directory appends exactly `WalkChildren` of them, in order |
| Scan.ScanDirectory | main.go:99-158 | recursive mode: no error, and the records are `Walk` of the root, or none when the root is missing. Shallow mode: an error exactly when the root is not a listable directory, with no records; otherwise the records are `Shallow` of the root's entries |
| Scan.JoinBelow | main.go:111 | a path joined below the root is never equal to the root, so the `path != dirPath` test exempts only the root |
| Scan.PrunedWalk | main.go:111-113 | below the root, the walk of an entry equals the walk of the same entry with the contents of hidden directories removed |
| Scan.PrunedWalkChildren | main.go:111-113 | the same for every entry of a directory |
| Scan.RecursiveScanIgnoresHiddenSubtrees | main.go:111-113 | the recursive scan never looks inside a hidden directory other than the root |
| Scan.CodeFileIsRecorded | main.go:116-126 | a readable code file is recorded with its line count even when its name starts with `.` |
| Scan.JoinKeepsExt | main.go:142 | joining a name onto a directory keeps the name's extension |
| Scan.WalkRecordsAreCode | main.go:116-126 | every record of a walk below an entry has a path that the classifier accepts |
| Scan.WalkChildrenRecordsAreCode | main.go:116-126 | the same for the entries of a directory |
| Scan.RecursiveRecordsAreCode | main.go:116-126 | every record of a recursive scan has a path that the classifier accepts |
| Scan.RecursiveRecords | main.go:104-130 | a record is in the walk below an entry exactly when some file is reached from it through directories that are the root or not hidden, and the file is code, readable, and recorded at the path reached with its line count |
| Scan.WalkChildrenMember | main.go:104-130 | a record is in the walk of a directory's entries exactly when it is in the walk of one of them |
| Scan.WalkChildrenMemberSound | main.go:104-130 | each record of the walk of the entries comes from the walk of one entry |
| Scan.WalkChildrenMemberComplete | main.go:104-130 | each record of the walk of one entry is in the walk of all the entries |
| Scan.WalkSound | main.go:104-130 | each record of a walk comes from a readable code file reached without entering a hidden directory below the root |
| Scan.WalkComplete | main.go:104-130 | each readable code file so reached is recorded with its path and line count |
| Scan.WalkPathsExtend | main.go:104-130 | every record of the walk below a directory has a path inside that directory, or the entry's own path |
| Scan.JoinDistinct | main.go:142 | distinct names joined onto the same directory give distinct paths |
| Scan.WalkPathsDistinct | main.go:104-130 | in a tree whose directories list distinct valid names, no two records of the walk share a path |
| Scan.WalkChildrenPathsDistinct | main.go:104-130 | the same for the entries of a directory: records from different entries never share a path |
| Scan.ShallowPathsDistinct | main.go:140-154 | with distinct entry names, no two records of the shallow listing share a path |
| Scan.RecursiveRecordsOnce | main.go:104-130 | in a tree whose directories list distinct valid names, a record occurs in the walk exactly once when it is the record of a readable code file the walk visits, and never otherwise; so the file count is the number of such files |
| Scan.ShallowRecordsOnce | main.go:140-154 | with distinct entry names, a record occurs in the shallow listing exactly once when it is the record of a direct readable code file, and never otherwise |
| Scan.ShallowRecords | main.go:140-154 | a record is in the shallow listing exactly when a direct file child is code and readable and the record is its joined path with its line count |
| Scan.ShallowRecordsSound | main.go:140-154 | each shallow record comes from such a direct child |
| Scan.ShallowRecordsComplete | main.go:140-154 | each such direct child is reported, whatever happens to the other entries |
| Scan.ShallowWithinRecursive | main.go:102-154 | every record of the shallow listing is, counted with multiplicity, also a record of the recursive scan |
| Printer.Utf8Len | main.go:178 | `len` of a Go string: the sum of the UTF-8 widths of its characters |
| Printer.Itoa | main.go:178 | `strconv.Itoa` on a count: its decimal digits, most significant first |
| Printer.Width | main.go:172 | `totalCharacterLine`, the row width of 80 |
| Printer.FillLength | main.go:178 | the dash count of a row: 80 less the bytes of the path and of the digits of the count |
| Printer.Fits | main.go:178-180 | a row can be written exactly when its dash count is not negative |
| Printer.RenderRow | main.go:178-180 | the row of a record: the path, a space, the dashes, a space and the count |
| Printer.Rows | main.go:177-180 | the rows the loop prints for records that all fit: one rendered row per record, in order |
| Printer.SumLines | main.go:181 | the total of the line counts |
| Printer.Tabulate | main.go:177-186 | for sorted records: every row with the total and the file count when all rows fit, otherwise the rows before the first that does not |
| Printer.Utf8Width | main.go:178 | one character takes one to four bytes, and one exactly when it is ASCII |
| Printer.Dashes | main.go:180 | `strings.Repeat("-", n)` is `n` dashes |
| Printer.FirstUnfit | main.go:177-180 | every record before the index fits, and the record at the index, if there is one, does not |
| Printer.SortByLines | main.go:167-170 | afterwards the array is in non-decreasing `Lines` order and holds the same records as before |
| Printer.InsertLast | main.go:167-170 | one insertion step extends the sorted prefix by one, leaves the rest alone and keeps the same records |
| Printer.SwapDown | main.go:167-170 | an exchange of neighbours keeps the same records |
| Printer.EmitRows | main.go:171-186 | the loop writes `Tabulate` of the sorted records: every row and the total, or the rows before the first negative fill |
| Printer.PrintResults | main.go:161-187 | the not-found report exactly for no records; otherwise the array ends sorted and permuted, and a full table's total is the sum of the input counts and its file count the number of records |
| Printer.RowsSnoc | main.go:177-182 | one more record adds its row at the end and its count to the sum |
| Printer.FirstUnfitIs | main.go:177-180 | the first record that does not fit is determined by the fit of each record |
| Printer.SumLinesPermutation | main.go:181 | reordering the records does not change the total |
| Printer.SumLinesRemove | main.go:181 | taking out one record takes its count out of the total |
| Printer.ItoaDigits | main.go:178 | `Itoa` writes at least one digit, only digits, and a leading zero only for 0 |
| Printer.AtoiItoa | main.go:178 | reading back the digits `Itoa` writes gives the number |
| Printer.ItoaLength | main.go:178 | `Itoa(n)` has at most `k` digits exactly when `n < 10^k` |
| Printer.Pow10AtLeastTen | main.go:178 | a positive power of ten is at least 10 |
| Printer.Utf8LenConcat | main.go:178 | the byte length adds up over concatenation |
| Printer.Utf8LenAscii | main.go:178 | ASCII text takes one byte per character |
| Printer.RowWidth | main.go:172-180 | every row that can be written is 82 bytes wide: the width of 80 plus the two spaces |
| Printer.RowsAreRenderedRecords | main.go:177-180 | there is one row per record, in record order |
| Printer.TabulateShape | main.go:177-186 | the table is complete exactly when every row fits, with one 82-byte row per record; otherwise the rows stop right before the first record that does not fit |
| Scenarios.LineCounts | main.go:84-95 | the contents used in the runs have 3, 0, 5 and 1 lines |
| Scenarios.JoinOnRoot | main.go:142 | the joined paths used in the runs |
| Scenarios.JoinUnderGit | main.go:142 | the joined paths under a directory named `git` |
| Scenarios.CodeFileNames | main.go:22-74 | `a.py`, `b.go`, `x.py`, `y.py` and `hooks.sh` are code |
| Scenarios.RecursiveScanSkipsGitDirectory | main.go:104-130 | a root with `a.py`, an empty `b.go` and the code file `.git/hooks.sh` gives the records `root/a.py` (3 lines) and `root/b.go` (0 lines), and nothing from `.git` |
| Scenarios.VisibleDirectoryIsEntered | main.go:104-130 | the same directory named `git` is entered and `root/git/hooks.sh` reported with 3 lines |
| Scenarios.ReportOnTwoFiles | main.go:161-187 | the two records of that run, once sorted, give a full table with total 3 over 2 files |
| Scenarios.SortedRecordsOfTreeA | main.go:167-170 | sorted by line count, those two records can only be in the order `b.go`, `a.py` |
| Scenarios.ReportOnTreeA | main.go:99-187 | the recursive scan of that root, then `PrintResults` on its records: the full table on `b.go` then `a.py`, total 3 over 2 files |
| Scenarios.ShallowStopsAtSubdirectory | main.go:99-158 | with `x.py` in the root and `sub/y.py`, the shallow listing gives `x.py` only, and the recursive scan gives both, the second with 5 lines |

## Left out

- `main` (main.go:189-247) is left out. It covers flag parsing, the help text, the existence check on the directory, exit codes and the banner. It is command-line and I/O plumbing.
- Real file system calls are replaced by the `Entry` tree and the `FileState` of each file: `os.Open`, `os.ReadDir`, `filepath.WalkDir` and closing the file. The messages the callback prints for errors are left out too.
- The order of directory entries is taken as the tree gives it. `os.ReadDir` sorts entries by name; the model does not require that.
- `bufio.Scanner` internals are not modelled. A line longer than 64 KiB, or any other scan failure, is a file in the `FailsWhileReading` state. Stripping a `\r` before a line break changes no count.
- Scan.Join: matches `filepath.Join` only for a directory path that is already clean (no `.` or `..` elements, no doubled separators). The lexical clean-up that Go does on other paths is not modelled.
- Classify.ToLowerChar: maps the ASCII capitals, U+0130 and the Kelvin sign U+212A, the letters whose lower case is ASCII. Every other character is kept as it is. This cannot change a lookup in the ASCII allow-list, but it is not the full Unicode mapping of `strings.ToLower`.
- The root entry of a walk that is a file is classified by the entry's own name. The model does not derive that name from the path.
- Printer.SortByLines: an insertion sort stands in for the pattern-defeating quicksort of `sort.Slice`. Its contract is sortedness and permutation only. The order of records with equal counts is not specified, because `sort.Slice` is not stable either.
- Printer.SumLines: the total is an unbounded integer. The 64-bit overflow of Go's `int` is not modelled.
- The header line, the separator line, the blank line, the `fmt` column padding and the message texts are left out. Only the rows, the total and the file count are modelled, and each row without its line break.
- Paths are Unix paths: `Ext` stops only at `/` and `Join` puts in `/`. Go's `filepath` on Windows also treats `\` as a separator, and that is not modelled.
- Classify.IsCodeFileIgnoresCase: stated for upper-casing ASCII letters only. Go's `strings.ToUpper` also maps some other letters to ASCII ones (`ſ` to `S`, `ı` to `I`), so upper-casing `x.ſh` gives the code name `X.SH` while `x.ſh` itself is not code.
- Printer.Utf8Len: counts the UTF-8 bytes of a string of Unicode scalar values. Paths that are not valid UTF-8 cannot be written in the model.
