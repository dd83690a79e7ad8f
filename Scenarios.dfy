/**
 * Whole runs of the scan and the report on small directory trees.
 */
module Scenarios {
  import opened Classify
  import opened LineCounter
  import opened Scan
  import opened Printer
  import opened Wrappers

  /** "x\ny\nz": three lines, the last without a line break. */
  const ThreeLines: seq<byte> := [120, 10, 121, 10, 122]
  /** Five empty lines. */
  const FiveLines: seq<byte> := [10, 10, 10, 10, 10]

  lemma CodeFileNames()
    ensures IsCodeFile("a.py") && IsCodeFile("b.go") && IsCodeFile("x.py") && IsCodeFile("y.py")
    ensures IsCodeFile("hooks.sh")
  {
    assert ExtStart("hooks.sh", 5) == 5 && ExtStart("hooks.sh", 6) == 5 && ExtStart("hooks.sh", 7) == 5;
    assert Ext("hooks.sh") == ".sh" && ToLower(".sh") == ".sh";
    assert ExtStart("a.py", 1) == 1 && ExtStart("a.py", 2) == 1 && ExtStart("a.py", 3) == 1;
    assert Ext("a.py") == ".py" && ToLower(".py") == ".py";
    assert ExtStart("b.go", 1) == 1 && ExtStart("b.go", 2) == 1 && ExtStart("b.go", 3) == 1;
    assert Ext("b.go") == ".go" && ToLower(".go") == ".go";
    assert ExtStart("x.py", 1) == 1 && ExtStart("x.py", 2) == 1 && ExtStart("x.py", 3) == 1;
    assert Ext("x.py") == ".py";
    assert ExtStart("y.py", 1) == 1 && ExtStart("y.py", 2) == 1 && ExtStart("y.py", 3) == 1;
    assert Ext("y.py") == ".py";
  }

  lemma LineCounts()
    ensures LineCount(ThreeLines) == 3 && LineCount([]) == 0 && LineCount(FiveLines) == 5
    ensures LineCount([120]) == 1
  {
    ExampleUnterminatedLastLine();
    NewlinesIsOccurrences(FiveLines);
    assert multiset(FiveLines)[NL] == 5;
    var x: seq<byte> := [120];
    assert x[..0] == [];
  }

  lemma JoinOnRoot()
    ensures Join("root", "a.py") == "root/a.py" && Join("root", "b.go") == "root/b.go"
    ensures Join("root", ".git") == "root/.git" && Join("root", "x.py") == "root/x.py"
    ensures Join("root", "sub") == "root/sub" && Join("root/sub", "y.py") == "root/sub/y.py"
  {
  }

  lemma JoinUnderGit()
    ensures Join("root", "git") == "root/git" && Join("root/git", "hooks.sh") == "root/git/hooks.sh"
  {
  }

  /** A shell script kept under a directory named `name`. */
  function HooksDir(name: string): Entry {
    Dir(name, [File("hooks.sh", Readable(ThreeLines))], true)
  }

  /**
   * The tree `root` holding `a.py` (three lines, no final line break), an
   * empty `b.go` and a code file `.git/hooks.sh`.
   */
  const TreeA: Entry :=
    Dir("root", [File("a.py", Readable(ThreeLines)), File("b.go", Readable([])), HooksDir(".git")], true)

  /**
   * The recursive scan of `TreeA` reports the two code files in the root
   * and nothing from `.git`, although `hooks.sh` is code.
   */
  lemma RecursiveScanSkipsGitDirectory()
    ensures Walk("root", "root", TreeA) == [FileInfo("root/a.py", 3), FileInfo("root/b.go", 0)]
  {
    CodeFileNames();
    LineCounts();
    JoinOnRoot();
    var a, b := File("a.py", Readable(ThreeLines)), File("b.go", Readable([]));
    var children := [a, b, HooksDir(".git")];
    CodeFileIsRecorded("root", "root/a.py", "a.py", ThreeLines);
    CodeFileIsRecorded("root", "root/b.go", "b.go", []);
    assert Walk("root", "root/.git", HooksDir(".git")) == [];
    WalkTwoChildren("root", "root", children[..2]);
    assert children[..3] == children;
  }

  /** The same directory under a name without the leading `.` is entered and its script reported. */
  lemma VisibleDirectoryIsEntered()
    ensures Walk("root", "root/git", HooksDir("git")) == [FileInfo("root/git/hooks.sh", 3)]
  {
    CodeFileNames();
    LineCounts();
    JoinUnderGit();
    CodeFileIsRecorded("root", "root/git/hooks.sh", "hooks.sh", ThreeLines);
    WalkOneChild("root", "root/git", HooksDir("git").children);
  }

  /** The report on the two records once sorted: both rows fit, three lines in two files. */
  lemma ReportOnTwoFiles()
    ensures Tabulate([FileInfo("root/b.go", 0), FileInfo("root/a.py", 3)]).Table?
    ensures Tabulate([FileInfo("root/b.go", 0), FileInfo("root/a.py", 3)]).total == 3
    ensures Tabulate([FileInfo("root/b.go", 0), FileInfo("root/a.py", 3)]).files == 2
  {
    var sorted := [FileInfo("root/b.go", 0), FileInfo("root/a.py", 3)];
    Utf8LenAscii("root/b.go");
    Utf8LenAscii("root/a.py");
    assert Fits(sorted[0]) && Fits(sorted[1]);
    FirstUnfitIs(sorted, 2);
    assert sorted[..1] == [sorted[0]] && sorted[..1][..0] == [];
    assert SumLines(sorted[..1]) == 0;
    assert SumLines(sorted) == 3;
  }

  /** Sorted, the two records of `TreeA` can only be in one order. */
  lemma SortedRecordsOfTreeA(s: seq<FileInfo>)
    requires SortedByLines(s)
    requires multiset(s) == multiset{FileInfo("root/a.py", 3), FileInfo("root/b.go", 0)}
    ensures s == [FileInfo("root/b.go", 0), FileInfo("root/a.py", 3)]
  {
    var x, y := FileInfo("root/b.go", 0), FileInfo("root/a.py", 3);
    assert |s| == |multiset(s)| == 2;
    assert s == [s[0], s[1]];
    assert s[0] in multiset(s) && s[1] in multiset(s);
  }

  /**
   * `TreeA` from the scan to the report: the recursive scan, then the
   * sort puts `b.go` first and the table totals three lines in two files.
   */
  method ReportOnTreeA() returns (r: Report)
    ensures r == Tabulate([FileInfo("root/b.go", 0), FileInfo("root/a.py", 3)])
    ensures r.Table? && r.total == 3 && r.files == 2
  {
    var infos, err := ScanDirectory("root", Some(TreeA), true);
    RecursiveScanSkipsGitDirectory();
    var a := new FileInfo[2];
    a[0], a[1] := infos[0], infos[1];
    assert a[..] == infos;
    r := PrintResults(a);
    SortedRecordsOfTreeA(a[..]);
    ReportOnTwoFiles();
  }

  /**
   * With `x.py` in `root` and `y.py` (five lines) in `root/sub`, the
   * shallow listing reports `x.py` only and the recursive scan both.
   */
  lemma ShallowStopsAtSubdirectory()
    ensures var children := [File("x.py", Readable([120])), Dir("sub", [File("y.py", Readable(FiveLines))], true)];
      Shallow("root", children) == [FileInfo("root/x.py", 1)]
      && Walk("root", "root", Dir("root", children, true)) == [FileInfo("root/x.py", 1), FileInfo("root/sub/y.py", 5)]
  {
    CodeFileNames();
    LineCounts();
    JoinOnRoot();
    var x := File("x.py", Readable([120]));
    var sub := Dir("sub", [File("y.py", Readable(FiveLines))], true);
    var children := [x, sub];
    assert children[..1][..0] == [];
    assert Shallow("root", children[..1]) == [FileInfo("root/x.py", 1)];
    CodeFileIsRecorded("root", "root/x.py", "x.py", [120]);
    CodeFileIsRecorded("root", "root/sub/y.py", "y.py", FiveLines);
    WalkOneChild("root", "root/sub", sub.children);
    assert Walk("root", "root/sub", sub) == [FileInfo("root/sub/y.py", 5)];
    WalkTwoChildren("root", "root", children);
  }
}
