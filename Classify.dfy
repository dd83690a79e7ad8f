/**
 * The extension classifier of main.go (`isCodeFile`): a file counts as code
 * when the lower-cased extension of its name is in a fixed allow-list.
 * `filepath.Ext` and `strings.ToLower` are modelled here as far as the
 * classifier depends on them.
 */
module Classify {

  /**
   * Membership in the allow-list: the 46 recognised extensions, lower case,
   * leading dot included, in the order of the source's map literal. The list
   * is split into groups only to keep proofs about it small.
   */
  predicate IsCodeExtension(ext: string) {
    InGroups(ext, 0)
  }

  /** Membership in one of the groups numbered `g` and above. */
  predicate InGroups(ext: string, g: nat)
    decreases 5 - g
  {
    g < 5 && (ext in Group(g) || InGroups(ext, g + 1))
  }

  /** The allow-list in five groups, numbered in the order of the source's map literal. */
  function Group(g: nat): set<string> {
    if g == 0 then ProgrammingLanguages
    else if g == 1 then ShellScripts
    else if g == 2 then WebMarkup
    else if g == 3 then DataAndConfig
    else OtherText
  }

  const ProgrammingLanguages: set<string> := {
    ".go", ".js", ".ts", ".py", ".java", ".c", ".cpp", ".h", ".hpp", ".cs",
    ".php", ".rb", ".rs", ".swift", ".kt", ".scala", ".r", ".m", ".pl"
  }
  const ShellScripts: set<string> := {".sh", ".bash", ".zsh", ".fish", ".ps1"}
  const WebMarkup: set<string> := {
    ".html", ".htm", ".css", ".scss", ".sass", ".less", ".vue", ".jsx", ".tsx"
  }
  const DataAndConfig: set<string> := {
    ".xml", ".json", ".yaml", ".yml", ".toml", ".ini", ".cfg", ".conf"
  }
  const OtherText: set<string> := {".sql", ".lua", ".vim", ".md", ".txt"}

  /**
   * Lower-casing of one character, as far as it can matter for a lookup in
   * an ASCII allow-list: ASCII upper-case letters, and the two non-ASCII
   * letters whose Unicode lower case is an ASCII letter (capital I with dot
   * above and the Kelvin sign). Every other character is kept as it is.
   */
  function ToLowerChar(c: char): char {
    if 'A' <= c <= 'Z' then (c as int + 32) as char
    else if c == '\U{0130}' then 'i'
    else if c == '\U{212A}' then 'k'
    else c
  }

  function ToLower(s: string): string {
    seq(|s|, i requires 0 <= i < |s| => ToLowerChar(s[i]))
  }

  /** ASCII upper-casing, used to state that the classifier ignores case. */
  function ToUpperAscii(s: string): string {
    seq(|s|, i requires 0 <= i < |s| => if 'a' <= s[i] <= 'z' then (s[i] as int - 32) as char else s[i])
  }

  /** Index of the last path separator at or before `i`, or -1. */
  function LastSep(path: string, i: int): (s: int)
    requires -1 <= i < |path|
    ensures -1 <= s <= i
    ensures s >= 0 ==> path[s] == '/'
    ensures forall j :: s < j <= i ==> path[j] != '/'
    decreases i + 1
  {
    if i < 0 || path[i] == '/' then i else LastSep(path, i - 1)
  }

  /**
   * The backward scan of `filepath.Ext`: from index `i` down, stop at a
   * path separator, and answer the index of the first `.` met, or -1.
   */
  function ExtStart(path: string, i: int): (k: int)
    requires -1 <= i < |path|
    ensures -1 <= k <= i
    ensures k >= 0 ==> path[k] == '.'
    decreases i + 1
  {
    if i < 0 || path[i] == '/' then -1
    else if path[i] == '.' then i
    else ExtStart(path, i - 1)
  }

  /**
   * The scan finds the last `.` of the final path element: nothing after
   * it is a `.` or a separator, and when there is none, the element from
   * the last separator on holds no `.`.
   */
  lemma {:induction false} ExtStartIsLastDot(path: string, i: int)
    requires -1 <= i < |path|
    ensures var k := ExtStart(path, i);
      k >= 0 ==> forall j :: k < j <= i ==> path[j] != '.' && path[j] != '/'
    ensures ExtStart(path, i) < 0 ==> forall j :: LastSep(path, i) < j <= i ==> path[j] != '.'
    decreases i + 1
  {
    if i >= 0 && path[i] != '/' && path[i] != '.' {
      ExtStartIsLastDot(path, i - 1);
    }
  }

  /**
   * `filepath.Ext`: the suffix of the final path element that starts at its
   * last `.`, or "" when that element has no `.`.
   */
  function Ext(path: string): (r: string)
    ensures r != "" ==> |r| <= |path| && r == path[|path| - |r|..] && r[0] == '.'
  {
    var k := ExtStart(path, |path| - 1);
    if k < 0 then "" else path[k..]
  }

  lemma EmptyIsNotCodeExtension()
    ensures !IsCodeExtension("")
  {
  }

  /** Every character after index `k` is neither a `.` nor a separator. */
  predicate NoDotOrSep(name: string, k: nat) {
    forall j :: k < j < |name| ==> name[j] != '.' && name[j] != '/'
  }

  /** `isCodeFile`: the lower-cased extension is in the allow-list. */
  predicate IsCodeFile(filename: string) {
    IsCodeExtension(ToLower(Ext(filename)))
  }

  /**
   * The classifier, stated without `Ext`: some `.` of the name starts a
   * suffix with no further `.` and no separator, and that suffix,
   * lower-cased, is allowed.
   */
  lemma IsCodeFileIff(name: string)
    ensures IsCodeFile(name) <==>
      exists k :: 0 <= k < |name| && name[k] == '.' && NoDotOrSep(name, k) && IsCodeExtension(ToLower(name[k..]))
  {
    var e := Ext(name);
    if IsCodeFile(name) {
      assert e != "" by { assert ToLower("") == ""; EmptyIsNotCodeExtension(); }
      var k := |name| - |e|;
      ExtIsSuffix(name);
      assert name[k..] == e;
    }
    forall k | 0 <= k < |name| && name[k] == '.' && NoDotOrSep(name, k)
      ensures e == name[k..]
    {
      ExtAtLastDot(name, k);
    }
  }

  /** A non-empty extension starts at a `.` with no `.` or separator after it. */
  lemma ExtIsSuffix(name: string)
    requires Ext(name) != ""
    ensures var k := |name| - |Ext(name)|; name[k] == '.' && NoDotOrSep(name, k)
  {
    ExtStartIsLastDot(name, |name| - 1);
  }

  /** The extension is the suffix from the `.` that no `.` or separator follows. */
  lemma ExtAtLastDot(name: string, k: nat)
    requires k < |name| && name[k] == '.' && NoDotOrSep(name, k)
    ensures Ext(name) == name[k..]
  {
    ExtStartFindsDot(name, k, |name| - 1);
  }

  lemma {:induction false} ExtStartFindsDot(path: string, k: nat, i: int)
    requires k <= i < |path| && path[k] == '.'
    requires forall j :: k < j <= i ==> path[j] != '.' && path[j] != '/'
    ensures ExtStart(path, i) == k
    decreases i
  {
    if i > k {
      ExtStartFindsDot(path, k, i - 1);
    }
  }

  /** Upper-casing the ASCII letters of a path does not move the start of its extension. */
  lemma {:induction false} ExtStartIgnoresCase(path: string, i: int)
    requires -1 <= i < |path|
    ensures ExtStart(ToUpperAscii(path), i) == ExtStart(path, i)
    decreases i + 1
  {
    if i >= 0 {
      ExtStartIgnoresCase(path, i - 1);
    }
  }

  /** Upper-casing the ASCII letters of a name never changes whether it is classified as code. */
  lemma IsCodeFileIgnoresCase(name: string)
    ensures IsCodeFile(ToUpperAscii(name)) == IsCodeFile(name)
  {
    var up := ToUpperAscii(name);
    ExtStartIgnoresCase(name, |name| - 1);
    var k := ExtStart(name, |name| - 1);
    if k >= 0 {
      assert ToLower(up[k..]) == ToLower(name[k..]);
    }
  }

  lemma {:induction false} ExtStartAfterSeparator(dir: string, name: string, i: int)
    requires dir == "" || dir[|dir| - 1] == '/'
    requires '/' !in name
    requires -1 <= i < |name|
    ensures ExtStart(dir + name, |dir| + i) == (if ExtStart(name, i) < 0 then -1 else |dir| + ExtStart(name, i))
    decreases i + 1
  {
    var p := dir + name;
    if i < 0 {
      assert dir != "" ==> p[|dir| - 1] == '/';
    } else {
      assert p[|dir| + i] == name[i];
      ExtStartAfterSeparator(dir, name, i - 1);
    }
  }

  /**
   * The extension of `dir/name` is the extension of `name` alone: a `.` in
   * the directory part is never taken for the start of an extension.
   */
  lemma ExtAfterSeparator(dir: string, name: string)
    requires dir == "" || dir[|dir| - 1] == '/'
    requires '/' !in name
    ensures Ext(dir + name) == Ext(name)
  {
    var p := dir + name;
    ExtStartAfterSeparator(dir, name, |name| - 1);
    var k := ExtStart(name, |name| - 1);
    assert ExtStart(p, |p| - 1) == if k < 0 then -1 else |dir| + k;
    if k >= 0 {
      SuffixOfConcat(dir, name, k);
      assert Ext(p) == p[|dir| + k..];
    }
  }

  lemma SuffixOfConcat<T>(a: seq<T>, b: seq<T>, k: nat)
    requires k <= |b|
    ensures (a + b)[|a| + k..] == b[k..]
  {
  }

  /** A listed extension is accepted. */
  lemma ExampleAcceptsLowerCase()
    ensures IsCodeFile("foo.py")
  {
    assert ExtStart("foo.py", 3) == 3;
    assert ExtStart("foo.py", 4) == 3;
    assert ExtStart("foo.py", 5) == 3;
    assert Ext("foo.py") == ".py";
    assert ToLower(".py") == ".py";
  }

  /** Case does not matter: the extension is lower-cased before the lookup. */
  lemma ExampleAcceptsUpperCase()
    ensures IsCodeFile("FOO.PY")
  {
    assert ExtStart("FOO.PY", 3) == 3;
    assert ExtStart("FOO.PY", 4) == 3;
    assert ExtStart("FOO.PY", 5) == 3;
    assert Ext("FOO.PY") == ".PY";
    assert ToLower(".PY") == ".py";
  }

  /** An extension outside the list is rejected, however close to a listed one. */
  lemma ExampleRejectsUnlistedExtension()
    ensures !IsCodeFile("foo.pyc")
  {
    assert ExtStart("foo.pyc", 3) == 3;
    assert ExtStart("foo.pyc", 4) == 3;
    assert ExtStart("foo.pyc", 5) == 3;
    assert ExtStart("foo.pyc", 6) == 3;
    assert Ext("foo.pyc") == ".pyc";
    assert ToLower(".pyc") == ".pyc";
  }

  /** A name without `.` has no extension and is never code. */
  lemma ExampleRejectsNameWithoutDot()
    ensures !IsCodeFile("Makefile")
  {
    assert ExtStart("Makefile", 0) == -1;
    assert ExtStart("Makefile", 1) == -1;
    assert ExtStart("Makefile", 2) == -1;
    assert ExtStart("Makefile", 3) == -1;
    assert ExtStart("Makefile", 4) == -1;
    assert ExtStart("Makefile", 5) == -1;
    assert ExtStart("Makefile", 6) == -1;
    assert ExtStart("Makefile", 7) == -1;
    assert Ext("Makefile") == "";
    assert ToLower("") == "";
  }

  /** Only the suffix from the last `.` is looked up. */
  lemma ExampleUsesLastDotOnly()
    ensures !IsCodeFile("a.py.gz")
  {
    assert ExtStart("a.py.gz", 4) == 4;
    assert ExtStart("a.py.gz", 5) == 4;
    assert ExtStart("a.py.gz", 6) == 4;
    assert Ext("a.py.gz") == ".gz";
    assert ToLower(".gz") == ".gz";
  }

  /** A hidden file is classified by its extension like any other. */
  lemma ExampleAcceptsHiddenFileByExtension()
    ensures IsCodeFile(".eslintrc.json")
  {
    assert ExtStart(".eslintrc.json", 9) == 9;
    assert ExtStart(".eslintrc.json", 10) == 9;
    assert ExtStart(".eslintrc.json", 11) == 9;
    assert ExtStart(".eslintrc.json", 12) == 9;
    assert ExtStart(".eslintrc.json", 13) == 9;
    assert Ext(".eslintrc.json") == ".json";
    assert ToLower(".json") == ".json";
  }

  /** A dotfile whose whole name is its extension is looked up as that extension. */
  lemma ExampleRejectsDotfileWithoutExtension()
    ensures !IsCodeFile(".bashrc")
  {
    assert ExtStart(".bashrc", 0) == 0;
    assert ExtStart(".bashrc", 1) == 0;
    assert ExtStart(".bashrc", 2) == 0;
    assert ExtStart(".bashrc", 3) == 0;
    assert ExtStart(".bashrc", 4) == 0;
    assert ExtStart(".bashrc", 5) == 0;
    assert ExtStart(".bashrc", 6) == 0;
    assert Ext(".bashrc") == ".bashrc";
    assert ToLower(".bashrc") == ".bashrc";
  }

  /** The Kelvin sign lower-cases to `k`, completing an allowed extension. */
  lemma ExampleFoldsKelvinSign()
    ensures IsCodeFile("unit.\U{212A}T")
  {
    assert ExtStart("unit.\U{212A}T", 4) == 4;
    assert ExtStart("unit.\U{212A}T", 5) == 4;
    assert ExtStart("unit.\U{212A}T", 6) == 4;
    assert Ext("unit.\U{212A}T") == ".\U{212A}T";
    assert ToLower(".\U{212A}T") == ".kt";
  }
}
