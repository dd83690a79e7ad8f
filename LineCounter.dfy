/**
 * Line counting of main.go (`countLines`), over the contents of one file.
 * Opening and reading the file are replaced by a `FileState` that says
 * whether the open fails, whether reading fails, and which bytes are read.
 */
module LineCounter {
  import opened Wrappers

  newtype byte = x: int | 0 <= x < 256

  const NL: byte := 10

  datatype IoError = OpenFailed | ReadFailed

  /**
   * What opening and reading a file yields: it cannot be opened; it opens
   * but reading fails after delivering `data`; or it is read to the end.
   */
  datatype FileState =
    | Unopenable
    | FailsWhileReading(data: seq<byte>)
    | Readable(data: seq<byte>)

  /** Number of newline bytes in `s`. */
  function Newlines(s: seq<byte>): nat {
    if s == [] then 0 else Newlines(s[..|s| - 1]) + (if s[|s| - 1] == NL then 1 else 0)
  }

  /**
   * The number of lines `bufio.ScanLines` yields: one per newline, plus one
   * for a last line that has content but no newline.
   */
  function LineCount(s: seq<byte>): nat {
    Newlines(s) + (if s != [] && s[|s| - 1] != NL then 1 else 0)
  }

  /**
   * End of the line token that starts at `pos`: just past its newline, or
   * the end of the data for a last line without one.
   */
  function TokenEnd(data: seq<byte>, pos: nat): (r: nat)
    requires pos < |data|
    ensures pos < r <= |data|
    ensures NL !in data[pos..r - 1]
    ensures data[r - 1] == NL || r == |data|
    decreases |data| - pos
  {
    if data[pos] == NL || pos + 1 == |data| then pos + 1
    else
      var r := TokenEnd(data, pos + 1);
      assert data[pos..r - 1] == [data[pos]] + data[pos + 1..r - 1];
      r
  }

  /**
   * `countLines`: open the file, count the line tokens of a scan, and
   * answer 0 with an error if the open or the scan fails.
   */
  method CountLines(file: FileState) returns (lines: nat, err: Option<IoError>)
    ensures err.Some? ==> lines == 0
    ensures err.None? <==> file.Readable?
    ensures file.Unopenable? ==> err == Some(OpenFailed)
    ensures file.FailsWhileReading? ==> err == Some(ReadFailed)
    ensures file.Readable? ==> lines == LineCount(file.data)
  {
    if file.Unopenable? {
      return 0, Some(OpenFailed);
    }
    var data := file.data;
    var pos := 0;
    lines := 0;
    while pos < |data|
      invariant pos <= |data|
      invariant pos == 0 || data[pos - 1] == NL || pos == |data|
      invariant lines == LineCount(data[..pos])
      decreases |data| - pos
    {
      var next := TokenEnd(data, pos);
      LineCountOfToken(data, pos);
      pos := next;
      lines := lines + 1;
    }
    assert data[..pos] == data;
    if file.FailsWhileReading? {
      return 0, Some(ReadFailed);
    }
    err := None;
  }

  lemma {:induction false} NewlinesUnchanged(s: seq<byte>, i: nat, j: nat)
    requires i <= j <= |s|
    requires NL !in s[i..j]
    ensures Newlines(s[..j]) == Newlines(s[..i])
    decreases j
  {
    if j > i {
      assert s[..j][..j - 1] == s[..j - 1];
      assert s[j - 1] == s[i..j][j - 1 - i];
      assert s[i..j - 1] == s[i..j][..j - 1 - i];
      NewlinesUnchanged(s, i, j - 1);
    }
  }

  /** Scanning one more token from a line start adds exactly one line. */
  lemma LineCountOfToken(data: seq<byte>, pos: nat)
    requires pos < |data|
    requires pos == 0 || data[pos - 1] == NL
    ensures LineCount(data[..TokenEnd(data, pos)]) == LineCount(data[..pos]) + 1
  {
    var r := TokenEnd(data, pos);
    NewlinesUnchanged(data, pos, r - 1);
    assert data[..r][..r - 1] == data[..r - 1];
    assert pos > 0 ==> data[..pos][pos - 1] == NL;
  }

  /** No lines exactly when there are no bytes. */
  lemma LineCountZeroIffEmpty(s: seq<byte>)
    ensures LineCount(s) == 0 <==> s == []
  {
  }

  /** Counting newlines is counting occurrences of the newline byte. */
  lemma {:induction false} NewlinesIsOccurrences(s: seq<byte>)
    ensures Newlines(s) == multiset(s)[NL]
  {
    if s != [] {
      NewlinesIsOccurrences(s[..|s| - 1]);
      assert s == s[..|s| - 1] + [s[|s| - 1]];
    }
  }

  lemma {:induction false} NewlinesConcat(a: seq<byte>, b: seq<byte>)
    ensures Newlines(a + b) == Newlines(a) + Newlines(b)
  {
    NewlinesIsOccurrences(a + b);
    NewlinesIsOccurrences(a);
    NewlinesIsOccurrences(b);
    assert multiset(a + b) == multiset(a) + multiset(b);
  }

  /**
   * Line counts add up over a split at a line boundary: the first part is
   * empty or ends in a newline.
   */
  lemma LineCountConcat(a: seq<byte>, b: seq<byte>)
    requires a == [] || a[|a| - 1] == NL
    ensures LineCount(a + b) == LineCount(a) + LineCount(b)
  {
    NewlinesConcat(a, b);
    if b == [] {
      assert a + b == a;
    } else {
      assert (a + b)[|a + b| - 1] == b[|b| - 1];
    }
  }

  /** A file never has more lines than bytes. */
  lemma {:induction false} LineCountAtMostLength(s: seq<byte>)
    ensures LineCount(s) <= |s|
  {
    if s != [] {
      var init := s[..|s| - 1];
      LineCountAtMostLength(init);
      assert Newlines(init) <= |init|;
    }
  }

  /** "x\ny\nz": two newlines and an unterminated last line make three lines. */
  lemma ExampleUnterminatedLastLine()
    ensures LineCount([120, 10, 121, 10, 122]) == 3
  {
    var s: seq<byte> := [120, 10, 121, 10, 122];
    assert s[..1][..0] == [] && Newlines(s[..1]) == 0;
    assert s[..2][..1] == s[..1] && Newlines(s[..2]) == 1;
    assert s[..3][..2] == s[..2] && Newlines(s[..3]) == 1;
    assert s[..4][..3] == s[..3] && Newlines(s[..4]) == 2;
    assert s[..4] == s[..|s| - 1];
  }
}
