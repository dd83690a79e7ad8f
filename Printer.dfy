/**
 * The report of main.go (`printResults`): the records are sorted in place
 * by line count, then one row is written per record, with a run of dashes
 * that brings the row to a fixed width, and finally the grand total and the
 * number of files. The output is modelled as the rows written and the two
 * summary numbers; the header, the blank line and the fixed messages are
 * not part of it.
 */
module Printer {
  import opened Scan

  /** `totalCharacterLine`: the width the dashes of a row make up to. */
  const Width: int := 80

  /** What a call writes: the not-found message, a full table, or the rows written before a panic. */
  datatype Report =
    | NotFound
    | Table(rows: seq<string>, total: int, files: nat)
    | FillPanic(rows: seq<string>)

  /** The number of bytes the UTF-8 encoding of one character takes. */
  function Utf8Width(c: char): (w: nat)
    ensures 1 <= w <= 4
    ensures w == 1 <==> c as int < 0x80
  {
    if c as int < 0x80 then 1
    else if c as int < 0x800 then 2
    else if c as int < 0x1_0000 then 3
    else 4
  }

  /** `len(s)` for a Go string: its length in UTF-8 bytes. */
  function Utf8Len(s: string): nat {
    if s == [] then 0 else Utf8Len(s[..|s| - 1]) + Utf8Width(s[|s| - 1])
  }

  function DigitChar(d: nat): char
    requires d < 10
  {
    ('0' as int + d) as char
  }

  /** `strconv.Itoa` on a count: decimal digits, most significant first, no leading zero. */
  function Itoa(n: nat): string {
    if n < 10 then [DigitChar(n)] else Itoa(n / 10) + [DigitChar(n % 10)]
  }

  /** The value of a string of decimal digits, the inverse of `Itoa`. */
  function Atoi(s: string): nat {
    if s == [] then 0
    else
      var c := s[|s| - 1];
      Atoi(s[..|s| - 1]) * 10 + (if '0' <= c <= '9' then c as int - '0' as int else 0)
  }

  predicate IsDigits(s: string) {
    forall i :: 0 <= i < |s| ==> '0' <= s[i] <= '9'
  }

  function Pow10(k: nat): nat {
    if k == 0 then 1 else 10 * Pow10(k - 1)
  }

  /** `strings.Repeat("-", n)`. */
  function Dashes(n: nat): (r: string)
    ensures |r| == n && forall i :: 0 <= i < n ==> r[i] == '-'
  {
    seq(n, _ => '-')
  }

  /** The dash count of a row: the width less the bytes of the path and of the count. */
  function FillLength(info: FileInfo): int {
    Width - Utf8Len(info.path) - |Itoa(info.lines)|
  }

  /** A row can be written: `strings.Repeat` panics on a negative count. */
  predicate Fits(info: FileInfo) {
    FillLength(info) >= 0
  }

  /** The row written for a record, without its line break. */
  function RenderRow(info: FileInfo): string
    requires Fits(info)
  {
    info.path + " " + Dashes(FillLength(info)) + " " + Itoa(info.lines)
  }

  /** The rows written for records that all fit, in order. */
  function Rows(infos: seq<FileInfo>): seq<string>
    requires forall i :: 0 <= i < |infos| ==> Fits(infos[i])
  {
    if infos == [] then []
    else Rows(infos[..|infos| - 1]) + [RenderRow(infos[|infos| - 1])]
  }

  /** The sum of the line counts. */
  function SumLines(infos: seq<FileInfo>): int {
    if infos == [] then 0 else SumLines(infos[..|infos| - 1]) + infos[|infos| - 1].lines
  }

  predicate SortedByLines(s: seq<FileInfo>) {
    forall p, q :: 0 <= p < q < |s| ==> s[p].lines <= s[q].lines
  }

  /** The index of the first record whose row does not fit, or the length when all fit. */
  function FirstUnfit(infos: seq<FileInfo>): (k: nat)
    ensures k <= |infos|
    ensures forall i :: 0 <= i < k ==> Fits(infos[i])
    ensures k < |infos| ==> !Fits(infos[k])
  {
    if infos == [] || !Fits(infos[0]) then 0
    else
      var k := 1 + FirstUnfit(infos[1..]);
      assert forall i :: 1 <= i < k ==> infos[i] == infos[1..][i - 1];
      k
  }

  /**
   * The output for records already in order: every row and the totals
   * when all rows fit, otherwise the rows before the first that does not.
   */
  function Tabulate(infos: seq<FileInfo>): Report {
    var k := FirstUnfit(infos);
    if k == |infos| then Table(Rows(infos), SumLines(infos), |infos|)
    else FillPanic(Rows(infos[..k]))
  }

  /** `sort.Slice` with `Lines` ascending (here an insertion sort; any order of equal counts is allowed). */
  method SortByLines(a: array<FileInfo>)
    modifies a
    ensures SortedByLines(a[..])
    ensures multiset(a[..]) == multiset(old(a[..]))
  {
    var i := 0;
    while i < a.Length
      invariant i <= a.Length
      invariant SortedByLines(a[..i])
      invariant multiset(a[..]) == multiset(old(a[..]))
    {
      InsertLast(a, i);
      i := i + 1;
    }
    assert a[..a.Length] == a[..];
  }

  /** Moves `a[i]` down into the sorted prefix `a[..i]`. */
  method InsertLast(a: array<FileInfo>, i: nat)
    requires i < a.Length && SortedByLines(a[..i])
    modifies a
    ensures SortedByLines(a[..i + 1])
    ensures forall k :: i < k < a.Length ==> a[k] == old(a[k])
    ensures multiset(a[..]) == multiset(old(a[..]))
  {
    var j := i;
    while j > 0 && a[j - 1].lines > a[j].lines
      invariant 0 <= j <= i
      invariant forall p, q :: 0 <= p < q <= i && q != j ==> a[p].lines <= a[q].lines
      invariant forall p, q :: 0 <= p < j < q <= i ==> a[p].lines <= a[q].lines
      invariant forall k :: i < k < a.Length ==> a[k] == old(a[k])
      invariant multiset(a[..]) == multiset(old(a[..]))
    {
      SwapDown(a, j);
      j := j - 1;
    }
  }

  /** Exchanges `a[j - 1]` and `a[j]`. */
  method SwapDown(a: array<FileInfo>, j: nat)
    requires 0 < j < a.Length
    modifies a
    ensures a[j - 1] == old(a[j]) && a[j] == old(a[j - 1])
    ensures forall k :: 0 <= k < a.Length && k != j - 1 && k != j ==> a[k] == old(a[k])
    ensures multiset(a[..]) == multiset(old(a[..]))
  {
    a[j - 1], a[j] := a[j], a[j - 1];
  }

  /**
   * The loop of `printResults` over sorted records: a row and a running
   * total per record, stopping at the first row whose dash count is negative.
   */
  method EmitRows(a: array<FileInfo>) returns (r: Report)
    ensures r == Tabulate(a[..])
  {
    var rows: seq<string> := [];
    var total := 0;
    var i := 0;
    while i < a.Length
      invariant i <= a.Length
      invariant forall p :: 0 <= p < i ==> Fits(a[p])
      invariant rows == Rows(a[..i])
      invariant total == SumLines(a[..i])
    {
      var info := a[i];
      var length := Width - Utf8Len(info.path) - |Itoa(info.lines)|;
      if length < 0 {
        FirstUnfitIs(a[..], i);
        return FillPanic(rows);
      }
      assert a[..i + 1][..i] == a[..i];
      RowsSnoc(a[..i + 1]);
      assert RenderRow(info) == info.path + " " + Dashes(length) + " " + Itoa(info.lines);
      rows := rows + [info.path + " " + Dashes(length) + " " + Itoa(info.lines)];
      total := total + info.lines;
      i := i + 1;
    }
    FirstUnfitIs(a[..], a.Length);
    assert a[..a.Length] == a[..];
    r := Table(rows, total, a.Length);
  }

  /** `printResults`: nothing to report, or sort and write the table. */
  method PrintResults(a: array<FileInfo>) returns (r: Report)
    modifies a
    ensures r == NotFound <==> a.Length == 0
    ensures SortedByLines(a[..]) && multiset(a[..]) == multiset(old(a[..]))
    ensures a.Length > 0 ==> r == Tabulate(a[..])
    ensures r.Table? ==> r.total == SumLines(old(a[..])) && r.files == a.Length
  {
    if a.Length == 0 {
      return NotFound;
    }
    SortByLines(a);
    r := EmitRows(a);
    if r.Table? {
      SumLinesPermutation(a[..], old(a[..]));
    }
  }

  lemma RowsSnoc(infos: seq<FileInfo>)
    requires infos != [] && forall i :: 0 <= i < |infos| ==> Fits(infos[i])
    ensures Rows(infos) == Rows(infos[..|infos| - 1]) + [RenderRow(infos[|infos| - 1])]
    ensures SumLines(infos) == SumLines(infos[..|infos| - 1]) + infos[|infos| - 1].lines
  {
  }

  /** `FirstUnfit` is the first index whose record does not fit. */
  lemma FirstUnfitIs(infos: seq<FileInfo>, k: nat)
    requires k <= |infos|
    requires forall i :: 0 <= i < k ==> Fits(infos[i])
    requires k < |infos| ==> !Fits(infos[k])
    ensures FirstUnfit(infos) == k
  {
  }

  /** Reordering the records does not change their sum. */
  lemma {:induction false} SumLinesPermutation(s: seq<FileInfo>, t: seq<FileInfo>)
    requires multiset(s) == multiset(t)
    ensures SumLines(s) == SumLines(t)
    decreases |s|
  {
    if s != [] {
      var n := |s| - 1;
      var x := s[n];
      assert s == s[..n] + [x];
      assert x in multiset(t);
      var j :| 0 <= j < |t| && t[j] == x;
      var rest := t[..j] + t[j + 1..];
      calc {
        multiset(s[..n]);
        multiset(s) - multiset{x};
        { assert t == t[..j] + [x] + t[j + 1..]; }
        multiset(t[..j]) + multiset{x} + multiset(t[j + 1..]) - multiset{x};
        multiset(rest);
      }
      SumLinesPermutation(s[..n], rest);
      SumLinesRemove(t, j);
    }
  }

  /** Taking one record out of a sequence takes its count out of the sum. */
  lemma {:induction false} SumLinesRemove(t: seq<FileInfo>, j: nat)
    requires j < |t|
    ensures SumLines(t) == SumLines(t[..j] + t[j + 1..]) + t[j].lines
    decreases |t|
  {
    var n := |t| - 1;
    if j < n {
      SumLinesRemove(t[..n], j);
      assert t[..n][..j] + t[..n][j + 1..] == (t[..j] + t[j + 1..])[..n - 1];
    } else {
      assert t[..j] + t[j + 1..] == t[..n];
    }
  }

  /** `Itoa` writes only digits, at least one, and a leading zero only for zero. */
  lemma {:induction false} ItoaDigits(n: nat)
    ensures |Itoa(n)| >= 1 && IsDigits(Itoa(n))
    ensures Itoa(n)[0] == '0' <==> n == 0
  {
    if n >= 10 {
      ItoaDigits(n / 10);
      assert Itoa(n)[0] == Itoa(n / 10)[0];
    }
  }

  /** Reading back what `Itoa` writes gives the number again. */
  lemma {:induction false} AtoiItoa(n: nat)
    ensures Atoi(Itoa(n)) == n
  {
    if n >= 10 {
      AtoiItoa(n / 10);
      var s := Itoa(n);
      assert s[..|s| - 1] == Itoa(n / 10);
    }
  }

  /** `Itoa(n)` takes at most `k` characters exactly when `n` is below `10^k`. */
  lemma {:induction false} ItoaLength(n: nat, k: nat)
    requires k >= 1
    ensures |Itoa(n)| <= k <==> n < Pow10(k)
  {
    Pow10AtLeastTen(k);
    if n >= 10 && k >= 2 {
      ItoaLength(n / 10, k - 1);
      assert n / 10 < Pow10(k - 1) <==> n < Pow10(k);
    } else if n >= 10 {
      ItoaDigits(n / 10);
    }
  }

  lemma {:induction false} Pow10AtLeastTen(k: nat)
    requires k >= 1
    ensures Pow10(k) >= 10
  {
    if k > 1 {
      Pow10AtLeastTen(k - 1);
    }
  }

  lemma {:induction false} Utf8LenConcat(a: string, b: string)
    ensures Utf8Len(a + b) == Utf8Len(a) + Utf8Len(b)
    decreases |b|
  {
    if b != [] {
      var n := |b| - 1;
      assert (a + b)[..|a + b| - 1] == a + b[..n];
      assert (a + b)[|a + b| - 1] == b[n];
      Utf8LenConcat(a, b[..n]);
    } else {
      assert a + b == a;
    }
  }

  /** A string of ASCII characters takes one byte per character. */
  lemma {:induction false} Utf8LenAscii(s: string)
    requires forall i :: 0 <= i < |s| ==> s[i] as int < 0x80
    ensures Utf8Len(s) == |s|
  {
    if s != [] {
      Utf8LenAscii(s[..|s| - 1]);
    }
  }

  /**
   * Every row that can be written is the same number of bytes wide: the
   * dashes make the path and the count up to the width, and two spaces
   * separate the three parts.
   */
  lemma RowWidth(info: FileInfo)
    requires Fits(info)
    ensures Utf8Len(RenderRow(info)) == Width + 2
  {
    var d := Dashes(FillLength(info));
    var digits := Itoa(info.lines);
    ItoaDigits(info.lines);
    Utf8LenAscii(" ");
    Utf8LenAscii(d);
    Utf8LenAscii(digits);
    Utf8LenConcat(info.path, " ");
    Utf8LenConcat(info.path + " ", d);
    Utf8LenConcat(info.path + " " + d, " ");
    Utf8LenConcat(info.path + " " + d + " ", digits);
  }

  /** One row per record, in the order of the records. */
  lemma {:induction false} RowsAreRenderedRecords(infos: seq<FileInfo>)
    requires forall i :: 0 <= i < |infos| ==> Fits(infos[i])
    ensures |Rows(infos)| == |infos|
    ensures forall i :: 0 <= i < |infos| ==> Rows(infos)[i] == RenderRow(infos[i])
  {
    if infos != [] {
      RowsAreRenderedRecords(infos[..|infos| - 1]);
    }
  }

  /**
   * The table is written in full exactly when every row fits; it then has
   * one row per record, all of the same width. Otherwise the rows written
   * are those of the records before the first that does not fit.
   */
  lemma TabulateShape(infos: seq<FileInfo>)
    ensures Tabulate(infos).Table? <==> forall i :: 0 <= i < |infos| ==> Fits(infos[i])
    ensures Tabulate(infos).Table? ==> |Tabulate(infos).rows| == Tabulate(infos).files == |infos|
    ensures Tabulate(infos).Table? ==>
      forall i :: 0 <= i < |infos| ==> Utf8Len(Tabulate(infos).rows[i]) == Width + 2
    ensures Tabulate(infos).FillPanic? ==>
      var rows := Tabulate(infos).rows;
      |rows| < |infos| && !Fits(infos[|rows|]) &&
      forall i :: 0 <= i < |rows| ==> Fits(infos[i]) && rows[i] == RenderRow(infos[i])
  {
    var k := FirstUnfit(infos);
    if k == |infos| {
      RowsAreRenderedRecords(infos);
      forall i | 0 <= i < |infos|
        ensures Utf8Len(Tabulate(infos).rows[i]) == Width + 2
      {
        RowWidth(infos[i]);
      }
    } else {
      RowsAreRenderedRecords(infos[..k]);
    }
  }
}
