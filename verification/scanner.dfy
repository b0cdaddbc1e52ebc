/**
  The line splitting the decoder gets from Go's `bufio.Scanner` with its
  default split function `ScanLines`, over an in-memory reader (which never
  fails): the input is cut at each '\n', a '\r' just before the cut is
  dropped, a last line without '\n' still counts, and no empty line follows a
  final '\n'. A line that does not fit the scanner's largest buffer, 64 KiB
  together with its '\n', stops the scan with `ErrTooLong`.
 */
module Scanner {

  /** `bufio.MaxScanTokenSize`: the size the default buffer grows to at most. */
  const MaxScanTokenSize: nat := 64 * 1024

  /** The lines a scanner delivers, and whether it stops with an error after them. */
  datatype Scan = Scan(lines: seq<string>, tooLong: bool)

  predicate NoNewline(s: string) {
    forall k :: 0 <= k < |s| ==> s[k] != '\n'
  }

  /** The position of the first '\n' in `s`, or `|s|` when there is none. */
  function LineEnd(s: string): (r: nat)
    ensures r <= |s|
    ensures NoNewline(s[..r])
    ensures r < |s| ==> s[r] == '\n'
  {
    if s == [] then 0
    else if s[0] == '\n' then 0
    else
      var r := 1 + LineEnd(s[1..]);
      assert s[..r] == [s[0]] + s[1..][..r - 1];
      r
  }

  /** `dropCR`: a line's trailing '\r' is not part of it. */
  function DropCR(s: string): (r: string)
    ensures r <= s && |s| - 1 <= |r|
    ensures r == s <==> s == [] || s[|s| - 1] != '\r'
  {
    if s != [] && s[|s| - 1] == '\r' then s[..|s| - 1] else s
  }

  /**
    What a scanner over `data` delivers, line by line. The line at hand ends
    at the next '\n' or at the end of the data; when that position is
    `MaxScanTokenSize` or more, the buffer is full before the line is
    complete and the scan stops with an error, after the lines before it.
   */
  function ScanLines(data: string): (r: Scan)
    ensures forall k :: 0 <= k < |r.lines| ==> NoNewline(r.lines[k]) && |r.lines[k]| < MaxScanTokenSize
    ensures |r.lines| <= |data|
    decreases |data|
  {
    if data == [] then Scan([], false)
    else
      var i := LineEnd(data);
      if i >= MaxScanTokenSize then Scan([], true)
      else if i == |data| then Scan([DropCR(data)], false)
      else
        var rest := ScanLines(data[i + 1..]);
        Scan([DropCR(data[..i])] + rest.lines, rest.tooLong)
  }

  /** Text the line splitting leaves alone: no '\n' in it and no '\r' at its end. */
  predicate Clean(s: string) {
    NoNewline(s) && (s == [] || s[|s| - 1] != '\r')
  }

  /** Clean text written after clean text is clean. */
  lemma CleanAppend(a: string, b: string)
    requires Clean(a) && Clean(b)
    ensures Clean(a + b)
  {
    assert forall k :: |a| <= k < |a + b| ==> (a + b)[k] == b[k - |a|];
  }

  /** A line the scanner hands back as it is: clean, and short enough for the buffer. */
  predicate Scannable(l: string) {
    Clean(l) && |l| < MaxScanTokenSize
  }

  /** The first line of `l + "\n" + rest` is `l`, and the scanner goes on with `rest`. */
  lemma ScanFirstLine(l: string, rest: string)
    requires Scannable(l)
    ensures ScanLines(l + "\n" + rest) == Scan([l] + ScanLines(rest).lines, ScanLines(rest).tooLong)
  {
    var data := l + "\n" + rest;
    NewlineAt(l, rest);
    assert data[..|l|] == l;
    assert data[|l| + 1..] == rest;
    assert data != [] && LineEnd(data) < |data|;
    assert DropCR(l) == l;
    var r := ScanLines(rest);
    assert ScanLines(data) == Scan([DropCR(data[..|l|])] + r.lines, r.tooLong);
  }

  lemma {:induction false} NewlineAt(l: string, rest: string)
    requires NoNewline(l)
    ensures LineEnd(l + "\n" + rest) == |l|
  {
    if l != [] {
      assert (l + "\n" + rest)[1..] == l[1..] + "\n" + rest;
      NewlineAt(l[1..], rest);
    }
  }

  /** A line runs at least as far as its first `n` characters hold no '\n'. */
  lemma {:induction false} LineEndPast(s: string, n: nat)
    requires n <= |s| && NoNewline(s[..n])
    ensures LineEnd(s) >= n
  {
    if n > 0 {
      assert s[..n][0] == s[0];
      assert s[1..][..n - 1] == s[..n][1..];
      LineEndPast(s[1..], n - 1);
    }
  }

  /**
    A single scannable line, with or without a final '\n', is delivered as
    that one line, with no error.
   */
  lemma ScanOneLine(l: string)
    requires Scannable(l) && l != []
    ensures ScanLines(l) == Scan([l], false)
    ensures ScanLines(l + "\n") == Scan([l], false)
  {
    ScanFirstLine(l, "");
    assert l + "\n" + "" == l + "\n";
    LineEndPast(l, |l|);
  }

  /**
    A line of `MaxScanTokenSize` characters or more, with no '\n' in the
    first `MaxScanTokenSize` of them, stops the scan before any line is
    delivered.
   */
  lemma ScanTooLong(data: string)
    requires |data| >= MaxScanTokenSize && NoNewline(data[..MaxScanTokenSize])
    ensures ScanLines(data) == Scan([], true)
  {
    LineEndPast(data, MaxScanTokenSize);
  }

  /** Each line followed by '\n': what a writer of those lines produces. */
  function Terminated(lines: seq<string>): string {
    if lines == [] then "" else lines[0] + "\n" + Terminated(lines[1..])
  }

  /** Lines the scanner can hand back as they are, each written with its '\n', are read back exactly, with no error. */
  lemma {:induction false} ScanTerminated(lines: seq<string>)
    requires forall k :: 0 <= k < |lines| ==> Scannable(lines[k])
    ensures ScanLines(Terminated(lines)) == Scan(lines, false)
  {
    if lines != [] {
      ScanTerminated(lines[1..]);
      ScanFirstLine(lines[0], Terminated(lines[1..]));
      assert [lines[0]] + lines[1..] == lines;
    }
  }
}
