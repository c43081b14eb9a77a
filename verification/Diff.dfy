/** The diff scanner of tinyclient/review.go: rows of a unified diff with their
    file and their line number on each side. */
module Diff {
  import opened Prelude
  import opened Trimming
  import Decimal

  // ------------------------------------------------------------------
  // Go's string helpers

  function WordLength(s: string): (n: nat)
    ensures n <= |s| && (forall i :: 0 <= i < n ==> !Space(s[i])) && (n < |s| ==> Space(s[n]))
  {
    if s == "" || Space(s[0]) then 0 else 1 + WordLength(s[1..])
  }

  /** strings.Fields. */
  function Fields(s: string): seq<string>
    decreases |s|
  {
    if s == "" then []
    else if Space(s[0]) then Fields(s[1..])
    else [s[..WordLength(s)]] + Fields(s[WordLength(s)..])
  }

  function TrimPrefix(s: string, prefix: string): string { if prefix <= s then s[|prefix|..] else s }

  /** The text before the first c, or all of it. */
  function Before(s: string, c: char): string {
    if s == "" || s[0] == c then "" else [s[0]] + Before(s[1..], c)
  }

  const MAX_INT: int := 0x7FFF_FFFF_FFFF_FFFF

  predicate Digits(s: string) { |s| > 0 && forall i :: 0 <= i < |s| ==> Decimal.IsDigit(s[i]) }

  /** strconv.Atoi, with errors and negative numbers read as 0. */
  function Number(s: string): nat {
    var digits := if s != "" && s[0] == '+' then s[1..] else s;
    if Digits(digits) && Decimal.Read(digits) <= MAX_INT then Decimal.Read(digits) else 0
  }

  // ------------------------------------------------------------------
  // The scanner

  function HunkStart(field: string, prefix: string): nat { Number(Before(TrimPrefix(field, prefix), ',')) }

  /** hunkStarts. */
  function HunkStarts(header: string): (nat, nat) {
    var fields := Fields(header);
    if |fields| < 3 then (0, 0) else (HunkStart(fields[1], "-"), HunkStart(fields[2], "+"))
  }

  type Unquote = string -> Option<string>

  /** diffPath. */
  function DiffPath(value: string, prefix: string, unquote: Unquote): string {
    var plain := Before(TrimSpace(value), '\t');
    var path := if "\"" <= plain && unquote(plain).Some? then unquote(plain).value else plain;
    if path == "/dev/null" then "" else TrimPrefix(path, prefix)
  }

  datatype Row = Row(number: nat, text: string, wrapper: string, file: string, left: nat, right: nat)

  /** What the loop carries from line to line. */
  datatype Scan = Scan(file: string, left: nat, right: nat, inHunk: bool)

  const START: Scan := Scan("", 0, 0, false)

  function Advance(st: Scan, line: string, unquote: Unquote): Scan {
    if "diff --git " <= line then st.(inHunk := false, file := "")
    else if "@@" <= line then
      var (left, right) := HunkStarts(line);
      st.(inHunk := true, left := left, right := right)
    else if !st.inHunk && "+++ " <= line then
      var path := DiffPath(line[4..], "b/", unquote);
      st.(file := if path != "" then path else st.file)
    else if !st.inHunk && "--- " <= line then
      var path := DiffPath(line[4..], "a/", unquote);
      st.(file := if path != "" && st.file == "" then path else st.file)
    else if !st.inHunk || "\\" <= line then st
    else if "+" <= line then st.(right := st.right + 1)
    else if "-" <= line then st.(left := st.left + 1)
    else st.(left := st.left + 1, right := st.right + 1)
  }

  function RowOf(st: Scan, line: string, number: nat, unquote: Unquote): Row {
    var file := Advance(st, line, unquote).file;
    if "diff --git " <= line then Row(number, line, "", file, 0, 0)
    else if "@@" <= line then Row(number, line, "b", file, 0, 0)
    else if "+" <= line then Row(number, line, "ins", file, 0, if st.inHunk then st.right else 0)
    else if "-" <= line then Row(number, line, "del", file, if st.inHunk then st.left else 0, 0)
    else if "\\" <= line || !st.inHunk then Row(number, line, "", file, 0, 0)
    else Row(number, line, "", file, st.left, st.right)
  }

  function Scanned(lines: seq<string>, st: Scan, number: nat, unquote: Unquote): (r: seq<Row>)
    ensures |r| == |lines|
  {
    if lines == [] then []
    else [RowOf(st, lines[0], number, unquote)] + Scanned(lines[1..], Advance(st, lines[0], unquote), number + 1, unquote)
  }

  function After(lines: seq<string>, st: Scan, unquote: Unquote): Scan {
    if lines == [] then st else After(lines[1..], Advance(st, lines[0], unquote), unquote)
  }

  lemma OneChar(c: char, line: string)
    requires line != ""
    ensures [c] <= line <==> line[0] == c
  {
    assert [c] == line[..1] <==> line[0] == c;
  }

  lemma FirstChar(line: string)
    ensures "+++ " <= line ==> "+" <= line
    ensures "--- " <= line ==> "-" <= line
    ensures !("+" <= line && "-" <= line) && !("+" <= line && "\\" <= line) && !("-" <= line && "\\" <= line)
  {
    if line != "" {
      OneChar('+', line);
      OneChar('-', line);
      OneChar('\\', line);
    }
    if "+++ " <= line { assert line[0] == '+'; }
    if "--- " <= line { assert line[0] == '-'; }
  }

  /** The body of the loop in diffLines, branch by branch. */
  method ScanLine(st: Scan, line: string, number: nat, unquote: Unquote) returns (row: Row, next: Scan)
    ensures row == RowOf(st, line, number, unquote) && next == Advance(st, line, unquote)
  {
    hide HunkStarts, DiffPath;
    FirstChar(line);
    var file, left, right, inHunk := st.file, st.left, st.right, st.inHunk;
    row := Row(number, line, "", "", 0, 0);
    if "diff --git " <= line {
      inHunk, file := false, "";
    } else if "@@" <= line {
      inHunk := true;
      var starts := HunkStarts(line);
      left, right := starts.0, starts.1;
      row := row.(wrapper := "b");
    } else if !inHunk && "+++ " <= line {
      row := row.(wrapper := "ins");
      var path := DiffPath(line[4..], "b/", unquote);
      if path != "" {
        file := path;
      }
    } else if !inHunk && "--- " <= line {
      row := row.(wrapper := "del");
      var path := DiffPath(line[4..], "a/", unquote);
      if path != "" && file == "" {
        file := path;
      }
    } else if inHunk && "+" <= line {
      row := row.(wrapper := "ins", right := right);
      right := right + 1;
    } else if inHunk && "-" <= line {
      row := row.(wrapper := "del", left := left);
      left := left + 1;
    } else if inHunk && "\\" <= line {
    } else if inHunk {
      row := row.(left := left, right := right);
      left, right := left + 1, right + 1;
    } else if "+" <= line {
      row := row.(wrapper := "ins");
    } else if "-" <= line {
      row := row.(wrapper := "del");
    }
    row := row.(file := file);
    next := Scan(file, left, right, inHunk);
  }

  /** diffLines. */
  method DiffLines(lines: seq<string>, unquote: Unquote) returns (out: seq<Row>)
    ensures out == Scanned(lines, START, 1, unquote)
    ensures forall k :: 0 <= k < |lines| ==> out[k].number == k + 1 && out[k].text == lines[k]
  {
    hide RowOf, Advance;
    forall k | 0 <= k < |lines| ensures var row := Scanned(lines, START, 1, unquote)[k]; row.number == k + 1 && row.text == lines[k] {
      RowAt(lines, START, 1, unquote, k);
    }
    out := [];
    var st := START;
    assert lines[0..] == lines;
    for index := 0 to |lines|
      invariant Scanned(lines, START, 1, unquote) == out + Scanned(lines[index..], st, index + 1, unquote)
    {
      var row, next := ScanLine(st, lines[index], index + 1, unquote);
      LoopStep(lines, index, st, row, next, out, unquote);
      out := out + [row];
      st := next;
    }
    assert out + [] == out;
  }

  /** Rows are numbered by their place and carry their line. */
  lemma {:induction false} RowAt(lines: seq<string>, st: Scan, number: nat, unquote: Unquote, k: nat)
    requires k < |lines|
    ensures var row := Scanned(lines, st, number, unquote)[k]; row.number == number + k && row.text == lines[k]
  {
    hide HunkStarts, DiffPath, Advance;
    if k > 0 { RowAt(lines[1..], Advance(st, lines[0], unquote), number + 1, unquote, k - 1); }
  }

  lemma LoopStep(lines: seq<string>, index: nat, st: Scan, row: Row, next: Scan, out: seq<Row>, unquote: Unquote)
    requires index < |lines| && row == RowOf(st, lines[index], index + 1, unquote) && next == Advance(st, lines[index], unquote)
    ensures out + Scanned(lines[index..], st, index + 1, unquote) == (out + [row]) + Scanned(lines[index + 1..], next, index + 2, unquote)
  {
    hide RowOf, Advance;
    assert lines[index..][0] == lines[index] && lines[index..][1..] == lines[index + 1..];
    Associative(out, [row], Scanned(lines[index + 1..], next, index + 2, unquote));
  }

  lemma {:induction false} ScannedConcat(a: seq<string>, b: seq<string>, st: Scan, n: nat, unquote: Unquote)
    ensures Scanned(a + b, st, n, unquote) == Scanned(a, st, n, unquote) + Scanned(b, After(a, st, unquote), n + |a|, unquote)
    ensures After(a + b, st, unquote) == After(b, After(a, st, unquote), unquote)
  {
    hide RowOf, Advance;
    if a == [] {
      assert a + b == b;
    } else {
      var next := Advance(st, a[0], unquote);
      ScannedConcat(a[1..], b, next, n + 1, unquote);
      assert (a + b)[0] == a[0] && (a + b)[1..] == a[1..] + b;
      Associative([RowOf(st, a[0], n, unquote)], Scanned(a[1..], next, n + 1, unquote), Scanned(b, After(a, st, unquote), n + |a|, unquote));
    }
  }

  // ------------------------------------------------------------------
  // Printed diffs

  datatype Change = Context(text: string) | Added(text: string) | Removed(text: string) | NoNewline

  datatype Hunk = Hunk(oldStart: nat, newStart: nat, section: string, changes: seq<Change>)

  /** One file of a Git diff: the heading, the lines before the names, the names
      as printed, and the hunks. */
  datatype Part = Part(heading: string, extended: seq<string>, oldName: string, newName: string, hunks: seq<Hunk>)

  function PrintChange(c: Change): string {
    match c
    case Context(text) => " " + text
    case Added(text) => "+" + text
    case Removed(text) => "-" + text
    case NoNewline => "\\ No newline at end of file"
  }

  function PrintChanges(changes: seq<Change>): (r: seq<string>)
    ensures |r| == |changes| && forall i :: 0 <= i < |r| ==> r[i] == PrintChange(changes[i])
  {
    seq(|changes|, i requires 0 <= i < |changes| => PrintChange(changes[i]))
  }

  function OldLines(changes: seq<Change>): seq<string> {
    if changes == [] then []
    else (if changes[0].Context? || changes[0].Removed? then [changes[0].text] else []) + OldLines(changes[1..])
  }

  function NewLines(changes: seq<Change>): seq<string> {
    if changes == [] then []
    else (if changes[0].Context? || changes[0].Added? then [changes[0].text] else []) + NewLines(changes[1..])
  }

  /** A start and, unless it is one, a count. */
  function Range(start: nat, count: nat): string {
    if count == 1 then Decimal.Print(start) else Decimal.Print(start) + "," + Decimal.Print(count)
  }

  function HunkHeader(h: Hunk): string {
    "@@ -" + Range(h.oldStart, |OldLines(h.changes)|) + " +" + Range(h.newStart, |NewLines(h.changes)|) + " @@" + h.section
  }

  function PrintHunk(h: Hunk): seq<string> { [HunkHeader(h)] + PrintChanges(h.changes) }

  function PrintHunks(hunks: seq<Hunk>): seq<string> {
    if hunks == [] then [] else PrintHunk(hunks[0]) + PrintHunks(hunks[1..])
  }

  function Heading(p: Part): seq<string> {
    ["diff --git " + p.heading] + p.extended + ["--- " + p.oldName, "+++ " + p.newName]
  }

  function PrintPart(p: Part): seq<string> { Heading(p) + PrintHunks(p.hunks) }

  /** Lines such as modes and object names, which start none of the things the
      scanner looks for. */
  predicate Quiet(line: string) {
    !("diff --git " <= line) && !("@@" <= line) && !("+++ " <= line) && !("--- " <= line)
  }

  function NameOf(p: Part, unquote: Unquote): string {
    var path := DiffPath(p.newName, "b/", unquote);
    if path != "" then path else DiffPath(p.oldName, "a/", unquote)
  }

  // ------------------------------------------------------------------
  // Headers

  predicate Solid(s: string) { forall i :: 0 <= i < |s| ==> !Space(s[i]) }

  lemma {:induction false} WordEnds(w: string, rest: string)
    requires Solid(w)
    ensures WordLength(w + " " + rest) == |w|
  {
    var s := w + " " + rest;
    if w != "" {
      WordEnds(w[1..], rest);
      assert s[1..] == w[1..] + " " + rest;
    }
  }

  lemma FieldsWord(w: string, rest: string)
    requires Solid(w) && w != ""
    ensures Fields(w + " " + rest) == [w] + Fields(rest)
  {
    var s := w + " " + rest;
    WordEnds(w, rest);
    assert s[..|w|] == w && s[|w|..] == " " + rest;
    assert Fields(" " + rest) == Fields((" " + rest)[1..]) && (" " + rest)[1..] == rest;
  }

  lemma DigitsSolid(n: nat)
    ensures Solid(Decimal.Print(n)) && ',' !in Decimal.Print(n)
  {}

  lemma RangeSolid(start: nat, count: nat)
    ensures Solid(Range(start, count))
  {
    hide Decimal.Print;
    DigitsSolid(start);
    DigitsSolid(count);
  }

  lemma {:induction false} BeforeAll(s: string, c: char)
    requires c !in s
    ensures Before(s, c) == s
  {
    if s != "" { BeforeAll(s[1..], c); }
  }

  lemma {:induction false} BeforeCut(s: string, c: char, rest: string)
    requires c !in s
    ensures Before(s + [c] + rest, c) == s
  {
    var all := s + [c] + rest;
    if s != "" {
      assert all[0] == s[0] && all[1..] == s[1..] + [c] + rest;
      BeforeCut(s[1..], c, rest);
    }
  }

  lemma RangeReads(start: nat, count: nat, sign: string)
    requires start <= MAX_INT && |sign| == 1
    ensures HunkStart(sign + Range(start, count), sign) == start
  {
    hide Decimal.Print;
    var digits := Decimal.Print(start);
    assert (sign + Range(start, count))[1..] == Range(start, count);
    DigitsSolid(start);
    if count == 1 {
      BeforeAll(digits, ',');
    } else {
      BeforeCut(digits, ',', Decimal.Print(count));
    }
    assert digits[0] != '+';
    Decimal.PrintThenRead(start);
  }

  /** The scanner reads back the starts the header was printed from. */
  lemma HeaderReads(h: Hunk)
    requires h.oldStart <= MAX_INT && h.newStart <= MAX_INT
    ensures HunkStarts(HunkHeader(h)) == (h.oldStart, h.newStart)
  {
    hide Range, Fields, HunkStart;
    var a, b := Range(h.oldStart, |OldLines(h.changes)|), Range(h.newStart, |NewLines(h.changes)|);
    RangeSolid(h.oldStart, |OldLines(h.changes)|);
    RangeSolid(h.newStart, |NewLines(h.changes)|);
    var rest := "@@" + h.section;
    assert HunkHeader(h) == "@@" + " " + (("-" + a) + " " + (("+" + b) + " " + rest));
    FieldsWord("@@", ("-" + a) + " " + (("+" + b) + " " + rest));
    FieldsWord("-" + a, ("+" + b) + " " + rest);
    FieldsWord("+" + b, rest);
    RangeReads(h.oldStart, |OldLines(h.changes)|, "-");
    RangeReads(h.newStart, |NewLines(h.changes)|, "+");
  }
}
