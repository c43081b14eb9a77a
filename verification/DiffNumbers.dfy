/** The numbers the diff scanner of tinyclient/review.go gives to the rows of a
    printed Git diff are the line numbers of the files it was made from. */
module DiffNumbers {
  import opened Prelude
  import opened Diff
  import opened Trimming

  // ------------------------------------------------------------------
  // Inside a hunk

  function LeftOf(changes: seq<Change>, k: nat, start: nat): nat
    requires k < |changes|
  {
    if changes[k].Context? || changes[k].Removed? then start + |OldLines(changes[..k])| else 0
  }

  function RightOf(changes: seq<Change>, k: nat, start: nat): nat
    requires k < |changes|
  {
    if changes[k].Context? || changes[k].Added? then start + |NewLines(changes[..k])| else 0
  }

  function Step(st: Scan, c: Change): Scan {
    st.(left := if c.Context? || c.Removed? then st.left + 1 else st.left,
        right := if c.Context? || c.Added? then st.right + 1 else st.right)
  }

  /** How a row is shown: a hunk's header bold, what was added as inserted, what
      was removed as deleted, and the rest plain. */
  function Shown(change: Option<Change>): string {
    match change
    case None => "b"
    case Some(Added(_)) => "ins"
    case Some(Removed(_)) => "del"
    case Some(Context(_)) => ""
    case Some(NoNewline) => ""
  }

  /** A printed change is scanned as that change, whatever its text looks like. */
  lemma ChangeScanned(st: Scan, c: Change, n: nat, unquote: Unquote)
    requires st.inHunk
    ensures Advance(st, PrintChange(c), unquote) == Step(st, c)
    ensures var row := RowOf(st, PrintChange(c), n, unquote);
      && row.number == n && row.text == PrintChange(c) && row.file == st.file && row.wrapper == Shown(Some(c))
      && row.left == (if c.Context? || c.Removed? then st.left else 0)
      && row.right == (if c.Context? || c.Added? then st.right else 0)
  {
    hide HunkStarts, DiffPath;
    var line := PrintChange(c);
    assert line[0] == match c { case Context(_) => ' ' case Added(_) => '+' case Removed(_) => '-' case NoNewline => '\\' };
    assert !("diff --git " <= line) && !("@@" <= line);
  }

  lemma {:induction false} ChangesScanned(changes: seq<Change>, st: Scan, n: nat, unquote: Unquote, k: nat)
    requires st.inHunk && k < |changes|
    ensures var row := Scanned(PrintChanges(changes), st, n, unquote)[k];
      && row.number == n + k && row.text == PrintChange(changes[k]) && row.file == st.file && row.wrapper == Shown(Some(changes[k]))
      && row.left == LeftOf(changes, k, st.left) && row.right == RightOf(changes, k, st.right)
  {
    hide Advance, RowOf, PrintChange, Shown;
    var c, more := changes[0], changes[1..];
    assert PrintChanges(changes)[0] == PrintChange(c) && PrintChanges(changes)[1..] == PrintChanges(more);
    ChangeScanned(st, c, n, unquote);
    if k > 0 {
      ChangesScanned(more, Step(st, c), n + 1, unquote, k - 1);
      assert changes[..k] == [c] + more[..k - 1];
      assert changes[..k][0] == c && changes[..k][1..] == more[..k - 1];
    } else {
      assert changes[..0] == [];
    }
  }

  lemma {:induction false} ChangesEnd(changes: seq<Change>, st: Scan, unquote: Unquote)
    requires st.inHunk
    ensures var end := After(PrintChanges(changes), st, unquote); end.inHunk && end.file == st.file
  {
    hide Advance, PrintChange;
    if changes != [] {
      assert PrintChanges(changes)[0] == PrintChange(changes[0]) && PrintChanges(changes)[1..] == PrintChanges(changes[1..]);
      ChangeScanned(st, changes[0], 0, unquote);
      ChangesEnd(changes[1..], Step(st, changes[0]), unquote);
    }
  }

  // ------------------------------------------------------------------
  // Hunks made from two files

  /** The hunk's lines are where it says they are, in both files. */
  predicate Describes(h: Hunk, left: seq<string>, right: seq<string>) {
    && h.oldStart <= MAX_INT && h.newStart <= MAX_INT
    && LinesAt(OldLines(h.changes), left, h.oldStart) && LinesAt(NewLines(h.changes), right, h.newStart)
  }

  predicate LinesAt(lines: seq<string>, file: seq<string>, start: nat) {
    lines != [] ==> start >= 1 && start - 1 + |lines| <= |file| && lines == file[start - 1..start - 1 + |lines|]
  }

  /** A numbered row carries that line of that file, and belongs to the file. */
  predicate RowOK(row: Row, name: string, left: seq<string>, right: seq<string>) {
    && row.file == name
    && (row.left > 0 ==> row.left <= |left| && (row.text == " " + left[row.left - 1] || row.text == "-" + left[row.left - 1]))
    && (row.right > 0 ==> row.right <= |right| && (row.text == " " + right[row.right - 1] || row.text == "+" + right[row.right - 1]))
  }

  lemma {:induction false} OldLineAt(changes: seq<Change>, k: nat)
    requires k < |changes| && (changes[k].Context? || changes[k].Removed?)
    ensures |OldLines(changes[..k])| < |OldLines(changes)| && OldLines(changes)[|OldLines(changes[..k])|] == changes[k].text
  {
    if k > 0 {
      OldLineAt(changes[1..], k - 1);
      assert changes[..k][0] == changes[0] && changes[..k][1..] == changes[1..][..k - 1];
    } else {
      assert changes[..0] == [];
    }
  }

  lemma {:induction false} NewLineAt(changes: seq<Change>, k: nat)
    requires k < |changes| && (changes[k].Context? || changes[k].Added?)
    ensures |NewLines(changes[..k])| < |NewLines(changes)| && NewLines(changes)[|NewLines(changes[..k])|] == changes[k].text
  {
    if k > 0 {
      NewLineAt(changes[1..], k - 1);
      assert changes[..k][0] == changes[0] && changes[..k][1..] == changes[1..][..k - 1];
    } else {
      assert changes[..0] == [];
    }
  }

  /** What a printed line of a hunk is: its header, or a change and the numbers
      it has in the two files. */
  datatype Mark = Mark(change: Option<Change>, left: nat, right: nat)

  function HunkMarks(h: Hunk): (r: seq<Mark>)
    ensures |r| == |PrintHunk(h)|
  {
    [Mark(None, 0, 0)]
    + seq(|h.changes|, i requires 0 <= i < |h.changes| =>
        Mark(Some(h.changes[i]), LeftOf(h.changes, i, h.oldStart), RightOf(h.changes, i, h.newStart)))
  }

  function Marks(hunks: seq<Hunk>): (r: seq<Mark>)
    ensures |r| == |PrintHunks(hunks)|
  {
    if hunks == [] then [] else HunkMarks(hunks[0]) + Marks(hunks[1..])
  }

  predicate OnLeft(c: Option<Change>) { c.Some? && (c.value.Context? || c.value.Removed?) }

  predicate OnRight(c: Option<Change>) { c.Some? && (c.value.Context? || c.value.Added?) }

  /** The row is shown as its change, has exactly the numbers of its mark, is
      numbered on the sides the change is on and on no other, and carries those
      lines. */
  predicate Matches(row: Row, mark: Mark, name: string, left: seq<string>, right: seq<string>) {
    && RowOK(row, name, left, right) && row.left == mark.left && row.right == mark.right
    && (mark.change.Some? ==> row.text == PrintChange(mark.change.value)) && row.wrapper == Shown(mark.change)
    && (row.left > 0 <==> OnLeft(mark.change)) && (row.right > 0 <==> OnRight(mark.change))
  }

  predicate AllMatch(rows: seq<Row>, marks: seq<Mark>, name: string, left: seq<string>, right: seq<string>) {
    |rows| == |marks| && forall k :: 0 <= k < |rows| ==> Matches(rows[k], marks[k], name, left, right)
  }

  /** Every context and removed row is numbered on the old side with the line it
      carries, every context and added row on the new side, and nothing else. */
  lemma HunkNumbered(h: Hunk, st: Scan, n: nat, unquote: Unquote, left: seq<string>, right: seq<string>, k: nat)
    requires Describes(h, left, right) && st.inHunk && st.left == h.oldStart && st.right == h.newStart && k < |h.changes|
    ensures Matches(Scanned(PrintChanges(h.changes), st, n, unquote)[k], HunkMarks(h)[k + 1], st.file, left, right)
  {
    hide Scanned, LeftOf, RightOf, Describes, RowOK, PrintChange;
    var row := Scanned(PrintChanges(h.changes), st, n, unquote)[k];
    ChangesScanned(h.changes, st, n, unquote, k);
    ChangeOK(h, row, left, right, k);
  }

  /** A row with the numbers of a change of the hunk carries the right lines. */
  lemma ChangeOK(h: Hunk, row: Row, left: seq<string>, right: seq<string>, k: nat)
    requires Describes(h, left, right) && k < |h.changes| && row.text == PrintChange(h.changes[k])
    requires row.left == LeftOf(h.changes, k, h.oldStart) && row.right == RightOf(h.changes, k, h.newStart)
    ensures RowOK(row, row.file, left, right)
    ensures (row.left > 0 <==> OnLeft(Some(h.changes[k]))) && (row.right > 0 <==> OnRight(Some(h.changes[k])))
  {
    hide OldLines, NewLines;
    var c := h.changes[k];
    if c.Context? || c.Removed? { OldLineAt(h.changes, k); }
    if c.Context? || c.Added? { NewLineAt(h.changes, k); }
  }

  lemma HeaderScanned(h: Hunk, st: Scan, n: nat, unquote: Unquote)
    requires h.oldStart <= MAX_INT && h.newStart <= MAX_INT
    ensures Advance(st, HunkHeader(h), unquote) == Scan(st.file, h.oldStart, h.newStart, true)
    ensures RowOf(st, HunkHeader(h), n, unquote) == Row(n, HunkHeader(h), "b", st.file, 0, 0)
  {
    hide HunkStarts, DiffPath, Range;
    HeaderReads(h);
    var line := HunkHeader(h);
    assert line[0] == '@' && line[1] == '@';
  }

  lemma {:induction false} HunksNumbered(hunks: seq<Hunk>, st: Scan, n: nat, unquote: Unquote, left: seq<string>, right: seq<string>)
    requires forall h :: h in hunks ==> Describes(h, left, right)
    ensures AllMatch(Scanned(PrintHunks(hunks), st, n, unquote), Marks(hunks), st.file, left, right)
  {
    hide Scanned, After, PrintHunk, HunkMarks, Describes, Matches;
    if hunks == [] {
      assert Scanned([], st, n, unquote) == [];
    } else {
      var h := hunks[0];
      assert h in hunks;
      OneHunk(h, st, n, unquote, left, right);
      HunkEnd(h, st, unquote, left, right);
      HunksNumbered(hunks[1..], After(PrintHunk(h), st, unquote), n + |PrintHunk(h)|, unquote, left, right);
      ScannedConcat(PrintHunk(h), PrintHunks(hunks[1..]), st, n, unquote);
    }
  }

  lemma HunkEnd(h: Hunk, st: Scan, unquote: Unquote, left: seq<string>, right: seq<string>)
    requires Describes(h, left, right)
    ensures After(PrintHunk(h), st, unquote).file == st.file
  {
    hide Advance, HunkHeader;
    HeaderScanned(h, st, 0, unquote);
    assert PrintHunk(h)[0] == HunkHeader(h) && PrintHunk(h)[1..] == PrintChanges(h.changes);
    ChangesEnd(h.changes, Scan(st.file, h.oldStart, h.newStart, true), unquote);
  }

  lemma OneHunk(h: Hunk, st: Scan, n: nat, unquote: Unquote, left: seq<string>, right: seq<string>)
    requires Describes(h, left, right)
    ensures AllMatch(Scanned(PrintHunk(h), st, n, unquote), HunkMarks(h), st.file, left, right)
  {
    hide Advance, RowOf, HunkHeader, Matches, Describes, HunkMarks;
    HeaderScanned(h, st, n, unquote) by { DescribedStarts(h, left, right); }
    var body := Scan(st.file, h.oldStart, h.newStart, true);
    assert PrintHunk(h)[0] == HunkHeader(h) && PrintHunk(h)[1..] == PrintChanges(h.changes);
    HeaderOK(n, h, st.file, left, right);
    var rows, rest := Scanned(PrintHunk(h), st, n, unquote), Scanned(PrintChanges(h.changes), body, n + 1, unquote);
    assert rows[1..] == rest;
    forall k | 0 <= k < |rows| ensures Matches(rows[k], HunkMarks(h)[k], st.file, left, right) {
      if k > 0 {
        assert rows[k] == rest[k - 1];
        HunkNumbered(h, body, n + 1, unquote, left, right, k - 1);
      }
    }
  }

  lemma DescribedStarts(h: Hunk, left: seq<string>, right: seq<string>)
    requires Describes(h, left, right)
    ensures h.oldStart <= MAX_INT && h.newStart <= MAX_INT
  {}

  lemma HeaderOK(n: nat, h: Hunk, file: string, left: seq<string>, right: seq<string>)
    ensures Matches(Row(n, HunkHeader(h), "b", file, 0, 0), HunkMarks(h)[0], file, left, right)
  {}

  // ------------------------------------------------------------------
  // A file's part of the diff

  lemma {:induction false} QuietScanned(lines: seq<string>, st: Scan, n: nat, unquote: Unquote)
    requires !st.inHunk && forall x :: x in lines ==> Quiet(x)
    ensures After(lines, st, unquote) == st
    ensures forall row :: row in Scanned(lines, st, n, unquote) ==> row.left == 0 && row.right == 0 && row.file == st.file
  {
    hide HunkStarts, DiffPath;
    if lines != [] {
      assert lines[0] in lines;
      QuietScanned(lines[1..], st, n + 1, unquote);
    }
  }

  lemma NamesScanned(p: Part, st: Scan, unquote: Unquote)
    requires !st.inHunk && st.file == ""
    ensures var names := ["--- " + p.oldName, "+++ " + p.newName];
      After(names, st, unquote) == st.(file := NameOf(p, unquote))
  {
    hide HunkStarts, DiffPath;
    var a, b := "--- " + p.oldName, "+++ " + p.newName;
    assert a[4..] == p.oldName && b[4..] == p.newName;
    assert a[0] == '-' && b[0] == '+';
    var two, one: seq<string> := [a, b], [b];
    assert two[1..] == one && one[1..] == [];
    var mid := Advance(st, a, unquote);
    assert After(one, mid, unquote) == Advance(mid, b, unquote);
  }

  /** Outside a hunk nothing is numbered; the names' rows are shown as deleted
      and inserted, and so is any other row that starts like one. */
  lemma OutsideShown(line: string, st: Scan, n: nat, unquote: Unquote)
    requires "diff --git " <= line || (!st.inHunk && !("@@" <= line))
    ensures var row := RowOf(st, line, n, unquote);
      && row.number == n && row.text == line && row.left == 0 && row.right == 0
      && (row.wrapper == "ins" <==> "+" <= line) && (row.wrapper == "del" <==> "-" <= line)
      && (row.wrapper == "" <==> !("+" <= line) && !("-" <= line))
  {
    hide HunkStarts, DiffPath;
    FirstChar(line);
    if "diff --git " <= line { assert line[0] == 'd'; }
  }

  /** Whatever came before, the heading leads to the file's name. */
  lemma HeadingScanned(p: Part, st: Scan, unquote: Unquote)
    requires forall x :: x in p.extended ==> Quiet(x)
    ensures After(Heading(p), st, unquote).file == NameOf(p, unquote)
  {
    hide HunkStarts, DiffPath, Advance, NameOf;
    var first := "diff --git " + p.heading;
    var reset := st.(inHunk := false, file := "");
    var names := ["--- " + p.oldName, "+++ " + p.newName];
    FirstLine(p.heading, st, unquote);
    var one: seq<string> := [first];
    assert one[1..] == [];
    assert After(one, st, unquote) == Advance(st, first, unquote);
    ScannedConcat([first] + p.extended, names, st, 0, unquote);
    ScannedConcat([first], p.extended, st, 0, unquote);
    QuietScanned(p.extended, reset, 0, unquote);
    NamesScanned(p, reset, unquote);
  }

  lemma FirstLine(heading: string, st: Scan, unquote: Unquote)
    ensures Advance(st, "diff --git " + heading, unquote) == st.(inHunk := false, file := "")
  {
    hide HunkStarts, DiffPath;
  }

  /** The diff of a file describes it: every hunk does. */
  predicate PartOK(p: Part, left: seq<string>, right: seq<string>) {
    (forall x :: x in p.extended ==> Quiet(x)) && forall h :: h in p.hunks ==> Describes(h, left, right)
  }

  /** Wherever a file's part stands in a diff, each row below its heading names
      the file, is numbered on exactly the sides its change is on, with the
      change's line numbers, and carries those lines of the file's two texts. */
  lemma DiffNumbered(before: seq<string>, p: Part, after: seq<string>, unquote: Unquote, left: seq<string>, right: seq<string>, k: nat)
    requires PartOK(p, left, right) && k < |PrintHunks(p.hunks)|
    ensures var rows := Scanned(before + (PrintPart(p) + after), START, 1, unquote);
      var at := |before| + |Heading(p)| + k;
      Matches(rows[at], Marks(p.hunks)[k], NameOf(p, unquote), left, right) && rows[at].number == at + 1
  {
    hide Scanned, After, NameOf, Matches, PartOK, PrintHunks, Heading, Marks;
    var st := After(before, START, unquote);
    PartLength(p);
    Window(before, PrintPart(p), after, START, 1, unquote, |Heading(p)| + k);
    PartNumbered(p, st, 1 + |before|, unquote, left, right, k);
    RowAt(before + (PrintPart(p) + after), START, 1, unquote, |before| + |Heading(p)| + k);
  }

  lemma PartLength(p: Part)
    ensures |PrintPart(p)| == |Heading(p)| + |PrintHunks(p.hunks)|
  {}

  lemma PartNumbered(p: Part, st: Scan, n: nat, unquote: Unquote, left: seq<string>, right: seq<string>, k: nat)
    requires PartOK(p, left, right) && k < |PrintHunks(p.hunks)|
    ensures Matches(Scanned(PrintPart(p), st, n, unquote)[|Heading(p)| + k], Marks(p.hunks)[k], NameOf(p, unquote), left, right)
  {
    hide Scanned, After, NameOf, Matches, Describes, PrintHunks, Heading, Quiet, Marks;
    var hunks, none: seq<string> := PrintHunks(p.hunks), [];
    var start := After(Heading(p), st, unquote);
    assert PrintPart(p) == Heading(p) + (hunks + none);
    Window(Heading(p), hunks, none, st, n, unquote, k);
    HeadingScanned(p, st, unquote);
    HunksNumbered(p.hunks, start, n + |Heading(p)|, unquote, left, right);
  }

  /** A row depends only on what stands before it. */
  lemma Window(a: seq<string>, b: seq<string>, c: seq<string>, st: Scan, n: nat, unquote: Unquote, k: nat)
    requires k < |b|
    ensures Scanned(a + (b + c), st, n, unquote)[|a| + k] == Scanned(b, After(a, st, unquote), n + |a|, unquote)[k]
  {
    hide Scanned, After;
    ScannedConcat(a, b + c, st, n, unquote);
    ScannedConcat(b, c, After(a, st, unquote), n + |a|, unquote);
  }

  // ------------------------------------------------------------------
  // Names

  /** An unquoted name as Git prints it: a tab ends it when it has spaces. */
  function PrintName(prefix: string, name: string): string {
    prefix + name + (if exists c :: c in name && Space(c) then "\t" else "")
  }

  lemma {:induction false} TrimRightAfter(a: string, b: string)
    requires a != "" && !Space(a[|a| - 1])
    ensures TrimRight(a + b) == a + TrimRight(b)
    decreases |b|
  {
    if b == "" {
      assert a + b == a;
    } else {
      assert (a + b)[|a + b| - 1] == b[|b| - 1];
      assert (a + b)[..|a + b| - 1] == a + b[..|b| - 1];
      if Space(b[|b| - 1]) { TrimRightAfter(a, b[..|b| - 1]); }
    }
  }

  lemma {:induction false} TrimRightTab(name: string)
    ensures TrimRight(name + "\t") == TrimRight(name) && TrimRight(name) <= name
    ensures TrimRight(name) == name <==> name == "" || !Space(name[|name| - 1])
  {
    assert (name + "\t")[|name|] == '\t' && (name + "\t")[..|name|] == name;
    TrimRightPrefix(name);
  }

  lemma {:induction false} TrimRightPrefix(s: string)
    ensures TrimRight(s) <= s
    ensures s != "" && Space(s[|s| - 1]) ==> |TrimRight(s)| < |s|
  {
    if s != "" && Space(s[|s| - 1]) { TrimRightPrefix(s[..|s| - 1]); }
  }

  /** The scanner gets a printed name right exactly when the name does not end
      in white space, which it trims away with Git's tab. */
  lemma NameReads(prefix: string, name: string, unquote: Unquote)
    requires prefix in {"a/", "b/"} && '\t' !in name
    ensures DiffPath(PrintName(prefix, name), prefix, unquote) == TrimRight(name)
    ensures DiffPath(PrintName(prefix, name), prefix, unquote) == name <==> name == "" || !Space(name[|name| - 1])
  {
    hide TrimSpace, TrimRight, Before, PrintName, Space;
    Trimmed(prefix, name);
    TrimRightTab(name);
    PathOf(prefix, TrimRight(name), unquote);
  }

  lemma Trimmed(prefix: string, name: string)
    requires prefix in {"a/", "b/"}
    ensures TrimSpace(PrintName(prefix, name)) == prefix + TrimRight(name)
  {
    hide TrimRight;
    var value := PrintName(prefix, name);
    var tail := if exists c :: c in name && Space(c) then name + "\t" else name;
    assert value == prefix + tail;
    assert value[0] == prefix[0] && !Space(value[0]);
    assert TrimLeft(value) == value;
    TrimRightAfter(prefix, tail);
    TrimRightTab(name);
  }

  /** What is left of a value that is the prefix and a name. */
  lemma PathOf(prefix: string, kept: string, unquote: Unquote)
    requires prefix in {"a/", "b/"} && '\t' !in kept
    ensures Before(prefix + kept, '\t') == prefix + kept && prefix + kept != "/dev/null"
    ensures !("\"" <= prefix + kept) && TrimPrefix(prefix + kept, prefix) == kept
  {
    var all := prefix + kept;
    BeforeAll(all, '\t');
    OneChar('"', all);
    assert all[0] == prefix[0] && all[..2] == prefix;
  }

  /** A file's part is named by the new name, and a deleted file's by the old. */
  lemma FileNamed(p: Part, name: string, unquote: Unquote)
    requires '\t' !in name && name != "" && !Space(name[|name| - 1])
    requires p.newName == PrintName("b/", name) || (p.newName == "/dev/null" && p.oldName == PrintName("a/", name))
    ensures NameOf(p, unquote) == name
  {
    hide PrintName, Space;
    NameReads("a/", name, unquote);
    NameReads("b/", name, unquote);
    if p.newName == "/dev/null" { NothingReads("b/", unquote); }
  }

  lemma NothingReads(prefix: string, unquote: Unquote)
    ensures DiffPath("/dev/null", prefix, unquote) == ""
  {
    hide Before;
    var value := "/dev/null";
    assert TrimSpace(value) == value;
    BeforeAll(value, '\t');
    OneChar('"', value);
  }

  /** A quoted name is the name it quotes; one that cannot be unquoted is kept. */
  lemma QuotedReads(prefix: string, quoted: string, name: string, unquote: Unquote)
    requires prefix in {"a/", "b/"} && '\t' !in quoted && quoted != "" && quoted[0] == '"' && !Space(quoted[|quoted| - 1])
    ensures unquote(quoted) == Some(prefix + name) ==> DiffPath(quoted, prefix, unquote) == name
    ensures unquote(quoted) == None ==> DiffPath(quoted, prefix, unquote) == quoted
  {
    hide Before;
    assert TrimSpace(quoted) == quoted;
    BeforeAll(quoted, '\t');
    OneChar('"', quoted);
    assert (prefix + name)[..2] == prefix && (prefix + name)[0] == prefix[0];
  }
}
