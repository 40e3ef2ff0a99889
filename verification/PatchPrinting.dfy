/** A printer of unified diffs, and the theorem that parsing undoes it. */
module PatchPrinting {
  import opened Collections
  import opened PatchLines
  import opened Wrappers

  datatype Edit = Keep(text: string) | Delete(text: string) | Insert(text: string) | NoNewline

  datatype Hunk = Hunk(oldStart: nat, oldCount: Option<nat>, newStart: nat, newCount: Option<nat>,
                       heading: string, edits: seq<Edit>)

  /** One file of a patch; `preamble` holds the lines a tool prints ahead of its header. */
  datatype FilePatch = FilePatch(preamble: seq<string>, oldPath: Option<string>, newPath: Option<string>,
                                 hunks: seq<Hunk>)

  // ----- printing -----

  function Digit(d: nat): char
    requires d < 10
  {
    ('0' as int + d) as char
  }

  function Decimal(n: nat): string {
    if n < 10 then [Digit(n)] else Decimal(n / 10) + [Digit(n % 10)]
  }

  function PrintCount(count: Option<nat>): string {
    match count
    case None => ""
    case Some(n) => "," + Decimal(n)
  }

  function PrintEdit(e: Edit): string {
    match e
    case Keep(text) => " " + text
    case Delete(text) => "-" + text
    case Insert(text) => "+" + text
    case NoNewline => "\\ No newline at end of file"
  }

  function PrintEdits(edits: seq<Edit>): seq<string> {
    if edits == [] then [] else [PrintEdit(edits[0])] + PrintEdits(edits[1..])
  }

  function PrintHeader(h: Hunk): string {
    "@@ -" + (Decimal(h.oldStart) + (PrintCount(h.oldCount) +
      (" +" + (Decimal(h.newStart) + (PrintCount(h.newCount) + (" @@" + h.heading))))))
  }

  function PrintHunks(hunks: seq<Hunk>): seq<string> {
    if hunks == [] then [] else [PrintHeader(hunks[0])] + PrintEdits(hunks[0].edits) + PrintHunks(hunks[1..])
  }

  function PrintPath(marker: string, directory: string, path: Option<string>): string {
    match path
    case None => marker + "/dev/null"
    case Some(p) => marker + (directory + p)
  }

  function PrintFile(f: FilePatch): seq<string> {
    f.preamble + [PrintPath("--- ", "a/", f.oldPath), PrintPath("+++ ", "b/", f.newPath)] + PrintHunks(f.hunks)
  }

  function PrintPatch(files: seq<FilePatch>): seq<string> {
    if files == [] then [] else PrintFile(files[0]) + PrintPatch(files[1..])
  }

  // ----- what a patch changes, by position -----

  /** How many of the first `k` edits are lines of the new file. */
  function NewLinesBefore(edits: seq<Edit>, k: nat): nat
    requires k <= |edits|
  {
    if k == 0 then 0 else
      NewLinesBefore(edits, k - 1) + if edits[k - 1].Keep? || edits[k - 1].Insert? then 1 else 0
  }

  predicate IsChange(e: Edit) {
    e.Insert? || e.Delete?
  }

  /** The new-side lines of insertions and positions of deletions; a position before the file is line 1. */
  function HunkLines(h: Hunk): set<int> {
    set k | 0 <= k < |h.edits| && IsChange(h.edits[k]) :: Max(1, h.newStart + NewLinesBefore(h.edits, k))
  }

  function FileLines(hunks: seq<Hunk>): set<int> {
    if hunks == [] then {} else HunkLines(hunks[0]) + FileLines(hunks[1..])
  }

  /** The file a patch is about: the new name, or the old one when the file is deleted. */
  function Target(f: FilePatch): Option<string> {
    if f.newPath.Some? then f.newPath else f.oldPath
  }

  /** All changed lines a patch has for one path, over all its parts. */
  function PatchedLines(files: seq<FilePatch>, path: string): set<int> {
    if files == [] then {}
    else (if Target(files[0]) == Some(path) then FileLines(files[0].hunks) else {}) + PatchedLines(files[1..], path)
  }

  predicate Mentions(files: seq<FilePatch>, path: string) {
    exists i :: 0 <= i < |files| && Target(files[i]) == Some(path)
  }

  // ----- what the printer must be given -----

  predicate CleanEdit(e: Edit) {
    && (e.Delete? ==> !("--" <= e.text))
    && (e.Insert? ==> !("++" <= e.text))
  }

  predicate CleanPath(path: Option<string>) {
    path.Some? ==> path.value != "" && Strip(path.value) == path.value && path.value != "/dev/null"
  }

  /** A line ahead of a file header that is neither an edit nor a header itself. */
  predicate Neutral(line: string) {
    line == "" || line[0] !in {'+', '-', '@'}
  }

  predicate CleanHunks(hunks: seq<Hunk>) {
    forall h, e :: h in hunks && e in h.edits ==> CleanEdit(e)
  }

  predicate CleanFile(f: FilePatch) {
    && (forall line :: line in f.preamble ==> Neutral(line))
    && CleanPath(f.oldPath) && CleanPath(f.newPath) && CleanHunks(f.hunks)
  }

  // ----- reading numbers back -----

  lemma {:induction false} DecimalReadsBack(n: nat)
    ensures Decimal(n) != "" && (forall c :: c in Decimal(n) ==> IsDigit(c))
    ensures DigitsValue(Decimal(n)) == n
  {
    if n < 10 {
      assert [Digit(n)][..0] == "";
    } else {
      DecimalReadsBack(n / 10);
      assert Decimal(n)[..|Decimal(n)| - 1] == Decimal(n / 10);
    }
  }

  lemma {:induction false} DigitRun(digits: string, rest: string)
    requires (forall c :: c in digits ==> IsDigit(c)) && (rest == "" || !IsDigit(rest[0]))
    ensures DigitCount(digits + rest) == |digits|
  {
    if digits == "" {
      assert digits + rest == rest;
    } else {
      assert digits[0] in digits;
      assert (digits + rest)[1..] == digits[1..] + rest;
      DigitRun(digits[1..], rest);
    }
  }

  predicate IsNumeral(s: string) {
    s != "" && forall c :: c in s ==> IsDigit(c)
  }

  /** Nothing, or a comma and a number. */
  predicate IsCount(s: string) {
    s == "" || ("," <= s && IsNumeral(s[1..]))
  }

  lemma CountIsPrinted(count: Option<nat>)
    ensures IsCount(PrintCount(count))
  {
    if count.Some? {
      DecimalReadsBack(count.value);
      assert PrintCount(count)[1..] == Decimal(count.value);
    }
  }

  lemma SkipWrittenCount(count: string, rest: string)
    requires IsCount(count) && rest != "" && rest[0] == ' '
    ensures SkipCount(count + rest) == rest
    ensures (count + rest)[0] in {',', ' '}
  {
    if count == "" {
      assert count + rest == rest;
    } else {
      SkipDigits(count[1..], rest);
      assert count + rest == "," + (count[1..] + rest);
    }
  }

  lemma SkipDigits(digits: string, rest: string)
    requires IsNumeral(digits) && (rest == "" || !IsDigit(rest[0]))
    ensures SkipCount("," + (digits + rest)) == rest
  {
    var s := "," + (digits + rest);
    DigitRun(digits, rest);
    assert s[1..] == digits + rest;
    assert s[1 + |digits|..] == rest;
  }

  /** One number of a hunk header, with its optional count. */
  lemma NumberReadsBack(digits: string, count: string, rest: string)
    requires IsNumeral(digits) && IsCount(count) && rest != "" && rest[0] == ' '
    ensures var s := digits + (count + rest);
            DigitCount(s) == |digits| && s[..|digits|] == digits && SkipCount(s[|digits|..]) == rest
  {
    var s := digits + (count + rest);
    SkipWrittenCount(count, rest);
    DigitRun(digits, count + rest);
    assert s[|digits|..] == count + rest;
  }

  lemma HunkStartsOf(a: string, n: nat, c: string, m: nat)
    requires n == DigitCount(a) && n > 0 && SkipCount(a[n..]) == " +" + c
    requires m == DigitCount(c) && m > 0 && " @@" <= SkipCount(c[m..])
    ensures HunkStarts("@@ -" + a) == Some(Starts(DigitsValue(a[..n]), DigitsValue(c[..m])))
  {
    assert ("@@ -" + a)[4..] == a;
    assert (" +" + c)[2..] == c;
  }

  /** The form of a hunk header: two numbers, each with an optional count, and whatever follows. */
  predicate HasForm(line: string, a: string, aCount: string, b: string, bCount: string, heading: string) {
    && IsNumeral(a) && IsCount(aCount) && IsNumeral(b) && IsCount(bCount)
    && line == "@@ -" + (a + (aCount + (" +" + (b + (bCount + (" @@" + heading))))))
  }

  lemma FormIsRead(line: string, a: string, aCount: string, b: string, bCount: string, heading: string)
    requires HasForm(line, a, aCount, b, bCount, heading)
    ensures HunkStarts(line) == Some(Starts(DigitsValue(a), DigitsValue(b)))
  {
    var tail := " @@" + heading;
    var c := b + (bCount + tail);
    NumberReadsBack(a, aCount, " +" + c);
    NumberReadsBack(b, bCount, tail);
    HunkStartsOf(a + (aCount + (" +" + c)), |a|, c, |b|);
  }

  lemma {:induction false} DigitsTaken(s: string)
    ensures forall c :: c in s[..DigitCount(s)] ==> IsDigit(c)
  {
    if DigitCount(s) > 0 {
      DigitsTaken(s[1..]);
      assert s[..DigitCount(s)] == [s[0]] + s[1..][..DigitCount(s) - 1];
    }
  }

  lemma CountSkipped(s: string) returns (count: string)
    ensures IsCount(count) && s == count + SkipCount(s)
  {
    count := "";
    if "," <= s && DigitCount(s[1..]) > 0 {
      count := s[..1 + DigitCount(s[1..])];
      DigitsTaken(s[1..]);
      assert count[1..] == s[1..][..DigitCount(s[1..])];
    }
  }

  /** A number read off the front, with its optional count. */
  lemma NumberTaken(s: string) returns (digits: string, count: string)
    requires DigitCount(s) > 0
    ensures digits == s[..DigitCount(s)] && IsNumeral(digits) && IsCount(count)
    ensures s == digits + (count + SkipCount(s[DigitCount(s)..]))
  {
    digits := s[..DigitCount(s)];
    DigitsTaken(s);
    count := CountSkipped(s[DigitCount(s)..]);
    CutInTwo(s, DigitCount(s));
  }

  lemma CutInTwo(s: string, n: nat)
    requires n <= |s|
    ensures s == s[..n] + s[n..]
  {
  }

  lemma PrefixTaken(prefix: string, s: string)
    requires prefix <= s
    ensures s == prefix + s[|prefix|..]
  {
  }

  lemma Assembled(line: string, rest: string, a: string, aCount: string, middle: string, inner: string, b: string,
                  bCount: string, tail: string, heading: string)
    requires line == "@@ -" + rest && rest == a + (aCount + middle) && middle == " +" + inner
    requires inner == b + (bCount + tail) && tail == " @@" + heading
    requires IsNumeral(a) && IsCount(aCount) && IsNumeral(b) && IsCount(bCount)
    ensures HasForm(line, a, aCount, b, bCount, heading)
  {
  }

  /** What the recogniser has found in a line it accepts. */
  lemma HeaderParts(line: string)
    requires HunkStarts(line).Some?
    ensures "@@ -" <= line && DigitCount(line[4..]) > 0
    ensures var middle := SkipCount(line[4..][DigitCount(line[4..])..]);
            && " +" <= middle && DigitCount(middle[2..]) > 0
            && " @@" <= SkipCount(middle[2..][DigitCount(middle[2..])..])
            && HunkStarts(line).value == Starts(DigitsValue(line[4..][..DigitCount(line[4..])]),
                                                DigitsValue(middle[2..][..DigitCount(middle[2..])]))
  {
  }

  lemma ReadHasForm(line: string) returns (a: string, aCount: string, b: string, bCount: string, heading: string)
    requires HunkStarts(line).Some?
    ensures HasForm(line, a, aCount, b, bCount, heading)
    ensures HunkStarts(line).value == Starts(DigitsValue(a), DigitsValue(b))
  {
    HeaderParts(line);
    var rest := line[4..];
    a, aCount := NumberTaken(rest);
    var middle := SkipCount(rest[DigitCount(rest)..]);
    var inner := middle[2..];
    b, bCount := NumberTaken(inner);
    var tail := SkipCount(inner[DigitCount(inner)..]);
    heading := tail[3..];
    PrefixTaken("@@ -", line);
    PrefixTaken(" +", middle);
    PrefixTaken(" @@", tail);
    Assembled(line, rest, a, aCount, middle, inner, b, bCount, tail, heading);
  }

  /** A line is taken for a hunk header exactly when it has the form of one, and its two numbers are what is
      read: nothing but the form decides, and it can be met in one way only. */
  lemma HunkHeaderIff(line: string, starts: Starts)
    ensures HunkStarts(line) == Some(starts) <==>
            exists a, aCount, b, bCount, heading ::
              HasForm(line, a, aCount, b, bCount, heading) && starts == Starts(DigitsValue(a), DigitsValue(b))
  {
    if HunkStarts(line) == Some(starts) {
      var a, aCount, b, bCount, heading := ReadHasForm(line);
    }
    forall a, aCount, b, bCount, heading | HasForm(line, a, aCount, b, bCount, heading)
      ensures HunkStarts(line) == Some(Starts(DigitsValue(a), DigitsValue(b)))
    {
      FormIsRead(line, a, aCount, b, bCount, heading);
    }
  }

  lemma HeaderReadsBack(h: Hunk)
    ensures HunkStarts(PrintHeader(h)) == Some(Starts(h.oldStart, h.newStart))
    ensures OldFile(PrintHeader(h)).None? && NewFile(PrintHeader(h)).None?
  {
    DecimalReadsBack(h.oldStart);
    DecimalReadsBack(h.newStart);
    CountIsPrinted(h.oldCount);
    CountIsPrinted(h.newCount);
    FormIsRead(PrintHeader(h), Decimal(h.oldStart), PrintCount(h.oldCount), Decimal(h.newStart), PrintCount(h.newCount),
               h.heading);
    NoFileHeader(PrintHeader(h));
  }

  lemma NoFileHeader(line: string)
    requires line != "" && line[0] !in {'+', '-'}
    ensures OldFile(line).None? && NewFile(line).None?
  {
  }

  // ----- reading the lines back -----

  lemma NoHeader(line: string)
    requires line == "" || line[0] !in {'+', '-', '@'}
    ensures OldFile(line).None? && NewFile(line).None? && HunkStarts(line).None?
  {
  }

  /** The printed edit is no header, and records what the edit means whatever was read before. */
  ghost predicate ReadsBack(e: Edit) {
    var line := PrintEdit(e);
    && OldFile(line).None? && NewFile(line).None? && HunkStarts(line).None?
    && forall changed, at :: Record(changed, line, at) == EditEffect(e, changed, at)
  }

  /** An edit reads back exactly when it is clean: a deleted line starting with `--` or an added one
      starting with `++` is taken for a header or for context. */
  lemma EditReadsBackIffClean(e: Edit)
    ensures ReadsBack(e) <==> CleanEdit(e)
  {
    match e
    case Keep(text) =>
      assert PrintEdit(e)[0] == ' ';
    case NoNewline =>
      assert PrintEdit(e)[0] == '\\';
    case Delete(text) =>
      DeleteReadsBackIffClean(text);
    case Insert(text) =>
      InsertReadsBackIffClean(text);
  }

  /** A line starting with `-`: a deletion unless two more dashes follow, which make it a header or context. */
  lemma ReadMinus(line: string, changed: set<int>, at: Starts)
    requires line != "" && line[0] == '-'
    ensures NewFile(line).None? && HunkStarts(line).None? && (OldFile(line).Some? ==> "---" <= line)
    ensures Record(changed, line, at) ==
            if "---" <= line then (changed, Starts(at.oldLine + 1, at.newLine + 1))
            else (changed + {Max(1, at.newLine)}, Starts(at.oldLine + 1, at.newLine))
  {
  }

  lemma ReadPlus(line: string, changed: set<int>, at: Starts)
    requires line != "" && line[0] == '+'
    ensures OldFile(line).None? && HunkStarts(line).None? && (NewFile(line).Some? ==> "+++" <= line)
    ensures Record(changed, line, at) ==
            if "+++" <= line then (changed, Starts(at.oldLine + 1, at.newLine + 1))
            else (changed + {Max(1, at.newLine)}, Starts(at.oldLine, at.newLine + 1))
  {
  }

  lemma DeleteReadsBackIffClean(text: string)
    ensures ReadsBack(Delete(text)) <==> !("--" <= text)
  {
    var e, line := Delete(text), "-" + text;
    PrefixBehind('-', "--", text);
    assert "---" == "-" + "--" && line == PrintEdit(e);
    ReadMinus(line, {}, Starts(1, 1));
    if "--" <= text {
      assert Record({}, line, Starts(1, 1)).1.newLine != EditEffect(e, {}, Starts(1, 1)).1.newLine;
    } else {
      forall changed, at ensures Record(changed, line, at) == EditEffect(e, changed, at) {
        ReadMinus(line, changed, at);
      }
    }
  }

  lemma InsertReadsBackIffClean(text: string)
    ensures ReadsBack(Insert(text)) <==> !("++" <= text)
  {
    var e, line := Insert(text), "+" + text;
    PrefixBehind('+', "++", text);
    assert "+++" == "+" + "++" && line == PrintEdit(e);
    ReadPlus(line, {}, Starts(1, 1));
    if "++" <= text {
      assert Record({}, line, Starts(1, 1)).1.oldLine != EditEffect(e, {}, Starts(1, 1)).1.oldLine;
    } else {
      forall changed, at ensures Record(changed, line, at) == EditEffect(e, changed, at) {
        ReadPlus(line, changed, at);
      }
    }
  }

  lemma PrefixBehind(c: char, p: string, s: string)
    ensures [c] + p <= [c] + s <==> p <= s
  {
    if p <= s {
      assert ([c] + s)[..1 + |p|] == [c] + p;
    } else if [c] + p <= [c] + s {
      assert forall i :: 0 <= i < |p| ==> s[i] == ([c] + s)[i + 1] == ([c] + p)[i + 1] == p[i];
    }
  }

  /** What an edit means for the two counters and the changed set. */
  function EditEffect(e: Edit, changed: set<int>, at: Starts): (set<int>, Starts) {
    match e
    case Keep(_) => (changed, Starts(at.oldLine + 1, at.newLine + 1))
    case Delete(_) => (changed + {Max(1, at.newLine)}, Starts(at.oldLine + 1, at.newLine))
    case Insert(_) => (changed + {Max(1, at.newLine)}, Starts(at.oldLine, at.newLine + 1))
    case NoNewline => (changed, at)
  }

  predicate Reading(p: Parser, path: Option<string>) {
    p.currentFile == path && (path.Some? ==> path.value in p.changed)
  }

  /** The parser with more lines recorded for the file it reads. */
  function Recorded(p: Parser, lines: set<int>): map<string, set<int>> {
    if p.currentFile.Some? && p.currentFile.value in p.changed
    then p.changed[p.currentFile.value := p.changed[p.currentFile.value] + lines]
    else p.changed
  }

  /** The changed lines among the first `k` edits. */
  function LinesUpTo(h: Hunk, k: nat): set<int>
    requires k <= |h.edits|
  {
    set i | 0 <= i < k && IsChange(h.edits[i]) :: Max(1, h.newStart + NewLinesBefore(h.edits, i))
  }

  lemma {:induction false} PrintEditsConcat(a: seq<Edit>, b: seq<Edit>)
    ensures PrintEdits(a + b) == PrintEdits(a) + PrintEdits(b)
  {
    if a == [] {
      assert a + b == b;
    } else {
      assert (a + b)[1..] == a[1..] + b;
      PrintEditsConcat(a[1..], b);
    }
  }

  /** One edit, read inside a hunk. */
  lemma EditStep(p: Parser, e: Edit)
    requires CleanEdit(e) && Reading(p, p.currentFile)
    requires p.currentFile.Some? ==> p.at.Some?
    ensures var r := Step(p, PrintEdit(e));
            if p.currentFile.None? then r == p else
              var path := p.currentFile.value;
              var (lines, at) := EditEffect(e, p.changed[path], p.at.value);
              r == p.(changed := p.changed[path := lines], at := Some(at))
  {
    EditReadsBackIffClean(e);
    if p.currentFile.Some? {
      assert Record(p.changed[p.currentFile.value], PrintEdit(e), p.at.value)
             == EditEffect(e, p.changed[p.currentFile.value], p.at.value);
    }
  }

  lemma LinesUpToNext(h: Hunk, k: nat)
    requires k < |h.edits|
    ensures LinesUpTo(h, k + 1) == LinesUpTo(h, k) +
            if IsChange(h.edits[k]) then {Max(1, h.newStart + NewLinesBefore(h.edits, k))} else {}
  {
  }

  lemma ParseNextEdit(p: Parser, edits: seq<Edit>, k: nat)
    requires k < |edits|
    ensures Parse(p, PrintEdits(edits[..k + 1])) == Step(Parse(p, PrintEdits(edits[..k])), PrintEdit(edits[k]))
  {
    var e := edits[k];
    assert edits[..k + 1] == edits[..k] + [e];
    PrintEditsConcat(edits[..k], [e]);
    assert [e][1..] == [] && PrintEdits([e]) == [PrintEdit(e)];
    ParseConcat(p, PrintEdits(edits[..k]), [PrintEdit(e)]);
    ParseOne(Parse(p, PrintEdits(edits[..k])), PrintEdit(e));
  }

  /** `r` is `p` after the first `k` edits of a hunk. */
  predicate ReadUpTo(p: Parser, h: Hunk, k: nat, r: Parser)
    requires k <= |h.edits|
  {
    && r.changed == Recorded(p, LinesUpTo(h, k))
    && Reading(r, p.currentFile) && r.oldFile == p.oldFile
    && (p.currentFile.Some? ==> r.at.Some? && r.at.value.newLine == h.newStart + NewLinesBefore(h.edits, k))
  }

  lemma ReadOneMore(p: Parser, h: Hunk, k: nat, r: Parser)
    requires k < |h.edits| && CleanEdit(h.edits[k])
    requires Reading(p, p.currentFile) && ReadUpTo(p, h, k, r)
    ensures ReadUpTo(p, h, k + 1, Step(r, PrintEdit(h.edits[k])))
  {
    StepRecords(r, h.edits[k]);
    ChangedOneMore(p, h, k, r);
  }

  lemma ChangedOneMore(p: Parser, h: Hunk, k: nat, r: Parser)
    requires k < |h.edits| && CleanEdit(h.edits[k])
    requires Reading(p, p.currentFile) && ReadUpTo(p, h, k, r)
    ensures Step(r, PrintEdit(h.edits[k])).changed == Recorded(p, LinesUpTo(h, k + 1))
  {
    var e := h.edits[k];
    var more := if IsChange(e) then {Max(1, h.newStart + NewLinesBefore(h.edits, k))} else {};
    LinesUpToNext(h, k);
    RecordedMore(p, LinesUpTo(h, k), more, r);
    StepRecords(r, e);
    SameRecorded(r, more, if IsChange(e) && r.at.Some? then {Max(1, r.at.value.newLine)} else {});
  }

  lemma SameRecorded(r: Parser, a: set<int>, b: set<int>)
    requires r.currentFile.Some? ==> a == b
    ensures Recorded(r, a) == Recorded(r, b)
  {
  }

  /** What one edit records and how far it moves the new-side counter. */
  lemma StepRecords(r: Parser, e: Edit)
    requires CleanEdit(e) && Reading(r, r.currentFile) && (r.currentFile.Some? ==> r.at.Some?)
    ensures var r' := Step(r, PrintEdit(e));
            && Reading(r', r.currentFile) && r'.oldFile == r.oldFile
            && r'.changed == Recorded(r, if IsChange(e) && r.at.Some? then {Max(1, r.at.value.newLine)} else {})
            && (r.currentFile.Some? ==>
                  r'.at.Some? &&
                  r'.at.value.newLine == r.at.value.newLine + if e.Keep? || e.Insert? then 1 else 0)
  {
    EditStep(r, e);
    RecordedNone(r);
  }

  lemma RecordedNone(p: Parser)
    ensures Recorded(p, {}) == p.changed
  {
    if p.currentFile.Some? && p.currentFile.value in p.changed {
      assert p.changed[p.currentFile.value] + {} == p.changed[p.currentFile.value];
    }
  }

  lemma RecordedMore(p: Parser, a: set<int>, b: set<int>, r: Parser)
    requires Reading(p, p.currentFile) && r.currentFile == p.currentFile && r.changed == Recorded(p, a)
    ensures Recorded(r, b) == Recorded(p, a + b)
  {
    if p.currentFile.Some? {
      var path := p.currentFile.value;
      assert p.changed[path] + a + b == p.changed[path] + (a + b);
    }
  }

  /** Reading the first `k` edits of a hunk from just behind its header. */
  lemma {:induction false} EditsReadBack(p: Parser, h: Hunk, k: nat)
    requires k <= |h.edits| && (forall e :: e in h.edits ==> CleanEdit(e))
    requires Reading(p, p.currentFile) && (p.currentFile.Some? ==> p.at.Some? && p.at.value.newLine == h.newStart)
    ensures ReadUpTo(p, h, k, Parse(p, PrintEdits(h.edits[..k])))
  {
    if k == 0 {
      NothingRead(p, h);
    } else {
      EditsReadBack(p, h, k - 1);
      ParseNextEdit(p, h.edits, k - 1);
      ReadOneMore(p, h, k - 1, Parse(p, PrintEdits(h.edits[..k - 1])));
    }
  }

  lemma NothingRead(p: Parser, h: Hunk)
    requires Reading(p, p.currentFile) && (p.currentFile.Some? ==> p.at.Some? && p.at.value.newLine == h.newStart)
    ensures PrintEdits(h.edits[..0]) == [] && ReadUpTo(p, h, 0, p)
  {
    assert h.edits[..0] == [];
    assert LinesUpTo(h, 0) == {};
    RecordedNone(p);
  }

  lemma StepHeader(p: Parser, h: Hunk)
    requires Reading(p, p.currentFile)
    ensures Step(p, PrintHeader(h)) ==
            if p.currentFile.Some? then p.(at := Some(Starts(h.oldStart, h.newStart))) else p
  {
    HeaderReadsBack(h);
  }

  lemma HunkReadsBack(p: Parser, h: Hunk)
    requires (forall e :: e in h.edits ==> CleanEdit(e)) && Reading(p, p.currentFile)
    ensures var r := Parse(p, [PrintHeader(h)] + PrintEdits(h.edits));
            r.changed == Recorded(p, HunkLines(h)) && Reading(r, p.currentFile) && r.oldFile == p.oldFile
  {
    var atHeader := Step(p, PrintHeader(h));
    StepHeader(p, h);
    ParseOne(p, PrintHeader(h));
    ParseConcat(p, [PrintHeader(h)], PrintEdits(h.edits));
    EditsReadBack(atHeader, h, |h.edits|);
    assert h.edits[..|h.edits|] == h.edits;
    LinesUpToAll(h);
  }

  lemma LinesUpToAll(h: Hunk)
    ensures LinesUpTo(h, |h.edits|) == HunkLines(h)
  {
  }

  lemma {:induction false} HunksReadBack(p: Parser, hunks: seq<Hunk>)
    requires CleanHunks(hunks) && Reading(p, p.currentFile)
    ensures var r := Parse(p, PrintHunks(hunks));
            r.changed == Recorded(p, FileLines(hunks)) && Reading(r, p.currentFile) && r.oldFile == p.oldFile
    decreases |hunks|
  {
    if hunks == [] {
      RecordedNone(p);
    } else {
      var h := hunks[0];
      assert h in hunks;
      var lines := [PrintHeader(h)] + PrintEdits(h.edits);
      HunkReadsBack(p, h);
      ParseConcat(p, lines, PrintHunks(hunks[1..]));
      HunksReadBack(Parse(p, lines), hunks[1..]);
      RecordedMore(p, HunkLines(h), FileLines(hunks[1..]), Parse(p, lines));
    }
  }

  lemma {:induction false} PreambleReadsBack(p: Parser, lines: seq<string>)
    requires (forall line :: line in lines ==> Neutral(line)) && Reading(p, p.currentFile)
    ensures var r := Parse(p, lines); r.changed == p.changed && Reading(r, p.currentFile) && r.oldFile == p.oldFile
    decreases |lines|
  {
    if lines != [] {
      var line := lines[0];
      assert line in lines;
      NoHeader(line);
      assert Step(p, line).changed == p.changed;
      PreambleReadsBack(Step(p, line), lines[1..]);
    }
  }

  lemma PathReadsBack(marker: string, directory: string, path: Option<string>)
    requires CleanPath(path)
    requires |marker| == 4 && |directory| == 2 && directory[1] == '/' && directory[0] != '/'
    ensures var line := PrintPath(marker, directory, path);
            HeaderPath(line, marker, directory).Some?
            && NormalizePath(HeaderPath(line, marker, directory).value) == path
  {
    var line := PrintPath(marker, directory, path);
    match path {
      case None =>
        assert line[|marker|..] == "/dev/null";
        assert Strip("/dev/null") == "/dev/null";
      case Some(name) =>
        assert line[|marker|..] == directory + name;
        assert (directory + name)[|directory|..] == name;
    }
  }

  lemma FileReadsBack(p: Parser, f: FilePatch)
    requires CleanFile(f) && Reading(p, p.currentFile)
    ensures var r := Parse(p, PrintFile(f));
            && Reading(r, Target(f))
            && r.changed == match Target(f)
                            case None => p.changed
                            case Some(path) =>
                              SetDefault(p.changed, path)[path := SetDefault(p.changed, path)[path] + FileLines(f.hunks)]
  {
    var oldHeader, newHeader := PrintPath("--- ", "a/", f.oldPath), PrintPath("+++ ", "b/", f.newPath);
    PreambleReadsBack(p, f.preamble);
    var p1 := Parse(p, f.preamble);
    PathReadsBack("--- ", "a/", f.oldPath);
    PathReadsBack("+++ ", "b/", f.newPath);
    assert newHeader[0] == '+';
    ParseOne(p1, oldHeader);
    var p2 := Step(p1, oldHeader);
    ParseOne(p2, newHeader);
    var p3 := Step(p2, newHeader);
    assert p3.currentFile == Target(f);
    ParseConcat(p, f.preamble, [oldHeader]);
    ParseConcat(p, f.preamble + [oldHeader], [newHeader]);
    assert f.preamble + [oldHeader] + [newHeader] == f.preamble + [oldHeader, newHeader];
    ParseConcat(p, f.preamble + [oldHeader, newHeader], PrintHunks(f.hunks));
    HunksReadBack(p3, f.hunks);
  }

  function LinesOf(changed: map<string, set<int>>, path: string): set<int> {
    if path in changed then changed[path] else {}
  }

  /** Reading a whole patch on top of what was read before, as far as one path is concerned. */
  lemma {:induction false} PatchReadsBack(p: Parser, files: seq<FilePatch>, path: string)
    requires (forall f :: f in files ==> CleanFile(f)) && Reading(p, p.currentFile)
    ensures var r := Parse(p, PrintPatch(files));
            && (path in r.changed <==> path in p.changed || Mentions(files, path))
            && LinesOf(r.changed, path) == LinesOf(p.changed, path) + PatchedLines(files, path)
    decreases |files|
  {
    if files != [] {
      assert files[0] in files;
      FileReadsBack(p, files[0]);
      ParseConcat(p, PrintFile(files[0]), PrintPatch(files[1..]));
      PatchReadsBack(Parse(p, PrintFile(files[0])), files[1..], path);
      MentionsFirst(files, path);
    }
  }

  lemma MentionsFirst(files: seq<FilePatch>, path: string)
    requires files != []
    ensures Mentions(files, path) <==> Target(files[0]) == Some(path) || Mentions(files[1..], path)
  {
    if Mentions(files[1..], path) {
      var i :| 0 <= i < |files[1..]| && Target(files[1..][i]) == Some(path);
      assert Target(files[i + 1]) == Some(path);
    }
    if Mentions(files, path) && Target(files[0]) != Some(path) {
      var i :| 0 <= i < |files| && Target(files[i]) == Some(path);
      assert Target(files[1..][i - 1]) == Some(path);
    }
  }

  // ----- lines of text -----

  /** The characters Python's `str.splitlines` breaks at. */
  predicate IsBreak(c: char) {
    var n := c as int;
    10 <= n <= 13 || 28 <= n <= 30 || n == 0x85 || n == 0x2028 || n == 0x2029
  }

  /** The length of the first line, its break excluded. */
  function LineLength(s: string): (n: nat)
    ensures n <= |s|
    ensures n < |s| ==> IsBreak(s[n])
  {
    if s == "" || IsBreak(s[0]) then 0 else 1 + LineLength(s[1..])
  }

  function SplitLines(s: string): seq<string>
    decreases |s|
  {
    if s == "" then [] else
      var n := LineLength(s);
      var next := if n == |s| then n else if s[n] == '\r' && n + 1 < |s| && s[n + 1] == '\n' then n + 2 else n + 1;
      [s[..n]] + SplitLines(s[next..])
  }

  /** How the lines of a text end. */
  predicate IsEol(eol: string) {
    eol == "\n" || eol == "\r\n"
  }

  function JoinLines(lines: seq<string>, eol: string): string {
    if lines == [] then "" else lines[0] + eol + JoinLines(lines[1..], eol)
  }

  lemma {:induction false} LineLengthOf(line: string, eol: string, rest: string)
    requires (forall c :: c in line ==> !IsBreak(c)) && IsEol(eol)
    ensures LineLength(line + eol + rest) == |line|
  {
    var s := line + eol + rest;
    if line != "" {
      assert line[0] in line;
      assert s[1..] == line[1..] + eol + rest;
      LineLengthOf(line[1..], eol, rest);
    }
  }

  lemma SplitFirst(line: string, eol: string, rest: string)
    requires (forall c :: c in line ==> !IsBreak(c)) && IsEol(eol)
    ensures SplitLines(line + eol + rest) == [line] + SplitLines(rest)
  {
    var s := line + eol + rest;
    LineLengthOf(line, eol, rest);
    assert s[..|line|] == line && s[|line| + |eol|..] == rest;
    assert s[|line|] == eol[0] && (|eol| > 1 ==> s[|line| + 1] == eol[1]);
  }

  lemma {:induction false} SplitUndoesJoin(lines: seq<string>, eol: string)
    requires (forall line, c :: line in lines && c in line ==> !IsBreak(c)) && IsEol(eol)
    ensures SplitLines(JoinLines(lines, eol)) == lines
  {
    if lines != [] {
      assert lines[0] in lines;
      SplitFirst(lines[0], eol, JoinLines(lines[1..], eol));
      SplitUndoesJoin(lines[1..], eol);
      assert lines == [lines[0]] + lines[1..];
    }
  }

  /** Parsing undoes printing: for every clean patch the parser returns, for exactly the files with a
      change, the one canonical list of ranges of the changed lines, whichever way its lines end. */
  method ParsePrinted(files: seq<FilePatch>, eol: string) returns (result: map<string, seq<Range>>)
    requires forall f :: f in files ==> CleanFile(f)
    requires forall line, c :: line in PrintPatch(files) && c in line ==> !IsBreak(c)
    requires IsEol(eol)
    ensures forall path :: path in result <==> PatchedLines(files, path) != {}
    ensures forall path :: path in result ==> IsRangesOf(result[path], PatchedLines(files, path))
  {
    var text := JoinLines(PrintPatch(files), eol);
    SplitUndoesJoin(PrintPatch(files), eol);
    forall path
      ensures var changed := Parse(START, PrintPatch(files)).changed;
              && LinesOf(changed, path) == PatchedLines(files, path)
              && (PatchedLines(files, path) != {} ==> path in changed)
    {
      PatchReadsBack(START, files, path);
    }
    result := ChangedFiles(SplitLines(text));
  }
}
