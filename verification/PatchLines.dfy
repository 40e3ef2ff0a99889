/** The line map of a unified diff (codna/local_repository_shims.py): a parser over lines, and the
    compaction of changed lines into ranges. Module PatchPrinting holds the printer it inverts. */
module PatchLines {
  import opened Collections
  import opened Wrappers

  // ----- recognising lines -----

  predicate IsDigit(c: char) {
    '0' <= c <= '9'
  }

  function DigitCount(s: string): (n: nat)
    ensures n <= |s|
  {
    if s == "" || !IsDigit(s[0]) then 0 else 1 + DigitCount(s[1..])
  }

  function DigitsValue(s: string): nat {
    if s == "" then 0 else
      var d := s[|s| - 1] as int - '0' as int;
      DigitsValue(s[..|s| - 1]) * 10 + if d >= 0 then d else 0
  }

  /** Skips an optional `,count`. */
  function SkipCount(s: string): string {
    if "," <= s && DigitCount(s[1..]) > 0 then s[1 + DigitCount(s[1..])..] else s
  }

  /** The path of a file header line: `marker`, an optional one-letter directory, then at least one character. */
  function HeaderPath(line: string, marker: string, directory: string): Option<string> {
    if !(marker <= line) || line == marker then None else
      var rest := line[|marker|..];
      if directory <= rest && rest != directory then Some(rest[|directory|..]) else Some(rest)
  }

  function OldFile(line: string): Option<string> {
    HeaderPath(line, "--- ", "a/")
  }

  function NewFile(line: string): Option<string> {
    HeaderPath(line, "+++ ", "b/")
  }

  datatype Starts = Starts(oldLine: nat, newLine: nat)

  function HunkStarts(line: string): Option<Starts> {
    if !("@@ -" <= line) then None else
      var a := line[4..];
      var n := DigitCount(a);
      var b := SkipCount(a[n..]);
      if n == 0 || !(" +" <= b) then None else
        var c := b[2..];
        var m := DigitCount(c);
        if m == 0 || !(" @@" <= SkipCount(c[m..])) then None
        else Some(Starts(DigitsValue(a[..n]), DigitsValue(c[..m])))
  }

  /** The characters Python's `str.strip` removes. */
  predicate IsSpace(c: char) {
    var n := c as int;
    || 9 <= n <= 13 || 28 <= n <= 32 || n == 0x85 || n == 0xA0 || n == 0x1680 || 0x2000 <= n <= 0x200A
    || n == 0x2028 || n == 0x2029 || n == 0x202F || n == 0x205F || n == 0x3000
  }

  function Strip(s: string): string {
    if s != "" && IsSpace(s[0]) then Strip(s[1..])
    else if s != "" && IsSpace(s[|s| - 1]) then Strip(s[..|s| - 1])
    else s
  }

  /** Stripping undoes padding: it takes away exactly the white space around a text. */
  lemma {:induction false} StripUndoesPadding(left: string, core: string, right: string)
    requires (forall c :: c in left ==> IsSpace(c)) && (forall c :: c in right ==> IsSpace(c))
    requires core != "" ==> !IsSpace(core[0]) && !IsSpace(core[|core| - 1])
    ensures Strip(left + core + right) == core
    decreases |left| + |right|
  {
    var s := left + core + right;
    if left != "" {
      assert left[0] in left;
      assert s[1..] == left[1..] + core + right;
      StripUndoesPadding(left[1..], core, right);
    } else if right != "" {
      var n := |right| - 1;
      assert right[n] in right;
      if core == "" {
        assert s == right && right[0] in right;
        assert s[1..] == "" + core + right[1..];
        StripUndoesPadding("", core, right[1..]);
      } else {
        assert s[0] == core[0] && s[..|s| - 1] == left + core + right[..n];
        StripUndoesPadding(left, core, right[..n]);
      }
    } else {
      assert s == core;
    }
  }

  function NormalizePath(path: string): Option<string> {
    if Strip(path) == "/dev/null" then None else Some(Strip(path))
  }

  /** Whatever white space a header leaves around a path, the path is read off without it, and the null
      device is no path. */
  lemma PathIsReadOffItsPadding(left: string, path: string, right: string)
    requires (forall c :: c in left ==> IsSpace(c)) && (forall c :: c in right ==> IsSpace(c))
    requires path != "" ==> !IsSpace(path[0]) && !IsSpace(path[|path| - 1])
    ensures NormalizePath(left + path + right) == if path == "/dev/null" then None else Some(path)
  {
    StripUndoesPadding(left, path, right);
  }

  // ----- the parser -----

  datatype Parser = Parser(changed: map<string, set<int>>, currentFile: Option<string>, oldFile: Option<string>,
                           at: Option<Starts>)

  const START := Parser(map[], None, None, None)

  function SetDefault(changed: map<string, set<int>>, path: string): map<string, set<int>> {
    if path in changed then changed else changed[path := {}]
  }

  /** What one body line of a hunk records, and how it moves the two line counters. */
  function Record(changed: set<int>, line: string, at: Starts): (set<int>, Starts) {
    if "\\" <= line then (changed, at)
    else if "+" <= line && !("+++" <= line) then (changed + {Max(1, at.newLine)}, Starts(at.oldLine, at.newLine + 1))
    else if "-" <= line && !("---" <= line) then (changed + {Max(1, at.newLine)}, Starts(at.oldLine + 1, at.newLine))
    else (changed, Starts(at.oldLine + 1, at.newLine + 1))
  }

  function Step(p: Parser, line: string): Parser {
    var oldName, newName, hunk := OldFile(line), NewFile(line), HunkStarts(line);
    if oldName.Some? then p.(oldFile := NormalizePath(oldName.value))
    else if newName.Some? then
      var path := NormalizePath(newName.value);
      var current := if path.None? then p.oldFile else path;
      Parser(if current.Some? then SetDefault(p.changed, current.value) else p.changed, current, p.oldFile, None)
    else if hunk.Some? && p.currentFile.Some? then p.(at := hunk)
    else if p.currentFile.None? || p.at.None? || p.currentFile.value !in p.changed then p
    else
      var (lines, at) := Record(p.changed[p.currentFile.value], line, p.at.value);
      p.(changed := p.changed[p.currentFile.value := lines], at := Some(at))
  }

  function Parse(p: Parser, lines: seq<string>): Parser
    decreases |lines|
  {
    if lines == [] then p else Parse(Step(p, lines[0]), lines[1..])
  }

  lemma {:induction false} ParseConcat(p: Parser, a: seq<string>, b: seq<string>)
    ensures Parse(p, a + b) == Parse(Parse(p, a), b)
    decreases |a|
  {
    if a == [] {
      assert a + b == b;
    } else {
      assert (a + b)[1..] == a[1..] + b;
      ParseConcat(Step(p, a[0]), a[1..], b);
    }
  }

  lemma ParseOne(p: Parser, line: string)
    ensures Parse(p, [line]) == Step(p, line)
  {
    assert [line][1..] == [];
  }

  /** The file being read always has an entry, so the guard in `Step` never skips a line. */
  lemma {:induction false} CurrentFileIsKnown(p: Parser, lines: seq<string>)
    requires p.currentFile.Some? ==> p.currentFile.value in p.changed
    ensures var r := Parse(p, lines); r.currentFile.Some? ==> r.currentFile.value in r.changed
    decreases |lines|
  {
    if lines != [] {
      CurrentFileIsKnown(Step(p, lines[0]), lines[1..]);
    }
  }

  predicate NoHeaderLine(line: string) {
    OldFile(line).None? && NewFile(line).None? && HunkStarts(line).None?
  }

  lemma {:induction false} NothingOutsideHunks(p: Parser, lines: seq<string>)
    requires p.at.None? && forall line :: line in lines ==> NoHeaderLine(line)
    ensures Parse(p, lines) == p
    decreases |lines|
  {
    if lines != [] {
      assert lines[0] in lines;
      NothingOutsideHunks(p, lines[1..]);
    }
  }

  /** A new file header closes the hunk before it: until the next hunk header no line of text counts for the
      new file or for the old one. */
  lemma HeaderClosesHunk(p: Parser, header: string, lines: seq<string>)
    requires OldFile(header).None? && NewFile(header).Some?
    requires forall line :: line in lines ==> NoHeaderLine(line)
    ensures Parse(p, [header] + lines) == Parse(p, [header])
  {
    ParseConcat(p, [header], lines);
    ParseOne(p, header);
    NothingOutsideHunks(Step(p, header), lines);
  }

  // ----- ranges -----

  datatype Range = Range(first: int, last: int)

  predicate Covers(ranges: seq<Range>, x: int) {
    exists r :: r in ranges && r.first <= x <= r.last
  }

  /** Sorted, non-empty ranges with a gap between neighbours. */
  predicate Canonical(ranges: seq<Range>) {
    && (forall i :: 0 <= i < |ranges| ==> ranges[i].first <= ranges[i].last)
    && (forall i :: 0 < i < |ranges| ==> ranges[i - 1].last + 1 < ranges[i].first)
  }

  lemma CoversAppend(ranges: seq<Range>, r: Range, x: int)
    ensures Covers(ranges + [r], x) <==> Covers(ranges, x) || r.first <= x <= r.last
  {
    if Covers(ranges, x) {
      var q :| q in ranges && q.first <= x <= q.last;
      assert q in ranges + [r];
    }
    if r.first <= x <= r.last {
      assert r in ranges + [r];
    }
  }

  lemma {:induction false} CoversBelow(ranges: seq<Range>, x: int)
    requires Canonical(ranges) && ranges != []
    ensures Covers(ranges, x) ==> x <= ranges[|ranges| - 1].last
    ensures Covers(ranges, x) <==> Covers(ranges[..|ranges| - 1], x) || ranges[|ranges| - 1].first <= x <= ranges[|ranges| - 1].last
    ensures Covers(ranges[..|ranges| - 1], x) ==> x + 1 < ranges[|ranges| - 1].first
  {
    var n := |ranges| - 1;
    assert ranges == ranges[..n] + [ranges[n]];
    CoversAppend(ranges[..n], ranges[n], x);
    if n > 0 {
      CoversBelow(ranges[..n], x);
    }
  }

  ghost predicate SameCover(a: seq<Range>, b: seq<Range>) {
    forall x :: Covers(a, x) <==> Covers(b, x)
  }

  /** Two canonical lists that cover the same lines end in the same range. */
  lemma SameLastRange(a: seq<Range>, b: seq<Range>)
    requires Canonical(a) && Canonical(b) && a != [] && b != []
    requires SameCover(a, b)
    ensures a[|a| - 1] == b[|b| - 1]
  {
    var r, q := a[|a| - 1], b[|b| - 1];
    CoversBelow(a, r.last);
    CoversBelow(b, r.last);
    CoversBelow(a, q.last);
    CoversBelow(b, q.last);
    CoversBelow(a, r.first - 1);
    CoversBelow(b, r.first - 1);
    CoversBelow(a, q.first - 1);
    CoversBelow(b, q.first - 1);
  }

  lemma WithoutLast(a: seq<Range>, b: seq<Range>)
    requires Canonical(a) && Canonical(b) && a != [] && b != [] && SameCover(a, b)
    requires a[|a| - 1] == b[|b| - 1]
    ensures SameCover(a[..|a| - 1], b[..|b| - 1])
  {
    var a', b' := a[..|a| - 1], b[..|b| - 1];
    forall x ensures Covers(a', x) <==> Covers(b', x) {
      CoversBelow(a, x);
      CoversBelow(b, x);
    }
  }

  /** A set of lines has one canonical list of ranges. */
  lemma {:induction false} CanonicalIsUnique(a: seq<Range>, b: seq<Range>)
    requires Canonical(a) && Canonical(b) && SameCover(a, b)
    ensures a == b
  {
    if a == [] || b == [] {
      EmptyCover(a, b);
      EmptyCover(b, a);
    } else {
      SameLastRange(a, b);
      WithoutLast(a, b);
      CanonicalIsUnique(a[..|a| - 1], b[..|b| - 1]);
      SameWithLast(a, b);
    }
  }

  lemma SameWithLast(a: seq<Range>, b: seq<Range>)
    requires a != [] && b != []
    requires a[..|a| - 1] == b[..|b| - 1] && a[|a| - 1] == b[|b| - 1]
    ensures a == b
  {
    assert a == a[..|a| - 1] + [a[|a| - 1]] && b == b[..|b| - 1] + [b[|b| - 1]];
  }

  lemma EmptyCover(a: seq<Range>, b: seq<Range>)
    requires Canonical(b) && SameCover(a, b)
    ensures a == [] ==> b == []
  {
    if b != [] {
      CoversBelow(b, b[|b| - 1].last);
    }
  }

  lemma SomeLine(lines: set<int>)
    requires lines != {}
    ensures exists x :: x in lines
  {
    assert (forall x :: x !in lines) ==> lines == {};
  }

  method Least(lines: set<int>) returns (least: int)
    requires lines != {}
    ensures least in lines && (forall x :: x in lines ==> least <= x)
  {
    SomeLine(lines);
    least :| least in lines;
    var others := lines - {least};
    while others != {}
      invariant least in lines && others <= lines
      invariant forall x :: x in lines && x !in others ==> least <= x
      decreases others
    {
      SomeLine(others);
      var x :| x in others;
      if x < least {
        least := x;
      }
      others := others - {x};
    }
  }

  /** `sorted` on a set of line numbers. */
  method SortedLines(lines: set<int>) returns (sorted: seq<int>)
    ensures forall i, j :: 0 <= i < j < |sorted| ==> sorted[i] < sorted[j]
    ensures forall x :: x in sorted <==> x in lines
  {
    sorted := [];
    var rest := lines;
    while rest != {}
      invariant rest <= lines
      invariant forall i, j :: 0 <= i < j < |sorted| ==> sorted[i] < sorted[j]
      invariant forall x :: x in sorted <==> x in lines && x !in rest
      invariant forall i, y :: 0 <= i < |sorted| && y in rest ==> sorted[i] < y
      decreases rest
    {
      var least := Least(rest);
      sorted := sorted + [least];
      rest := rest - {least};
    }
  }

  /** One step of the compaction: the next line extends the open range or opens a new one. */
  function AddLine(ranges: seq<Range>, line: int): seq<Range>
    requires ranges != []
  {
    var r := ranges[|ranges| - 1];
    if line == r.last + 1 then ranges[..|ranges| - 1] + [Range(r.first, line)] else ranges + [Range(line, line)]
  }

  lemma AddLineCovers(ranges: seq<Range>, line: int)
    requires Canonical(ranges) && ranges != [] && line > ranges[|ranges| - 1].last
    ensures Canonical(AddLine(ranges, line))
    ensures forall x :: Covers(AddLine(ranges, line), x) <==> Covers(ranges, x) || x == line
  {
    var n := |ranges| - 1;
    forall x ensures Covers(AddLine(ranges, line), x) <==> Covers(ranges, x) || x == line {
      CoversBelow(ranges, x);
      CoversAppend(ranges[..n], Range(ranges[n].first, line), x);
      CoversAppend(ranges, Range(line, line), x);
    }
  }

  /** `_compact_changed_line_ranges`: the canonical ranges of a set of lines. */
  method CompactRanges(lines: set<int>) returns (ranges: seq<Range>)
    ensures Canonical(ranges)
    ensures forall x :: Covers(ranges, x) <==> x in lines
  {
    var sorted := SortedLines(lines);
    if sorted == [] {
      return [];
    }
    ranges := [];
    var start, previous := sorted[0], sorted[0];
    CoversAppend([], Range(start, previous), start);
    for i := 1 to |sorted|
      invariant previous == sorted[i - 1]
      invariant Canonical(ranges + [Range(start, previous)])
      invariant forall x :: Covers(ranges + [Range(start, previous)], x) <==> x in sorted[..i]
    {
      var line := sorted[i];
      ghost var open := ranges + [Range(start, previous)];
      assert sorted[..i + 1] == sorted[..i] + [line];
      AddLineCovers(open, line);
      assert open[..|ranges|] == ranges;
      if line == previous + 1 {
        previous := line;
      } else {
        ranges := ranges + [Range(start, previous)];
        start, previous := line, line;
      }
      assert ranges + [Range(start, previous)] == AddLine(open, line);
    }
    assert sorted[..|sorted|] == sorted;
    ranges := ranges + [Range(start, previous)];
  }

  /** The canonical ranges of a set of lines. */
  ghost predicate IsRangesOf(ranges: seq<Range>, lines: set<int>) {
    Canonical(ranges) && forall x :: Covers(ranges, x) <==> x in lines
  }

  // ----- the imperative code -----

  /** `precise_patch_changed_files`, from the split lines on. */
  method ChangedFiles(lines: seq<string>) returns (files: map<string, seq<Range>>)
    ensures var changed := Parse(START, lines).changed;
            && (forall path :: path in files <==> path in changed && changed[path] != {})
            && (forall path :: path in files ==> IsRangesOf(files[path], changed[path]))
  {
    var changed: map<string, set<int>> := map[];
    var currentFile: Option<string> := None;
    var oldFile: Option<string> := None;
    var at: Option<Starts> := None;
    for i := 0 to |lines|
      invariant Parser(changed, currentFile, oldFile, at) == Parse(START, lines[..i])
      invariant currentFile.Some? ==> currentFile.value in changed
    {
      var line := lines[i];
      ParseConcat(START, lines[..i], [line]);
      ParseOne(Parse(START, lines[..i]), line);
      assert lines[..i + 1] == lines[..i] + [line];
      var oldMatch := OldFile(line);
      if oldMatch.Some? {
        oldFile := NormalizePath(oldMatch.value);
        continue;
      }
      var newMatch := NewFile(line);
      if newMatch.Some? {
        var newPath := NormalizePath(newMatch.value);
        currentFile := if newPath.None? then oldFile else newPath;
        at := None;
        if currentFile.Some? {
          changed := SetDefault(changed, currentFile.value);
        }
        continue;
      }
      var hunk := HunkStarts(line);
      if hunk.Some? && currentFile.Some? {
        at := hunk;
        continue;
      }
      if currentFile.None? || at.None? {
        continue;
      }
      var (recorded, next) := Record(changed[currentFile.value], line, at.value);
      changed := changed[currentFile.value := recorded];
      at := Some(next);
    }
    assert lines[..|lines|] == lines;

    files := map[];
    var todo := changed.Keys;
    while todo != {}
      invariant todo <= changed.Keys
      invariant forall path :: path in files <==> path in changed && path !in todo && changed[path] != {}
      invariant forall path :: path in files ==> IsRangesOf(files[path], changed[path])
      decreases todo
    {
      var path: string :| path in todo;
      if changed[path] != {} {
        var ranges := CompactRanges(changed[path]);
        files := files[path := ranges];
      }
      todo := todo - {path};
    }
  }
}
