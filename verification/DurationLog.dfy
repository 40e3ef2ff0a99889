/** The per-class duration log (codna/ci_admission.py) and the file names it is kept under. */
module DurationLog {
  import opened Admission
  import opened Collections

  const DURATION_WINDOW := 200

  datatype Line = Sample(durationS: real) | Unreadable

  /** Python's rounding: to the nearest integer, a tie to the even one. */
  function RoundHalfEven(x: real): int {
    var below := x.Floor;
    var rest := x - below as real;
    if rest < 0.5 || (rest == 0.5 && below % 2 == 0) then below else below + 1
  }

  /** Six decimals. */
  function Round6(x: real): real {
    RoundHalfEven(x * 1000000.0) as real / 1000000.0
  }

  /** What is written is off by at most half a microsecond, and a whole number of them. */
  lemma RoundingIsClose(x: real)
    ensures -0.0000005 <= Round6(x) - x <= 0.0000005
    ensures Round6(x) * 1000000.0 == RoundHalfEven(x * 1000000.0) as real
  {
    RoundsToNearest(x * 1000000.0);
    var n := RoundHalfEven(x * 1000000.0) as real;
    assert Round6(x) == n / 1000000.0;
  }

  lemma RoundsToNearest(y: real)
    ensures -0.5 <= RoundHalfEven(y) as real - y <= 0.5
  {
  }

  /** An accepted sample is read back exactly when it is longer than half a microsecond; shorter ones are
      written as zero, which reading drops. */
  lemma SampleIsReadIff(lines: seq<Line>, d: real)
    requires d > 0.0
    ensures Round6(d) > 0.0 <==> d > 0.0000005
    ensures Durations(Appended(lines, d)) ==
            Readable(LastN(lines, DURATION_WINDOW - 1)) + if d > 0.0000005 then [Round6(d)] else []
  {
    var window := LastN(lines, DURATION_WINDOW - 1);
    assert LastN(Appended(lines, d), DURATION_WINDOW) == window + [Sample(Round6(d))];
    assert (window + [Sample(Round6(d))])[..|window|] == window;
  }

  function Appended(lines: seq<Line>, durationS: real): seq<Line> {
    if durationS <= 0.0 then lines else lines + [Sample(Round6(durationS))]
  }

  /** Append, and trim once the file has grown to twice the window. */
  function Recorded(lines: seq<Line>, durationS: real): seq<Line> {
    var grown := Appended(lines, durationS);
    if durationS > 0.0 && |grown| > DURATION_WINDOW * 2 then LastN(grown, DURATION_WINDOW) else grown
  }

  function Readable(lines: seq<Line>): seq<real> {
    if lines == [] then [] else
      var line := lines[|lines| - 1];
      Readable(lines[..|lines| - 1]) + if line.Sample? && line.durationS > 0.0 then [line.durationS] else []
  }

  function Durations(lines: seq<Line>): seq<real> {
    Readable(LastN(lines, DURATION_WINDOW))
  }

  class LogFile {
    var lines: seq<Line>

    method RecordDuration(durationS: real)
      modifies this
      ensures lines == Recorded(old(lines), durationS)
    {
      if durationS <= 0.0 {
        return;
      }
      lines := lines + [Sample(Round6(durationS))];
      if |lines| > DURATION_WINDOW * 2 {
        lines := lines[|lines| - DURATION_WINDOW..];
      }
    }

    method ReadDurations() returns (out: seq<real>)
      ensures out == Durations(lines)
    {
      var tail := if |lines| <= DURATION_WINDOW then lines else lines[|lines| - DURATION_WINDOW..];
      out := [];
      for i := 0 to |tail|
        invariant out == Readable(tail[..i])
      {
        assert tail[..i + 1][..i] == tail[..i];
        if tail[i].Sample? && tail[i].durationS > 0.0 {
          out := out + [tail[i].durationS];
        }
      }
      assert tail[..|tail|] == tail;
    }
  }

  function RecordAll(lines: seq<Line>, ds: seq<real>): seq<Line> {
    if ds == [] then lines else Recorded(RecordAll(lines, ds[..|ds| - 1]), ds[|ds| - 1])
  }

  /** The log nobody ever trims. */
  function FullLog(lines: seq<Line>, ds: seq<real>): seq<Line> {
    if ds == [] then lines else Appended(FullLog(lines, ds[..|ds| - 1]), ds[|ds| - 1])
  }

  predicate IsSuffix(t: seq<Line>, f: seq<Line>) {
    |t| <= |f| && t == f[|f| - |t|..]
  }

  lemma SuffixOfSuffix(a: seq<Line>, b: seq<Line>, c: seq<Line>)
    requires IsSuffix(b, a) && IsSuffix(c, b)
    ensures IsSuffix(c, a)
  {
  }

  lemma SuffixGrows(t: seq<Line>, f: seq<Line>, d: real)
    requires IsSuffix(t, f) && (t == f || |t| >= DURATION_WINDOW)
    ensures var t', f' := Recorded(t, d), Appended(f, d);
            IsSuffix(t', f') && (t' == f' || |t'| >= DURATION_WINDOW)
  {
    SuffixOfAppend(f, t, [Sample(Round6(d))]);
    SuffixOfSuffix(Appended(f, d), Appended(t, d), Recorded(t, d));
  }

  lemma {:induction false} TrimmedIsSuffix(lines: seq<Line>, ds: seq<real>)
    ensures var t, f := RecordAll(lines, ds), FullLog(lines, ds);
            IsSuffix(t, f) && (t == f || |t| >= DURATION_WINDOW)
  {
    if ds != [] {
      var n := |ds| - 1;
      TrimmedIsSuffix(lines, ds[..n]);
      var t, f := RecordAll(lines, ds[..n]), FullLog(lines, ds[..n]);
      SuffixGrows(t, f, ds[n]);
    }
  }

  /** Trimming is invisible: whatever was in the file and whatever is recorded, reading gives what the
      never-trimmed log would give. */
  lemma TrimmingIsInvisible(lines: seq<Line>, ds: seq<real>)
    ensures Durations(RecordAll(lines, ds)) == Durations(FullLog(lines, ds))
  {
    TrimmedIsSuffix(lines, ds);
    SameTail(RecordAll(lines, ds), FullLog(lines, ds));
  }

  lemma SameTail(t: seq<Line>, f: seq<Line>)
    requires IsSuffix(t, f) && (t == f || |t| >= DURATION_WINDOW)
    ensures Durations(t) == Durations(f)
  {
    assert LastN(t, DURATION_WINDOW) == LastN(f, DURATION_WINDOW);
  }

  /** So a log holds the last 200 samples, oldest first, each as it was rounded. */
  lemma DurationsAreLatest(ds: seq<real>)
    requires forall i :: 0 <= i < |ds| ==> ds[i] > 0.0000005
    ensures var read, n := Durations(RecordAll([], ds)), Min(|ds|, 200);
            |read| == n && forall i :: 0 <= i < n ==> read[i] == Round6(ds[|ds| - n + i])
  {
    TrimmingIsInvisible([], ds);
    FullLogIs(ds);
    AllReadable(LastN(FullLog([], ds), DURATION_WINDOW));
  }

  lemma {:induction false} FullLogIs(ds: seq<real>)
    requires forall i :: 0 <= i < |ds| ==> ds[i] > 0.0000005
    ensures |FullLog([], ds)| == |ds|
    ensures forall i :: 0 <= i < |ds| ==> FullLog([], ds)[i] == Sample(Round6(ds[i])) && Round6(ds[i]) > 0.0
  {
    if ds != [] {
      FullLogIs(ds[..|ds| - 1]);
    }
  }

  lemma {:induction false} AllReadable(lines: seq<Line>)
    requires forall i :: 0 <= i < |lines| ==> lines[i].Sample? && lines[i].durationS > 0.0
    ensures |Readable(lines)| == |lines|
    ensures forall i :: 0 <= i < |lines| ==> Readable(lines)[i] == lines[i].durationS
  {
    if lines != [] {
      AllReadable(lines[..|lines| - 1]);
    }
  }

  /** And it keeps the file bounded from the first recorded sample on. */
  lemma {:induction false} LogStaysBounded(lines: seq<Line>, ds: seq<real>)
    ensures |RecordAll(lines, ds)| <= 400 || RecordAll(lines, ds) == lines
  {
    if ds != [] {
      LogStaysBounded(lines, ds[..|ds| - 1]);
    }
  }

  // ----- file names -----

  const MAX_NAME := 120

  function Tidy(raw: string, alnum: char -> bool): (t: string)
    ensures |t| == |raw|
    ensures forall i :: 0 <= i < |raw| ==> t[i] == raw[i] || (t[i] == '-' && !alnum(raw[i]) && raw[i] != '_')
  {
    if raw == "" then "" else
      [if alnum(raw[0]) || raw[0] == '-' || raw[0] == '_' then raw[0] else '-'] + Tidy(raw[1..], alnum)
  }

  function StripDashes(s: string): string {
    if s != "" && s[0] == '-' then StripDashes(s[1..])
    else if s != "" && s[|s| - 1] == '-' then StripDashes(s[..|s| - 1])
    else s
  }

  function OrJob(s: string): string {
    if s == "" then "job" else s
  }

  /** The raw name made safe and stripped, before it is cut. */
  function Stripped(raw: string, alnum: char -> bool): string {
    StripDashes(Tidy(OrJob(raw), alnum))
  }

  function SafeName(raw: string, alnum: char -> bool): string {
    var stripped := Stripped(raw, alnum);
    OrJob(if |stripped| > MAX_NAME then stripped[..MAX_NAME] else stripped)
  }

  predicate Safe(s: string, alnum: char -> bool) {
    forall c :: c in s ==> alnum(c) || c == '-' || c == '_'
  }

  lemma {:induction false} TidyIsSafe(raw: string, alnum: char -> bool)
    ensures Safe(Tidy(raw, alnum), alnum)
    ensures Safe(raw, alnum) ==> Tidy(raw, alnum) == raw
  {
    if raw != "" {
      TidyIsSafe(raw[1..], alnum);
      assert raw == [raw[0]] + raw[1..];
      assert raw[0] in raw;
    }
  }

  lemma {:induction false} StripDashesShape(s: string, alnum: char -> bool)
    requires Safe(s, alnum)
    ensures var r := StripDashes(s);
            Safe(r, alnum) && (r != "" ==> r[0] != '-' && r[|r| - 1] != '-')
    ensures s != "" && s[0] != '-' && s[|s| - 1] != '-' ==> StripDashes(s) == s
    ensures s != "" && s[0] != '-' ==> StripDashes(s) != ""
    decreases |s|
  {
    if s != "" && s[0] == '-' {
      StripDashesShape(s[1..], alnum);
    } else if s != "" && s[|s| - 1] == '-' {
      StripDashesShape(s[..|s| - 1], alnum);
    }
  }

  /** A file name is never empty, never too long and holds nothing that could leave its directory. */
  lemma SafeNameIsSafe(raw: string, alnum: char -> bool)
    requires alnum('j') && alnum('o') && alnum('b')
    ensures var name := SafeName(raw, alnum);
            Safe(name, alnum) && 0 < |name| <= 120 && name[0] != '-'
  {
    TidyIsSafe(OrJob(raw), alnum);
    StripDashesShape(Tidy(OrJob(raw), alnum), alnum);
  }

  /** Naming a name again changes it exactly when the stripped name is too long and a dash stands where it
      is cut: then the history kept under it is looked up somewhere else. */
  lemma SafeNameIdempotentIffNoDashAtCut(raw: string, alnum: char -> bool)
    requires alnum('j') && alnum('o') && alnum('b')
    ensures var s := Stripped(raw, alnum);
            SafeName(SafeName(raw, alnum), alnum) == SafeName(raw, alnum) <==> |s| <= 120 || s[119] != '-'
  {
    var s := Stripped(raw, alnum);
    var name := SafeName(raw, alnum);
    SafeNameIsSafe(raw, alnum);
    TidyIsSafe(OrJob(raw), alnum);
    StripDashesShape(Tidy(OrJob(raw), alnum), alnum);
    NamedAgain(name, alnum);
    assert name[|name| - 1] == '-' <==> |s| > MAX_NAME && s[MAX_NAME - 1] == '-';
  }

  /** A safe name not starting with a dash keeps exactly when it does not end with one. */
  lemma NamedAgain(name: string, alnum: char -> bool)
    requires Safe(name, alnum) && 0 < |name| <= MAX_NAME && name[0] != '-'
    ensures SafeName(name, alnum) == name <==> name[|name| - 1] != '-'
  {
    TidyIsSafe(name, alnum);
    StripDashesShape(name, alnum);
    ShorterOrSame(name);
  }

  /** Such a name: letters up to the last place but one, a dash there, and one letter more. */
  lemma DashAtCutIsRenamed(letters: string, last: char, alnum: char -> bool)
    requires |letters| == 119 && alnum(last) && last != '-'
    requires forall c :: c in letters ==> alnum(c) && c != '-'
    requires alnum('j') && alnum('o') && alnum('b')
    ensures var raw := letters + "-" + [last];
            && SafeName(raw, alnum) == letters + "-"
            && SafeName(SafeName(raw, alnum), alnum) != SafeName(raw, alnum)
  {
    var raw := letters + "-" + [last];
    assert Safe(raw, alnum);
    TidyIsSafe(raw, alnum);
    assert raw[0] == letters[0] && letters[0] in letters;
    assert raw[|raw| - 1] == last && raw[MAX_NAME - 1] == '-';
    StripDashesShape(raw, alnum);
    assert raw[..MAX_NAME] == letters + "-";
    SafeNameIdempotentIffNoDashAtCut(raw, alnum);
  }

  lemma {:induction false} ShorterOrSame(s: string)
    ensures |StripDashes(s)| <= |s|
    decreases |s|
  {
    if s != "" && s[0] == '-' {
      ShorterOrSame(s[1..]);
    } else if s != "" && s[|s| - 1] == '-' {
      ShorterOrSame(s[..|s| - 1]);
    }
  }
}
