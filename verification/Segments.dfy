/** Slicing a symbol out of pre-split lines (codna/codeunits.py). */
module Segments {
  import opened Collections
  import opened Utf8
  import opened Wrappers

  /** The position fields of a syntax node: lines count from 1, columns are byte offsets. */
  datatype Node = Node(lineno: nat, colOffset: nat, endLineno: Option<nat>, endColOffset: Option<nat>)

  datatype SegmentError = NoSuchLine | UndecodableCut

  // ----- splitting -----

  /** The length of the line terminator at the front of `s`, 0 if there is none. */
  function TerminatorAt(s: string): nat {
    if s == "" then 0
    else if s[0] == '\r' then (if |s| > 1 && s[1] == '\n' then 2 else 1)
    else if s[0] == '\n' then 1
    else 0
  }

  /** Where the first line ends, its terminator included. */
  function LineEnd(s: string): (e: nat)
    ensures e <= |s|
    ensures s != "" ==> e > 0
  {
    if s == "" then 0
    else if TerminatorAt(s) > 0 then TerminatorAt(s)
    else 1 + LineEnd(s[1..])
  }

  /** Every match of the line pattern: the lines, then the empty match at the end. */
  function SplitLines(source: string): (lines: seq<string>)
    ensures |lines| > 0
  {
    if source == "" then [""] else [source[..LineEnd(source)]] + SplitLines(source[LineEnd(source)..])
  }

  function Concat(lines: seq<string>): string {
    if lines == [] then "" else lines[0] + Concat(lines[1..])
  }

  // ----- slicing -----

  /** Python's `bytes[i:j]`. */
  function Slice(bytes: seq<byte>, i: nat, j: nat): seq<byte> {
    var hi := Min(j, |bytes|);
    bytes[Min(i, hi)..hi]
  }

  function Decoded(bytes: seq<byte>): Result<string, SegmentError> {
    match Decode(bytes)
    case Some(s) => Success(s)
    case None => Failure(UndecodableCut)
  }

  /** `_segment`: the text of a node, from the lines of its file. */
  function Segment(lines: seq<string>, node: Node): Result<string, SegmentError>
    requires node.lineno > 0 && (node.endLineno.Some? ==> node.endLineno.value > 0)
  {
    if node.endLineno.None? || node.endColOffset.None? then Success("") else
      var first, last := node.lineno - 1, node.endLineno.value - 1;
      var col, endCol := node.colOffset, node.endColOffset.value;
      if first == last then
        if first < |lines| then Decoded(Slice(Encode(lines[first]), col, endCol)) else Failure(NoSuchLine)
      else SeveralLines(lines, first, col, last, endCol)
  }

  function SeveralLines(lines: seq<string>, first: nat, col: nat, last: nat, endCol: nat): Result<string, SegmentError> {
    if first >= |lines| then Failure(NoSuchLine) else
      var head := Encode(lines[first]);
      var a := Slice(head, col, |head|);
      if last >= |lines| then (if Decode(a).None? then Failure(UndecodableCut) else Failure(NoSuchLine)) else
        Across(a, Concat(if first < last then lines[first + 1..last] else []), Slice(Encode(lines[last]), 0, endCol))
  }

  /** The pieces of a node over several lines, each decoded on its own. */
  function Across(head: seq<byte>, mid: string, tail: seq<byte>): Result<string, SegmentError> {
    match Decoded(head)
    case Failure(e) => Failure(e)
    case Success(a) =>
      match Decoded(tail)
      case Failure(e) => Failure(e)
      case Success(b) => Success(a + mid + b)
  }

  // ----- the flat view -----

  /** The byte offset of a line and column in the whole source. */
  function Offset(lines: seq<string>, line: nat, col: nat): nat
    requires line <= |lines|
  {
    |Encode(Concat(lines[..line]))| + col
  }

  predicate InRange(lines: seq<string>, line: nat, col: nat) {
    line < |lines| && col <= |Encode(lines[line])|
  }

  /** Pre-splitting loses nothing. */
  lemma {:induction false} LinesConcatToSource(source: string)
    ensures Concat(SplitLines(source)) == source
  {
    if source == "" {
      assert [""][1..] == [];
    } else {
      var e := LineEnd(source);
      LinesConcatToSource(source[e..]);
      assert SplitLines(source)[1..] == SplitLines(source[e..]);
      assert source == source[..e] + source[e..];
    }
  }

  predicate HasBreak(s: string) {
    '\r' in s || '\n' in s
  }

  /** A line is a stretch without breaks followed by one terminator, or by the end of the source. */
  lemma {:induction false} LineShape(s: string) returns (k: nat)
    requires s != ""
    ensures k <= LineEnd(s) && !HasBreak(s[..k])
    ensures k + TerminatorAt(s[k..]) == LineEnd(s)
    ensures TerminatorAt(s[k..]) == 0 ==> LineEnd(s) == |s|
  {
    if TerminatorAt(s) > 0 {
      k := 0;
      assert s[0..] == s;
    } else if |s| == 1 {
      k := 1;
      assert s[1..] == "" && s[..1] == [s[0]];
    } else {
      k := LineShape(s[1..]);
      assert s[..k + 1] == [s[0]] + s[1..][..k];
      assert s[1..][k..] == s[k + 1..];
      k := k + 1;
    }
  }

  /** A line ends at its terminator, of whichever kind: a carriage return and a line feed end one line, not
      two. */
  lemma {:induction false} LineEndsAtTerminator(line: string, end: string, rest: string)
    requires !HasBreak(line)
    requires end == "\n" || end == "\r\n" || (end == "\r" && (rest == "" || rest[0] != '\n'))
    ensures SplitLines(line + end + rest) == [line + end] + SplitLines(rest)
  {
    var s := line + end + rest;
    FirstLineEnd(line, end, rest);
    assert s[..|line + end|] == line + end && s[|line + end|..] == rest;
  }

  lemma {:induction false} FirstLineEnd(line: string, end: string, rest: string)
    requires !HasBreak(line)
    requires end == "\n" || end == "\r\n" || (end == "\r" && (rest == "" || rest[0] != '\n'))
    ensures LineEnd(line + end + rest) == |line + end|
  {
    var s := line + end + rest;
    if line == "" {
      assert s == end + rest;
    } else {
      assert line[0] in line;
      assert s[1..] == line[1..] + end + rest;
      FirstLineEnd(line[1..], end, rest);
    }
  }

  lemma {:induction false} ConcatAppend(a: seq<string>, b: seq<string>)
    ensures Concat(a + b) == Concat(a) + Concat(b)
  {
    if a == [] {
      assert a + b == b;
    } else {
      assert (a + b)[1..] == a[1..] + b;
      ConcatAppend(a[1..], b);
    }
  }

  lemma EncodedParts(a: seq<string>, b: seq<string>, c: seq<string>)
    ensures Encode(Concat(a + b)) == Encode(Concat(a)) + Encode(Concat(b))
    ensures Encode(Concat(a + b + c)) == Encode(Concat(a)) + Encode(Concat(b)) + Encode(Concat(c))
  {
    ConcatAppend(a, b);
    ConcatAppend(a + b, c);
    EncodeConcat(Concat(a), Concat(b));
    EncodeConcat(Concat(a + b), Concat(c));
  }

  /** The encoded source, cut around a run of lines. */
  lemma EncodedAround(lines: seq<string>, i: nat, j: nat)
    requires i <= j <= |lines|
    ensures Encode(Concat(lines)) ==
            Encode(Concat(lines[..i])) + Encode(Concat(lines[i..j])) + Encode(Concat(lines[j..]))
    ensures Encode(Concat(lines[..j])) == Encode(Concat(lines[..i])) + Encode(Concat(lines[i..j]))
  {
    TakeParts(lines, i, j);
    EncodedParts(lines[..i], lines[i..j], lines[j..]);
  }

  lemma TakeParts(lines: seq<string>, i: nat, j: nat)
    requires i <= j <= |lines|
    ensures lines[..i] + lines[i..j] == lines[..j]
    ensures lines[..i] + lines[i..j] + lines[j..] == lines
  {
  }

  lemma ConcatOne(lines: seq<string>, i: nat)
    requires i < |lines|
    ensures Concat(lines[i..i + 1]) == lines[i]
  {
    assert lines[i..i + 1] == [lines[i]] && [lines[i]][1..] == [];
  }

  lemma PrefixOne(lines: seq<string>, i: nat)
    requires i < |lines|
    ensures Encode(Concat(lines[..i + 1])) == Encode(Concat(lines[..i])) + Encode(lines[i])
  {
    EncodedAround(lines, i, i + 1);
    ConcatOne(lines, i);
  }

  lemma WholeAround(lines: seq<string>, i: nat)
    requires i < |lines|
    ensures Encode(Concat(lines)) == Encode(Concat(lines[..i])) + Encode(lines[i]) + Encode(Concat(lines[i + 1..]))
  {
    EncodedAround(lines, i, i + 1);
    ConcatOne(lines, i);
  }

  lemma CutOne(all: seq<byte>, before: seq<byte>, a: seq<byte>, after: seq<byte>, c1: nat, c2: nat)
    requires all == before + a + after && c1 <= c2 <= |a|
    ensures |before| + c2 <= |all| && all[|before| + c1..|before| + c2] == a[c1..c2]
  {
  }

  /** A slice inside one line is the flat slice. */
  lemma SliceInLine(lines: seq<string>, line: nat, c1: nat, c2: nat)
    requires line < |lines| && c1 <= c2 <= |Encode(lines[line])|
    ensures Offset(lines, line, c2) <= |Encode(Concat(lines))|
    ensures Encode(lines[line])[c1..c2] == Encode(Concat(lines))[Offset(lines, line, c1)..Offset(lines, line, c2)]
  {
    WholeAround(lines, line);
    SliceInside(lines, line, Encode(Concat(lines)), Encode(lines[line]), Encode(Concat(lines[line + 1..])), c1, c2);
  }

  lemma SliceInside(lines: seq<string>, line: nat, all: seq<byte>, a: seq<byte>, after: seq<byte>, c1: nat, c2: nat)
    requires line < |lines| && c1 <= c2 <= |a|
    requires all == Encode(Concat(lines[..line])) + a + after
    ensures Offset(lines, line, c1) <= Offset(lines, line, c2) <= |all|
    ensures all[Offset(lines, line, c1)..Offset(lines, line, c2)] == a[c1..c2]
  {
    CutOne(all, Encode(Concat(lines[..line])), a, after, c1, c2);
  }

  lemma CutAcross(all: seq<byte>, p: seq<byte>, a: seq<byte>, p1: seq<byte>, mid: seq<byte>, p2: seq<byte>,
                  b: seq<byte>, after: seq<byte>, c1: nat, c2: nat)
    requires p1 == p + a && p2 == p1 + mid && all == p2 + b + after
    requires c1 <= |a| && c2 <= |b|
    ensures |p| + c1 <= |p2| + c2 <= |all|
    ensures all[|p| + c1..|p2| + c2] == a[c1..] + (mid + b[..c2])
  {
  }

  lemma PrefixMany(lines: seq<string>, i: nat, j: nat)
    requires i <= j <= |lines|
    ensures Encode(Concat(lines[..j])) == Encode(Concat(lines[..i])) + Encode(Concat(lines[i..j]))
  {
    EncodedAround(lines, i, j);
  }

  /** The flat slice of a node over several lines: the end of one, whole lines, the start of another. */
  lemma SliceOverLines(lines: seq<string>, first: nat, c1: nat, last: nat, c2: nat)
    requires first < last && InRange(lines, first, c1) && InRange(lines, last, c2)
    ensures Offset(lines, first, c1) <= Offset(lines, last, c2) <= |Encode(Concat(lines))|
    ensures Encode(Concat(lines))[Offset(lines, first, c1)..Offset(lines, last, c2)] ==
            Encode(lines[first])[c1..] + (Encode(Concat(lines[first + 1..last])) + Encode(lines[last])[..c2])
  {
    PrefixOne(lines, first);
    PrefixMany(lines, first + 1, last);
    WholeAround(lines, last);
    SliceAcross(lines, first, last, Encode(Concat(lines)), Encode(lines[first]), Encode(Concat(lines[..first + 1])),
                Encode(Concat(lines[first + 1..last])), Encode(lines[last]), Encode(Concat(lines[last + 1..])), c1, c2);
  }

  lemma SliceAcross(lines: seq<string>, first: nat, last: nat, all: seq<byte>, a: seq<byte>, p1: seq<byte>,
                    mid: seq<byte>, b: seq<byte>, after: seq<byte>, c1: nat, c2: nat)
    requires first < |lines| && last < |lines| && c1 <= |a| && c2 <= |b|
    requires p1 == Encode(Concat(lines[..first])) + a && Encode(Concat(lines[..last])) == p1 + mid
    requires all == Encode(Concat(lines[..last])) + b + after
    ensures Offset(lines, first, c1) <= Offset(lines, last, c2) <= |all|
    ensures all[Offset(lines, first, c1)..Offset(lines, last, c2)] == a[c1..] + (mid + b[..c2])
  {
    CutAcross(all, Encode(Concat(lines[..first])), a, p1, mid, Encode(Concat(lines[..last])), b, after, c1, c2);
  }

  lemma DecodePiecesAfter(start: string, mid: string, tail: seq<byte>)
    ensures Decoded(Encode(start) + (Encode(mid) + tail)) == Across(Encode(start), mid, tail)
  {
    DecodeEncode(start);
    DecodeEncodeThen(start, Encode(mid) + tail);
    DecodeEncodeThen(mid, tail);
    AppendTwice(start, mid, Decode(tail));
  }

  /** Decoding the end of a line, whole lines and the start of a line piece by piece, or at one go. */
  lemma DecodeInPieces(line: string, c1: nat, mid: string, tail: seq<byte>)
    requires c1 <= |Encode(line)|
    ensures Decoded(Encode(line)[c1..] + (Encode(mid) + tail)) == Across(Encode(line)[c1..], mid, tail)
  {
    var a := Encode(line)[c1..];
    var i := CutEncoded(line, c1);
    if Encode(line[i..]) == a {
      DecodePiecesAfter(line[i..], mid, tail);
    } else {
      NoDecodeAtContinuation(a, Encode(mid) + tail);
    }
  }

  lemma NoDecodeAtContinuation(a: seq<byte>, rest: seq<byte>)
    requires a != [] && IsContinuation(a[0])
    ensures Decode(a).None? && Decode(a + rest).None?
  {
    assert (a + rest)[0] == a[0];
  }

  /** Sliced extraction refines the flat slice: for every pair of positions in range, single-line or not,
      `_segment` gives what decoding the source bytes between the two flat offsets gives, and fails when
      that fails. */
  lemma SegmentIsFlatSlice(source: string, lines: seq<string>, first: nat, c1: nat, last: nat, c2: nat)
    requires lines == SplitLines(source)
    requires InRange(lines, first, c1) && InRange(lines, last, c2)
    requires first < last || (first == last && c1 <= c2)
    ensures var lo, hi := Offset(lines, first, c1), Offset(lines, last, c2);
            && lo <= hi <= |Encode(source)|
            && var r := Segment(lines, Node(first + 1, c1, Some(last + 1), Some(c2)));
               r == Decoded(Encode(source)[lo..hi]) && (r.Success? ==> Encode(r.value) == Encode(source)[lo..hi])
  {
    LinesConcatToSource(source);
    SegmentOfLines(lines, first, c1, last, c2);
    EncodeDecode(Encode(source)[Offset(lines, first, c1)..Offset(lines, last, c2)]);
  }

  /** A node without an end has no text, wherever it claims to start; with one it never fails in range other
      than by cutting a character. */
  lemma NoEndNoText(lines: seq<string>, node: Node)
    requires node.lineno > 0 && (node.endLineno.Some? ==> node.endLineno.value > 0)
    ensures node.endLineno.None? || node.endColOffset.None? ==> Segment(lines, node) == Success("")
    ensures node.lineno <= |lines| && (node.endLineno.Some? ==> node.endLineno.value <= |lines|) ==>
              Segment(lines, node).Success? || Segment(lines, node) == Failure(UndecodableCut)
  {
  }

  lemma SegmentOfLines(lines: seq<string>, first: nat, c1: nat, last: nat, c2: nat)
    requires InRange(lines, first, c1) && InRange(lines, last, c2)
    requires first < last || (first == last && c1 <= c2)
    ensures var lo, hi := Offset(lines, first, c1), Offset(lines, last, c2);
            && lo <= hi <= |Encode(Concat(lines))|
            && Segment(lines, Node(first + 1, c1, Some(last + 1), Some(c2)))
               == Decoded(Encode(Concat(lines))[lo..hi])
  {
    if first == last {
      SliceInLine(lines, first, c1, c2);
      SegmentInLine(lines, first, c1, c2);
    } else {
      SliceOverLines(lines, first, c1, last, c2);
      DecodeInPieces(lines[first], c1, Concat(lines[first + 1..last]), Encode(lines[last])[..c2]);
      SegmentAcrossLines(lines, first, c1, last, c2);
    }
  }

  lemma SegmentInLine(lines: seq<string>, line: nat, c1: nat, c2: nat)
    requires line < |lines| && c1 <= c2 <= |Encode(lines[line])|
    ensures Segment(lines, Node(line + 1, c1, Some(line + 1), Some(c2))) == Decoded(Encode(lines[line])[c1..c2])
  {
  }

  lemma SegmentAcrossLines(lines: seq<string>, first: nat, c1: nat, last: nat, c2: nat)
    requires first < last && InRange(lines, first, c1) && InRange(lines, last, c2)
    ensures Segment(lines, Node(first + 1, c1, Some(last + 1), Some(c2))) ==
            Across(Encode(lines[first])[c1..], Concat(lines[first + 1..last]), Encode(lines[last])[..c2])
  {
    SegmentUnfolds(lines, first, c1, last, c2);
    SliceToEnd(Encode(lines[first]), c1);
    SliceFromStart(Encode(lines[last]), c2);
  }

  lemma SegmentUnfolds(lines: seq<string>, first: nat, c1: nat, last: nat, c2: nat)
    requires first < last < |lines|
    ensures Segment(lines, Node(first + 1, c1, Some(last + 1), Some(c2))) ==
            Across(Slice(Encode(lines[first]), c1, |Encode(lines[first])|), Concat(lines[first + 1..last]),
                   Slice(Encode(lines[last]), 0, c2))
  {
    var node := Node(first + 1, c1, Some(last + 1), Some(c2));
    assert Segment(lines, node) == SeveralLines(lines, first, c1, last, c2);
  }

  lemma SliceToEnd(bytes: seq<byte>, i: nat)
    requires i <= |bytes|
    ensures Slice(bytes, i, |bytes|) == bytes[i..]
  {
  }

  lemma SliceFromStart(bytes: seq<byte>, j: nat)
    requires j <= |bytes|
    ensures Slice(bytes, 0, j) == bytes[..j]
  {
  }

  /** On character boundaries the extraction succeeds, and its text is exactly those characters. */
  lemma SegmentAtBoundaries(source: string, lines: seq<string>, first: nat, i: nat, last: nat, j: nat)
    requires lines == SplitLines(source)
    requires first < |lines| && last < |lines| && i <= |lines[first]| && j <= |lines[last]|
    requires first < last || (first == last && i <= j)
    ensures var c1, c2 := |Encode(lines[first][..i])|, |Encode(lines[last][..j])|;
            var lo, hi := |Concat(lines[..first])| + i, |Concat(lines[..last])| + j;
            && lo <= hi <= |source|
            && Segment(lines, Node(first + 1, c1, Some(last + 1), Some(c2))) == Success(source[lo..hi])
  {
    LinesConcatToSource(source);
    SegmentAtLineBoundaries(lines, first, i, last, j);
  }

  lemma SegmentAtLineBoundaries(lines: seq<string>, first: nat, i: nat, last: nat, j: nat)
    requires first < |lines| && last < |lines| && i <= |lines[first]| && j <= |lines[last]|
    requires first < last || (first == last && i <= j)
    ensures var c1, c2 := |Encode(lines[first][..i])|, |Encode(lines[last][..j])|;
            var p, q := |Concat(lines[..first])| + i, |Concat(lines[..last])| + j;
            && p <= q <= |Concat(lines)|
            && Segment(lines, Node(first + 1, c1, Some(last + 1), Some(c2))) == Success(Concat(lines)[p..q])
  {
    BoundariesOfLines(lines, first, i, last, j);
    SegmentOfLines(lines, first, |Encode(lines[first][..i])|, last, |Encode(lines[last][..j])|);
  }

  lemma BoundariesOfLines(lines: seq<string>, first: nat, i: nat, last: nat, j: nat)
    requires first < |lines| && last < |lines| && i <= |lines[first]| && j <= |lines[last]|
    requires first < last || (first == last && i <= j)
    ensures var c1, c2 := |Encode(lines[first][..i])|, |Encode(lines[last][..j])|;
            var p, q := |Concat(lines[..first])| + i, |Concat(lines[..last])| + j;
            && InRange(lines, first, c1) && InRange(lines, last, c2) && (first == last ==> c1 <= c2)
            && p <= q <= |Concat(lines)|
            && Offset(lines, first, c1) <= Offset(lines, last, c2) <= |Encode(Concat(lines))|
            && Decoded(Encode(Concat(lines))[Offset(lines, first, c1)..Offset(lines, last, c2)])
               == Success(Concat(lines)[p..q])
  {
    var p := BoundaryOffset(lines, first, i);
    var q := BoundaryOffset(lines, last, j);
    BoundariesInOrder(lines, first, i, last, j);
    assert first == last ==> |Encode(lines[first][..i])| <= |Encode(lines[last][..j])| by {
      if first == last {
        ColumnsInOrder(lines[first], i, j);
      }
    }
    SliceBetween(Concat(lines), p, q, Offset(lines, first, |Encode(lines[first][..i])|),
                 Offset(lines, last, |Encode(lines[last][..j])|));
  }

  lemma SliceBetween(s: string, p: nat, q: nat, lo: nat, hi: nat)
    requires p <= q <= |s| && lo == |Encode(s[..p])| && hi == |Encode(s[..q])|
    ensures lo <= hi <= |Encode(s)| && Decoded(Encode(s)[lo..hi]) == Success(s[p..q])
  {
    DecodedSlice(s, p, q);
  }

  lemma DecodedSlice(s: string, p: nat, q: nat)
    requires p <= q <= |s|
    ensures |Encode(s[..p])| <= |Encode(s[..q])| <= |Encode(s)|
    ensures Decoded(Encode(s)[|Encode(s[..p])|..|Encode(s[..q])|]) == Success(s[p..q])
  {
    EncodedSlice(s, p, q);
    DecodeEncode(s[p..q]);
  }

  lemma ColumnsInOrder(line: string, i: nat, j: nat)
    requires i <= j <= |line|
    ensures |Encode(line[..i])| <= |Encode(line[..j])|
  {
    assert line[..j] == line[..i] + line[i..j];
    EncodeConcat(line[..i], line[i..j]);
  }

  /** Cutting an encoding at character boundaries is encoding the cut. */
  lemma EncodedSlice(s: string, p: nat, q: nat)
    requires p <= q <= |s|
    ensures |Encode(s[..p])| <= |Encode(s[..q])| <= |Encode(s)|
    ensures Encode(s)[|Encode(s[..p])|..|Encode(s[..q])|] == Encode(s[p..q])
  {
    assert s == s[..q] + s[q..] && s[..q] == s[..p] + s[p..q];
    EncodeConcat(s[..q], s[q..]);
    EncodeConcat(s[..p], s[p..q]);
    CutOne(Encode(s), Encode(s[..p]), Encode(s[p..q]), Encode(s[q..]), 0, |Encode(s[p..q])|);
  }

  lemma BoundaryOffset(lines: seq<string>, line: nat, i: nat) returns (p: nat)
    requires line < |lines| && i <= |lines[line]|
    ensures p == |Concat(lines[..line])| + i && p <= |Concat(lines)|
    ensures InRange(lines, line, |Encode(lines[line][..i])|)
    ensures |Encode(Concat(lines)[..p])| == Offset(lines, line, |Encode(lines[line][..i])|)
  {
    p := |Concat(lines[..line])| + i;
    assert lines == lines[..line] + ([lines[line]] + lines[line + 1..]);
    ConcatAppend(lines[..line], [lines[line]] + lines[line + 1..]);
    assert ([lines[line]] + lines[line + 1..])[1..] == lines[line + 1..];
    assert lines[line] == lines[line][..i] + lines[line][i..];
    EncodeConcat(lines[line][..i], lines[line][i..]);
    assert Concat(lines)[..p] == Concat(lines[..line]) + lines[line][..i];
    EncodeConcat(Concat(lines[..line]), lines[line][..i]);
  }

  lemma BoundariesInOrder(lines: seq<string>, first: nat, i: nat, last: nat, j: nat)
    requires first < |lines| && last < |lines| && i <= |lines[first]|
    requires first < last || (first == last && i <= j)
    ensures |Concat(lines[..first])| + i <= |Concat(lines[..last])| + j
  {
    if first < last {
      assert lines[..last] == lines[..first] + ([lines[first]] + lines[first + 1..last]);
      ConcatAppend(lines[..first], [lines[first]] + lines[first + 1..last]);
      assert ([lines[first]] + lines[first + 1..last])[1..] == lines[first + 1..last];
    }
  }
}
