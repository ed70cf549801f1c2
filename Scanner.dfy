/**
 * `scan_lines`: one pass over a JSONL file that records, for each line that
 * parses as JSON, the byte offset where that line starts. Malformed lines
 * (an empty line among them) get no entry, take no record number and raise
 * nothing. The file is its content as bytes; lines end at `\n`.
 */
module Scanner {
  import opened Common

  predicate NoNewline(l: seq<Byte>) {
    forall k :: 0 <= k < |l| ==> l[k] != Newline
  }

  predicate EndsWithNewline(line: seq<Byte>) {
    |line| > 0 && line[|line| - 1] == Newline
  }

  /** Where the line that starts at `pos` ends: just past its newline, or at the end of the file. */
  function LineEnd(content: seq<Byte>, pos: nat): (e: nat)
    requires pos <= |content|
    ensures pos <= e <= |content|
    ensures e == pos <==> pos == |content|
    decreases |content| - pos
  {
    if pos == |content| then pos
    else if content[pos] == Newline then pos + 1
    else LineEnd(content, pos + 1)
  }

  /** Where the text of the line that starts at `pos` ends: before its newline, if it has one. */
  function TextEnd(content: seq<Byte>, pos: nat): (e: nat)
    requires pos <= |content|
    ensures pos <= e <= LineEnd(content, pos)
  {
    var next := LineEnd(content, pos);
    if next > pos && content[next - 1] == Newline then next - 1 else next
  }

  /** The line that starts at `pos`, without its newline. */
  function LineText(content: seq<Byte>, pos: nat): seq<Byte>
    requires pos <= |content|
  {
    content[pos..TextEnd(content, pos)]
  }

  /**
   * `f.seek(pos); f.readline()`: up to and including the first newline,
   * nothing at or past the end of the file.
   */
  function ReadLine(content: seq<Byte>, pos: nat): (raw: seq<Byte>)
    ensures raw == [] <==> pos >= |content|
    ensures pos < |content| ==> raw == content[pos..LineEnd(content, pos)]
  {
    if pos >= |content| then [] else content[pos..LineEnd(content, pos)]
  }

  /** `line[:-1]` when the line ends with a newline. */
  function StripNewline(raw: seq<Byte>): seq<Byte> {
    if EndsWithNewline(raw) then raw[..|raw| - 1] else raw
  }

  /** A line read and stripped of its newline is the line's text. */
  lemma StrippedLine(content: seq<Byte>, pos: nat)
    requires pos < |content|
    ensures StripNewline(ReadLine(content, pos)) == LineText(content, pos)
  {
  }

  /** A line holds no newline but possibly its last byte, and ends with one unless it runs to the end of the file. */
  lemma {:induction false} LineEndShape(content: seq<Byte>, pos: nat)
    requires pos <= |content|
    ensures LineEnd(content, pos) == pos || NoNewline(content[pos..LineEnd(content, pos) - 1])
    ensures LineEnd(content, pos) == |content| || content[LineEnd(content, pos) - 1] == Newline
    decreases |content| - pos
  {
    if pos < |content| && content[pos] != Newline {
      LineEndShape(content, pos + 1);
    }
  }

  /** A stretch with no newline, followed by a newline or by the end of the file, is read as one line. */
  lemma {:induction false} LineEndAt(content: seq<Byte>, pos: nat, stop: nat)
    requires pos < |content| && pos <= stop <= |content|
    requires NoNewline(content[pos..stop])
    requires stop == |content| || content[stop] == Newline
    ensures LineEnd(content, pos) == if stop == |content| then stop else stop + 1
    decreases stop - pos
  {
    if pos < stop {
      assert content[pos] == content[pos..stop][0];
      if pos + 1 < |content| {
        assert content[pos + 1..stop] == content[pos..stop][1..];
        LineEndAt(content, pos + 1, stop);
      }
    }
  }

  /**
   * The offsets of the lines from byte `pos` on that parse as JSON, in file
   * order, where `pos` is a line start. This is the specification of
   * `scan_lines`: record number i is the i-th of them.
   */
  function Offsets(content: seq<Byte>, pos: nat, parse: Decoder): seq<nat>
    decreases |content| - pos
  {
    if pos >= |content| then []
    else if parse(LineText(content, pos)).Some? then [pos] + Offsets(content, LineEnd(content, pos), parse)
    else Offsets(content, LineEnd(content, pos), parse)
  }

  /** `json.loads("")` raises: a decoder that turns no text into no value. */
  predicate RejectsEmpty(parse: Decoder) {
    parse([]).None?
  }

  /**
   * With such a decoder, an empty line (a `\n` alone) adds no entry: it is
   * skipped, and no recorded offset starts a line with no text.
   */
  lemma {:induction false} EmptyLinesAddNone(content: seq<Byte>, pos: nat, parse: Decoder)
    requires RejectsEmpty(parse)
    ensures pos < |content| && content[pos] == Newline ==> Offsets(content, pos, parse) == Offsets(content, pos + 1, parse)
    ensures forall o :: o in Offsets(content, pos, parse) ==> o < |content| && LineText(content, o) != []
    decreases |content| - pos
  {
    if pos < |content| {
      EmptyLinesAddNone(content, LineEnd(content, pos), parse);
    }
  }

  /** The lines `readline()` yields from `pos` until it returns nothing, each without its newline. */
  function LinesFrom(content: seq<Byte>, pos: nat): seq<seq<Byte>>
    decreases |content| - pos
  {
    if pos >= |content| then [] else [LineText(content, pos)] + LinesFrom(content, LineEnd(content, pos))
  }

  /** The decoded values of the lines that parse, in order. */
  function Parsed(lines: seq<seq<Byte>>, parse: Decoder): seq<Json> {
    if lines == [] then []
    else if parse(lines[0]).Some? then [parse(lines[0]).value] + Parsed(lines[1..], parse)
    else Parsed(lines[1..], parse)
  }

  /** The dictionary `scan_lines` builds: record number to offset. */
  function IndexMap(offsets: seq<nat>): (m: map<int, int>)
    ensures forall i :: i in m <==> 0 <= i < |offsets|
    ensures forall i :: 0 <= i < |offsets| ==> m[i] == offsets[i]
  {
    map i | 0 <= i < |offsets| :: offsets[i]
  }

  lemma IndexMapSnoc(offsets: seq<nat>, o: nat)
    ensures IndexMap(offsets + [o]) == IndexMap(offsets)[|offsets| := o]
  {
    var m, m' := IndexMap(offsets + [o]), IndexMap(offsets)[|offsets| := o];
    assert forall i :: i in m <==> i in m';
    assert forall i :: i in m ==> m[i] == m'[i];
  }

  lemma AppendAssoc<T>(a: seq<T>, b: seq<T>, c: seq<T>)
    ensures a + (b + c) == (a + b) + c
  {
  }

  lemma OffsetsStep(content: seq<Byte>, pos: nat, next: nat, parse: Decoder, line: seq<Byte>)
    requires pos < |content| && next == pos + |ReadLine(content, pos)|
    requires line == LineText(content, pos)
    ensures parse(line).Some? ==> Offsets(content, pos, parse) == [pos] + Offsets(content, next, parse)
    ensures parse(line).None? ==> Offsets(content, pos, parse) == Offsets(content, next, parse)
  {
    assert next == LineEnd(content, pos);
  }

  /**
   * One line of the scan: the offsets so far, the offset of the line at
   * `pos` if it parses, and the offsets after it make up the whole index.
   */
  lemma ScanStep(content: seq<Byte>, pos: nat, next: nat, parse: Decoder, done: seq<nat>, line: seq<Byte>)
    requires pos < |content| && next == pos + |ReadLine(content, pos)|
    requires line == LineText(content, pos)
    requires done + Offsets(content, pos, parse) == Offsets(content, 0, parse)
    ensures parse(line).Some? ==> (done + [pos]) + Offsets(content, next, parse) == Offsets(content, 0, parse)
    ensures parse(line).None? ==> done + Offsets(content, next, parse) == Offsets(content, 0, parse)
  {
    OffsetsStep(content, pos, next, parse, line);
    if parse(line).Some? {
      AppendAssoc(done, [pos], Offsets(content, next, parse));
    }
  }

  /** `scan_lines`, reading the file line by line and remembering where each line starts. */
  method ScanLines(content: seq<Byte>, parse: Decoder) returns (data: map<int, int>)
    ensures data == IndexMap(Offsets(content, 0, parse))
  {
    data := map[];
    var index := 0;
    var position := 0;
    var line := ReadLine(content, position);
    var cursor := position + |line|;     // the stream position that `f.tell()` reports
    ghost var done: seq<nat> := [];
    while true
      invariant position <= |content|
      invariant line == ReadLine(content, position) && cursor == position + |line|
      invariant done + Offsets(content, position, parse) == Offsets(content, 0, parse)
      invariant index == |done| && data == IndexMap(done)
      decreases |content| - position
    {
      if EndsWithNewline(line) {
        line := line[..|line| - 1];
      } else if line == [] {
        break;
      }
      StrippedLine(content, position);
      ScanStep(content, position, cursor, parse, done, line);
      if parse(line).Some? {
        IndexMapSnoc(done, position);
        data := data[index := position];
        index := index + 1;
        done := done + [position];
      }
      position := cursor;
      line := ReadLine(content, position);
      cursor := position + |line|;
    }
    assert done + [] == done;
  }

  /** Offsets lie inside the file and strictly increase, so record numbers follow file order. */
  lemma {:induction false} OffsetsOrdered(content: seq<Byte>, pos: nat, parse: Decoder)
    ensures forall i :: 0 <= i < |Offsets(content, pos, parse)| ==> pos <= Offsets(content, pos, parse)[i] < |content|
    ensures forall i, j :: 0 <= i < j < |Offsets(content, pos, parse)| ==>
              Offsets(content, pos, parse)[i] < Offsets(content, pos, parse)[j]
    decreases |content| - pos
  {
    if pos < |content| {
      var next := LineEnd(content, pos);
      var tail := Offsets(content, next, parse);
      OffsetsOrdered(content, next, parse);
      var offs := Offsets(content, pos, parse);
      if parse(LineText(content, pos)).Some? {
        assert offs == [pos] + tail;
        forall i | 0 <= i < |offs|
          ensures pos <= offs[i] < |content|
        {
          if i > 0 {
            assert offs[i] == tail[i - 1];
          }
        }
        forall i, j | 0 <= i < j < |offs|
          ensures offs[i] < offs[j]
        {
          assert offs[j] == tail[j - 1];
          if i > 0 {
            assert offs[i] == tail[i - 1];
          }
        }
      } else {
        assert offs == tail;
      }
    }
  }

  /** Every indexed offset is the start of a line: the file's first byte or one just after a newline. */
  lemma {:induction false} OffsetsStartLines(content: seq<Byte>, pos: nat, parse: Decoder)
    requires pos <= |content|
    requires pos < |content| ==> pos == 0 || content[pos - 1] == Newline
    ensures forall o :: o in Offsets(content, pos, parse) ==>
              o < |content| && (o == 0 || content[o - 1] == Newline)
    decreases |content| - pos
  {
    if pos < |content| {
      LineEndShape(content, pos);
      OffsetsStartLines(content, LineEnd(content, pos), parse);
    }
  }

  /**
   * The index holds one offset per line that parses, and reading one line
   * back from the i-th offset, as the reader does, gives a non-empty line
   * that decodes to the i-th parsed record of the file.
   */
  lemma {:induction false} ReadBackAtOffsets(content: seq<Byte>, pos: nat, parse: Decoder)
    ensures var offs := Offsets(content, pos, parse);
            var records := Parsed(LinesFrom(content, pos), parse);
            |offs| == |records| &&
            forall i :: 0 <= i < |offs| ==>
              ReadLine(content, offs[i]) != [] &&
              parse(StripNewline(ReadLine(content, offs[i]))) == Some(records[i])
    decreases |content| - pos
  {
    if pos < |content| {
      var next := LineEnd(content, pos);
      ReadBackAtOffsets(content, next, parse);
      var lines := LinesFrom(content, pos);
      assert lines[0] == LineText(content, pos) && lines[1..] == LinesFrom(content, next);
      if parse(LineText(content, pos)).Some? {
        StrippedLine(content, pos);
        var offs := Offsets(content, pos, parse);
        var records := Parsed(lines, parse);
        assert forall i :: 0 < i < |offs| ==> offs[i] == Offsets(content, next, parse)[i - 1];
        assert forall i :: 0 < i < |records| ==> records[i] == Parsed(LinesFrom(content, next), parse)[i - 1];
      }
    }
  }

  /* ---------------- files written one record per line ---------------- */

  /** The lines joined with `\n`, without a final newline, as the test data is written. */
  function JoinLines(ls: seq<seq<Byte>>): seq<Byte> {
    if ls == [] then []
    else if |ls| == 1 then ls[0]
    else JoinLines(ls[..|ls| - 1]) + [Newline] + ls[|ls| - 1]
  }

  /** Where line `i` of a joined file starts. */
  function LineStart(ls: seq<seq<Byte>>, i: nat): nat
    requires i <= |ls|
  {
    if i == 0 then 0 else LineStart(ls, i - 1) + |ls[i - 1]| + 1
  }

  lemma {:induction false} LineStartPrefix(ls: seq<seq<Byte>>, k: nat, i: nat)
    requires i <= k <= |ls|
    ensures LineStart(ls[..k], i) == LineStart(ls, i)
  {
    if i > 0 {
      LineStartPrefix(ls, k, i - 1);
      assert ls[..k][i - 1] == ls[i - 1];
    }
  }

  /** A joined file ends where its last line does. */
  lemma {:induction false} JoinedLength(ls: seq<seq<Byte>>)
    requires |ls| > 0
    ensures |JoinLines(ls)| == LineStart(ls, |ls| - 1) + |ls[|ls| - 1]|
    decreases |ls|
  {
    var n := |ls|;
    if n > 1 {
      var pre := ls[..n - 1];
      JoinedLength(pre);
      LineStartPrefix(ls, n - 1, n - 2);
      assert pre[n - 2] == ls[n - 2];
    }
  }

  /** Line `i` of a joined file sits at its start. */
  lemma {:induction false} JoinedAt(ls: seq<seq<Byte>>, i: nat)
    requires i < |ls|
    ensures LineStart(ls, i) + |ls[i]| <= |JoinLines(ls)|
    ensures JoinLines(ls)[LineStart(ls, i)..LineStart(ls, i) + |ls[i]|] == ls[i]
    decreases |ls|
  {
    var n := |ls|;
    var c := JoinLines(ls);
    JoinedLength(ls);
    if n > 1 {
      var pre := ls[..n - 1];
      var cp := JoinLines(pre);
      assert c == cp + [Newline] + ls[n - 1];
      if i == n - 1 {
        JoinedLength(pre);
        LineStartPrefix(ls, n - 1, n - 2);
        assert pre[n - 2] == ls[n - 2];
        assert c[|cp| + 1..] == ls[n - 1];
      } else {
        JoinedAt(pre, i);
        LineStartPrefix(ls, n - 1, i);
        assert pre[i] == ls[i];
        var a := LineStart(ls, i);
        assert c[a..a + |ls[i]|] == cp[a..a + |ls[i]|];
      }
    }
  }

  /** In a joined file, every line but the last is followed by a newline. */
  lemma {:induction false} JoinedNewline(ls: seq<seq<Byte>>, i: nat)
    requires i + 1 < |ls|
    ensures LineStart(ls, i) + |ls[i]| < |JoinLines(ls)|
    ensures JoinLines(ls)[LineStart(ls, i) + |ls[i]|] == Newline
    decreases |ls|
  {
    var n := |ls|;
    var pre := ls[..n - 1];
    var cp := JoinLines(pre);
    var c := JoinLines(ls);
    assert c == cp + [Newline] + ls[n - 1];
    LineStartPrefix(ls, n - 1, i);
    assert pre[i] == ls[i];
    if i == n - 2 {
      JoinedLength(pre);
    } else {
      JoinedNewline(pre, i);
    }
  }

  /** Every line is non-empty, holds no newline and parses. */
  predicate WellFormedLines(ls: seq<seq<Byte>>, parse: Decoder) {
    forall i :: 0 <= i < |ls| ==> ls[i] != [] && NoNewline(ls[i]) && parse(ls[i]).Some?
  }

  /** In a joined file, line `i` is read as exactly that line, followed by the next line's start. */
  lemma JoinedLineEnd(ls: seq<seq<Byte>>, i: nat)
    requires i < |ls| && ls[i] != [] && NoNewline(ls[i])
    ensures LineStart(ls, i) < |JoinLines(ls)|
    ensures LineEnd(JoinLines(ls), LineStart(ls, i)) == if i + 1 < |ls| then LineStart(ls, i + 1) else |JoinLines(ls)|
    ensures LineText(JoinLines(ls), LineStart(ls, i)) == ls[i]
  {
    var c := JoinLines(ls);
    var a := LineStart(ls, i);
    var stop := a + |ls[i]|;
    JoinedAt(ls, i);
    if i + 1 < |ls| {
      JoinedNewline(ls, i);
    } else {
      JoinedLength(ls);
    }
    LineEndAt(c, a, stop);
    if i + 1 == |ls| {
      assert c[stop - 1] == ls[i][|ls[i]| - 1];
    }
  }

  /**
   * `starts` are consecutive lines of `content` running to its end, each of
   * which parses.
   */
  predicate ParsedChain(content: seq<Byte>, starts: seq<nat>, parse: Decoder) {
    && (forall i :: 0 <= i < |starts| ==> starts[i] < |content| && parse(LineText(content, starts[i])).Some?)
    && (forall i :: 0 <= i < |starts| - 1 ==> LineEnd(content, starts[i]) == starts[i + 1])
    && (|starts| > 0 ==> LineEnd(content, starts[|starts| - 1]) == |content|)
  }

  /** When every line from `starts[0]` to the end parses, the offsets from there are exactly `starts`. */
  lemma {:induction false} OffsetsOfChain(content: seq<Byte>, starts: seq<nat>, parse: Decoder)
    requires |starts| > 0 && ParsedChain(content, starts, parse)
    ensures Offsets(content, starts[0], parse) == starts
    decreases |starts|
  {
    var next := if 1 < |starts| then starts[1] else |content|;
    OffsetsStep(content, starts[0], next, parse, LineText(content, starts[0]));
    if 1 < |starts| {
      var rest := starts[1..];
      forall i | 0 <= i < |rest| - 1
        ensures LineEnd(content, rest[i]) == rest[i + 1]
      {
        assert rest[i] == starts[i + 1] && rest[i + 1] == starts[i + 2];
      }
      OffsetsOfChain(content, rest, parse);
      assert starts == [starts[0]] + rest;
    }
  }

  /**
   * The index of a file written one valid record per line has one offset
   * per line, and offset i is where line i starts; the bytes from there up
   * to the next offset (or to the end of the file), without a trailing
   * newline, are line i.
   */
  lemma ScanOfJoined(ls: seq<seq<Byte>>, parse: Decoder)
    requires WellFormedLines(ls, parse)
    ensures |Offsets(JoinLines(ls), 0, parse)| == |ls|
    ensures forall i :: 0 <= i < |ls| ==> Offsets(JoinLines(ls), 0, parse)[i] == LineStart(ls, i)
  {
    if ls != [] {
      var c := JoinLines(ls);
      var starts := seq(|ls|, i requires 0 <= i < |ls| => LineStart(ls, i));
      forall i | 0 <= i < |starts|
        ensures starts[i] < |c| && parse(LineText(c, starts[i])).Some?
        ensures i + 1 < |starts| ==> LineEnd(c, starts[i]) == starts[i + 1]
        ensures i + 1 == |starts| ==> LineEnd(c, starts[i]) == |c|
      {
        JoinedLineEnd(ls, i);
      }
      OffsetsOfChain(c, starts, parse);
    }
  }

  /** Line i of a file written one record per line is what the reader gets back from offset i. */
  lemma SliceBetweenOffsets(ls: seq<seq<Byte>>, parse: Decoder, i: nat)
    requires WellFormedLines(ls, parse) && i < |ls|
    ensures i < |Offsets(JoinLines(ls), 0, parse)|
    ensures StripNewline(ReadLine(JoinLines(ls), Offsets(JoinLines(ls), 0, parse)[i])) == ls[i]
  {
    ScanOfJoined(ls, parse);
    JoinedLineEnd(ls, i);
    StrippedLine(JoinLines(ls), LineStart(ls, i));
  }
}
