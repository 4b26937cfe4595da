/** A file as records: the text between newlines, one trailing carriage return removed. */
module Lines {
  import opened Octets

  const NEWLINE: Byte := 0x0A
  const RETURN: Byte := 0x0D

  /** A complete record: the offset of its first byte, the offset after its newline, and its trimmed text. */
  datatype Line = Line(start: nat, end: nat, text: Text)

  function Trimmed(text: Text): (trimmed: Text)
    ensures |trimmed| <= |text|
  {
    if text != [] && text[|text| - 1] == RETURN then text[..|text| - 1] else text
  }

  /** The start of the record that is incomplete at `last`, when reading began at `from`. */
  function StartOf(content: Text, from: nat, last: nat): (start: nat)
    requires from <= last <= |content|
    ensures from <= start <= last
    ensures start == from || content[start - 1] == NEWLINE
    ensures NEWLINE !in content[start..last]
    decreases last
  {
    if last == from then from
    else if content[last - 1] == NEWLINE then last
    else
      var start := StartOf(content, from, last - 1);
      assert content[start..last] == content[start..last - 1] + [content[last - 1]];
      start
  }

  function LineAt(content: Text, start: nat, end: nat): (line: Line)
    requires start < end <= |content|
    ensures line.start == start && line.end == end
  {
    Line(start, end, Trimmed(content[start..end - 1]))
  }

  /** The records completed between two offsets, when reading began at `from`. */
  function Records(content: Text, from: nat, last: nat): (lines: seq<Line>)
    requires from <= last <= |content|
    decreases last
  {
    if last == from then []
    else Records(content, from, last - 1)
         + (if content[last - 1] == NEWLINE then [LineAt(content, StartOf(content, from, last - 1), last)] else [])
  }

  /** Reading may stop here and start again. */
  predicate Boundary(content: Text, offset: nat)
    requires offset <= |content|
  {
    offset == 0 || content[offset - 1] == NEWLINE
  }

  /**
   * The stretches between consecutive newlines: each record ends at a newline and has none before, each
   * starts where the one before ends, and every newline ends one.
   */
  ghost predicate AreLines(content: Text, from: nat, last: nat, lines: seq<Line>)
    requires from <= last <= |content|
  {
    && (forall i | 0 <= i < |lines| ::
          from <= lines[i].start && lines[i].end <= last && IsLine(content, lines[i]) && Follows(lines, i, from))
    && (forall k | from <= k < last && content[k] == NEWLINE :: EndsOne(lines, k + 1))
  }

  ghost predicate IsLine(content: Text, line: Line) {
    && line.start < line.end <= |content|
    && line == LineAt(content, line.start, line.end)
    && content[line.end - 1] == NEWLINE
    && NEWLINE !in content[line.start..line.end - 1]
  }

  /** A record starts where the one before ends. */
  ghost predicate Follows(lines: seq<Line>, i: nat, from: nat)
    requires i < |lines|
  {
    lines[i].start == if i == 0 then from else lines[i - 1].end
  }

  ghost predicate EndsOne(lines: seq<Line>, offset: nat) {
    exists i :: 0 <= i < |lines| && lines[i].end == offset
  }

  lemma OneMoreLine(content: Text, from: nat, last: nat, lines: seq<Line>, start: nat)
    requires from <= start < last <= |content|
    requires AreLines(content, from, last - 1, lines)
    requires content[last - 1] == NEWLINE && NEWLINE !in content[start..last - 1]
    requires start == if lines == [] then from else lines[|lines| - 1].end
    ensures AreLines(content, from, last, lines + [LineAt(content, start, last)])
  {
    hide IsLine, EndsOne, Follows;
    var line := LineAt(content, start, last);
    OneLine(content, start, last);
    var all := lines + [line];
    forall i | 0 <= i < |all|
      ensures from <= all[i].start && all[i].end <= last && IsLine(content, all[i]) && Follows(all, i, from)
    {
      if i < |lines| {
        FollowsStill(lines, line, i, from);
      } else {
        FollowsLast(lines, line, from);
      }
    }
    forall k | from <= k < last && content[k] == NEWLINE ensures EndsOne(all, k + 1) {
      EndsOneMore(lines, line, k + 1);
    }
  }

  lemma OneLine(content: Text, start: nat, last: nat)
    requires start < last <= |content| && content[last - 1] == NEWLINE && NEWLINE !in content[start..last - 1]
    ensures IsLine(content, LineAt(content, start, last))
  {
  }

  lemma FollowsStill(lines: seq<Line>, line: Line, i: nat, from: nat)
    requires i < |lines|
    ensures Follows(lines + [line], i, from) == Follows(lines, i, from)
  {
  }

  lemma FollowsLast(lines: seq<Line>, line: Line, from: nat)
    requires line.start == if lines == [] then from else lines[|lines| - 1].end
    ensures Follows(lines + [line], |lines|, from)
  {
  }

  lemma EndsOneMore(lines: seq<Line>, line: Line, offset: nat)
    ensures EndsOne(lines + [line], offset) <==> EndsOne(lines, offset) || line.end == offset
  {
    var all := lines + [line];
    assert all[|lines|] == line;
    assert forall i | 0 <= i < |lines| :: all[i] == lines[i];
  }

  /** Records splits the text at its newlines, and the incomplete record starts where the last one ends. */
  lemma {:induction false} RecordsAreLines(content: Text, from: nat, last: nat)
    requires from <= last <= |content|
    ensures AreLines(content, from, last, Records(content, from, last))
    ensures var lines := Records(content, from, last);
            StartOf(content, from, last) == if lines == [] then from else lines[|lines| - 1].end
    decreases last
  {
    hide AreLines;
    if last != from {
      RecordsAreLines(content, from, last - 1);
      var before := Records(content, from, last - 1);
      var start := StartOf(content, from, last - 1);
      if content[last - 1] == NEWLINE {
        OneMoreLine(content, from, last, before, start);
      } else {
        NoMoreLine(content, from, last, before);
        assert before + [] == before;
      }
    } else {
      NoLine(content, from);
    }
  }

  lemma NoMoreLine(content: Text, from: nat, last: nat, lines: seq<Line>)
    requires from < last <= |content|
    requires AreLines(content, from, last - 1, lines) && content[last - 1] != NEWLINE
    ensures AreLines(content, from, last, lines)
  {
    hide IsLine, EndsOne, Follows;
  }

  lemma NoLine(content: Text, from: nat)
    requires from <= |content|
    ensures AreLines(content, from, from, [])
  {
  }

  /** What is appended later changes no complete record. */
  lemma {:induction false} RecordsOfPrefix(content: Text, longer: Text, from: nat, last: nat)
    requires from <= last <= |content| && content <= longer
    ensures Records(content, from, last) == Records(longer, from, last)
    ensures StartOf(content, from, last) == StartOf(longer, from, last)
    decreases last
  {
    if last != from {
      RecordsOfPrefix(content, longer, from, last - 1);
      var start := StartOf(content, from, last - 1);
      assert content[start..last - 1] == longer[start..last - 1];
    }
  }

  /** Starting again at a record boundary yields the same suffix of records. */
  lemma {:induction false} RecordsResume(content: Text, from: nat, middle: nat, last: nat)
    requires from <= middle <= last <= |content|
    requires StartOf(content, from, middle) == middle
    ensures Records(content, from, last) == Records(content, from, middle) + Records(content, middle, last)
    ensures StartOf(content, from, last) == StartOf(content, middle, last)
    decreases last
  {
    if last != middle {
      RecordsResume(content, from, middle, last - 1);
    }
  }

  /** Nothing is completed after the last boundary. */
  lemma {:induction false} RecordsSettle(content: Text, from: nat, last: nat)
    requires from <= last <= |content|
    ensures var start := StartOf(content, from, last);
            && Records(content, from, start) == Records(content, from, last)
            && StartOf(content, from, start) == start
    decreases last
  {
    if last != from && content[last - 1] != NEWLINE {
      RecordsSettle(content, from, last - 1);
      assert Records(content, from, last) == Records(content, from, last - 1);
    }
  }

  lemma BoundaryStart(content: Text, offset: nat)
    requires offset <= |content| && Boundary(content, offset)
    ensures StartOf(content, 0, offset) == offset
  {
  }

  lemma {:induction false} RecordsFewer(content: Text, from: nat, middle: nat, last: nat)
    requires from <= middle <= last <= |content|
    ensures |Records(content, from, middle)| <= |Records(content, from, last)|
    decreases last
  {
    if middle < last {
      RecordsFewer(content, from, middle, last - 1);
    }
  }
}
