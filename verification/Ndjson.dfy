/** The streaming line splitter of frontend/src/lib/api.ts: rows do not depend on how
    the response is cut into chunks. */
module Ndjson {

  /** Lines completed so far and the unfinished one: what a reader knows of a text. */
  datatype Lines = Lines(done: seq<string>, rest: string)

  /** Reads on, one character at a time; empty lines are skipped. */
  function ReadOn(l: Lines, text: string): Lines
    decreases |text|
  {
    if text == "" then l
    else if text[0] == '\n' then ReadOn(Lines(if l.rest == "" then l.done else l.done + [l.rest], ""), text[1..])
    else ReadOn(Lines(l.done, l.rest + [text[0]]), text[1..])
  }

  const Nothing := Lines([], "")

  /** The non-empty lines of a text that are ended by a newline. */
  function CompleteLines(text: string): seq<string> { ReadOn(Nothing, text).done }

  function Join(chunks: seq<string>): string {
    if chunks == [] then "" else Join(chunks[..|chunks| - 1]) + chunks[|chunks| - 1]
  }

  function Parsed<T>(parse: string -> T, lines: seq<string>): (rows: seq<T>)
    ensures |rows| == |lines|
  {
    seq(|lines|, i requires 0 <= i < |lines| => parse(lines[i]))
  }

  function Flatten<T>(batches: seq<seq<T>>): seq<T> {
    if batches == [] then [] else Flatten(batches[..|batches| - 1]) + batches[|batches| - 1]
  }

  lemma {:induction false} ReadOnJoin(l: Lines, a: string, b: string)
    ensures ReadOn(l, a + b) == ReadOn(ReadOn(l, a), b)
    decreases |a|
  {
    if a == "" {
      assert a + b == b;
    } else {
      assert (a + b)[1..] == a[1..] + b;
      ReadOnJoin(if a[0] == '\n' then Lines(if l.rest == "" then l.done else l.done + [l.rest], "")
                 else Lines(l.done, l.rest + [a[0]]), a[1..], b);
    }
  }

  predicate NoNewline(s: string) { forall i :: 0 <= i < |s| ==> s[i] != '\n' }

  lemma {:induction false} ReadOnPlain(l: Lines, s: string)
    requires NoNewline(s)
    ensures ReadOn(l, s) == Lines(l.done, l.rest + s)
    decreases |s|
  {
    if s == "" {
      assert l.rest + s == l.rest;
    } else {
      ReadOnPlain(Lines(l.done, l.rest + [s[0]]), s[1..]);
      assert l.rest + [s[0]] + s[1..] == l.rest + s;
    }
  }

  /** A whole line is read at once. */
  lemma ReadLine(done: seq<string>, line: string, more: string)
    requires NoNewline(line)
    ensures ReadOn(Lines(done, ""), line + "\n" + more) ==
            ReadOn(Lines(if line == "" then done else done + [line], ""), more)
  {
    ReadOnJoin(Lines(done, ""), line + "\n", more);
    ReadOnJoin(Lines(done, ""), line, "\n");
    ReadOnPlain(Lines(done, ""), line);
    assert "" + line == line;
    assert "\n"[1..] == "";
  }

  /** buf.indexOf('\n', pos) */
  method IndexOf(buf: string, pos: nat) returns (nl: int)
    requires pos <= |buf|
    ensures nl < 0 ==> NoNewline(buf[pos..])
    ensures nl >= 0 ==> pos <= nl < |buf| && buf[nl] == '\n' && NoNewline(buf[pos..nl])
  {
    var i := pos;
    while i < |buf|
      invariant pos <= i <= |buf| && forall j :: pos <= j < i ==> buf[j] != '\n'
    {
      if buf[i] == '\n' { return i; }
      i := i + 1;
    }
    return -1;
  }

  /** The batches handed out while the text is being read: 5000 rows each. */
  ghost predicate FullBatches<T>(batches: seq<seq<T>>) {
    forall i :: 0 <= i < |batches| ==> |batches[i]| == 5000
  }

  lemma FlattenOne<T>(batches: seq<seq<T>>, batch: seq<T>)
    ensures Flatten(batches + [batch]) == Flatten(batches) + batch
  {
    assert (batches + [batch])[..|batches|] == batches;
  }

  lemma ParsedOne<T>(parse: string -> T, lines: seq<string>, line: string)
    ensures Parsed(parse, lines + [line]) == Parsed(parse, lines) + [parse(line)]
  {
  }

  class RowStream<T> {
    const parse: string -> T
    var batches: seq<seq<T>>     // the onBatch calls so far
    var batch: seq<T>
    var buf: string

    /** The rows handed out or about to be. */
    ghost function Rows(): seq<T>
      reads this
    {
      Flatten(batches) + batch
    }

    /** Everything received so far has been read, and what is left of it is buffered. */
    ghost predicate Has(text: string)
      reads this
    {
      && FullBatches(batches) && |batch| < 5000
      && Lines(ReadOn(Nothing, text).done, buf) == ReadOn(Nothing, text)
      && Rows() == Parsed(parse, ReadOn(Nothing, text).done)
    }

    constructor (parse: string -> T)
      ensures this.parse == parse && Has("")
    {
      this.parse, batches, batch, buf := parse, [], [], "";
    }

    method FlushRows()
      modifies this`batches, this`batch
      ensures batch == [] && Rows() == old(Rows())
      ensures batches == if old(batch) == [] then old(batches) else old(batches) + [old(batch)]
    {
      hide Flatten;
      if |batch| > 0 {
        FlattenOne(batches, batch);
        batches := batches + [batch];
        batch := [];
      }
    }

    method PushRow(line: string)
      requires FullBatches(batches) && |batch| < 5000
      modifies this`batches, this`batch
      ensures FullBatches(batches) && |batch| < 5000 && Rows() == old(Rows()) + [parse(line)]
    {
      hide Flatten;
      assert Flatten(batches) + batch + [parse(line)] == Flatten(batches) + (batch + [parse(line)]);
      batch := batch + [parse(line)];
      if |batch| >= 5000 {
        FlushRows();
      }
    }

    /** One decoded chunk of the response. */
    method Receive(chunk: string, ghost before: string)
      requires Has(before)
      modifies this
      ensures Has(before + chunk)
    {
      hide ReadOn, Flatten, Parsed, FullBatches, NoNewline;
      ghost var target := ReadOn(Nothing, before + chunk);
      ReadOnJoin(Nothing, before, chunk);
      ghost var lines := ReadOn(Nothing, before).done;
      Resume(lines, buf, chunk, before);
      var pos := 0;
      buf := buf + chunk;
      assert buf[0..] == buf;
      var nl := IndexOf(buf, pos);
      while nl >= 0
        invariant 0 <= pos <= |buf| && FullBatches(batches) && |batch| < 5000
        invariant nl < 0 ==> NoNewline(buf[pos..])
        invariant nl >= 0 ==> pos <= nl < |buf| && buf[nl] == '\n' && NoNewline(buf[pos..nl])
        invariant ReadOn(Lines(lines, ""), buf[pos..]) == target && Rows() == Parsed(parse, lines)
        decreases |buf| - pos
      {
        NextLine(lines, buf, pos, nl);
        if nl > pos {
          PushRow(buf[pos..nl]);
          ParsedOne(parse, lines, buf[pos..nl]);
          lines := lines + [buf[pos..nl]];
        }
        pos := nl + 1;
        nl := IndexOf(buf, pos);
      }
      ReadOnPlain(Lines(lines, ""), buf[pos..]);
      assert "" + buf[pos..] == buf[pos..];
      buf := buf[pos..];
    }
  }

  /** Reading resumes from the buffered rest. */
  lemma Resume(lines: seq<string>, buf: string, chunk: string, before: string)
    requires ReadOn(Nothing, before) == Lines(lines, buf)
    ensures ReadOn(Lines(lines, ""), buf + chunk) == ReadOn(Nothing, before + chunk)
  {
    hide ReadOn;
    RestIsPlain(Nothing, before);
    ReadOnJoin(Lines(lines, ""), buf, chunk);
    ReadOnPlain(Lines(lines, ""), buf);
    assert "" + buf == buf;
    ReadOnJoin(Nothing, before, chunk);
  }

  lemma {:induction false} RestIsPlain(l: Lines, text: string)
    requires NoNewline(l.rest)
    ensures NoNewline(ReadOn(l, text).rest)
    decreases |text|
  {
    if text != "" {
      if text[0] == '\n' {
        RestIsPlain(Lines(if l.rest == "" then l.done else l.done + [l.rest], ""), text[1..]);
      } else {
        RestIsPlain(Lines(l.done, l.rest + [text[0]]), text[1..]);
      }
    }
  }

  lemma NextLine(lines: seq<string>, buf: string, pos: nat, nl: nat)
    requires pos <= nl < |buf| && buf[nl] == '\n' && NoNewline(buf[pos..nl])
    ensures ReadOn(Lines(lines, ""), buf[pos..]) ==
            ReadOn(Lines(if nl > pos then lines + [buf[pos..nl]] else lines, ""), buf[nl + 1..])
  {
    hide ReadOn, NoNewline;
    ReadLine(lines, buf[pos..nl], buf[nl + 1..]);
    assert buf[pos..] == buf[pos..nl] + "\n" + buf[nl + 1..];
  }

  /** searchFeed's loop: whatever the chunks, the rows are those of the non-empty
      complete lines of the whole text, in order, in full batches and a last one. */
  method SearchFeed<T>(parse: string -> T, chunks: seq<string>) returns (batches: seq<seq<T>>)
    ensures Flatten(batches) == Parsed(parse, CompleteLines(Join(chunks)))
    ensures forall i :: 0 <= i < |batches| - 1 ==> |batches[i]| == 5000
    ensures batches != [] ==> 0 < |batches[|batches| - 1]| <= 5000
  {
    hide ReadOn, Flatten, Parsed;
    var f := new RowStream(parse);
    for i := 0 to |chunks|
      invariant fresh(f) && f.parse == parse && f.Has(Join(chunks[..i]))
    {
      assert chunks[..i + 1][..i] == chunks[..i];
      f.Receive(chunks[i], Join(chunks[..i]));
    }
    assert chunks[..|chunks|] == chunks;
    f.FlushRows();
    batches := f.batches;
    assert Flatten(batches) + [] == Flatten(batches);
  }

  /** text.split('\n') without the empty lines, as watchDelta reads a whole answer. */
  function SplitLines(text: string): seq<string> {
    var l := ReadOn(Nothing, text);
    if l.rest == "" then l.done else l.done + [l.rest]
  }

  /** Reading in lines: a text that is a line without newline, a newline and more; one that
      begins with a newline; and one without any. */
  lemma LinesOf(line: string, more: string)
    requires NoNewline(line)
    ensures line != "" ==> CompleteLines(line + "\n" + more) == [line] + CompleteLines(more)
    ensures CompleteLines("\n" + more) == CompleteLines(more)
    ensures CompleteLines(line) == []
  {
    hide ReadOn, NoNewline;
    ReadLine([], line, more);
    assert [] + [line] == [line];
    DoneFirst([line], "", more);
    ReadOnPlain(Nothing, line);
    OnlyNewline(more);
  }

  lemma OnlyNewline(more: string)
    ensures ReadOn(Nothing, "\n" + more) == ReadOn(Nothing, more)
  {
    assert ("\n" + more)[1..] == more;
  }

  /** Lines already read stay in front. */
  lemma {:induction false} DoneFirst(done: seq<string>, rest: string, text: string)
    ensures ReadOn(Lines(done, rest), text).done == done + ReadOn(Lines([], rest), text).done
    decreases |text|
  {
    if text != "" {
      if text[0] != '\n' {
        DoneFirst(done, rest + [text[0]], text[1..]);
      } else if rest == "" {
        DoneFirst(done, "", text[1..]);
      } else {
        DoneFirst(done + [rest], "", text[1..]);
        DoneFirst([rest], "", text[1..]);
        assert [] + [rest] == [rest];
      }
    }
  }

  /** The streaming reader and the whole-text reader agree exactly on texts that do not
      end inside a line. */
  lemma ReadersAgreeIff(text: string)
    ensures CompleteLines(text) == SplitLines(text) <==> text == "" || text[|text| - 1] == '\n'
  {
    hide ReadOn;
    if text == "" {
      ReadNothing();
    } else {
      var n := |text| - 1;
      assert text == text[..n] + [text[n]];
      ReadOnJoin(Nothing, text[..n], [text[n]]);
      LastChar(ReadOn(Nothing, text[..n]), text[n]);
    }
  }

  lemma ReadNothing()
    ensures ReadOn(Nothing, "") == Nothing
  {
  }

  lemma LastChar(l: Lines, c: char)
    ensures ReadOn(l, [c]).rest == "" <==> c == '\n'
  {
    assert [c][1..] == "";
  }
}
