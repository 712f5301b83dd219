/** Cutting the reader process's output into row lines, whatever the chunks it arrives in. */
module LineFraming {
  import opened Basics

  /** The length of a character in UTF-8. */
  function Utf8(c: char): (n: nat)
    ensures 1 <= n <= 4
  {
    var code := c as int;
    if code < 0x80 then 1 else if code < 0x800 then 2 else if code < 0x10000 then 3 else 4
  }

  function ByteLength(s: string): nat {
    if s == "" then 0 else ByteLength(s[..|s| - 1]) + Utf8(s[|s| - 1])
  }

  lemma {:induction false} ByteLengthConcat(a: string, b: string)
    ensures ByteLength(a + b) == ByteLength(a) + ByteLength(b)
  {
    if b == "" {
      assert a + b == a;
    } else {
      assert (a + b)[..|a + b| - 1] == a + b[..|b| - 1];
      ByteLengthConcat(a, b[..|b| - 1]);
    }
  }

  // ------------------------------------------------------------------------- lines

  datatype Framing = Framing(lines: seq<string>, rest: string)

  /** One character: a newline ends the line being read; an empty line is dropped. */
  function Feed(f: Framing, c: char): Framing {
    if c != '\n' then Framing(f.lines, f.rest + [c])
    else Framing(if f.rest == "" then f.lines else f.lines + [f.rest], "")
  }

  function Frame(f: Framing, text: string): Framing {
    if text == "" then f else Feed(Frame(f, text[..|text| - 1]), text[|text| - 1])
  }

  /** The non-empty lines of a text; the last one needs no newline. */
  function Lines(text: string): seq<string> {
    var f := Frame(Framing([], ""), text);
    if f.rest == "" then f.lines else f.lines + [f.rest]
  }

  lemma {:induction false} FrameConcat(f: Framing, a: string, b: string)
    ensures Frame(f, a + b) == Frame(Frame(f, a), b)
  {
    if b == "" {
      assert a + b == a;
    } else {
      assert (a + b)[..|a + b| - 1] == a + b[..|b| - 1];
      FrameConcat(f, a, b[..|b| - 1]);
    }
  }

  lemma {:induction false} FrameWithoutNewline(f: Framing, text: string)
    requires '\n' !in text
    ensures Frame(f, text) == Framing(f.lines, f.rest + text)
  {
    if text == "" {
      assert f.rest + text == f.rest;
    } else {
      FrameWithoutNewline(f, text[..|text| - 1]);
      assert f.rest + text == f.rest + text[..|text| - 1] + [text[|text| - 1]];
    }
  }

  /** Reading up to a newline, as the loop does with `indexOf` and `slice`. */
  lemma FrameOneLine(lines: seq<string>, line: string, tail: string)
    requires '\n' !in line
    ensures Frame(Framing(lines, ""), line + "\n" + tail)
            == Frame(Framing(if line == "" then lines else lines + [line], ""), tail)
  {
    FrameConcat(Framing(lines, ""), line + "\n", tail);
    FrameConcat(Framing(lines, ""), line, "\n");
    FrameWithoutNewline(Framing(lines, ""), line);
    assert "" + line == line;
    var f := Framing(lines, line);
    assert Frame(f, "\n") == Feed(Frame(f, "\n"[..0]), '\n');
  }

  // -------------------------------------------------------------------- what a run means

  datatype Limits = Limits(maxRows: nat, maxRowBytes: nat, maxOutputBytes: nat)
  datatype ReadError = ResourceLimit | CorruptSource | Timeout
  datatype Ending = Clean | BadExit | TimedOut

  /** The rows of the longest run of acceptable lines. */
  function Parsed<Row>(lines: seq<string>, limits: Limits, parse: string -> Option<Row>): seq<Row> {
    if lines == [] then []
    else
      var before := Parsed(lines[..|lines| - 1], limits, parse);
      var last := lines[|lines| - 1];
      if |before| == |lines| - 1 && ByteLength(last) <= limits.maxRowBytes && parse(last).Some?
      then before + [parse(last).value] else before
  }

  predicate Acceptable<Row>(line: string, limits: Limits, parse: string -> Option<Row>) {
    ByteLength(line) <= limits.maxRowBytes && parse(line).Some?
  }

  predicate OverLimit(text: string, limits: Limits) {
    || (limits.maxOutputBytes > 0 && ByteLength(text) > limits.maxOutputBytes)
    || |Lines(text)| > limits.maxRows
    || exists i :: 0 <= i < |Lines(text)| && ByteLength(Lines(text)[i]) > limits.maxRowBytes
  }

  predicate Malformed<Row>(text: string, parse: string -> Option<Row>) {
    exists i :: 0 <= i < |Lines(text)| && parse(Lines(text)[i]).None?
  }

  lemma {:induction false} ParsedPrefix<Row>(lines: seq<string>, n: nat, limits: Limits, parse: string -> Option<Row>)
    requires n <= |lines|
    ensures |Parsed(lines, limits, parse)| <= |lines|
    ensures Parsed(lines[..n], limits, parse) <= Parsed(lines, limits, parse)
    decreases |lines|
  {
    if n < |lines| {
      assert lines[..|lines| - 1][..n] == lines[..n];
      ParsedPrefix(lines[..|lines| - 1], n, limits, parse);
    } else {
      assert lines[..n] == lines;
      if lines != [] {
        ParsedPrefix(lines[..|lines| - 1], 0, limits, parse);
      }
    }
  }

  /** All lines parse exactly when each one is acceptable. */
  lemma {:induction false} ParsedInFull<Row>(lines: seq<string>, limits: Limits, parse: string -> Option<Row>)
    ensures |Parsed(lines, limits, parse)| <= |lines|
    ensures |Parsed(lines, limits, parse)| == |lines|
            <==> forall i :: 0 <= i < |lines| ==> Acceptable(lines[i], limits, parse)
    ensures forall i :: 0 <= i < |Parsed(lines, limits, parse)| ==>
                          parse(lines[i]) == Some(Parsed(lines, limits, parse)[i])
  {
    if lines != [] {
      ParsedInFull(lines[..|lines| - 1], limits, parse);
    }
  }

  lemma {:induction false} FrameGrows(f: Framing, text: string)
    ensures |f.lines| <= |Frame(f, text).lines| && Frame(f, text).lines[..|f.lines|] == f.lines
    ensures |Frame(f, text).lines| == |f.lines| && f.rest != "" ==> f.rest <= Frame(f, text).rest
    ensures |Frame(f, text).lines| > |f.lines| && f.rest != "" ==> f.rest <= Frame(f, text).lines[|f.lines|]
  {
    if text != "" {
      FrameGrows(f, text[..|text| - 1]);
    }
  }

  lemma {:induction false} RestHasNoNewline(text: string)
    ensures '\n' !in Frame(Framing([], ""), text).rest
  {
    if text != "" {
      RestHasNoNewline(text[..|text| - 1]);
    }
  }

  /** Appending a chunk to the buffer frames the same as appending it to the output. */
  lemma BufferedText(text: string, chunk: string)
    ensures var f := Frame(Framing([], ""), text);
            Frame(Framing(f.lines, ""), f.rest + chunk) == Frame(Framing([], ""), text + chunk)
  {
    var f := Frame(Framing([], ""), text);
    RestHasNoNewline(text);
    FrameWithoutNewline(Framing(f.lines, ""), f.rest);
    assert "" + f.rest == f.rest;
    FrameConcat(Framing(f.lines, ""), f.rest, chunk);
    FrameConcat(Framing([], ""), text, chunk);
  }

  lemma PrefixLength(text: string, all: string)
    requires text <= all
    ensures ByteLength(text) <= ByteLength(all)
  {
    assert all == text + all[|text|..];
    ByteLengthConcat(text, all[|text|..]);
  }

  /** The lines read so far are lines of the whole output, and an unfinished line is the
      start of one. */
  lemma LinesGrow(text: string, tail: string)
    ensures var f, all := Frame(Framing([], ""), text), Lines(text + tail);
            && |f.lines| <= |all| && all[..|f.lines|] == f.lines
            && (f.rest != "" ==> |f.lines| < |all| && f.rest <= all[|f.lines|])
  {
    var f := Frame(Framing([], ""), text);
    FrameConcat(Framing([], ""), text, tail);
    FrameGrows(f, tail);
  }

  // ------------------------------------------------------------------------ the reader

  function IndexOfNewline(s: string): (i: nat)
    ensures i <= |s| && '\n' !in s[..i] && (i < |s| ==> s[i] == '\n')
  {
    if s == "" || s[0] == '\n' then 0
    else
      var i := 1 + IndexOfNewline(s[1..]);
      assert s[..i] == [s[0]] + s[1..][..i - 1];
      i
  }

  lemma {:induction false} FlattenSplit(chunks: seq<string>, i: nat)
    requires i < |chunks|
    ensures Flatten(chunks) == Flatten(chunks[..i]) + chunks[i] + Flatten(chunks[i + 1..])
  {
    if i == 0 {
      assert chunks[..0] == [];
    } else {
      FlattenSplit(chunks[1..], i - 1);
      assert chunks[..i][1..] == chunks[1..][..i - 1] && chunks[1..][i..] == chunks[i + 1..];
    }
  }

  class RowReader<Row> {
    const limits: Limits
    const parse: string -> Option<Row>
    var buffer: string
    var lines: nat
    var outputBytes: nat
    var rows: seq<Row>

    constructor (limits: Limits, parse: string -> Option<Row>)
      ensures this.limits == limits && this.parse == parse
      ensures buffer == "" && lines == 0 && outputBytes == 0 && rows == []
    {
      this.limits, this.parse := limits, parse;
      buffer, lines, outputBytes, rows := "", 0, 0, [];
    }

    /** Everything that has been read is framed, counted and parsed. */
    ghost predicate Read(text: string)
      reads this
    {
      var f := Frame(Framing([], ""), text);
      && buffer == f.rest && lines == |f.lines| <= limits.maxRows
      && rows == Parsed(f.lines, limits, parse) && |rows| == lines
      && outputBytes == ByteLength(text)
      && (limits.maxOutputBytes > 0 ==> outputBytes <= limits.maxOutputBytes)
    }

    /** One complete or final line. */
    method TakeLine(line: string) returns (error: Option<ReadError>)
      modifies this`lines, this`rows
      ensures error.None? ==> lines == old(lines) + 1 <= limits.maxRows && Acceptable(line, limits, parse)
                              && rows == old(rows) + [parse(line).value]
      ensures error.Some? ==> rows == old(rows)
      ensures error == Some(ResourceLimit) ==> old(lines) + 1 > limits.maxRows || ByteLength(line) > limits.maxRowBytes
      ensures error == Some(CorruptSource) ==> parse(line).None?
      ensures error != Some(Timeout)
    {
      lines := lines + 1;
      if lines > limits.maxRows || ByteLength(line) > limits.maxRowBytes {
        return Some(ResourceLimit);
      }
      var row := parse(line);
      if row.None? {
        return Some(CorruptSource);
      }
      rows := rows + [row.value];
      error := None;
    }

    /** What a failure may be blamed on, and what has been yielded by then. */
    ghost predicate Failed(error: ReadError, all: string)
      reads this
    {
      && rows <= Parsed(Lines(all), limits, parse)
      && (error == ResourceLimit ==> OverLimit(all, limits))
      && (error == CorruptSource ==> Malformed(all, parse))
      && error != Timeout
    }

    /** Some complete lines have been taken out of the buffer, and all of them parsed. */
    ghost predicate Took(taken: seq<string>, text: string)
      reads this
    {
      && Frame(Framing(taken, ""), buffer) == Frame(Framing([], ""), text)
      && lines == |taken| <= limits.maxRows && rows == Parsed(taken, limits, parse) && |rows| == lines
    }

    /** Takes the line that ends at `newline` out of the buffer. */
    method TakeNext(newline: nat, ghost taken: seq<string>, ghost text: string, ghost all: string)
      returns (error: Option<ReadError>, ghost taken': seq<string>)
      requires Took(taken, text) && text <= all && newline < |buffer| && buffer[newline] == '\n' && '\n' !in buffer[..newline]
      modifies this`buffer, this`lines, this`rows
      ensures |buffer| < |old(buffer)|
      ensures error.None? ==> Took(taken', text)
      ensures error.Some? ==> Failed(error.value, all)
    {
      var line, tail := buffer[..newline], buffer[newline + 1..];
      assert buffer == line + "\n" + tail;
      FrameOneLine(taken, line, tail);
      buffer := tail;
      error, taken' := None, taken;
      if line != "" {
        taken' := taken + [line];
        TakenLine(taken', tail, text, all);
        assert taken'[..|taken'| - 1] == taken;
        error := TakeLine(line);
      }
    }

    /** The complete lines of the buffer; `done` are the lines taken before. */
    method TakeLines(ghost done: seq<string>, ghost text: string, ghost all: string) returns (error: Option<ReadError>)
      requires Took(done, text) && text <= all
      modifies this`buffer, this`lines, this`rows
      ensures error.None? ==>
                var f := Frame(Framing([], ""), text);
                && buffer == f.rest && lines == |f.lines| <= limits.maxRows
                && rows == Parsed(f.lines, limits, parse) && |rows| == lines
      ensures error.Some? ==> Failed(error.value, all)
    {
      ghost var taken := done;
      var newline := IndexOfNewline(buffer);
      while newline < |buffer|
        invariant newline == IndexOfNewline(buffer) && Took(taken, text)
        decreases |buffer|
      {
        error, taken := TakeNext(newline, taken, text, all);
        if error.Some? {
          return;
        }
        newline := IndexOfNewline(buffer);
      }
      assert buffer[..newline] == buffer;
      FrameWithoutNewline(Framing(taken, ""), buffer);
      assert "" + buffer == buffer;
      error := None;
    }

    /** Lines that framing has completed are the first lines of the whole output. */
    lemma TakenLines(taken: seq<string>, rest: string, text: string, all: string)
      requires Frame(Framing(taken, ""), rest) == Frame(Framing([], ""), text) && text <= all
      ensures taken <= Lines(all)
    {
      FrameGrows(Framing(taken, ""), rest);
      LinesGrow(text, all[|text|..]);
      assert all == text + all[|text|..];
    }

    lemma TakenLine(taken: seq<string>, rest: string, text: string, all: string)
      requires Frame(Framing(taken, ""), rest) == Frame(Framing([], ""), text) && text <= all && taken != []
      ensures |taken| <= |Lines(all)| && taken[|taken| - 1] == Lines(all)[|taken| - 1]
      ensures Parsed(taken[..|taken| - 1], limits, parse) <= Parsed(Lines(all), limits, parse)
    {
      TakenLines(taken, rest, text, all);
      ParsedPrefix(Lines(all), |taken| - 1, limits, parse);
      assert taken[..|taken| - 1] == Lines(all)[..|taken| - 1];
    }

    method TakeChunk(chunk: string, ghost text: string, ghost all: string) returns (error: Option<ReadError>)
      requires Read(text) && text + chunk <= all
      modifies this
      ensures error.None? ==> Read(text + chunk)
      ensures error.Some? ==> Failed(error.value, all)
    {
      ghost var lines' := Frame(Framing([], ""), text).lines;
      ByteLengthConcat(text, chunk);
      UnfinishedLine(text, all);
      outputBytes := outputBytes + ByteLength(chunk);
      if limits.maxOutputBytes > 0 && outputBytes > limits.maxOutputBytes {
        PrefixLength(text + chunk, all);
        return Some(ResourceLimit);
      }
      BufferedText(text, chunk);
      buffer := buffer + chunk;
      error := TakeLines(lines', text + chunk, all);
      if error.None? && ByteLength(buffer) > limits.maxRowBytes {
        UnfinishedLine(text + chunk, all);
        error := Some(ResourceLimit);
      }
    }

    /** An unfinished line that is already too long belongs to a line that is. */
    lemma UnfinishedLine(text: string, all: string)
      requires text <= all
      ensures var f := Frame(Framing([], ""), text);
              && (f.rest != "" && ByteLength(f.rest) > limits.maxRowBytes ==> OverLimit(all, limits))
              && Parsed(f.lines, limits, parse) <= Parsed(Lines(all), limits, parse)
    {
      var f := Frame(Framing([], ""), text);
      LinesGrow(text, all[|text|..]);
      assert all == text + all[|text|..];
      ParsedPrefix(Lines(all), |f.lines|, limits, parse);
      assert f.lines == Lines(all)[..|f.lines|];
      if f.rest != "" {
        var line := Lines(all)[|f.lines|];
        assert line == f.rest + line[|f.rest|..];
        ByteLengthConcat(f.rest, line[|f.rest|..]);
      }
    }

    /** All rows are parsed only from output that is within its row limits and well formed. */
    lemma Blame(all: string)
      ensures |Parsed(Lines(all), limits, parse)| == |Lines(all)| <==>
              !Malformed(all, parse) && forall i :: 0 <= i < |Lines(all)| ==> ByteLength(Lines(all)[i]) <= limits.maxRowBytes
    {
      ParsedInFull(Lines(all), limits, parse);
    }

    ghost predicate Finished(error: Option<ReadError>, all: string)
      reads this
    {
      && rows <= Parsed(Lines(all), limits, parse)
      && (error.None? ==> |rows| == |Lines(all)| && !OverLimit(all, limits) && !Malformed(all, parse))
      && (error == Some(ResourceLimit) ==> OverLimit(all, limits))
      && (error == Some(CorruptSource) ==> Malformed(all, parse))
      && error != Some(Timeout)
    }

    /** The last line, if no newline ended it. */
    method TakeRest(ghost all: string) returns (error: Option<ReadError>)
      requires Read(all)
      modifies this
      ensures Finished(error, all)
    {
      ghost var f := Frame(Framing([], ""), all);
      Blame(all);
      error := None;
      if |buffer| > 0 {
        assert Lines(all)[..|f.lines|] == f.lines && Lines(all)[|f.lines|] == buffer;
        assert Lines(all)[..|Lines(all)| - 1] == f.lines;
        error := TakeLine(buffer);
      }
    }

    method TakeChunks(chunks: seq<string>) returns (error: Option<ReadError>)
      requires Read("")
      modifies this
      ensures error.None? ==> Read(Flatten(chunks))
      ensures error.Some? ==> Failed(error.value, Flatten(chunks))
    {
      assert chunks[..0] == [];
      for i := 0 to |chunks|
        invariant Read(Flatten(chunks[..i]))
      {
        FlattenSplit(chunks, i);
        assert chunks[..i + 1] == chunks[..i] + [chunks[i]];
        FlattenAppend(chunks[..i], chunks[i]);
        error := TakeChunk(chunks[i], Flatten(chunks[..i]), Flatten(chunks));
        if error.Some? {
          return;
        }
      }
      assert chunks[..|chunks|] == chunks;
      error := None;
    }

    /** The whole run: it ends without an error exactly when the output, however it was
        chunked, is within the limits and well formed; it then has yielded the parse of the
        non-empty lines, and otherwise a prefix of it. */
    method StreamRows(chunks: seq<string>, ending: Ending) returns (error: Option<ReadError>)
      requires Read("")
      modifies this
      ensures var all := Flatten(chunks);
              && (error.None? <==> ending == Clean && !OverLimit(all, limits) && !Malformed(all, parse))
              && rows <= Parsed(Lines(all), limits, parse)
              && (error.None? ==> rows == Parsed(Lines(all), limits, parse) && |rows| == |Lines(all)|)
              && (error == Some(ResourceLimit) ==> OverLimit(all, limits))
              && (error == Some(CorruptSource) ==> Malformed(all, parse) || ending == BadExit)
              && (error == Some(Timeout) ==> ending == TimedOut)
    {
      ghost var all := Flatten(chunks);
      error := TakeChunks(chunks);
      if error.None? {
        error := TakeRest(all);
      }
      if error.Some? {
        assert error.value.ResourceLimit? || error.value.CorruptSource?;
        return;
      }
      error := if ending == TimedOut then Some(Timeout) else if ending == BadExit then Some(CorruptSource) else None;
    }
  }
}
