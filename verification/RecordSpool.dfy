/** The buffered spool of normalized records and the batched reader that undoes it. */
module RecordSpool {
  import opened Basics
  import LineFraming

  const FLUSH_BYTES := 65536

  /** How records are written as single lines of text, and read back. */
  datatype Codec<!R> = Codec(encode: R -> string, decode: string -> Option<R>)

  // ------------------------------------------------------------------ the line reader

  predicate IsTerminator(c: char) {
    c == '\n' || c == '\r' || c == '\U{2028}' || c == '\U{2029}'
  }

  predicate OneLine(s: string) {
    forall i :: 0 <= i < |s| ==> s[i] != '\n' && s[i] != '\r' && s[i] != '\U{2028}' && s[i] != '\U{2029}'
  }

  datatype Reader = Reader(lines: seq<string>, line: string, afterCarriageReturn: bool)

  /** One character: a line feed after a carriage return belongs to the same ending. */
  function Read(r: Reader, c: char): Reader {
    if c == '\n' && r.afterCarriageReturn then r.(afterCarriageReturn := false)
    else if IsTerminator(c) then Reader(r.lines + [r.line], "", c == '\r')
    else Reader(r.lines, r.line + [c], false)
  }

  function ReadAll(r: Reader, text: string): Reader {
    if text == "" then r else Read(ReadAll(r, text[..|text| - 1]), text[|text| - 1])
  }

  const START := Reader([], "", false)

  /** The lines of a file; the last one needs no ending. */
  function FileLines(text: string): seq<string> {
    var r := ReadAll(START, text);
    if r.line == "" then r.lines else r.lines + [r.line]
  }

  /** None when a line does not decode. */
  function DecodeLines<R>(codec: Codec<R>, lines: seq<string>): Option<seq<R>> {
    if lines == [] then Some([])
    else
      var before := DecodeLines(codec, lines[..|lines| - 1]);
      var last := codec.decode(lines[|lines| - 1]);
      if before.None? || last.None? then None else Some(before.value + [last.value])
  }

  function ReadBack<R>(codec: Codec<R>, text: string): Option<seq<R>> {
    DecodeLines(codec, FileLines(text))
  }

  // ----------------------------------------------------------------------- the writer

  function Line<R>(codec: Codec<R>, record: R): string {
    codec.encode(record) + "\n"
  }

  function Encoded<R>(codec: Codec<R>, records: seq<R>): string {
    if records == [] then "" else Encoded(codec, records[..|records| - 1]) + Line(codec, records[|records| - 1])
  }

  datatype SpoolError = ResourceLimit | NoRecords

  class Spool<R> {
    const codec: Codec<R>
    const maxBytes: nat
    var file: string
    var removed: bool
    var pending: string
    var bytes: nat
    var count: nat

    constructor (codec: Codec<R>, maxBytes: nat)
      ensures this.codec == codec && this.maxBytes == maxBytes
      ensures file == "" && pending == "" && bytes == 0 && count == 0 && !removed
    {
      this.codec, this.maxBytes := codec, maxBytes;
      file, pending, bytes, count, removed := "", "", 0, 0, false;
    }

    /** The file and the buffer together hold the records appended so far. */
    ghost predicate Holds(records: seq<R>)
      reads this
    {
      && file + pending == Encoded(codec, records)
      && bytes == LineFraming.ByteLength(file + pending) <= maxBytes
      && count == |records|
    }

    method Append(record: R, ghost before: seq<R>) returns (ok: bool)
      requires Holds(before)
      modifies this`file, this`pending, this`bytes, this`count
      ensures ok ==> Holds(before + [record]) && LineFraming.ByteLength(pending) < FLUSH_BYTES
      ensures !ok ==> file == old(file) && LineFraming.ByteLength(Encoded(codec, before + [record])) > maxBytes
    {
      var line := codec.encode(record) + "\n";
      assert (before + [record])[..|before|] == before;
      assert Encoded(codec, before + [record]) == file + pending + line == file + (pending + line);
      LineFraming.ByteLengthConcat(file + pending, line);
      if bytes + LineFraming.ByteLength(line) > maxBytes {
        return false;
      }
      bytes := bytes + LineFraming.ByteLength(line);
      pending := pending + line;
      count := count + 1;
      if LineFraming.ByteLength(pending) >= FLUSH_BYTES {
        file := file + pending;
        pending := "";
      }
      ok := true;
    }

    method AppendAll(records: seq<R>, ghost before: seq<R>) returns (ok: bool)
      requires Holds(before) && LineFraming.ByteLength(pending) < FLUSH_BYTES
      modifies this`file, this`pending, this`bytes, this`count
      ensures ok ==> Holds(before + records) && LineFraming.ByteLength(pending) < FLUSH_BYTES
      ensures !ok ==> LineFraming.ByteLength(file) <= maxBytes
                      && LineFraming.ByteLength(Encoded(codec, before + records)) > maxBytes
    {
      assert before + records[..0] == before;
      for i := 0 to |records|
        invariant Holds(before + records[..i]) && LineFraming.ByteLength(pending) < FLUSH_BYTES
      {
        assert before + records[..i] + [records[i]] == before + records[..i + 1];
        LineFraming.ByteLengthConcat(file, pending);
        ok := Append(records[i], before + records[..i]);
        if !ok {
          PartFits(codec, before, records, i + 1);
          return;
        }
      }
      assert before + records[..|records|] == before + records;
      ok := true;
    }

    method AppendBatches(batches: seq<seq<R>>, ghost before: seq<R>) returns (ok: bool)
      requires Holds(before) && LineFraming.ByteLength(pending) < FLUSH_BYTES
      modifies this`file, this`pending, this`bytes, this`count
      ensures ok ==> Holds(before + Flatten(batches))
      ensures !ok ==> LineFraming.ByteLength(file) <= maxBytes
                      && LineFraming.ByteLength(Encoded(codec, before + Flatten(batches))) > maxBytes
    {
      assert before + Flatten(batches[..0]) == before;
      for i := 0 to |batches|
        invariant Holds(before + Flatten(batches[..i])) && LineFraming.ByteLength(pending) < FLUSH_BYTES
      {
        FlattenAppend(batches[..i], batches[i]);
        assert batches[..i + 1] == batches[..i] + [batches[i]];
        assert before + Flatten(batches[..i]) + batches[i] == before + Flatten(batches[..i + 1]);
        ok := AppendAll(batches[i], before + Flatten(batches[..i]));
        if !ok {
          BatchesFit(codec, before, batches, i + 1);
          return;
        }
      }
      assert batches[..|batches|] == batches;
      ok := true;
    }

    method AppendEverything(metadata: seq<R>, batches: seq<seq<R>>) returns (ok: bool)
      requires Holds([]) && file == ""
      modifies this`file, this`pending, this`bytes, this`count
      ensures ok ==> Holds(metadata + Flatten(batches))
      ensures !ok ==> LineFraming.ByteLength(file) <= maxBytes
                      && LineFraming.ByteLength(Encoded(codec, metadata + Flatten(batches))) > maxBytes
    {
      assert [] + metadata == metadata;
      NothingPending();
      ok := AppendAll(metadata, []);
      if !ok {
        PartFits(codec, [], metadata + Flatten(batches), |metadata|);
        assert [] + (metadata + Flatten(batches))[..|metadata|] == metadata;
        assert [] + (metadata + Flatten(batches)) == metadata + Flatten(batches);
        return;
      }
      ok := AppendBatches(batches, metadata);
    }

    lemma NothingPending()
      requires Holds([]) && file == ""
      ensures LineFraming.ByteLength(pending) < FLUSH_BYTES
    {
      assert file + pending == pending;
    }

    /** The rest of the buffer goes to the file. */
    method FlushPending(ghost records: seq<R>)
      requires Holds(records)
      modifies this`file, this`pending
      ensures file == Encoded(codec, records) && count == old(count)
    {
      if pending != "" {
        file := file + pending;
        pending := "";
      }
      assert file + "" == file;
    }

    /** `materializeRecords`: the metadata and then every message batch, unless the text is
        over the limit or there is nothing to write. */
    method Materialize(metadata: seq<R>, batches: seq<seq<R>>) returns (error: Option<SpoolError>)
      requires Holds([]) && file == "" && !removed
      modifies this
      ensures LineFraming.ByteLength(file) <= maxBytes
      ensures error == Some(ResourceLimit) <==> LineFraming.ByteLength(Encoded(codec, metadata + Flatten(batches))) > maxBytes
      ensures error == Some(NoRecords) <==> metadata + Flatten(batches) == []
      ensures error.None? ==> file == Encoded(codec, metadata + Flatten(batches))
      ensures removed <==> error == Some(NoRecords)
    {
      ghost var records := metadata + Flatten(batches);
      EmptyFits(codec, records);
      var ok := AppendEverything(metadata, batches);
      if !ok {
        return Some(ResourceLimit);
      }
      HoldsWithinLimit(records);
      FlushPending(records);
      if count == 0 {
        removed := true;
        return Some(NoRecords);
      }
      error := None;
    }

    lemma HoldsWithinLimit(records: seq<R>)
      requires Holds(records)
      ensures LineFraming.ByteLength(Encoded(codec, records)) <= maxBytes
      ensures count == 0 <==> records == []
    {
    }
  }

  /** No limit is too small for no records. */
  lemma EmptyFits<R>(codec: Codec<R>, records: seq<R>)
    ensures records == [] ==> LineFraming.ByteLength(Encoded(codec, records)) == 0
  {
  }

  lemma {:induction false} EncodedGrows<R>(codec: Codec<R>, records: seq<R>, n: nat)
    requires n <= |records|
    ensures LineFraming.ByteLength(Encoded(codec, records[..n])) <= LineFraming.ByteLength(Encoded(codec, records))
    decreases |records|
  {
    if n < |records| {
      var before := records[..|records| - 1];
      assert before[..n] == records[..n];
      EncodedGrows(codec, before, n);
      LineFraming.ByteLengthConcat(Encoded(codec, before), Line(codec, records[|records| - 1]));
    } else {
      assert records[..n] == records;
    }
  }

  lemma PartFits<R>(codec: Codec<R>, before: seq<R>, records: seq<R>, n: nat)
    requires n <= |records|
    ensures LineFraming.ByteLength(Encoded(codec, before + records[..n])) <= LineFraming.ByteLength(Encoded(codec, before + records))
  {
    EncodedGrows(codec, before + records, |before| + n);
    assert (before + records)[..|before| + n] == before + records[..n];
  }

  lemma BatchesFit<R>(codec: Codec<R>, before: seq<R>, batches: seq<seq<R>>, n: nat)
    requires n <= |batches|
    ensures LineFraming.ByteLength(Encoded(codec, before + Flatten(batches[..n])))
            <= LineFraming.ByteLength(Encoded(codec, before + Flatten(batches)))
  {
    FlattenPrefix(batches, n);
    PartFits(codec, before, Flatten(batches), |Flatten(batches[..n])|);
    assert Flatten(batches)[..|Flatten(batches[..n])|] == Flatten(batches[..n]);
  }

  lemma {:induction false} FlattenPrefix<R>(batches: seq<seq<R>>, n: nat)
    requires n <= |batches|
    ensures Flatten(batches[..n]) <= Flatten(batches)
  {
    if n > 0 {
      FlattenPrefix(batches[1..], n - 1);
      assert batches[..n][1..] == batches[1..][..n - 1];
    }
  }

  // ------------------------------------------------------------------ the round trip

  /** An encoder of records as JSON objects. */
  ghost predicate EncodesObjects<R(!new)>(codec: Codec<R>) {
    forall r :: codec.decode(codec.encode(r)) == Some(r)
                && codec.encode(r) != "" && codec.encode(r)[|codec.encode(r)| - 1] == '}'
  }

  lemma {:induction false} ReadConcat(r: Reader, a: string, b: string)
    ensures ReadAll(r, a + b) == ReadAll(ReadAll(r, a), b)
  {
    if b == "" {
      assert a + b == a;
    } else {
      assert (a + b)[..|a + b| - 1] == a + b[..|b| - 1];
      ReadConcat(r, a, b[..|b| - 1]);
    }
  }

  /** Text without endings extends the line; any ending in it completes at least one. */
  lemma {:induction false} ReadText(lines: seq<string>, text: string)
    ensures var r := ReadAll(Reader(lines, "", false), text);
            && |lines| <= |r.lines| && r.lines[..|lines|] == lines
            && (OneLine(text) ==> r.lines == lines && r.line == text)
            && (!OneLine(text) ==> |r.lines| > |lines|)
            && (text != "" && !IsTerminator(text[|text| - 1]) ==> r.line != "" && !r.afterCarriageReturn)
            && (r.afterCarriageReturn ==> r.line == "" && |r.lines| > |lines|)
  {
    if text != "" {
      ReadText(lines, text[..|text| - 1]);
    }
  }

  lemma ReadOneRecord<R(!new)>(codec: Codec<R>, lines: seq<string>, record: R)
    requires EncodesObjects(codec)
    ensures var r := ReadAll(Reader(lines, "", false), Line(codec, record));
            && r.line == "" && !r.afterCarriageReturn
            && |lines| < |r.lines|
            && (OneLine(codec.encode(record)) ==> r.lines == lines + [codec.encode(record)])
            && (!OneLine(codec.encode(record)) ==> |r.lines| > |lines| + 1)
  {
    var text := codec.encode(record);
    ReadText(lines, text);
    ReadConcat(Reader(lines, "", false), text, "\n");
    var r := ReadAll(Reader(lines, "", false), text);
    assert ReadAll(r, "\n"[..0]) == r;
    assert ReadAll(r, "\n") == Read(r, '\n');
  }

  predicate AllOneLine<R>(codec: Codec<R>, records: seq<R>) {
    forall i :: 0 <= i < |records| ==> OneLine(codec.encode(records[i]))
  }

  ghost predicate ReadsBack<R>(codec: Codec<R>, records: seq<R>, r: Reader) {
    && r.line == "" && !r.afterCarriageReturn && |r.lines| >= |records|
    && (|r.lines| == |records| <==> AllOneLine(codec, records))
    && (AllOneLine(codec, records) ==> DecodeLines(codec, r.lines) == Some(records))
  }

  lemma ReadOneMore<R(!new)>(codec: Codec<R>, records: seq<R>, r: Reader)
    requires EncodesObjects(codec) && records != [] && ReadsBack(codec, records[..|records| - 1], r)
    ensures ReadsBack(codec, records, ReadAll(r, Line(codec, records[|records| - 1])))
  {
    var n := |records| - 1;
    var before, text := records[..n], codec.encode(records[n]);
    ReadOneRecord(codec, r.lines, records[n]);
    assert r == Reader(r.lines, "", false);
    assert forall i :: 0 <= i < n ==> before[i] == records[i];
    assert AllOneLine(codec, records) <==> AllOneLine(codec, before) && OneLine(text);
    if AllOneLine(codec, records) {
      var lines := r.lines + [text];
      assert lines[..|lines| - 1] == r.lines && lines[|lines| - 1] == text;
      assert codec.decode(text) == Some(records[n]);
      assert records == before + [records[n]];
    }
  }

  lemma {:induction false} ReadRecords<R(!new)>(codec: Codec<R>, records: seq<R>)
    requires EncodesObjects(codec)
    ensures ReadsBack(codec, records, ReadAll(START, Encoded(codec, records)))
  {
    if records != [] {
      var n := |records| - 1;
      var before := records[..n];
      ReadRecords(codec, before);
      ReadConcat(START, Encoded(codec, before), Line(codec, records[n]));
      ReadOneMore(codec, records, ReadAll(START, Encoded(codec, before)));
    }
  }

  lemma {:induction false} DecodedLength<R>(codec: Codec<R>, lines: seq<string>)
    ensures DecodeLines(codec, lines).Some? ==> |DecodeLines(codec, lines).value| == |lines|
  {
    if lines != [] {
      DecodedLength(codec, lines[..|lines| - 1]);
    }
  }

  /** The reader undoes the spool exactly when no encoded record contains a line ending: a
      body with a line or paragraph separator, which JSON does not escape, is cut. */
  lemma RoundTripExactly<R(!new)>(codec: Codec<R>, records: seq<R>)
    requires EncodesObjects(codec)
    ensures ReadBack(codec, Encoded(codec, records)) == Some(records) <==> AllOneLine(codec, records)
  {
    ReadRecords(codec, records);
    DecodedLength(codec, FileLines(Encoded(codec, records)));
  }

  /** Besides, no part of an encoded object that lacks its end is an object. */
  ghost predicate EncodesWhole<R(!new)>(codec: Codec<R>) {
    EncodesObjects(codec) && forall r, k :: 0 <= k < |codec.encode(r)| ==> codec.decode(codec.encode(r)[..k]).None?
  }

  lemma {:induction false} LinesStay(r: Reader, text: string)
    ensures var r' := ReadAll(r, text); |r.lines| <= |r'.lines| && r'.lines[..|r.lines|] == r.lines
  {
    if text != "" {
      LinesStay(r, text[..|text| - 1]);
    }
  }

  /** A text that contains an ending begins with a line of its own. */
  lemma {:induction false} FirstPiece(lines: seq<string>, text: string) returns (k: nat)
    requires !OneLine(text)
    ensures var r := ReadAll(Reader(lines, "", false), text); k < |text| && |lines| < |r.lines| && r.lines[|lines|] == text[..k]
  {
    var n := |text| - 1;
    var before := ReadAll(Reader(lines, "", false), text[..n]);
    ReadText(lines, text[..n]);
    if OneLine(text[..n]) {
      k := n;
    } else {
      k := FirstPiece(lines, text[..n]);
      LinesStay(before, text[n..]);
      assert text[..n] + text[n..] == text;
      ReadConcat(Reader(lines, "", false), text[..n], text[n..]);
      assert before.lines[|lines|] == ReadAll(before, text[n..]).lines[..|before.lines|][|lines|];
      assert text[..n][..k] == text[..k];
    }
  }

  lemma {:induction false} EncodedParts<R>(codec: Codec<R>, records: seq<R>, n: nat) returns (rest: string)
    requires n <= |records|
    ensures Encoded(codec, records) == Encoded(codec, records[..n]) + rest
    decreases |records|
  {
    var m := |records| - 1;
    if n == |records| {
      assert records[..n] == records;
      rest := "";
    } else {
      assert records[..m][..n] == records[..n];
      rest := EncodedParts(codec, records[..m], n);
      rest := rest + Line(codec, records[m]);
    }
  }

  /** The first piece of a record that is cut stands among the lines read back. */
  lemma CutLineIsRead<R(!new)>(codec: Codec<R>, records: seq<R>, i: nat) returns (j: nat, k: nat)
    requires EncodesObjects(codec) && i < |records| && !OneLine(codec.encode(records[i]))
    ensures var lines, text := ReadAll(START, Encoded(codec, records)).lines, codec.encode(records[i]);
            j < |lines| && k < |text| && lines[j] == text[..k]
  {
    var text := codec.encode(records[i]);
    var r := ReadAll(START, Encoded(codec, records[..i]));
    ReadRecords(codec, records[..i]);
    j := |r.lines|;
    k := FirstPiece(r.lines, text);
    var more := EncodedParts(codec, records, i + 1);
    assert records[..i + 1][..i] == records[..i];
    assert Encoded(codec, records) == Encoded(codec, records[..i]) + (text + ("\n" + more));
    ReadConcat(START, Encoded(codec, records[..i]), text + ("\n" + more));
    ReadConcat(r, text, "\n" + more);
    LinesStay(ReadAll(r, text), "\n" + more);
    assert ReadAll(r, text).lines[j] == ReadAll(START, Encoded(codec, records)).lines[..|ReadAll(r, text).lines|][j];
  }

  lemma UndecodedLine<R>(codec: Codec<R>, lines: seq<string>, j: nat)
    requires j < |lines| && codec.decode(lines[j]).None?
    ensures DecodeLines(codec, lines).None?
  {
    OneMoreLine(codec, lines, j);
    DecodeFails(codec, lines, j + 1);
  }

  lemma CutIsNotRead<R(!new)>(codec: Codec<R>, records: seq<R>, i: nat)
    requires EncodesWhole(codec) && i < |records| && !OneLine(codec.encode(records[i]))
    ensures ReadBack(codec, Encoded(codec, records)).None?
  {
    var text := codec.encode(records[i]);
    var j, k := CutLineIsRead(codec, records, i);
    assert codec.decode(text[..k]).None?;
    UndecodedLine(codec, FileLines(Encoded(codec, records)), j);
  }

  /** What the spool holds is read back whole, or not at all: not at all exactly when an encoded
      record contains a line ending. */
  lemma ReadsBackExactly<R(!new)>(codec: Codec<R>, records: seq<R>)
    requires EncodesWhole(codec)
    ensures ReadBack(codec, Encoded(codec, records)) == if AllOneLine(codec, records) then Some(records) else None
  {
    RoundTripExactly(codec, records);
    if !AllOneLine(codec, records) {
      var i :| 0 <= i < |records| && !OneLine(codec.encode(records[i]));
      CutIsNotRead(codec, records, i);
    }
  }

  /** `fileRecordSource`: the decoded lines in batches of a bounded size; on a line that does
      not decode, the batches before it have been yielded. */
  method ReadBatches<R(==)>(codec: Codec<R>, file: string, batchSize: int) returns (batches: seq<seq<R>>, ok: bool)
    ensures Bounded(batches, Max(1, Min(1000, batchSize)))
    ensures ok == ReadBack(codec, file).Some?
    ensures ok ==> Flatten(batches) == ReadBack(codec, file).value
  {
    var size := Max(1, Min(1000, batchSize));
    var lines := FileLines(file);
    var batch: seq<R> := [];
    ghost var records: seq<R> := [];
    batches := [];
    assert lines[..0] == [];
    for i := 0 to |lines|
      invariant DecodeLines(codec, lines[..i]) == Some(records)
      invariant Collected(batches, batch, size, records)
    {
      OneMoreLine(codec, lines, i);
      var record := codec.decode(lines[i]);
      if record.None? {
        DecodeFails(codec, lines, i + 1);
        return batches, false;
      }
      batches, batch := Collect(batches, batch, record.value, size, records);
      records := records + [record.value];
    }
    assert lines[..|lines|] == lines;
    batches := CollectRest(batches, batch, size, records);
    ok := true;
  }

  lemma OneMoreLine<R>(codec: Codec<R>, lines: seq<string>, i: nat)
    requires i < |lines|
    ensures var before, last := DecodeLines(codec, lines[..i]), codec.decode(lines[i]);
            DecodeLines(codec, lines[..i + 1]) == if before.None? || last.None? then None else Some(before.value + [last.value])
  {
    assert lines[..i + 1][..i] == lines[..i];
  }

  lemma {:induction false} DecodeFails<R>(codec: Codec<R>, lines: seq<string>, n: nat)
    requires n <= |lines| && DecodeLines(codec, lines[..n]).None?
    ensures DecodeLines(codec, lines).None?
    decreases |lines|
  {
    if n < |lines| {
      assert lines[..|lines| - 1][..n] == lines[..n];
      DecodeFails(codec, lines[..|lines| - 1], n);
    } else {
      assert lines[..n] == lines;
    }
  }
}
