/**
 * The standard-input record segmenter of the `highlight` command line.
 *
 * The `code` buffer gathers the chunks that `readable` events deliver. After every
 * `readable` event, if the terminator is non-empty and the whole buffer now ends with
 * it, the buffer (terminator included) is handed to the printer as one record and
 * reset. The `end` event appends a last chunk and hands over the buffer as the final
 * record, whatever it holds, the empty string included.
 *
 * The pure functions below give the meaning of an event history; the class
 * `StdinSegmenter` is the mutable buffer that the two handlers update.
 */
module Segmenter {
  import opened Wrappers
  import opened Text
  import Cli

  /** The buffer `code` and the records handed to the printer so far, oldest first. */
  datatype State = State(code: string, records: seq<string>)

  /** Before the first event: empty buffer, nothing printed. */
  const Init := State("", [])

  /** The terminator test of the `readable` handler: a falsy (empty) terminator never splits. */
  predicate Completes(terminator: string, code: string) {
    terminator != "" && EndsWith(code, terminator)
  }

  /** One `readable` event whose `read()` returned `chunk`. */
  function Readable(terminator: string, s: State, chunk: Option<string>): (r: State) {
    var code := s.code + Chunk(chunk);
    if Completes(terminator, code) then State("", s.records + [code]) else State(code, s.records)
  }

  /** The state after the `readable` events of `chunks`, in arrival order, starting from `s`. */
  function Run(terminator: string, s: State, chunks: seq<Option<string>>): (r: State) {
    if chunks == [] then s
    else Readable(terminator, Run(terminator, s, chunks[..|chunks| - 1]), chunks[|chunks| - 1])
  }

  /** The `end` event: the buffer plus any last chunk becomes one more record. */
  function Finish(s: State, last: Option<string>): (r: seq<string>) {
    s.records + [s.code + Chunk(last)]
  }

  /** Every record a whole stream produces: `chunks` from `readable` events, then `last` at `end`. */
  function Records(terminator: string, chunks: seq<Option<string>>, last: Option<string>): (r: seq<string>) {
    Finish(Run(terminator, Init, chunks), last)
  }

  /** All the text the non-null reads of `chunks` delivered, in order. */
  function Received(chunks: seq<Option<string>>): (r: string) {
    if chunks == [] then "" else Received(chunks[..|chunks| - 1]) + Chunk(chunks[|chunks| - 1])
  }

  /** A history with one more event is one more readable step. */
  lemma RunSnoc(terminator: string, s: State, chunks: seq<Option<string>>, c: Option<string>)
    ensures Run(terminator, s, chunks + [c]) == Readable(terminator, Run(terminator, s, chunks), c)
    ensures Received(chunks + [c]) == Received(chunks) + Chunk(c)
  {
    assert (chunks + [c])[..|chunks|] == chunks;
  }

  /** A history of one event is one readable step. */
  lemma RunOne(terminator: string, s: State, c: Option<string>)
    ensures Run(terminator, s, [c]) == Readable(terminator, s, c)
    ensures Received([c]) == Chunk(c)
  {
    RunSnoc(terminator, s, [], c);
    assert [] + [c] == [c];
  }

  // ---------------------------------------------------------------------------
  // Properties of one readable event

  /** After a readable event with a non-empty terminator the buffer never ends with it. */
  lemma ReadableLeavesNoTerminator(terminator: string, s: State, chunk: Option<string>)
    requires terminator != ""
    ensures !EndsWith(Readable(terminator, s, chunk).code, terminator)
  {
  }

  /**
   * Only the tail of the whole buffer is compared: a chunk that carries the terminator
   * in its middle, or that leaves the buffer not ending with it, prints nothing.
   */
  lemma OnlyTailSplits(terminator: string, s: State, chunk: string)
    requires Contains(chunk, terminator)
    requires !EndsWith(s.code + chunk, terminator)
    ensures Readable(terminator, s, Some(chunk)) == State(s.code + chunk, s.records)
  {
  }

  /** A `null` read from a buffer that does not end with the terminator changes nothing. */
  lemma NullReadUnchanged(terminator: string, s: State)
    requires terminator == "" || !EndsWith(s.code, terminator)
    ensures Readable(terminator, s, None) == s
  {
    assert s.code + Chunk(None) == s.code;
  }

  // ---------------------------------------------------------------------------
  // Properties of a run of readable events

  /** Running two event lists one after the other is running their concatenation. */
  lemma {:induction false} RunAppend(terminator: string, s: State, xs: seq<Option<string>>, ys: seq<Option<string>>)
    ensures Run(terminator, s, xs + ys) == Run(terminator, Run(terminator, s, xs), ys)
    decreases |ys|
  {
    if ys == [] {
      assert xs + ys == xs;
    } else {
      var n := |ys| - 1;
      assert (xs + ys)[..|xs + ys| - 1] == xs + ys[..n];
      assert (xs + ys)[|xs + ys| - 1] == ys[n];
      RunAppend(terminator, s, xs, ys[..n]);
    }
  }

  /** No text is lost or duplicated: the records followed by the buffer are the old ones plus all input. */
  lemma {:induction false} RunKeepsText(terminator: string, s: State, chunks: seq<Option<string>>)
    ensures var r := Run(terminator, s, chunks);
            Flatten(r.records) + r.code == Flatten(s.records) + s.code + Received(chunks)
  {
    if chunks != [] {
      var front := chunks[..|chunks| - 1];
      var p := Run(terminator, s, front);
      RunKeepsText(terminator, s, front);
      var joined := p.code + Chunk(chunks[|chunks| - 1]);
      assert Received(chunks) == Received(front) + Chunk(chunks[|chunks| - 1]);
      var before := Flatten(s.records) + s.code;
      assert Flatten(p.records) + p.code == before + Received(front);
      calc {
        Flatten(s.records) + s.code + Received(chunks);
        before + (Received(front) + Chunk(chunks[|chunks| - 1]));
        (before + Received(front)) + Chunk(chunks[|chunks| - 1]);
        Flatten(p.records) + joined;
      }
      if Completes(terminator, joined) {
        FlattenSnoc(p.records, joined);
        assert Flatten(p.records + [joined]) + "" == Flatten(p.records) + joined;
      }
    }
  }

  /** Every record in `rs` is a non-empty terminator's completion: it ends with the terminator. */
  predicate Terminated(terminator: string, rs: seq<string>) {
    forall i :: 0 <= i < |rs| ==> Completes(terminator, rs[i])
  }

  /** Every record a readable event prints ends with the (non-empty) terminator. */
  lemma {:induction false} RunRecordsTerminated(terminator: string, s: State, chunks: seq<Option<string>>)
    ensures var r := Run(terminator, s, chunks);
            |s.records| <= |r.records| && r.records[..|s.records|] == s.records &&
            (Terminated(terminator, s.records) ==> Terminated(terminator, r.records))
  {
    if chunks != [] {
      var p := Run(terminator, s, chunks[..|chunks| - 1]);
      RunRecordsTerminated(terminator, s, chunks[..|chunks| - 1]);
      var joined := p.code + Chunk(chunks[|chunks| - 1]);
      if Completes(terminator, joined) {
        var r := Run(terminator, s, chunks);
        assert r.records == p.records + [joined];
        assert r.records[..|s.records|] == p.records[..|s.records|];
        if Terminated(terminator, s.records) {
          forall i | 0 <= i < |r.records|
            ensures Completes(terminator, r.records[i])
          {
            if i < |p.records| {
              assert r.records[i] == p.records[i];
            }
          }
        }
      }
    }
  }

  /** With a non-empty terminator the buffer never ends with it between events. */
  lemma {:induction false} RunLeavesNoTerminator(terminator: string, s: State, chunks: seq<Option<string>>)
    requires terminator != "" && !EndsWith(s.code, terminator)
    ensures !EndsWith(Run(terminator, s, chunks).code, terminator)
  {
    if chunks != [] {
      ReadableLeavesNoTerminator(terminator, Run(terminator, s, chunks[..|chunks| - 1]), chunks[|chunks| - 1]);
    }
  }

  /** With an empty terminator readable events never print: everything stays in the buffer. */
  lemma {:induction false} RunEmptyTerminator(s: State, chunks: seq<Option<string>>)
    ensures Run("", s, chunks) == State(s.code + Received(chunks), s.records)
  {
    if chunks != [] {
      var front := chunks[..|chunks| - 1];
      var c := chunks[|chunks| - 1];
      RunEmptyTerminator(s, front);
      assert !Completes("", s.code + Received(front) + Chunk(c));
      assert Received(chunks) == Received(front) + Chunk(c);
      assert s.code + Received(chunks) == s.code + Received(front) + Chunk(c);
    }
  }

  /** Text in which the terminator never occurs is never split; it all stays in the buffer. */
  lemma {:induction false} RunNoOccurrence(terminator: string, s: State, chunks: seq<Option<string>>)
    requires !Contains(s.code + Received(chunks), terminator)
    ensures Run(terminator, s, chunks) == State(s.code + Received(chunks), s.records)
  {
    if chunks != [] {
      var front := chunks[..|chunks| - 1];
      var c := Chunk(chunks[|chunks| - 1]);
      assert s.code + Received(chunks) == (s.code + Received(front)) + c;
      ContainsPrefix(s.code + Received(front), c, terminator);
      RunNoOccurrence(terminator, s, front);
      EndsWithContains(s.code + Received(chunks), terminator);
    }
  }

  /** A `null` read anywhere in the history is invisible. */
  lemma NullReadInvisible(terminator: string, xs: seq<Option<string>>, ys: seq<Option<string>>)
    ensures Run(terminator, Init, xs + [None] + ys) == Run(terminator, Init, xs + ys)
  {
    var p := Run(terminator, Init, xs);
    if terminator != "" {
      RunLeavesNoTerminator(terminator, Init, xs);
    }
    NullReadUnchanged(terminator, p);
    RunAppend(terminator, Init, xs, [None]);
    RunAppend(terminator, Init, xs + [None], ys);
    RunAppend(terminator, Init, xs, ys);
  }

  // ---------------------------------------------------------------------------
  // Properties of a whole stream

  /** Everything received, readable chunks and the last chunk, comes out exactly once, in order. */
  lemma RecordsKeepText(terminator: string, chunks: seq<Option<string>>, last: Option<string>)
    ensures Flatten(Records(terminator, chunks, last)) == Received(chunks) + Chunk(last)
  {
    var r := Run(terminator, Init, chunks);
    RunKeepsText(terminator, Init, chunks);
    assert Flatten(Init.records) + Init.code + Received(chunks) == Received(chunks);
    FlattenSnoc(r.records, r.code + Chunk(last));
    assert Flatten(r.records) + (r.code + Chunk(last)) == (Flatten(r.records) + r.code) + Chunk(last);
  }

  /** Every record but the final one ends with the terminator; the final one is the buffer plus the last chunk. */
  lemma RecordsShape(terminator: string, chunks: seq<Option<string>>, last: Option<string>)
    ensures var rs := Records(terminator, chunks, last);
            |rs| >= 1 && Terminated(terminator, rs[..|rs| - 1]) &&
            rs[|rs| - 1] == Run(terminator, Init, chunks).code + Chunk(last)
  {
    var r := Run(terminator, Init, chunks);
    RunRecordsTerminated(terminator, Init, chunks);
    var rs := Records(terminator, chunks, last);
    assert rs == r.records + [r.code + Chunk(last)];
    assert rs[..|rs| - 1] == r.records;
  }

  /** With an empty terminator the whole input is exactly one record, printed at end of stream. */
  lemma EmptyTerminatorOneRecord(chunks: seq<Option<string>>, last: Option<string>)
    ensures Records("", chunks, last) == [Received(chunks) + Chunk(last)]
  {
    RunEmptyTerminator(Init, chunks);
    assert "" + Received(chunks) == Received(chunks);
  }

  /** Input in which the terminator never occurs is exactly one record. */
  lemma NoTerminatorOneRecord(terminator: string, chunks: seq<Option<string>>, last: Option<string>)
    requires !Contains(Received(chunks) + Chunk(last), terminator)
    ensures Records(terminator, chunks, last) == [Received(chunks) + Chunk(last)]
  {
    ContainsPrefix(Received(chunks), Chunk(last), terminator);
    assert Init.code + Received(chunks) == Received(chunks);
    RunNoOccurrence(terminator, Init, chunks);
  }

  /**
   * `a + terminator` delivered as one chunk, followed by text `b` free of the terminator
   * (in any chunks), gives exactly two records: `a + terminator`, then `b`.
   */
  lemma TwoRecords(terminator: string, a: string, rest: seq<Option<string>>, last: Option<string>)
    requires terminator != ""
    requires !Contains(Received(rest) + Chunk(last), terminator)
    ensures Records(terminator, [Some(a + terminator)] + rest, last)
            == [a + terminator, Received(rest) + Chunk(last)]
  {
    var first := Run(terminator, Init, [Some(a + terminator)]);
    RunSnoc(terminator, Init, [], Some(a + terminator));
    assert [] + [Some(a + terminator)] == [Some(a + terminator)];
    assert Init.code + Chunk(Some(a + terminator)) == a + terminator;
    assert EndsWith(a + terminator, terminator) by {
      assert (a + terminator)[|a + terminator| - |terminator|..] == terminator;
    }
    assert first == State("", [a + terminator]);
    RunAppend(terminator, Init, [Some(a + terminator)], rest);
    ContainsPrefix(Received(rest), Chunk(last), terminator);
    assert first.code + Received(rest) == Received(rest);
    RunNoOccurrence(terminator, first, rest);
  }

  /**
   * Input that arrives as one chunk ending with the terminator (`foo\0` with the
   * default `\0`) gives that record and then an empty final record.
   */
  lemma TerminatedInputEndsWithEmptyRecord(terminator: string, text: string)
    requires terminator != "" && EndsWith(text, terminator)
    ensures Records(terminator, [Some(text)], None) == [text, ""]
  {
    RunOne(terminator, Init, Some(text));
    assert Init.code + Chunk(Some(text)) == text;
    assert Run(terminator, Init, [Some(text)]) == State("", [text]);
    assert "" + Chunk(None) == "";
  }

  /**
   * Records depend on where the chunks were cut: `a + terminator + b` gives one record
   * when it arrives whole and two when it arrives as `a + terminator` and `b`.
   */
  lemma ChunkingChangesRecords(terminator: string, a: string, b: string)
    requires terminator != "" && b != "" && !Contains(b, terminator)
    requires !EndsWith(a + terminator + b, terminator)
    ensures Received([Some(a + terminator + b)]) == Received([Some(a + terminator), Some(b)])
    ensures Records(terminator, [Some(a + terminator + b)], None) == [a + terminator + b]
    ensures Records(terminator, [Some(a + terminator), Some(b)], None) == [a + terminator, b]
  {
    var whole := a + terminator + b;
    RunOne(terminator, Init, Some(whole));
    assert Init.code + Chunk(Some(whole)) == whole;
    assert Run(terminator, Init, [Some(whole)]) == State(whole, []);
    assert whole + Chunk(None) == whole;

    var split := [Some(a + terminator), Some(b)];
    assert [Some(a + terminator)] + [Some(b)] == split;
    RunOne(terminator, Init, Some(b));
    assert Received([Some(b)]) + Chunk(None) == b;
    TwoRecords(terminator, a, [Some(b)], None);
    RunOne(terminator, Init, Some(a + terminator));
    RunSnoc(terminator, Init, [Some(a + terminator)], Some(b));
  }

  /**
   * One more readable event after any history: the new state is one `Readable` step,
   * its buffer does not end with the non-empty terminator, every record so far ends
   * with it, and records plus buffer are all the input.
   */
  lemma ReadableStep(terminator: string, events: seq<Option<string>>, chunk: Option<string>)
    ensures var r := Run(terminator, Init, events + [chunk]);
            r == Readable(terminator, Run(terminator, Init, events), chunk) &&
            (terminator != "" ==> !EndsWith(r.code, terminator)) &&
            Terminated(terminator, r.records) &&
            Flatten(r.records) + r.code == Received(events + [chunk])
  {
    RunSnoc(terminator, Init, events, chunk);
    if terminator != "" {
      ReadableLeavesNoTerminator(terminator, Run(terminator, Init, events), chunk);
    }
    RunKeepsText(terminator, Init, events + [chunk]);
    RunRecordsTerminated(terminator, Init, events + [chunk]);
    assert Flatten(Init.records) + Init.code + Received(events + [chunk]) == Received(events + [chunk]);
  }

  // ---------------------------------------------------------------------------
  // The mutable segmenter

  /** The `code` buffer shared by the `readable` and `end` handlers. */
  class StdinSegmenter {
    /** `argv.terminator`; the empty string also stands for an absent one (both are falsy). */
    const terminator: string
    /** The `code` buffer. */
    var code: string
    /** Every record handed to `printCode`, in order. */
    var records: seq<string>
    /** Whether the `end` event has fired. */
    var ended: bool
    /** The chunks the `readable` events read, in order. */
    ghost var events: seq<Option<string>>
    /** The chunk the `end` event read. */
    ghost var endChunk: Option<string>

    /** The fields are what the event history means. */
    ghost predicate Valid()
      reads this
    {
      if !ended then State(code, records) == Run(terminator, Init, events)
      else records == Records(terminator, events, endChunk) &&
           code == Run(terminator, Init, events).code + Chunk(endChunk)
    }

    constructor (terminator: string)
      ensures Valid() && this.terminator == terminator
      ensures code == "" && records == [] && !ended && events == []
    {
      this.terminator := terminator;
      code := "";
      records := [];
      ended := false;
      events := [];
      endChunk := None;
    }

    /** The `readable` handler, whose `read()` returned `chunk` (`None` for `null`). */
    method OnReadable(chunk: Option<string>)
      requires Valid() && !ended
      modifies this
      ensures Valid() && !ended && events == old(events) + [chunk]
      ensures var joined := old(code) + Chunk(chunk);
              if terminator != "" && EndsWith(joined, terminator)
              then code == "" && records == old(records) + [joined]
              else code == joined && records == old(records)
      ensures terminator != "" ==> !EndsWith(code, terminator)
      ensures Terminated(terminator, records)
      ensures Flatten(records) + code == Received(events)
    {
      ghost var before := State(code, records);
      if chunk.Some? {
        code := code + chunk.value;
      }
      assert code == before.code + Chunk(chunk);
      if terminator != "" {
        if EndsWith(code, terminator) {
          records := records + [code];
          code := "";
        }
      }
      assert State(code, records) == Readable(terminator, before, chunk);
      ReadableStep(terminator, events, chunk);
      events := events + [chunk];
    }

    /** The `end` handler followed by the promise's `then`: prints the final record, exits with 0. */
    method OnEnd(chunk: Option<string>) returns (exitCode: int)
      requires Valid() && !ended
      modifies this
      ensures Valid() && ended && events == old(events) && endChunk == chunk
      ensures code == old(code) + Chunk(chunk)
      ensures records == old(records) + [old(code) + Chunk(chunk)]
      ensures Flatten(records) == Received(events) + Chunk(chunk)
      ensures exitCode == Cli.ExitCode(Cli.StreamMode) == 0
    {
      ghost var before := State(code, records);
      if chunk.Some? {
        code := code + chunk.value;
      }
      assert code == before.code + Chunk(chunk);
      records := records + [code];
      ended := true;
      endChunk := chunk;
      exitCode := Cli.ExitCode(Cli.StreamMode);
      assert records == Finish(before, chunk);
      RecordsKeepText(terminator, events, chunk);
    }
  }
}
