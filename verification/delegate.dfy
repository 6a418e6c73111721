/**
 `AsyncStreamDelegate` driven by a finished transport: the URL session's
 callbacks become a list of events, and the continuation's calls become a
 list of outputs.
 */
module Delegate {
  import opened Wrappers
  import opened Bytes
  import opened LineSplitter

  /** One transport callback: `didReceive data`, or `didCompleteWithError`
      with no error (`Complete`) or with one (`Failed`). */
  datatype TransportEvent<E> = Chunk(data: Bytes) | Complete | Failed(error: E)

  /** One continuation call: `yield`, `finish()` or `finish(throwing:)`. */
  datatype Output<T, E> = Yield(value: T) | Finish | FinishErr(error: E)

  /** What the URL session delivers: chunks, then exactly one completion. */
  predicate WellFormedTransport<E>(events: seq<TransportEvent<E>>)
  {
    && |events| > 0
    && !events[|events| - 1].Chunk?
    && forall i :: 0 <= i < |events| - 1 ==> events[i].Chunk?
  }

  /** What follows a chunk event is again a finished transport. */
  lemma {:induction false} TransportTail<E>(events: seq<TransportEvent<E>>)
    requires WellFormedTransport(events) && events[0].Chunk?
    ensures WellFormedTransport(events[1..])
  {
    var rest := events[1..];
    assert rest[|rest| - 1] == events[|events| - 1];
    forall i | 0 <= i < |rest| - 1 ensures rest[i].Chunk? {
      assert rest[i] == events[i + 1];
    }
  }

  /** A finished stream: values, then exactly one termination. */
  predicate WellFormedOutput<T, E>(out: seq<Output<T, E>>)
  {
    && |out| > 0
    && !out[|out| - 1].Yield?
    && forall i :: 0 <= i < |out| - 1 ==> out[i].Yield?
  }

  /** One `yield` per value, in order. */
  function Yields<T, E>(values: seq<T>): seq<Output<T, E>>
  {
    seq(|values|, i requires 0 <= i < |values| => Yield(values[i]))
  }

  /** The termination that reports the completion error, if there is one. */
  function Terminal<T, E>(error: Option<E>): Output<T, E>
  {
    match error
    case None => Finish
    case Some(e) => FinishErr(e)
  }

  /** The bytes of the leading chunk events. */
  function Chunks<E>(events: seq<TransportEvent<E>>): seq<Bytes>
  {
    if |events| == 0 || !events[0].Chunk? then []
    else [events[0].data] + Chunks(events[1..])
  }

  /** The error the first completion event carries, if any. */
  function CompletionError<E>(events: seq<TransportEvent<E>>): Option<E>
  {
    if |events| == 0 then None
    else match events[0]
      case Chunk(_) => CompletionError(events[1..])
      case Complete => None
      case Failed(e) => Some(e)
  }

  /** `didCompleteWithError`: flush a non-empty buffer as the last record,
      then finish, with the error when one is given. */
  function CompleteWith<E>(buffer: Bytes, error: Option<E>): (r: seq<Output<Bytes, E>>)
    ensures WellFormedOutput(r)
    ensures r[|r| - 1] == Terminal(error)
    ensures |r| == 2 <==> |buffer| > 0
    ensures |r| == 1 <==> |buffer| == 0
    ensures |r| == 2 ==> r[0] == Yield(buffer)
  {
    (if |buffer| > 0 then [Yield(buffer)] else []) + [Terminal(error)]
  }

  /** The delegate's whole life from a buffer that holds no newline: every
      record it yields is non-empty and newline-free, and the stream ends with
      the transport's own completion. */
  function RunFrom<E>(buffer: Bytes, events: seq<TransportEvent<E>>): (r: seq<Output<Bytes, E>>)
    requires WellFormedTransport(events)
    requires NoNewline(buffer)
    ensures WellFormedOutput(r)
    ensures r[|r| - 1] == Terminal(CompletionError(events))
    ensures forall i :: 0 <= i < |r| - 1 ==> |r[i].value| > 0 && NoNewline(r[i].value)
    decreases |events|
  {
    match events[0]
    case Complete => CompleteWith(buffer, None)
    case Failed(e) => CompleteWith(buffer, Some(e))
    case Chunk(data) =>
      var fed := Feed(buffer, data);
      FeedClean(buffer, data);
      TransportTail(events);
      var tail := RunFrom(fed.buffer, events[1..]);
      PrependLines(fed.lines, tail);
      Yields(fed.lines) + tail
  }

  /** Clean lines yielded before a clean stream keep it clean. */
  lemma {:induction false} PrependLines<E>(lines: seq<Bytes>, tail: seq<Output<Bytes, E>>)
    requires CleanLines(lines)
    requires WellFormedOutput(tail)
    requires forall i :: 0 <= i < |tail| - 1 ==> |tail[i].value| > 0 && NoNewline(tail[i].value)
    ensures WellFormedOutput(Yields(lines) + tail)
    ensures (Yields(lines) + tail)[|lines| + |tail| - 1] == tail[|tail| - 1]
    ensures forall i :: 0 <= i < |lines| + |tail| - 1 ==>
      var r := Yields(lines) + tail; |r[i].value| > 0 && NoNewline(r[i].value)
  {
    var r := Yields(lines) + tail;
    forall i | 0 <= i < |r| - 1
      ensures r[i].Yield? && |r[i].value| > 0 && NoNewline(r[i].value)
    {
      if i >= |lines| {
        assert r[i] == tail[i - |lines|];
      }
    }
  }

  /** The splitter from its initial, empty buffer. */
  function Run<E>(events: seq<TransportEvent<E>>): seq<Output<Bytes, E>>
    requires WellFormedTransport(events)
  {
    RunFrom([], events)
  }

  /** Yielding two lists of values in turn yields their concatenation. */
  lemma YieldsAppend<T, E>(a: seq<T>, b: seq<T>)
    ensures Yields<T, E>(a + b) == Yields<T, E>(a) + Yields<T, E>(b)
  {
  }

  /** Running the delegate is feeding every chunk, then completing with what
      the buffer still holds. */
  lemma {:induction false} RunFromFeedAll<E>(buffer: Bytes, events: seq<TransportEvent<E>>)
    requires WellFormedTransport(events)
    requires NoNewline(buffer)
    ensures RunFrom(buffer, events)
         == Yields(FeedAll(buffer, Chunks(events)).lines)
          + CompleteWith(FeedAll(buffer, Chunks(events)).buffer, CompletionError(events))
    decreases |events|
  {
    match events[0]
    case Complete =>
      assert Chunks(events) == [];
    case Failed(e) =>
      assert Chunks(events) == [];
    case Chunk(data) =>
      var fed := Feed(buffer, data);
      var later := events[1..];
      RunFromChunk(buffer, events);
      RunFromFeedAll(fed.buffer, later);
      var all := FeedAll(fed.buffer, Chunks(later));
      FeedAllCons(buffer, Chunks(events));
      YieldsAppend<Bytes, E>(fed.lines, all.lines);
  }

  /** One chunk event: its lines are yielded, then the rest of the run
      continues from the buffer it keeps. */
  lemma {:induction false} RunFromChunk<E>(buffer: Bytes, events: seq<TransportEvent<E>>)
    requires WellFormedTransport(events)
    requires NoNewline(buffer)
    requires events[0].Chunk?
    ensures WellFormedTransport(events[1..])
    ensures NoNewline(Feed(buffer, events[0].data).buffer)
    ensures RunFrom(buffer, events)
         == Yields(Feed(buffer, events[0].data).lines)
          + RunFrom(Feed(buffer, events[0].data).buffer, events[1..])
    ensures Chunks(events) == [events[0].data] + Chunks(events[1..])
    ensures CompletionError(events) == CompletionError(events[1..])
  {
    TransportTail(events);
    FeedClean(buffer, events[0].data);
  }

  /** The records of a whole response are fixed by its bytes alone: the
      non-empty newline-free pieces of the body between newlines, in order,
      then the unterminated tail if it is non-empty, then the completion. */
  lemma {:induction false} RunSpec<E>(events: seq<TransportEvent<E>>)
    requires WellFormedTransport(events)
    ensures Run(events)
         == Yields(NonEmpty(Drain(Flatten(Chunks(events))).candidates))
          + CompleteWith(Drain(Flatten(Chunks(events))).rest, CompletionError(events))
  {
    RunFromFeedAll([], events);
    FeedAllDrains([], Chunks(events));
    assert [] + Flatten(Chunks(events)) == Flatten(Chunks(events));
  }

  /** Completion yields the non-empty buffer as a record, then the ending. */
  lemma {:induction false} CompleteAsYields<E>(buffer: Bytes, error: Option<E>)
    ensures CompleteWith(buffer, error)
         == Yields<Bytes, E>(if |buffer| > 0 then [buffer] else []) + [Terminal(error)]
  {
    if |buffer| > 0 {
      assert Yields<Bytes, E>([buffer]) == [Yield(buffer)];
    } else {
      assert Yields<Bytes, E>([]) == [];
    }
  }

  /** A run yields exactly the records of the concatenated body, then the
      transport's own ending. */
  lemma {:induction false} RunRecords<E>(events: seq<TransportEvent<E>>)
    requires WellFormedTransport(events)
    ensures Run(events)
         == Yields(Records(Flatten(Chunks(events)))) + [Terminal(CompletionError(events))]
  {
    var d := Drain(Flatten(Chunks(events)));
    var tail := if |d.rest| > 0 then [d.rest] else [];
    var end: Output<Bytes, E> := Terminal(CompletionError(events));
    RunSpec(events);
    YieldsAppend<Bytes, E>(NonEmpty(d.candidates), tail);
    CompleteAsYields(d.rest, CompletionError(events));
    AppendAssoc(Yields<Bytes, E>(NonEmpty(d.candidates)), Yields<Bytes, E>(tail), [end]);
  }

  /** The records of a response whose bytes are the newline-terminated
      newline-free `lines` followed by the newline-free `tail`: the non-empty
      lines, then `tail` if it is non-empty, then the completion. */
  lemma {:induction false} RunOfLines<E>(events: seq<TransportEvent<E>>, lines: seq<Bytes>, tail: Bytes)
    requires WellFormedTransport(events)
    requires Flatten(Chunks(events)) == Join(lines) + tail
    requires AllNoNewline(lines)
    requires NoNewline(tail)
    ensures Run(events) == Yields(NonEmpty(lines)) + CompleteWith(tail, CompletionError(events))
  {
    RunSpec(events);
    DrainUnique(Flatten(Chunks(events)), lines, tail);
  }

  /** Chunk-boundary independence for the whole delegate: two transports that
      deliver the same bytes and end the same way produce the same records. */
  lemma {:induction false} RunChunkingIrrelevant<E>(xs: seq<TransportEvent<E>>, ys: seq<TransportEvent<E>>)
    requires WellFormedTransport(xs) && WellFormedTransport(ys)
    requires Flatten(Chunks(xs)) == Flatten(Chunks(ys))
    requires CompletionError(xs) == CompletionError(ys)
    ensures Run(xs) == Run(ys)
  {
    RunSpec(xs);
    RunSpec(ys);
  }

  /** A response that is a lone newline yields no record, only the completion. */
  lemma LoneNewlineYieldsNothing<E>()
    ensures Run<E>([Chunk([NEWLINE]), Complete]) == [Finish]
  {
    var bytes: Bytes := [NEWLINE];
    assert [] + bytes == bytes;
    assert IndexOfNewline(bytes) == Some(0);
    assert bytes[..0] == [] && bytes[1..] == [];
    assert Drain([]) == Drained([], []);
    assert Drain(bytes) == Drained([[]], []);
    assert NonEmpty([[]]) == [];
    var events: seq<TransportEvent<E>> := [Chunk(bytes), Complete];
    assert events[1..] == [Complete];
    assert Run(events) == Yields([]) + RunFrom([], [Complete]);
  }

  /** A record split across two chunks is reassembled: `x\n` plus the head of
      `y` in one chunk and the rest of `y\n` in the next yield `x`, then `y`. */
  lemma {:induction false} RecordAcrossChunks<E>(
    x: Bytes, y1: Bytes, y2: Bytes, events: seq<TransportEvent<E>>)
    requires |x| > 0 && |y1 + y2| > 0
    requires NoNewline(x) && NoNewline(y1 + y2)
    requires events == [Chunk(x + [NEWLINE] + y1), Chunk(y2 + [NEWLINE]), Complete]
    ensures WellFormedTransport(events)
    ensures Run(events) == [Yield(x), Yield(y1 + y2), Finish]
  {
    var y := y1 + y2;
    var bytes := x + [NEWLINE] + y + [NEWLINE];
    TwoChunks<E>(x + [NEWLINE] + y1, y2 + [NEWLINE], Complete);
    assert CompletionError<E>([Complete]) == None;
    TwoRecords(x, y);
    assert Flatten(Chunks(events)) == Join([x, y]) + [] by {
      assert x + [NEWLINE] + y1 + (y2 + [NEWLINE]) == bytes;
    }
    RunOfLines(events, [x, y], []);
    assert Yields<Bytes, E>([x, y]) == [Yield(x), Yield(y)];
    assert CompleteWith<E>([], None) == [Finish];
  }

  /** The bytes and the ending of a two-chunk transport. */
  lemma {:induction false} TwoChunks<E>(c1: Bytes, c2: Bytes, end: TransportEvent<E>)
    requires !end.Chunk?
    ensures Flatten(Chunks([Chunk(c1), Chunk(c2), end])) == c1 + c2
    ensures CompletionError([Chunk(c1), Chunk(c2), end]) == CompletionError([end])
  {
    var events := [Chunk(c1), Chunk(c2), end];
    assert events[1..] == [Chunk(c2), end];
    assert events[1..][1..] == [end];
    assert Chunks<E>([end]) == [];
    assert Chunks(events[1..]) == [c2] + Chunks<E>([end]);
    assert Chunks(events) == [c1, c2];
    assert Flatten([c1, c2]) == c1 + Flatten([c2]) by {
      assert [c1, c2][1..] == [c2];
    }
    assert Flatten([c2]) == c2 + Flatten([]);
  }

  /** The wire form of two newline-free records, neither of them empty. */
  lemma {:induction false} TwoRecords(x: Bytes, y: Bytes)
    requires |x| > 0 && |y| > 0
    requires NoNewline(x) && NoNewline(y)
    ensures Join([x, y]) == x + [NEWLINE] + y + [NEWLINE]
    ensures NonEmpty([x, y]) == [x, y]
  {
    assert Join([x, y]) == x + [NEWLINE] + Join([y]) by {
      assert [x, y][1..] == [y];
    }
    assert Join([y]) == y + [NEWLINE] + Join([]);
    assert [x, y][1..] == [y];
    assert NonEmpty([y]) == [y] + NonEmpty([]);
    assert NonEmpty([x, y]) == [x] + NonEmpty([y]);
  }

  /** An unterminated last record is still delivered, before the transport's
      error ends the stream. */
  lemma {:induction false} TailFlushedBeforeError<E>(x: Bytes, e: E)
    requires |x| > 0 && NoNewline(x)
    ensures Run<E>([Chunk(x), Failed(e)]) == [Yield(x), FinishErr(e)]
  {
    var events: seq<TransportEvent<E>> := [Chunk(x), Failed(e)];
    assert Flatten(Chunks(events)) == x by {
      assert events[1..] == [Failed(e)];
      assert Chunks(events) == [x];
      assert Flatten([x]) == x + Flatten([]);
    }
    assert CompletionError(events) == Some(e) by {
      assert events[1..] == [Failed(e)];
    }
    DrainUnique(x, [], x);
    RunSpec(events);
    assert Yields<Bytes, E>(NonEmpty([])) == [];
    assert CompleteWith(x, Some(e)) == [Yield(x), FinishErr(e)];
  }
}
