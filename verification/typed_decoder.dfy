/**
 The decode loop of `jsonStreamRequest`: every line the delegate yields is
 decoded into the target type, and the first failure ends the stream.
 The JSON decoder itself is a parameter.
 */
module TypedDecoder {
  import opened Wrappers
  import opened Bytes
  import opened LineSplitter
  import opened Delegate

  /** The `i`th value of `out` is the successful decode of the `i`th record of `upstream`. */
  ghost predicate DecodedAt<T, E>(
    decode: Bytes -> Result<T, E>, upstream: seq<Output<Bytes, E>>, out: seq<Output<T, E>>, i: nat)
  {
    && i < |upstream| && i < |out| && upstream[i].Yield? && out[i].Yield?
    && decode(upstream[i].value).Ok? && decode(upstream[i].value).value == out[i].value
  }

  /** Every value of `out` is the successful decode of the record at the same
      position of `upstream`. */
  ghost predicate DecodedInPlace<T, E>(
    decode: Bytes -> Result<T, E>, upstream: seq<Output<Bytes, E>>, out: seq<Output<T, E>>)
  {
    forall i: nat :: i < |out| - 1 ==> DecodedAt(decode, upstream, out, i)
  }

  /** `for try await lineData in dataStream { yield(try decode(lineData)) }`,
      then `finish()`, or `finish(throwing:)` with the first error thrown by
      the decoder or by the line stream. */
  function DecodeStream<T, E>(decode: Bytes -> Result<T, E>, upstream: seq<Output<Bytes, E>>)
    : (r: seq<Output<T, E>>)
    ensures WellFormedOutput(r)
    ensures DecodedInPlace(decode, upstream, r)
    decreases |upstream|
  {
    if |upstream| == 0 then [Finish]
    else match upstream[0]
      case Finish => [Finish]
      case FinishErr(e) => [FinishErr(e)]
      case Yield(line) =>
        match decode(line)
        case Err(e) => [FinishErr(e)]
        case Ok(v) =>
          var tail := DecodeStream(decode, upstream[1..]);
          PrependValue(decode, upstream, v, tail);
          [Yield(v)] + tail
  }

  /** A decoded first line in front of the decoded rest keeps the output's shape. */
  lemma {:induction false} PrependValue<T, E>(
    decode: Bytes -> Result<T, E>, upstream: seq<Output<Bytes, E>>, v: T, tail: seq<Output<T, E>>)
    requires |upstream| > 0 && upstream[0].Yield? && decode(upstream[0].value) == Ok(v)
    requires WellFormedOutput(tail)
    requires DecodedInPlace(decode, upstream[1..], tail)
    ensures WellFormedOutput([Yield(v)] + tail)
    ensures DecodedInPlace(decode, upstream, [Yield(v)] + tail)
  {
    var r := [Yield(v)] + tail;
    forall i: nat | i < |r| - 1
      ensures DecodedAt(decode, upstream, r, i)
    {
      if i == 0 {
        assert r[0] == Yield(v);
      } else {
        assert DecodedAt(decode, upstream[1..], tail, i - 1);
        assert r[i] == tail[i - 1];
        assert upstream[i] == upstream[1..][i - 1];
      }
    }
    assert r[|r| - 1] == tail[|tail| - 1];
    assert DecodedInPlace(decode, upstream, r);
  }

  /** Fail-fast decoding of a finished line stream: the output is the decoded
      values of the longest prefix of lines that all decode, then either the
      error of the first line that does not, or the upstream's own ending. */
  lemma {:induction false} DecodeStreamSpec<T, E>(
    decode: Bytes -> Result<T, E>, lines: seq<Bytes>, error: Option<E>)
    ensures var r := DecodeStream(decode, Yields(lines) + [Terminal(error)]);
      && |r| - 1 <= |lines|
      && (forall i :: 0 <= i < |r| - 1 ==> decode(lines[i]).Ok? && r[i] == Yield(decode(lines[i]).value))
      && (|r| - 1 < |lines| ==>
            decode(lines[|r| - 1]).Err? && r[|r| - 1] == FinishErr(decode(lines[|r| - 1]).error))
      && (|r| - 1 == |lines| ==> r[|r| - 1] == Terminal(error))
    decreases |lines|
  {
    var up := Yields(lines) + [Terminal(error)];
    if |lines| == 0 {
      assert up == [Terminal(error)];
    } else if decode(lines[0]).Ok? {
      assert up[0] == Yield(lines[0]);
      assert up[1..] == Yields(lines[1..]) + [Terminal(error)];
      DecodeStreamSpec(decode, lines[1..], error);
    } else {
      assert up[0] == Yield(lines[0]);
    }
  }

  /** Nothing after a line that fails to decode is looked at: whatever records
      or ending follow it, the output is the same. */
  lemma {:induction false} DecodeStopsAtFailure<T, E>(
    decode: Bytes -> Result<T, E>, prefix: seq<Bytes>,
    more: seq<Output<Bytes, E>>, other: seq<Output<Bytes, E>>)
    requires |prefix| > 0 && decode(prefix[|prefix| - 1]).Err?
    ensures DecodeStream(decode, Yields(prefix) + more) == DecodeStream(decode, Yields(prefix) + other)
    decreases |prefix|
  {
    var a := Yields(prefix) + more;
    var b := Yields(prefix) + other;
    assert a[0] == Yield(prefix[0]) && b[0] == Yield(prefix[0]);
    if |prefix| > 1 && decode(prefix[0]).Ok? {
      assert a[1..] == Yields(prefix[1..]) + more;
      assert b[1..] == Yields(prefix[1..]) + other;
      DecodeStopsAtFailure(decode, prefix[1..], more, other);
    }
  }

  /** The streaming request from transport to typed records. */
  function StreamRequest<T, E>(decode: Bytes -> Result<T, E>, events: seq<TransportEvent<E>>)
    : seq<Output<T, E>>
    requires WellFormedTransport(events)
  {
    DecodeStream(decode, Run(events))
  }

  /** The typed records of a streaming request do not depend on how the
      transport cut the body into chunks. */
  lemma {:induction false} StreamRequestChunkingIrrelevant<T, E>(
    decode: Bytes -> Result<T, E>, xs: seq<TransportEvent<E>>, ys: seq<TransportEvent<E>>)
    requires WellFormedTransport(xs) && WellFormedTransport(ys)
    requires Flatten(Chunks(xs)) == Flatten(Chunks(ys))
    requires CompletionError(xs) == CompletionError(ys)
    ensures StreamRequest(decode, xs) == StreamRequest(decode, ys)
  {
    RunChunkingIrrelevant(xs, ys);
  }

  /** End to end: the typed stream of a request is the fail-fast decoding of
      the records of its whole body, followed by the transport's ending. */
  lemma {:induction false} StreamRequestOfBody<T, E>(
    decode: Bytes -> Result<T, E>, events: seq<TransportEvent<E>>)
    requires WellFormedTransport(events)
    ensures StreamRequest(decode, events)
         == DecodeStream(decode, Yields(Records(Flatten(Chunks(events))))
                                 + [Terminal(CompletionError(events))])
  {
    RunRecords(events);
  }

  /** End to end fail-fast: the typed stream is the decoded values of the
      longest prefix of the body's records that all decode, then the first
      decoding error, or the transport's ending when every record decodes. */
  lemma {:induction false} StreamRequestSpec<T, E>(
    decode: Bytes -> Result<T, E>, events: seq<TransportEvent<E>>)
    requires WellFormedTransport(events)
    ensures var lines := Records(Flatten(Chunks(events)));
      var r := StreamRequest(decode, events);
      && |r| - 1 <= |lines|
      && (forall i :: 0 <= i < |r| - 1 ==> decode(lines[i]).Ok? && r[i] == Yield(decode(lines[i]).value))
      && (|r| - 1 < |lines| ==>
            decode(lines[|r| - 1]).Err? && r[|r| - 1] == FinishErr(decode(lines[|r| - 1]).error))
      && (|r| - 1 == |lines| ==> r[|r| - 1] == Terminal(CompletionError(events)))
  {
    StreamRequestOfBody(decode, events);
    DecodeStreamSpec(decode, Records(Flatten(Chunks(events))), CompletionError(events));
  }
}
