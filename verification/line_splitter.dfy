/**
 The line splitter of `AsyncStreamDelegate`: a byte buffer that grows by each
 transport chunk and is drained of every complete newline-terminated line.
 */
module LineSplitter {
  import opened Wrappers
  import opened Bytes

  /** What one drain of the buffer produces: every candidate cut before a
      newline (empty candidates included) and the bytes left in the buffer. */
  datatype Drained = Drained(candidates: seq<Bytes>, rest: Bytes)

  /** What the delegate emits for one chunk and the buffer it keeps. */
  datatype FeedResult = FeedResult(lines: seq<Bytes>, buffer: Bytes)

  /** The extraction loop: cut the prefix before the first newline, drop it
      together with the newline, and repeat until no newline remains. */
  function Drain(buf: Bytes): (d: Drained)
    ensures Join(d.candidates) + d.rest == buf
    ensures NoNewline(d.rest)
    ensures AllNoNewline(d.candidates)
    decreases |buf|
  {
    match IndexOfNewline(buf)
    case None => Drained([], buf)
    case Some(i) =>
      var tail := Drain(buf[i + 1..]);
      DrainStep(buf, i, tail);
      Drained([buf[..i]] + tail.candidates, tail.rest)
  }

  /** One turn of the extraction loop keeps the drain's postcondition. */
  lemma {:induction false} DrainStep(buf: Bytes, i: nat, tail: Drained)
    requires i < |buf| && buf[i] == NEWLINE && NoNewline(buf[..i])
    requires Join(tail.candidates) + tail.rest == buf[i + 1..]
    requires AllNoNewline(tail.candidates)
    ensures Join([buf[..i]] + tail.candidates) + tail.rest == buf
    ensures AllNoNewline([buf[..i]] + tail.candidates)
  {
    var cs := [buf[..i]] + tail.candidates;
    assert cs[0] == buf[..i] && cs[1..] == tail.candidates;
    assert forall k :: 1 <= k < |cs| ==> cs[k] == tail.candidates[k - 1];
    calc {
      Join(cs) + tail.rest;
      (buf[..i] + [NEWLINE] + Join(tail.candidates)) + tail.rest;
      buf[..i] + [NEWLINE] + (Join(tail.candidates) + tail.rest);
      buf[..i] + [NEWLINE] + buf[i + 1..];
      buf;
    }
  }

  /** The drain is the only way to read `buf` as newline-terminated
      newline-free candidates followed by a newline-free remainder. */
  lemma {:induction false} DrainUnique(buf: Bytes, cs: seq<Bytes>, r: Bytes)
    requires Join(cs) + r == buf
    requires NoNewline(r)
    requires AllNoNewline(cs)
    ensures Drain(buf) == Drained(cs, r)
    decreases |cs|
  {
    if |cs| == 0 {
      assert buf == r;
      assert IndexOfNewline(buf) == None;
    } else {
      var head, others := cs[0], cs[1..];
      var tail := Join(others) + r;
      assert AllNoNewline(others) by {
        assert forall k :: 0 <= k < |others| ==> others[k] == cs[k + 1];
      }
      assert buf == head + [NEWLINE] + tail by {
        assert Join(cs) == head + [NEWLINE] + Join(others);
      }
      IndexOfNewlineAfter(head, tail);
      DrainUnique(tail, others, r);
      DrainCons(buf, |head|);
      assert buf[..|head|] == head;
      assert buf[|head| + 1..] == tail;
      assert cs == [head] + others;
    }
  }

  /** Two successive splits of `a` and of `ra + b` combine into one split of `a + b`. */
  lemma {:induction false} SplitSplice(a: Bytes, b: Bytes, ca: seq<Bytes>, ra: Bytes, cb: seq<Bytes>, rb: Bytes)
    requires Join(ca) + ra == a && AllNoNewline(ca)
    requires Join(cb) + rb == ra + b && AllNoNewline(cb)
    ensures Join(ca + cb) + rb == a + b
    ensures AllNoNewline(ca + cb)
  {
    JoinAppend(ca, cb);
    AllNoNewlineAppend(ca, cb);
    calc {
      Join(ca + cb) + rb;
      Join(ca) + (Join(cb) + rb);
      Join(ca) + (ra + b);
      (Join(ca) + ra) + b;
    }
  }

  /** Draining `a + b` is draining `a`, then draining its remainder followed by `b`. */
  lemma {:induction false} DrainConcat(a: Bytes, b: Bytes)
    ensures Drain(a + b).candidates
         == Drain(a).candidates + Drain(Drain(a).rest + b).candidates
    ensures Drain(a + b).rest == Drain(Drain(a).rest + b).rest
  {
    var da := Drain(a);
    var db := Drain(da.rest + b);
    SplitSplice(a, b, da.candidates, da.rest, db.candidates, db.rest);
    DrainUnique(a + b, da.candidates + db.candidates, db.rest);
  }

  /** `didReceive data`: append the chunk, drain, and emit the non-empty candidates. */
  function Feed(buffer: Bytes, chunk: Bytes): FeedResult
  {
    var d := Drain(buffer + chunk);
    FeedResult(NonEmpty(d.candidates), d.rest)
  }

  /** What one chunk leaves behind: every emitted line is non-empty and
      newline-free, and so is the kept buffer. */
  lemma {:induction false} FeedClean(buffer: Bytes, chunk: Bytes)
    ensures CleanLines(Feed(buffer, chunk).lines)
    ensures NoNewline(Feed(buffer, chunk).buffer)
  {
    NonEmptyClean(Drain(buffer + chunk).candidates);
  }

  /** No byte other than a newline is lost or reordered by a chunk: the emitted
      lines followed by the kept buffer are the grown buffer with its newlines
      deleted, and the kept buffer is a suffix of the grown buffer. A chunk
      that brings no newline emits nothing and keeps everything. */
  lemma {:induction false} FeedNoLoss(buffer: Bytes, chunk: Bytes)
    ensures Flatten(Feed(buffer, chunk).lines) + Feed(buffer, chunk).buffer
         == RemoveNewlines(buffer + chunk)
    ensures |Feed(buffer, chunk).buffer| <= |buffer + chunk|
    ensures Feed(buffer, chunk).buffer
         == (buffer + chunk)[|buffer + chunk| - |Feed(buffer, chunk).buffer|..]
    ensures NoNewline(buffer + chunk) ==> Feed(buffer, chunk) == FeedResult([], buffer + chunk)
  {
    var d := Drain(buffer + chunk);
    FlattenNonEmpty(d.candidates);
    RemoveNewlinesJoin(d.candidates);
    RemoveNewlinesAppend(Join(d.candidates), d.rest);
    RemoveNewlinesNone(d.rest);
    if NoNewline(buffer + chunk) {
      DrainUnique(buffer + chunk, [], buffer + chunk);
    }
  }

  /** The records a whole body yields: its non-empty newline-delimited pieces
      in order, then the unterminated tail when it is not empty. Every record
      is clean, and together they are the body without its newlines. */
  function Records(body: Bytes): (r: seq<Bytes>)
    ensures CleanLines(r)
    ensures Flatten(r) == RemoveNewlines(body)
  {
    var d := Drain(body);
    var tail := if |d.rest| > 0 then [d.rest] else [];
    RecordsSpec(d.candidates, d.rest, body);
    NonEmpty(d.candidates) + tail
  }

  lemma {:induction false} RecordsSpec(cs: seq<Bytes>, rest: Bytes, body: Bytes)
    requires Join(cs) + rest == body && AllNoNewline(cs) && NoNewline(rest)
    ensures var tail := if |rest| > 0 then [rest] else [];
      && CleanLines(NonEmpty(cs) + tail)
      && Flatten(NonEmpty(cs) + tail) == RemoveNewlines(body)
  {
    var tail := if |rest| > 0 then [rest] else [];
    var kept := NonEmpty(cs);
    NonEmptyClean(cs);
    forall i | 0 <= i < |kept + tail|
      ensures |(kept + tail)[i]| > 0 && NoNewline((kept + tail)[i])
    {
      if i >= |kept| {
        assert (kept + tail)[i] == rest;
      } else {
        assert (kept + tail)[i] == kept[i];
      }
    }
    FlattenAppend(kept, tail);
    assert Flatten(tail) == rest by {
      if |rest| > 0 {
        assert Flatten(tail) == rest + Flatten([]);
      }
    }
    FlattenNonEmpty(cs);
    RemoveNewlinesJoin(cs);
    RemoveNewlinesAppend(Join(cs), rest);
    RemoveNewlinesNone(rest);
  }

  /** Unfolds one turn of the extraction loop. */
  lemma {:induction false} DrainCons(buf: Bytes, i: nat)
    requires IndexOfNewline(buf) == Some(i)
    ensures Drain(buf).candidates == [buf[..i]] + Drain(buf[i + 1..]).candidates
    ensures Drain(buf).rest == Drain(buf[i + 1..]).rest
  {
  }

  /** One pass of the chunk handler's loop: the line before the first newline
      is emitted unless empty, and the buffer continues after that newline. */
  lemma {:induction false} FeedLoopStep(buf: Bytes, i: nat)
    requires IndexOfNewline(buf) == Some(i)
    ensures i < |buf|
    ensures NonEmpty(Drain(buf).candidates)
         == (if i > 0 then [buf[..i]] else []) + NonEmpty(Drain(buf[i + 1..]).candidates)
    ensures Drain(buf).rest == Drain(buf[i + 1..]).rest
  {
    DrainCons(buf, i);
    NonEmptyAppend([buf[..i]], Drain(buf[i + 1..]).candidates);
    assert NonEmpty([buf[..i]]) == if i > 0 then [buf[..i]] else [];
  }

  /** A buffer without a newline drains to nothing and stays as it is. */
  lemma {:induction false} DrainNone(buf: Bytes)
    requires IndexOfNewline(buf).None?
    ensures Drain(buf) == Drained([], buf)
  {
  }

  /** The chunk handler as the source writes it: a loop over the buffer that
      runs while a newline can be found in it. */
  method FeedLoop(buffer: Bytes, chunk: Bytes) returns (lines: seq<Bytes>, rest: Bytes)
    ensures FeedResult(lines, rest) == Feed(buffer, chunk)
  {
    var buf := buffer + chunk;
    ghost var all := Drain(buf);
    lines := [];
    while true
      invariant NonEmpty(all.candidates) == lines + NonEmpty(Drain(buf).candidates)
      invariant all.rest == Drain(buf).rest
      decreases |buf|
    {
      var found := IndexOfNewline(buf);
      if found.None? {
        DrainNone(buf);
        break;
      }
      var i := found.value;
      var line := buf[..i];
      FeedLoopStep(buf, i);
      ghost var later := NonEmpty(Drain(buf[i + 1..]).candidates);
      buf := buf[i + 1..];
      if |line| > 0 {
        AppendAssoc(lines, [line], later);
        lines := lines + [line];
      } else {
        assert [] + later == later;
      }
    }
    assert NonEmpty(all.candidates) == lines;
    rest := buf;
  }

  /** Feed every chunk in order, starting from `buffer`. */
  function FeedAll(buffer: Bytes, chunks: seq<Bytes>): FeedResult
    decreases |chunks|
  {
    if |chunks| == 0 then FeedResult([], buffer)
    else
      var first := Feed(buffer, chunks[0]);
      var others := FeedAll(first.buffer, chunks[1..]);
      FeedResult(first.lines + others.lines, others.buffer)
  }

  /** Feeding chunks one at a time to a drained buffer emits the non-empty
      candidates of the whole byte string and keeps its remainder. */
  lemma {:induction false} FeedAllDrains(buffer: Bytes, chunks: seq<Bytes>)
    requires NoNewline(buffer)
    ensures FeedAll(buffer, chunks).lines
         == NonEmpty(Drain(buffer + Flatten(chunks)).candidates)
    ensures FeedAll(buffer, chunks).buffer == Drain(buffer + Flatten(chunks)).rest
    decreases |chunks|
  {
    if |chunks| == 0 {
      assert buffer + Flatten(chunks) == buffer;
      DrainUnique(buffer, [], buffer);
    } else {
      var first := Feed(buffer, chunks[0]);
      FeedAllDrains(first.buffer, chunks[1..]);
      FeedAllStep(buffer, chunks);
    }
  }

  /** The inductive step of `FeedAllDrains`: the first chunk's drain followed
      by the drain of everything after it is the drain of the whole. */
  lemma {:induction false} FeedAllStep(buffer: Bytes, chunks: seq<Bytes>)
    requires |chunks| > 0
    requires FeedAll(Feed(buffer, chunks[0]).buffer, chunks[1..]).lines
          == NonEmpty(Drain(Feed(buffer, chunks[0]).buffer + Flatten(chunks[1..])).candidates)
    requires FeedAll(Feed(buffer, chunks[0]).buffer, chunks[1..]).buffer
          == Drain(Feed(buffer, chunks[0]).buffer + Flatten(chunks[1..])).rest
    ensures FeedAll(buffer, chunks).lines
         == NonEmpty(Drain(buffer + Flatten(chunks)).candidates)
    ensures FeedAll(buffer, chunks).buffer == Drain(buffer + Flatten(chunks)).rest
  {
    var grown := buffer + chunks[0];
    var rest := Flatten(chunks[1..]);
    FeedAllCons(buffer, chunks);
    FlattenCons(buffer, chunks);
    DrainLines(grown, rest);
  }

  /** One unfolding of `FeedAll`. */
  lemma {:induction false} FeedAllCons(buffer: Bytes, chunks: seq<Bytes>)
    requires |chunks| > 0
    ensures FeedAll(buffer, chunks).lines
         == Feed(buffer, chunks[0]).lines + FeedAll(Feed(buffer, chunks[0]).buffer, chunks[1..]).lines
    ensures FeedAll(buffer, chunks).buffer
         == FeedAll(Feed(buffer, chunks[0]).buffer, chunks[1..]).buffer
  {
  }

  /** The whole byte string is the grown buffer followed by the later chunks. */
  lemma {:induction false} FlattenCons(buffer: Bytes, chunks: seq<Bytes>)
    requires |chunks| > 0
    ensures Drain(buffer + Flatten(chunks)) == Drain((buffer + chunks[0]) + Flatten(chunks[1..]))
  {
    assert buffer + Flatten(chunks) == (buffer + chunks[0]) + Flatten(chunks[1..]);
  }

  /** `DrainConcat` for the emitted lines: the non-empty candidates of `a + b`. */
  lemma {:induction false} DrainLines(a: Bytes, b: Bytes)
    ensures NonEmpty(Drain(a + b).candidates)
         == NonEmpty(Drain(a).candidates) + NonEmpty(Drain(Drain(a).rest + b).candidates)
    ensures Drain(a + b).rest == Drain(Drain(a).rest + b).rest
  {
    DrainConcat(a, b);
    NonEmptyAppend(Drain(a).candidates, Drain(Drain(a).rest + b).candidates);
  }

  /** Chunk-boundary independence: any two ways of cutting the same bytes into
      chunks emit the same lines in the same order and keep the same buffer. */
  lemma {:induction false} FeedAllChunkingIrrelevant(xs: seq<Bytes>, ys: seq<Bytes>)
    requires Flatten(xs) == Flatten(ys)
    ensures FeedAll([], xs) == FeedAll([], ys)
  {
    FeedAllDrains([], xs);
    FeedAllDrains([], ys);
  }

  /** Feeding chunk by chunk is feeding their concatenation as one chunk. */
  lemma {:induction false} FeedAllOneChunk(chunks: seq<Bytes>)
    ensures FeedAll([], chunks) == Feed([], Flatten(chunks))
  {
    var whole := Flatten(chunks);
    FeedAllDrains([], chunks);
    FeedAllDrains([], [whole]);
    assert Flatten([whole]) == whole + Flatten([]);
    assert FeedAll([], [whole]) == Feed([], whole) by {
      assert [whole][1..] == [];
    }
  }
}
