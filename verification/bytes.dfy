/**
 Byte strings, the newline delimiter and the sequence operations the line
 splitter is specified with. A Swift `Data` value is a `Bytes` here.
 */
module Bytes {
  import opened Wrappers

  type Bytes = seq<bv8>

  /** The record delimiter searched for by the splitter, `Data([0x0A])`. */
  const NEWLINE: bv8 := 0x0A

  /** `s` holds no newline byte. */
  predicate NoNewline(s: Bytes)
  {
    forall i :: 0 <= i < |s| ==> s[i] != NEWLINE
  }

  /** No line of `lines` holds a newline byte. */
  predicate AllNoNewline(lines: seq<Bytes>)
  {
    forall i :: 0 <= i < |lines| ==> NoNewline(lines[i])
  }

  /** Every line of `lines` is a record the splitter may emit: non-empty and newline-free. */
  predicate CleanLines(lines: seq<Bytes>)
  {
    forall i :: 0 <= i < |lines| ==> |lines[i]| > 0 && NoNewline(lines[i])
  }

  /** Position of the first newline in `s`, the model of `Data.range(of: Data([0x0A]))`. */
  function IndexOfNewline(s: Bytes): (r: Option<nat>)
    ensures r.None? <==> NoNewline(s)
    ensures r.Some? ==> r.value < |s| && s[r.value] == NEWLINE && NoNewline(s[..r.value])
  {
    if |s| == 0 then None
    else if s[0] == NEWLINE then Some(0)
    else
      match IndexOfNewline(s[1..])
      case None => None
      case Some(j) =>
        assert s[1..][..j] == s[1..j + 1];
        assert s[..j + 1] == [s[0]] + s[1..j + 1];
        Some(j + 1)
  }

  /** Concatenation of sequences is associative. */
  lemma AppendAssoc<T>(a: seq<T>, b: seq<T>, c: seq<T>)
    ensures a + (b + c) == (a + b) + c
  {
  }

  /** The first newline of `a + [NEWLINE] + b` is the one right after `a`, when `a` has none. */
  lemma {:induction false} IndexOfNewlineAfter(a: Bytes, b: Bytes)
    requires NoNewline(a)
    ensures IndexOfNewline(a + [NEWLINE] + b) == Some(|a|)
  {
    var s := a + [NEWLINE] + b;
    assert s[|a|] == NEWLINE;
    assert s[..|a|] == a;
  }

  /** Every line followed by its newline terminator: the wire form of `lines`. */
  function Join(lines: seq<Bytes>): Bytes
  {
    if |lines| == 0 then [] else lines[0] + [NEWLINE] + Join(lines[1..])
  }

  /** The lines concatenated with no separator at all. */
  function Flatten(parts: seq<Bytes>): Bytes
  {
    if |parts| == 0 then [] else parts[0] + Flatten(parts[1..])
  }

  /** The lines that are not empty, in their original order. */
  function NonEmpty(lines: seq<Bytes>): seq<Bytes>
  {
    if |lines| == 0 then []
    else if |lines[0]| == 0 then NonEmpty(lines[1..])
    else [lines[0]] + NonEmpty(lines[1..])
  }

  /** `s` with every newline byte deleted. */
  function RemoveNewlines(s: Bytes): Bytes
  {
    if |s| == 0 then []
    else if s[0] == NEWLINE then RemoveNewlines(s[1..])
    else [s[0]] + RemoveNewlines(s[1..])
  }

  lemma {:induction false} JoinAppend(a: seq<Bytes>, b: seq<Bytes>)
    ensures Join(a + b) == Join(a) + Join(b)
  {
    if |a| > 0 {
      assert (a + b)[1..] == a[1..] + b;
      JoinAppend(a[1..], b);
    } else {
      assert a + b == b;
    }
  }

  lemma {:induction false} FlattenAppend(a: seq<Bytes>, b: seq<Bytes>)
    ensures Flatten(a + b) == Flatten(a) + Flatten(b)
  {
    if |a| > 0 {
      assert (a + b)[1..] == a[1..] + b;
      FlattenAppend(a[1..], b);
    } else {
      assert a + b == b;
    }
  }

  lemma {:induction false} NonEmptyAppend(a: seq<Bytes>, b: seq<Bytes>)
    ensures NonEmpty(a + b) == NonEmpty(a) + NonEmpty(b)
  {
    if |a| > 0 {
      assert (a + b)[1..] == a[1..] + b;
      NonEmptyAppend(a[1..], b);
    } else {
      assert a + b == b;
    }
  }

  /** Dropping the empty lines does not change their concatenation. */
  lemma {:induction false} FlattenNonEmpty(lines: seq<Bytes>)
    ensures Flatten(NonEmpty(lines)) == Flatten(lines)
  {
    if |lines| > 0 {
      FlattenNonEmpty(lines[1..]);
      if |lines[0]| > 0 {
        FlattenAppend([lines[0]], NonEmpty(lines[1..]));
        assert Flatten([lines[0]]) == lines[0] + Flatten([]);
      }
    }
  }

  lemma {:induction false} AllNoNewlineAppend(a: seq<Bytes>, b: seq<Bytes>)
    requires AllNoNewline(a) && AllNoNewline(b)
    ensures AllNoNewline(a + b)
  {
    forall i | 0 <= i < |a + b| ensures NoNewline((a + b)[i]) {
      if i >= |a| {
        assert (a + b)[i] == b[i - |a|];
      }
    }
  }

  /** Dropping the empty lines from newline-free lines leaves records only. */
  lemma {:induction false} NonEmptyClean(lines: seq<Bytes>)
    requires AllNoNewline(lines)
    ensures CleanLines(NonEmpty(lines))
  {
    if |lines| > 0 {
      assert AllNoNewline(lines[1..]) by {
        forall i | 0 <= i < |lines[1..]| ensures NoNewline(lines[1..][i]) {
          assert lines[1..][i] == lines[i + 1];
        }
      }
      NonEmptyClean(lines[1..]);
      if |lines[0]| > 0 {
        var r := [lines[0]] + NonEmpty(lines[1..]);
        assert forall i :: 1 <= i < |r| ==> r[i] == NonEmpty(lines[1..])[i - 1];
      }
    }
  }

  lemma {:induction false} RemoveNewlinesAppend(a: Bytes, b: Bytes)
    ensures RemoveNewlines(a + b) == RemoveNewlines(a) + RemoveNewlines(b)
  {
    if |a| > 0 {
      assert (a + b)[1..] == a[1..] + b;
      RemoveNewlinesAppend(a[1..], b);
    } else {
      assert a + b == b;
    }
  }

  lemma {:induction false} RemoveNewlinesNone(s: Bytes)
    requires NoNewline(s)
    ensures RemoveNewlines(s) == s
  {
    if |s| > 0 {
      assert NoNewline(s[1..]) by {
        assert forall k :: 0 <= k < |s[1..]| ==> s[1..][k] == s[k + 1];
      }
      RemoveNewlinesNone(s[1..]);
      assert s == [s[0]] + s[1..];
    }
  }

  /** Deleting the terminators from the wire form of newline-free lines gives their concatenation. */
  lemma {:induction false} RemoveNewlinesJoin(lines: seq<Bytes>)
    requires AllNoNewline(lines)
    ensures RemoveNewlines(Join(lines)) == Flatten(lines)
  {
    if |lines| > 0 {
      assert AllNoNewline(lines[1..]) by {
        assert forall i :: 0 <= i < |lines[1..]| ==> lines[1..][i] == lines[i + 1];
      }
      RemoveNewlinesJoin(lines[1..]);
      RemoveNewlinesAppend(lines[0] + [NEWLINE], Join(lines[1..]));
      RemoveNewlinesAppend(lines[0], [NEWLINE]);
      RemoveNewlinesNone(lines[0]);
      assert RemoveNewlines([NEWLINE]) == [];
    }
  }
}
