/** NUL framing of the remote-debugging pipe (crates/kwe-cdp/src/codec.rs). */
module Codec {
  import opened Common

  /** No NUL among positions `from` up to `to`. */
  ghost predicate NoNul(s: Bytes, from: nat, to: nat)
    requires from <= to <= |s|
  {
    forall i :: from <= i < to ==> s[i] != 0
  }

  ghost predicate NulFree(s: Bytes) {
    NoNul(s, 0, |s|)
  }

  function Encode(body: Bytes): Bytes {
    body + [0]
  }

  /** Several bodies on the wire, one after the other. */
  function EncodeAll(bodies: seq<Bytes>): Bytes {
    if bodies == [] then [] else Encode(bodies[0]) + EncodeAll(bodies[1..])
  }

  function FirstNul(s: Bytes): (r: Option<nat>)
    ensures r.None? ==> NulFree(s)
    ensures r.Some? ==> r.value < |s| && s[r.value] == 0 && NoNul(s, 0, r.value)
  {
    if s == [] then None
    else if s[0] == 0 then Some(0)
    else
      var rest := FirstNul(s[1..]);
      if rest.Some? then Some(rest.value + 1) else None
  }

  /** What scanning a whole buffer from its start produces, keeps and concludes. */
  datatype Drained = Drained(messages: seq<Bytes>, rest: Bytes, ok: bool)

  function Drain(max: nat, buffer: Bytes): Drained
    decreases |buffer|
  {
    match FirstNul(buffer)
    case None => Drained([], buffer, |buffer| <= max)
    case Some(end) =>
      if end > max then Drained([], buffer, false)
      else
        var tail := Drain(max, buffer[end + 1..]);
        tail.(messages := [buffer[..end]] + tail.messages)
  }

  /** The incremental decoder. `scanFrom` only remembers where the scan may resume. */
  class Decoder {
    const maxMessageBytes: nat
    var buffer: Bytes
    var scanFrom: nat
    var messages: seq<Bytes>

    ghost predicate Valid()
      reads this
    {
      scanFrom <= |buffer| && NoNul(buffer, 0, scanFrom)
    }

    constructor (max: nat)
      ensures Valid() && maxMessageBytes == max && buffer == [] && messages == []
    {
      maxMessageBytes := max;
      buffer := [];
      scanFrom := 0;
      messages := [];
    }

    /** Resuming the scan gives what scanning everything from the start would give. */
    method Push(bytes: Bytes) returns (ok: bool)
      requires Valid()
      modifies this
      ensures Valid()
      ensures bytes == [] ==> ok && buffer == old(buffer) && messages == old(messages)
      ensures bytes != [] ==>
                Drained(messages, buffer, ok) == After(old(messages), Drain(maxMessageBytes, old(buffer) + bytes))
    {
      hide Drain, FirstNul;
      if |bytes| == 0 {
        return true;
      }
      buffer := buffer + bytes;
      ghost var all := buffer;
      var relative := FirstNul(buffer[scanFrom..]);
      while relative.Some?
        invariant Valid()
        invariant relative == FirstNul(buffer[scanFrom..])
        invariant After(old(messages), Drain(maxMessageBytes, all)) == After(messages, Drain(maxMessageBytes, buffer))
        decreases |buffer|
      {
        ResumeScan(buffer, scanFrom);
        var end := scanFrom + relative.value;
        if end > maxMessageBytes {
          DrainStops(maxMessageBytes, messages, buffer);
          return false;
        }
        DrainTurn(maxMessageBytes, messages, buffer, end);
        var message := buffer[..end];
        messages := messages + [message];
        buffer := buffer[end + 1..];
        scanFrom := 0;
        relative := FirstNul(buffer[scanFrom..]);
      }
      ResumeScan(buffer, scanFrom);
      DrainStops(maxMessageBytes, messages, buffer);
      if |buffer| > maxMessageBytes {
        return false;
      }
      scanFrom := |buffer|;
      return true;
    }

    method TakeMessages() returns (taken: seq<Bytes>)
      requires Valid()
      modifies this`messages
      ensures Valid() && taken == old(messages) && messages == []
    {
      taken := messages;
      messages := [];
    }
  }

  /** A NUL-free prefix can be skipped when looking for the first NUL. */
  lemma {:induction false} ResumeScan(s: Bytes, from: nat)
    requires from <= |s| && NoNul(s, 0, from)
    ensures var r := FirstNul(s[from..]);
            FirstNul(s) == if r.Some? then Some(from + r.value) else None
  {
  }

  lemma {:induction false} FirstNulIs(s: Bytes, k: nat)
    requires k < |s| && s[k] == 0 && NoNul(s, 0, k)
    ensures FirstNul(s) == Some(k)
  {
  }

  // ---- The stream-level meaning ----

  /** The reference: bodies without NULs, each followed by one, and a NUL-free remainder. */
  ghost predicate SplitsInto(s: Bytes, bodies: seq<Bytes>, tail: Bytes) {
    s == EncodeAll(bodies) + tail && NulFree(tail) && forall b :: b in bodies ==> NulFree(b)
  }

  /** Some NUL-free run of the stream is longer than the bound. */
  ghost predicate HasLongRun(s: Bytes, max: nat) {
    exists i :: RunAt(s, i, max)
  }

  ghost predicate RunAt(s: Bytes, i: int, max: nat) {
    0 <= i && i + max < |s| && NoNul(s, i, i + max + 1)
  }

  lemma {:induction false} RunAtShift(s: Bytes, cut: nat, i: nat, max: nat)
    requires cut <= |s|
    ensures RunAt(s[cut..], i, max) <==> RunAt(s, cut + i, max)
  {
  }

  lemma {:induction false} LongRunAfterNul(s: Bytes, end: nat, max: nat)
    requires end < |s| && s[end] == 0 && end <= max
    ensures HasLongRun(s, max) <==> HasLongRun(s[end + 1..], max)
  {
    if HasLongRun(s, max) {
      var i :| RunAt(s, i, max);
      assert i > end;
      RunAtShift(s, end + 1, i - (end + 1), max);
    }
    if HasLongRun(s[end + 1..], max) {
      var i :| RunAt(s[end + 1..], i, max);
      RunAtShift(s, end + 1, i, max);
    }
  }

  /** Nothing is lost, every message keeps to the bound, and failure means an over-long run. */
  ghost predicate Meaning(max: nat, s: Bytes, r: Drained) {
    && s == EncodeAll(r.messages) + r.rest
    && (forall b :: b in r.messages ==> NulFree(b) && |b| <= max)
    && (r.ok <==> !HasLongRun(s, max))
    && (if r.ok then NulFree(r.rest) && |r.rest| <= max else RunAt(r.rest, 0, max))
  }

  lemma {:induction false} DrainMeaning(max: nat, s: Bytes)
    ensures Meaning(max, s, Drain(max, s))
    decreases |s|
  {
    match FirstNul(s)
    case None =>
      StopMeaning(max, s, |s| <= max);
    case Some(end) =>
      if end > max {
        StopMeaning(max, s, false);
      } else {
        DrainMeaning(max, s[end + 1..]);
        DrainFirst(max, s, end);
        FirstMeaning(max, s, end, Drain(max, s[end + 1..]));
      }
  }

  lemma {:induction false} StopMeaning(max: nat, s: Bytes, ok: bool)
    requires if ok then NulFree(s) && |s| <= max else RunAt(s, 0, max)
    ensures Meaning(max, s, Drained([], s, ok))
  {
  }

  lemma {:induction false} FirstMeaning(max: nat, s: Bytes, end: nat, tail: Drained)
    requires FirstNul(s) == Some(end) && end <= max
    requires Meaning(max, s[end + 1..], tail)
    ensures Meaning(max, s, After([s[..end]], tail))
  {
    LongRunAfterNul(s, end, max);
    EncodeFirst(s, end, tail.messages, tail.rest);
  }

  lemma {:induction false} EncodeFirst(s: Bytes, end: nat, later: seq<Bytes>, rest: Bytes)
    requires end < |s| && s[end] == 0
    requires s[end + 1..] == EncodeAll(later) + rest
    ensures s == EncodeAll([s[..end]] + later) + rest
  {
  }

  lemma {:induction false} FirstNulAppend(a: Bytes, b: Bytes)
    ensures FirstNul(a).Some? ==> FirstNul(a + b) == FirstNul(a)
  {
    var r := FirstNul(a);
    if r.Some? {
      FirstNulIs(a + b, r.value);
    }
  }

  /** Draining with messages already produced. */
  function After(before: seq<Bytes>, r: Drained): Drained {
    Drained(before + r.messages, r.rest, r.ok)
  }

  /** Draining in two steps: a failure is final, otherwise the rest is drained with what follows. */
  function Continue(max: nat, first: Drained, b: Bytes): Drained {
    if first.ok then After(first.messages, Drain(max, first.rest + b))
    else Drained(first.messages, first.rest + b, false)
  }

  lemma {:induction false} DrainInSteps(max: nat, a: Bytes, b: Bytes)
    ensures Drain(max, a + b) == Continue(max, Drain(max, a), b)
    decreases |a|
  {
    match FirstNul(a)
    case Some(end) =>
      if end <= max {
        DrainInSteps(max, a[end + 1..], b);
        DrainFirst(max, a, end);
        DrainFirstOfTwo(max, a, b, end);
        ContinueAfter(max, [a[..end]], Drain(max, a[end + 1..]), b);
      } else {
        PoisonStays(max, a, b);
      }
    case None =>
      assert Drain(max, a) == Drained([], a, |a| <= max);
      if |a| > max {
        PoisonStays(max, a, b);
      } else {
        AfterNothing(Drain(max, a + b));
      }
  }

  lemma {:induction false} DrainFirstOfTwo(max: nat, a: Bytes, b: Bytes, end: nat)
    requires FirstNul(a) == Some(end) && end <= max
    ensures Drain(max, a + b) == After([a[..end]], Drain(max, a[end + 1..] + b))
  {
    FirstNulAppend(a, b);
    DrainFirst(max, a + b, end);
    assert (a + b)[end + 1..] == a[end + 1..] + b;
    assert (a + b)[..end] == a[..end];
  }

  lemma {:induction false} AfterNothing(r: Drained)
    ensures After([], r) == r
  {
  }

  lemma {:induction false} ContinueAfter(max: nat, before: seq<Bytes>, first: Drained, b: Bytes)
    ensures Continue(max, After(before, first), b) == After(before, Continue(max, first, b))
  {
  }

  lemma {:induction false} DrainStops(max: nat, produced: seq<Bytes>, s: Bytes)
    requires FirstNul(s).None? || FirstNul(s).value > max
    ensures After(produced, Drain(max, s)) == Drained(produced, s, FirstNul(s).None? && |s| <= max)
  {
  }

  /** One turn of the decoder's loop. */
  lemma {:induction false} DrainTurn(max: nat, produced: seq<Bytes>, s: Bytes, end: nat)
    requires FirstNul(s) == Some(end) && end <= max
    ensures After(produced, Drain(max, s)) == After(produced + [s[..end]], Drain(max, s[end + 1..]))
  {
  }

  lemma {:induction false} DrainFirst(max: nat, s: Bytes, end: nat)
    requires FirstNul(s) == Some(end) && end <= max
    ensures var tail := Drain(max, s[end + 1..]);
            Drain(max, s) == After([s[..end]], tail)
  {
  }

  /** A buffer that starts with an over-long run never drains again. */
  lemma {:induction false} PoisonStays(max: nat, buffer: Bytes, more: Bytes)
    requires RunAt(buffer, 0, max)
    ensures Drain(max, buffer + more) == Drained([], buffer + more, false)
  {
  }

  lemma {:induction false} EncodedStart(x: seq<Bytes>, tail: Bytes)
    requires x != [] && NulFree(x[0])
    ensures var s := EncodeAll(x) + tail;
            && FirstNul(s) == Some(|x[0]|)
            && s[..|x[0]|] == x[0]
            && s[|x[0]| + 1..] == EncodeAll(x[1..]) + tail
  {
    var s := EncodeAll(x) + tail;
    assert s == x[0] + [0] + (EncodeAll(x[1..]) + tail);
    FirstNulIs(s, |x[0]|);
  }

  /** Two splits of one stream into NUL-free bodies are the same split. */
  lemma {:induction false} SplitUnique(s: Bytes, x: seq<Bytes>, xt: Bytes, y: seq<Bytes>, yt: Bytes)
    requires SplitsInto(s, x, xt) && SplitsInto(s, y, yt)
    ensures x == y && xt == yt
    decreases |x|
  {
    assert x == [] ==> s == xt;
    assert y == [] ==> s == yt;
    if x != [] {
      EncodedStart(x, xt);
    }
    if y != [] {
      EncodedStart(y, yt);
    }
    if x != [] && y != [] {
      SplitUnique(s[|x[0]| + 1..], x[1..], xt, y[1..], yt);
    }
  }

  // ---- Runs of pushes ----

  /** Everything produced so far, what is still buffered, and whether the last push succeeded. */
  function PushOne(max: nat, d: Drained, chunk: Bytes): Drained {
    if chunk == [] then d.(ok := true)
    else
      After(d.messages, Drain(max, d.rest + chunk))
  }

  function PushAll(max: nat, chunks: seq<Bytes>): Drained {
    if chunks == [] then Drained([], [], true)
    else PushOne(max, PushAll(max, chunks[..|chunks| - 1]), chunks[|chunks| - 1])
  }

  /** However a stream is cut into pushes, the messages and the buffer are those of the whole stream. */
  lemma {:induction false} ChunksDoNotMatter(max: nat, chunks: seq<Bytes>)
    ensures var d, whole := PushAll(max, chunks), Drain(max, Concat(chunks));
            && d.messages == whole.messages && d.rest == whole.rest
            && (chunks != [] && chunks[|chunks| - 1] != [] ==> d.ok == whole.ok)
            && (!d.ok ==> !whole.ok)
  {
    if chunks != [] {
      var before := chunks[..|chunks| - 1];
      var last := chunks[|chunks| - 1];
      ChunksDoNotMatter(max, before);
      var d := PushAll(max, before);
      DrainInSteps(max, Concat(before), last);
      if last == [] {
        assert Concat(chunks) == Concat(before);
      } else if !Drain(max, Concat(before)).ok {
        DrainMeaning(max, Concat(before));
        PoisonStays(max, d.rest, last);
      }
    }
  }

  /** Failing exactly on over-long runs, and what is decoded when there is none. */
  lemma {:induction false} DecoderExact(max: nat, chunks: seq<Bytes>)
    ensures HasLongRun(Concat(chunks), max) <==>
            exists i :: 0 < i <= |chunks| && !PushAll(max, chunks[..i]).ok
    ensures var d := PushAll(max, chunks);
            && Concat(chunks) == EncodeAll(d.messages) + d.rest
            && (forall b :: b in d.messages ==> NulFree(b) && |b| <= max)
            && (!HasLongRun(Concat(chunks), max) ==> SplitsInto(Concat(chunks), d.messages, d.rest))
  {
    ChunksDoNotMatter(max, chunks);
    DrainMeaning(max, Concat(chunks));
    if HasLongRun(Concat(chunks), max) {
      var i := LastContributing(chunks);
      ChunksDoNotMatter(max, chunks[..i]);
      assert !PushAll(max, chunks[..i]).ok;
    }
    forall i | 0 < i <= |chunks| && !PushAll(max, chunks[..i]).ok
      ensures HasLongRun(Concat(chunks), max)
    {
      FailureIsFinal(max, chunks, i, |chunks|);
      assert chunks[..|chunks|] == chunks;
    }
  }

  /** The last non-empty chunk completes the stream. */
  lemma {:induction false} LastContributing(chunks: seq<Bytes>) returns (i: nat)
    requires Concat(chunks) != []
    ensures 0 < i <= |chunks| && chunks[i - 1] != [] && Concat(chunks[..i]) == Concat(chunks)
    ensures chunks[..i] != [] && chunks[..i][|chunks[..i]| - 1] == chunks[i - 1]
  {
    var n := |chunks|;
    if chunks[n - 1] != [] {
      i := n;
      assert chunks[..n] == chunks;
    } else {
      assert Concat(chunks) == Concat(chunks[..n - 1]);
      i := LastContributing(chunks[..n - 1]);
      assert chunks[..n - 1][..i] == chunks[..i];
    }
  }

  /** After the first failure no message is produced and every later non-empty push fails. */
  lemma {:induction false} FailureIsFinal(max: nat, chunks: seq<Bytes>, i: nat, j: nat)
    requires 0 < i <= j <= |chunks| && !PushAll(max, chunks[..i]).ok
    ensures PushAll(max, chunks[..j]).messages == PushAll(max, chunks[..i]).messages
    ensures RunAt(PushAll(max, chunks[..j]).rest, 0, max)
    ensures j == i || chunks[j - 1] != [] ==> !PushAll(max, chunks[..j]).ok
    decreases j - i
  {
    hide PushOne, RunAt, Drain;
    if i == j {
      ChunksDoNotMatter(max, chunks[..i]);
      DrainMeaning(max, Concat(chunks[..i]));
      assert !Drain(max, Concat(chunks[..i])).ok;
    } else {
      FailureIsFinal(max, chunks, i, j - 1);
      assert chunks[..j][..j - 1] == chunks[..j - 1];
      PushAfterPoison(max, PushAll(max, chunks[..j - 1]), chunks[j - 1]);
    }
  }

  lemma {:induction false} PushAfterPoison(max: nat, d: Drained, chunk: Bytes)
    requires RunAt(d.rest, 0, max)
    ensures PushOne(max, d, chunk).messages == d.messages
    ensures RunAt(PushOne(max, d, chunk).rest, 0, max)
    ensures chunk != [] ==> !PushOne(max, d, chunk).ok
  {
  }
}
