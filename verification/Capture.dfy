/**
 * The PCM capture ring (crates/kwe-audio-worker/src/main.rs). A sample is its four little-endian
 * bytes; even positions of the stream are the left channel.
 */
module Captures {
  import opened Common

  const MAX_SAMPLE_CHUNK_FRAMES := 4096

  datatype Word = Word(b0: byte, b1: byte, b2: byte, b3: byte) {
    /** `f32::is_finite`: not all eight exponent bits are set. */
    predicate IsFinite() {
      b3 % 128 != 127 || b2 < 128
    }
  }

  function WordAt(s: Bytes, at: nat): Word
    requires at + 4 <= |s|
  {
    Word(s[at], s[at + 1], s[at + 2], s[at + 3])
  }

  /** The complete samples of a byte stream. */
  function Words(s: Bytes): (r: seq<Word>)
    ensures |r| == |s| / 4
    ensures forall i :: 0 <= i < |r| ==> r[i] == WordAt(s, 4 * i)
  {
    seq(|s| / 4, i requires 0 <= i < |s| / 4 => WordAt(s, 4 * i))
  }

  function Remainder(s: Bytes): Bytes {
    s[4 * (|s| / 4)..]
  }

  /** The drop rule: a non-finite sample goes, and the sample after it goes with it. */
  datatype Filtered = Filtered(kept: seq<Word>, dropping: bool, dropped: nat) {
    function Next(w: Word): Filtered {
      if dropping then Filtered(kept, false, dropped + 1)
      else if w.IsFinite() then Filtered(kept + [w], false, dropped)
      else Filtered(kept, true, dropped + 1)
    }
  }

  function Filter(words: seq<Word>, dropping: bool): Filtered {
    if words == [] then Filtered([], dropping, 0)
    else Filter(words[..|words| - 1], dropping).Next(words[|words| - 1])
  }

  function Saturate(n: nat): u64 {
    if n <= U64_MAX then n else U64_MAX
  }

  function Cap(windowSamples: nat): nat {
    (windowSamples + MAX_SAMPLE_CHUNK_FRAMES) * 2
  }

  datatype Ring = Ring(samples: seq<Word>, tail: Bytes, dropping: bool, dropped: u64) {
    function Push(cap: nat, bytes: Bytes): Ring {
      var stream := tail + bytes;
      var f := Filter(Words(stream), dropping);
      Ring(LastN(samples + f.kept, cap), Remainder(stream), f.dropping, Saturate(dropped + f.dropped))
    }

    /** The latest full window and the emptied ring, or nothing and no change. */
    function Window(windowSamples: nat): (Ring, Option<(seq<Word>, seq<Word>)>) {
      if |samples| < 2 * windowSamples then (this, None)
      else
        var window := LastN(samples, 2 * windowSamples);
        (this.(samples := []), Some((Every(window, 0), Every(window, 1))))
    }

    function HandOver(): (Ring, u64) {
      (this.(dropped := 0), dropped)
    }
  }

  const NEW_RING: Ring := Ring([], [], false, 0)

  class Capture {
    const windowSamples: nat
    var samples: seq<Word>
    var byteTail: Bytes
    var dropNextSample: bool
    var nonFiniteDropped: u64

    function State(): Ring
      reads this
    {
      Ring(samples, byteTail, dropNextSample, nonFiniteDropped)
    }

    constructor (windowSamples: nat)
      ensures State() == NEW_RING && this.windowSamples == windowSamples
    {
      this.windowSamples := windowSamples;
      samples := [];
      byteTail := [];
      dropNextSample := false;
      nonFiniteDropped := 0;
    }

    method PushBytes(bytes: Bytes)
      modifies this
      ensures State() == old(State()).Push(Cap(windowSamples), bytes)
    {
      hide Filter, Words, Saturate;
      byteTail := byteTail + bytes;
      var offset := DecodeTail();
      if offset > 0 {
        byteTail := byteTail[offset..];
      }
      Trim(Cap(windowSamples));
    }

    /** The ring is bounded: only the latest samples stay. */
    method Trim(cap: nat)
      modifies this`samples
      ensures samples == LastN(old(samples), cap)
    {
      if |samples| > cap {
        samples := samples[|samples| - cap..];
      }
    }

    /** The decoding loop: every complete sample of the byte tail is kept or dropped. */
    method DecodeTail() returns (offset: nat)
      modifies this`samples, this`dropNextSample, this`nonFiniteDropped
      ensures offset == 4 * (|byteTail| / 4)
      ensures var f := Filter(Words(byteTail), old(dropNextSample));
              && samples == old(samples) + f.kept
              && dropNextSample == f.dropping
              && nonFiniteDropped == Saturate(old(nonFiniteDropped) + f.dropped)
    {
      hide Filter, Words;
      ghost var words := Words(byteTail);
      ghost var n, f := 0, Filtered([], dropNextSample, 0);
      FilterNothing(words, dropNextSample);
      offset := 0;
      while offset + 4 <= |byteTail|
        invariant offset == 4 * n && n <= |words|
        invariant f == Filter(words[..n], old(dropNextSample))
        invariant samples == old(samples) + f.kept && dropNextSample == f.dropping
        invariant nonFiniteDropped == Saturate(old(nonFiniteDropped) + f.dropped)
      {
        var sample := WordAt(byteTail, offset);
        FilterNext(words, n, old(dropNextSample));
        n, f := n + 1, f.Next(sample);
        offset := offset + 4;
        if dropNextSample {
          dropNextSample := false;
          nonFiniteDropped := SaturatingAdd(nonFiniteDropped, 1);
          continue;
        }
        if sample.IsFinite() {
          samples := samples + [sample];
        } else {
          dropNextSample := true;
          nonFiniteDropped := SaturatingAdd(nonFiniteDropped, 1);
        }
      }
      assert words[..n] == words;
    }

    method TakeNonFiniteDropped() returns (dropped: u64)
      modifies this`nonFiniteDropped
      ensures (State(), dropped) == old(State()).HandOver()
    {
      dropped := nonFiniteDropped;
      nonFiniteDropped := 0;
    }

    /** The latest full window, split into alternating samples. */
    method TakeWindow() returns (r: Option<(seq<Word>, seq<Word>)>)
      modifies this`samples
      ensures (State(), r) == old(State()).Window(windowSamples)
    {
      if |samples| < windowSamples * 2 {
        return None;
      }
      var keep := windowSamples * 2;
      if |samples| > keep {
        samples := samples[|samples| - keep..];
      }
      var left: seq<Word> := [];
      var right: seq<Word> := [];
      var i := 0;
      while i + 2 <= |samples|
        invariant i % 2 == 0 && i <= |samples| == keep && samples == LastN(old(samples), keep)
        invariant |left| == |right| == i / 2
        invariant forall k :: 0 <= k < i / 2 ==> left[k] == samples[2 * k] && right[k] == samples[2 * k + 1]
      {
        left := left + [samples[i]];
        right := right + [samples[i + 1]];
        i := i + 2;
      }
      assert left == Every(samples, 0) && right == Every(samples, 1);
      samples := [];
      return Some((left, right));
    }
  }

  /** Every second sample, starting at `first`. */
  function Every(s: seq<Word>, first: nat): (r: seq<Word>)
    requires first < 2
    ensures |r| == (|s| + 1 - first) / 2
    ensures forall k :: 0 <= k < |r| ==> r[k] == s[2 * k + first]
  {
    seq((|s| + 1 - first) / 2, k requires 0 <= k < (|s| + 1 - first) / 2 => s[2 * k + first])
  }

  lemma {:induction false} FilterNothing(words: seq<Word>, dropping: bool)
    ensures Filter(words[..0], dropping) == Filtered([], dropping, 0)
  {
  }

  lemma {:induction false} FilterNext(words: seq<Word>, n: nat, dropping: bool)
    requires n < |words|
    ensures Filter(words[..n + 1], dropping) == Filter(words[..n], dropping).Next(words[n])
  {
    assert words[..n + 1][..n] == words[..n];
  }

  // ---- The ring over any split of the stream ----

  lemma {:induction false} FilterAppend(a: seq<Word>, b: seq<Word>, dropping: bool)
    ensures var f := Filter(a, dropping);
            var g := Filter(b, f.dropping);
            Filter(a + b, dropping) == Filtered(f.kept + g.kept, g.dropping, f.dropped + g.dropped)
  {
    if b == [] {
      assert a + b == a;
      assert Filter(a, dropping).kept + [] == Filter(a, dropping).kept;
    } else {
      var init := b[..|b| - 1];
      FilterAppend(a, init, dropping);
      assert (a + b)[..|a + b| - 1] == a + init;
      assert Filter(a + b, dropping) == Filter(a + init, dropping).Next(b[|b| - 1]);
    }
  }

  lemma {:induction false} WordsAppend(a: Bytes, b: Bytes)
    ensures Words(a + b) == Words(a) + Words(Remainder(a) + b)
    ensures Remainder(a + b) == Remainder(Remainder(a) + b)
    ensures |Remainder(a)| < 4
  {
  }

  lemma {:induction false} LastNTwice<T>(a: seq<T>, b: seq<T>, n: nat)
    ensures LastN(LastN(a, n) + b, n) == LastN(a + b, n)
  {
  }

  /** Two pushes are one push of the bytes together. */
  lemma {:induction false} PushTwice(r: Ring, cap: nat, a: Bytes, b: Bytes)
    ensures r.Push(cap, a).Push(cap, b) == r.Push(cap, a + b)
  {
    hide Words, Remainder, Filter, LastN;
    var f := Filter(Words(r.tail + a), r.dropping);
    var rest := Remainder(r.tail + a) + b;
    var g := Filter(Words(rest), f.dropping);
    assert r.tail + (a + b) == (r.tail + a) + b;
    WordsAppend(r.tail + a, b);
    FilterAppend(Words(r.tail + a), Words(rest), r.dropping);
    LastNTwice(r.samples + f.kept, g.kept, cap);
    assert (r.samples + f.kept) + g.kept == r.samples + (f.kept + g.kept);
  }

  lemma {:induction false} FilterCounts(words: seq<Word>, dropping: bool)
    ensures |Filter(words, dropping).kept| + Filter(words, dropping).dropped == |words|
  {
    if words != [] {
      FilterCounts(words[..|words| - 1], dropping);
    }
  }
}
