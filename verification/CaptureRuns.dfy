/** What holds over whole runs of the capture ring: pushes, windows taken, and counts handed over. */
module CaptureRuns {
  import opened Common
  import opened Captures

  datatype Op = DoPush(bytes: Bytes) | DoWindow | DoHandOver

  datatype Outcome = Pushed | Window(window: Option<(seq<Word>, seq<Word>)>) | HandedOver(dropped: u64)

  function Step(windowSamples: nat, r: Ring, op: Op): (Ring, Outcome) {
    match op
    case DoPush(bytes) => (r.Push(Cap(windowSamples), bytes), Pushed)
    case DoWindow => var (t, w) := r.Window(windowSamples); (t, Window(w))
    case DoHandOver => var (t, n) := r.HandOver(); (t, HandedOver(n))
  }

  function After(windowSamples: nat, ops: seq<Op>): Ring {
    if ops == [] then NEW_RING
    else Step(windowSamples, After(windowSamples, ops[..|ops| - 1]), ops[|ops| - 1]).0
  }

  /** All bytes pushed so far. */
  function Stream(ops: seq<Op>): Bytes {
    if ops == [] then []
    else
      var last := ops[|ops| - 1];
      Stream(ops[..|ops| - 1]) + if last.DoPush? then last.bytes else []
  }

  /** What the drop rule makes of all samples decoded so far. */
  function Decoded(ops: seq<Op>): Filtered {
    Filter(Words(Stream(ops)), false)
  }

  /** How many samples had been kept when the last full window was taken. */
  function Cut(windowSamples: nat, ops: seq<Op>): nat {
    if ops == [] then 0
    else
      var before := ops[..|ops| - 1];
      if ops[|ops| - 1].DoWindow? && |After(windowSamples, before).samples| >= 2 * windowSamples
      then |Decoded(before).kept| else Cut(windowSamples, before)
  }

  /** The counts handed over so far, added up. */
  function HandedOut(windowSamples: nat, ops: seq<Op>): nat {
    if ops == [] then 0
    else
      var before := ops[..|ops| - 1];
      HandedOut(windowSamples, before) + if ops[|ops| - 1].DoHandOver? then After(windowSamples, before).dropped else 0
  }

  // ---- The ring between windows ----

  /** The samples since `cut`, as many as fit; the unfinished sample; the pending drop; the counts. */
  ghost predicate Holds(windowSamples: nat, r: Ring, stream: Bytes, cut: nat, handedOut: nat) {
    var f := Filter(Words(stream), false);
    && cut <= |f.kept|
    && r.samples == LastN(f.kept[cut..], 2 * (windowSamples + 4096))
    && r.tail == Remainder(stream)
    && r.dropping == f.dropping
    && handedOut + r.dropped <= f.dropped
    && (f.dropped <= U64_MAX ==> handedOut + r.dropped == f.dropped)
  }

  lemma {:induction false} NewHolds(windowSamples: nat)
    ensures Holds(windowSamples, NEW_RING, [], 0, 0)
  {
    assert Words([]) == [];
  }

  lemma {:induction false} PushHolds(windowSamples: nat, r: Ring, stream: Bytes, cut: nat, handedOut: nat, bytes: Bytes)
    requires Holds(windowSamples, r, stream, cut, handedOut)
    ensures Holds(windowSamples, r.Push(Cap(windowSamples), bytes), stream + bytes, cut, handedOut)
  {
    hide Words, Remainder, Filter, LastN;
    var f := Filter(Words(stream), false);
    var g := Filter(Words(Remainder(stream) + bytes), f.dropping);
    WordsAppend(stream, bytes);
    FilterAppend(Words(stream), Words(Remainder(stream) + bytes), false);
    LastNTwice(f.kept[cut..], g.kept, Cap(windowSamples));
    assert (f.kept + g.kept)[cut..] == f.kept[cut..] + g.kept;
  }

  lemma {:induction false} WindowHolds(windowSamples: nat, r: Ring, stream: Bytes, cut: nat, handedOut: nat)
    requires Holds(windowSamples, r, stream, cut, handedOut)
    ensures var kept := |Filter(Words(stream), false).kept|;
            Holds(windowSamples, r.Window(windowSamples).0, stream,
                  if |r.samples| >= 2 * windowSamples then kept else cut, handedOut)
  {
    hide Words, Filter;
  }

  /**
   * After any pushes, windows and hand-overs, in any order and any split of the stream: the ring holds
   * the latest samples kept since the last full window, fewer than four bytes wait for the rest of
   * their sample, every decoded sample was kept or dropped, and the counts handed over and held add up
   * to the dropped ones as long as the counter cannot have saturated.
   */
  lemma {:induction false} RingHoldsStream(windowSamples: nat, ops: seq<Op>)
    ensures var r, f := After(windowSamples, ops), Decoded(ops);
            && Holds(windowSamples, r, Stream(ops), Cut(windowSamples, ops), HandedOut(windowSamples, ops))
            && |r.tail| < 4
            && |f.kept| + f.dropped == |Words(Stream(ops))|
  {
    hide Holds, Filter, Words;
    FilterCounts(Words(Stream(ops)), false);
    if ops == [] {
      NewHolds(windowSamples);
    } else {
      var before := ops[..|ops| - 1];
      var r, stream := After(windowSamples, before), Stream(before);
      var cut, handedOut := Cut(windowSamples, before), HandedOut(windowSamples, before);
      RingHoldsStream(windowSamples, before);
      assert stream + [] == stream;
      match ops[|ops| - 1]
      case DoPush(bytes) => PushHolds(windowSamples, r, stream, cut, handedOut, bytes);
      case DoWindow => WindowHolds(windowSamples, r, stream, cut, handedOut);
      case DoHandOver => HandOverHolds(windowSamples, r, stream, cut, handedOut);
    }
    TailIsShort(windowSamples, After(windowSamples, ops), Stream(ops), Cut(windowSamples, ops),
                HandedOut(windowSamples, ops));
  }

  lemma {:induction false} HandOverHolds(windowSamples: nat, r: Ring, stream: Bytes, cut: nat, handedOut: nat)
    requires Holds(windowSamples, r, stream, cut, handedOut)
    ensures Holds(windowSamples, r.HandOver().0, stream, cut, handedOut + r.dropped)
  {
  }

  lemma {:induction false} TailIsShort(windowSamples: nat, r: Ring, stream: Bytes, cut: nat, handedOut: nat)
    requires Holds(windowSamples, r, stream, cut, handedOut)
    ensures |r.tail| < 4
  {
  }

  // ---- Finite samples ----

  lemma {:induction false} HighBits(b0: nat, b1: nat, b2: nat, b3: nat)
    requires b0 < 256 && b1 < 256 && b2 < 256 && b3 < 256
    ensures (b0 + 256 * b1 + 65536 * b2 + 16777216 * b3) / 8388608 == 2 * b3 + b2 / 128
  {
    var low := b0 + 256 * b1 + 65536 * (b2 % 128);
    assert b2 == 128 * (b2 / 128) + b2 % 128;
    assert b0 + 256 * b1 + 65536 * b2 + 16777216 * b3 == 8388608 * (2 * b3 + b2 / 128) + low;
  }

  lemma {:induction false} AllSet(b2: nat, b3: nat)
    requires b2 < 256 && b3 < 256
    ensures (2 * b3 + b2 / 128) % 256 == 255 <==> b3 % 128 == 127 && b2 >= 128
  {
  }

  /** A sample is finite exactly when the eight exponent bits of its 32 are not all set. */
  lemma {:induction false} IsFiniteExact(w: Word)
    ensures var bits := w.b0 as int + 256 * (w.b1 as int) + 65536 * (w.b2 as int) + 16777216 * (w.b3 as int);
            w.IsFinite() <==> bits / 8388608 % 256 != 255
  {
    HighBits(w.b0, w.b1, w.b2, w.b3);
    AllSet(w.b2, w.b3);
  }

  // ---- Channels ----

  /** Where in the stream the kept samples come from. */
  function Positions(words: seq<Word>): seq<nat> {
    if words == [] then []
    else
      var init := words[..|words| - 1];
      var before := Positions(init);
      if !Filter(init, false).dropping && words[|words| - 1].IsFinite() then before + [|init|] else before
  }

  /** Samples are dropped in twos, so every kept sample keeps its channel. */
  lemma {:induction false} KeptKeepTheirChannel(words: seq<Word>)
    ensures var f, p := Filter(words, false), Positions(words);
            && |p| == |f.kept|
            && (f.dropped + if f.dropping then 1 else 0) % 2 == 0
            && (forall k :: 0 <= k < |p| ==> p[k] < |words| && words[p[k]] == f.kept[k] && p[k] % 2 == k % 2)
  {
    if words != [] {
      KeptKeepTheirChannel(words[..|words| - 1]);
      FilterCounts(words[..|words| - 1], false);
    }
  }

  /**
   * Every window of every run, the first or a later one, holds the last samples kept so far, and starts
   * on a left sample exactly when an even number of samples was kept: trimming and emptying the ring do
   * not keep the pairs together.
   */
  lemma {:induction false} WindowAlignedExactly(windowSamples: nat, ops: seq<Op>)
    requires 1 <= windowSamples && After(windowSamples, ops).Window(windowSamples).1.Some?
    ensures var kept, from := Decoded(ops).kept, Positions(Words(Stream(ops)));
            var first := |kept| - 2 * windowSamples;
            && Cut(windowSamples, ops) <= first < |kept| == |from|
            && After(windowSamples, ops).Window(windowSamples).1 ==
               Some((Every(kept[first..], 0), Every(kept[first..], 1)))
            && (from[first] % 2 == 0 <==> |kept| % 2 == 0)
  {
    hide Filter, Positions, Words, After, Stream, Cut, HandedOut, Ring.Window;
    RingHoldsStream(windowSamples, ops);
    KeptKeepTheirChannel(Words(Stream(ops)));
    HeldWindow(windowSamples, After(windowSamples, ops), Stream(ops), Cut(windowSamples, ops),
               HandedOut(windowSamples, ops));
  }

  lemma {:induction false} HeldWindow(windowSamples: nat, r: Ring, stream: Bytes, cut: nat, handedOut: nat)
    requires Holds(windowSamples, r, stream, cut, handedOut) && r.Window(windowSamples).1.Some?
    ensures var kept := Filter(Words(stream), false).kept;
            && cut + 2 * windowSamples <= |kept|
            && r.Window(windowSamples).1 ==
               Some((Every(kept[|kept| - 2 * windowSamples..], 0), Every(kept[|kept| - 2 * windowSamples..], 1)))
  {
    hide Filter, Words, Every;
    LastNOfTail(Filter(Words(stream), false).kept, cut, Cap(windowSamples), 2 * windowSamples);
  }

  lemma {:induction false} LastNOfTail<T>(s: seq<T>, cut: nat, cap: nat, n: nat)
    requires cut <= |s| && n <= cap && n <= |LastN(s[cut..], cap)|
    ensures cut <= |s| - n && LastN(LastN(s[cut..], cap), n) == s[|s| - n..]
  {
  }

  const SILENCE: Word := Word(0, 0, 0, 0)
  const BAD: Word := Word(0, 0, 128, 127)

  function Silence(n: nat): (r: Bytes)
    ensures |r| == 4 * n && Words(r) == seq(n, i => SILENCE)
  {
    seq(4 * n, i => 0)
  }

  /** A chunk that ends after a left sample: the window starts on a right one. */
  lemma {:induction false} WindowOnRightSample()
    ensures var ops := [DoPush(Silence(3))];
            var from := Positions(Words(Stream(ops)));
            && After(1, ops).Window(1).1.Some?
            && |from| == |Decoded(ops).kept| == 3
            && from[|Decoded(ops).kept| - 2] % 2 == 1
  {
    hide Positions;
    var ops := [DoPush(Silence(3))];
    assert ops[..0] == [];
    assert Stream(ops) == [] + Silence(3) == Silence(3);
    KeptSilence(3);
    RingHoldsStream(1, ops);
    assert Cut(1, ops) == Cut(1, []) == 0;
    KeptKeepTheirChannel(Words(Stream(ops)));
  }

  lemma {:induction false} KeptSilence(n: nat)
    ensures Filter(seq(n, i => SILENCE), false) == Filtered(seq(n, i => SILENCE), false, 0)
  {
    var s := seq(n, i => SILENCE);
    if n > 0 {
      KeptSilence(n - 1);
      assert s[..n - 1] == seq(n - 1, i => SILENCE);
      assert s == seq(n - 1, i => SILENCE) + [SILENCE];
    }
  }

  /** The sample of the other channel in the same frame. */
  function Partner(i: nat): nat {
    if i % 2 == 0 then i + 1 else i - 1
  }

  lemma {:induction false} KeptPositions(words: seq<Word>, n: nat, i: nat)
    requires i < n <= |words|
    ensures i in Positions(words[..n]) <==> !Filter(words[..i], false).dropping && words[i].IsFinite()
    ensures forall p :: p in Positions(words[..n]) ==> p < n
  {
    hide Filter;
    assert words[..n][..n - 1] == words[..n - 1];
    assert words[..n][n - 1] == words[n - 1];
    if i < n - 1 {
      KeptPositions(words, n - 1, i);
    } else if n > 1 {
      KeptPositions(words, n - 1, 0);
    }
  }

  /**
   * A bad sample takes the sample after it along. That one is its partner exactly when the bad sample is
   * a left one; the partner of a bad right sample stays, unless it went along with a bad one before it.
   */
  lemma {:induction false} BadSampleTakesNext(words: seq<Word>, i: nat)
    requires i + 1 < |words| && !words[i].IsFinite() && !Filter(words[..i], false).dropping
    ensures i !in Positions(words) && i + 1 !in Positions(words)
    ensures i + 1 == Partner(i) <==> i % 2 == 0
    ensures i % 2 == 1 ==> (Partner(i) in Positions(words) <==> !Filter(words[..i - 1], false).dropping)
  {
    assert words[..|words|] == words;
    KeptPositions(words, |words|, i);
    KeptPositions(words, |words|, i + 1);
    FilterNext(words, i, false);
    if i % 2 == 1 {
      KeptPositions(words, |words|, i - 1);
      FilterNext(words, i - 1, false);
    }
  }

  /** Left, bad right, left, right: the first left and the second right sample stay. */
  lemma {:induction false} PartnersParted()
    ensures var words := [SILENCE, BAD, SILENCE, SILENCE];
            Positions(words) == [0, 3] && Partner(0) == 1 && Partner(3) == 2
  {
    var words := [SILENCE, BAD, SILENCE, SILENCE];
    FilterNothing(words, false);
    FilterNext(words, 0, false);
    FilterNext(words, 1, false);
    FilterNext(words, 2, false);
    assert words[..0] == [];
    assert words[..1][..0] == [] && words[..2][..1] == words[..1] && words[..3][..2] == words[..2];
    assert Positions(words[..1]) == [] + [0];
    assert Positions(words[..2]) == [0];
    assert Positions(words[..3]) == [0];
  }
}
