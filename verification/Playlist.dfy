/** Playlists and the choice of the next entry (crates/kwe-core/src/playlist.rs). */
module Playlists {
  import opened Common
  import opened RustStrings

  const MAX_ENTRIES := 1024
  const MIN_DURATION_SECONDS := 10
  const MAX_DURATION_SECONDS := 24 * 60 * 60
  const MAX_TRANSITION_SECONDS := 10

  datatype Transition = NoTransition | Crossfade

  datatype PlaylistError = IdentityInvalid | EntryLimit | EntriesInvalid | TimingInvalid

  predicate ValidName(s: string) {
    s != "" && Utf8Length(s) <= 128
  }

  datatype Playlist = Playlist(
    id: string,
    title: string,
    entries: seq<string>,
    shuffle: bool,
    repeating: bool,
    durationSeconds: u32,
    transition: Transition,
    transitionSeconds: byte)
  {
    predicate ValidIdentity() {
      ValidName(id) && !IsBlank(title) && |title| <= 256
    }

    ghost predicate ValidEntries() {
      Distinct(entries) && forall e :: e in entries ==> ValidName(e)
    }

    predicate ValidTiming() {
      && MIN_DURATION_SECONDS <= durationSeconds <= MAX_DURATION_SECONDS
      && transitionSeconds <= MAX_TRANSITION_SECONDS
      && (transition == NoTransition ==> transitionSeconds == 0)
    }

    ghost predicate Valid() {
      ValidIdentity() && |entries| <= MAX_ENTRIES && ValidEntries() && ValidTiming()
    }

    /** The first check that fails, in the order the checks are made. */
    ghost function Validation(): Result<(), PlaylistError> {
      if !ValidIdentity() then Err(IdentityInvalid)
      else if |entries| > MAX_ENTRIES then Err(EntryLimit)
      else if !ValidEntries() then Err(EntriesInvalid)
      else if !ValidTiming() then Err(TimingInvalid)
      else Ok(())
    }

    // ---- Choosing the next entry ----

    /** Only the first MAX_ENTRIES exclusions are looked at. */
    predicate Eligible(index: nat, excluded: seq<string>)
      requires index < |entries|
    {
      entries[index] !in (if |excluded| <= MAX_ENTRIES then excluded else excluded[..MAX_ENTRIES])
    }

    function InRange(current: Option<nat>): Option<nat> {
      if current.Some? && current.value < |entries| then current else None
    }

    /** The shuffle candidates below `upto`, in index order. */
    function Alternatives(current: Option<nat>, excluded: seq<string>, upto: nat): (r: seq<nat>)
      requires upto <= |entries|
      ensures forall i: nat :: i in r <==> i < upto && Some(i) != current && Eligible(i, excluded)
    {
      if upto == 0 then []
      else
        var before := Alternatives(current, excluded, upto - 1);
        if Some(upto - 1) != current && Eligible(upto - 1, excluded) then before + [upto - 1] else before
    }

    /** The sequential scan: positions `start + offset`, wrapped, until an eligible one. */
    function Scan(start: nat, offset: nat, excluded: seq<string>): (r: Option<nat>)
      requires offset <= |entries|
      ensures r.Some? ==> r.value < |entries|
      decreases |entries| - offset
    {
      if offset == |entries| then None
      else
        var unwrapped := start + offset;
        if !repeating && unwrapped >= |entries| then None
        else
          var index := unwrapped % |entries|;
          if Eligible(index, excluded) then Some(index) else Scan(start, offset + 1, excluded)
    }

    function Start(current: Option<nat>): nat {
      if current.Some? then current.value + 1 else 0
    }

    function NextEligible(current: Option<nat>, seed: u64, excluded: seq<string>): (r: Option<nat>)
      ensures r.Some? ==> r.value < |entries|
    {
      if |entries| == 0 then None
      else
        var here := InRange(current);
        if shuffle then
          var choices := Alternatives(here, excluded, |entries|);
          if |choices| > 0 then
            assert choices[Pick(seed, |choices|)] in choices;
            Some(choices[Pick(seed, |choices|)])
          else if here.Some? && repeating && Eligible(here.value, excluded) then here
          else None
        else
          Scan(Start(here), 0, excluded)
    }
  }

  // ---- The shuffle mix ----

  /** Bitwise exclusive or. */
  function Xor(a: nat, b: nat): nat {
    if a == 0 && b == 0 then 0 else 2 * Xor(a / 2, b / 2) + (a + b) % 2
  }

  function RotateLeft17(seed: u64): nat {
    (seed * 0x2_0000) % 0x1_0000_0000_0000_0000 + seed / 0x8000_0000_0000
  }

  function Pick(seed: u64, n: nat): (k: nat)
    requires n > 0
    ensures k < n
  {
    ((Xor(seed, RotateLeft17(seed)) * 0x9E37_79B9) % 0x1_0000_0000_0000_0000) % n
  }

  // ---- The imperative forms ----

  method Validate(p: Playlist) returns (r: Result<(), PlaylistError>)
    ensures r == p.Validation()
    ensures r.Ok? <==> p.Valid()
  {
    if !p.ValidIdentity() {
      return Err(IdentityInvalid);
    }
    if |p.entries| > MAX_ENTRIES {
      return Err(EntryLimit);
    }
    var seen: set<string> := {};
    for i := 0 to |p.entries|
      invariant seen == Elements(p.entries[..i])
      invariant Distinct(p.entries[..i])
      invariant forall e :: e in p.entries[..i] ==> ValidName(e)
    {
      var entry := p.entries[i];
      if !ValidName(entry) || entry in seen {
        assert entry in p.entries;
        return Err(EntriesInvalid);
      }
      seen := seen + {entry};
      assert p.entries[..i + 1] == p.entries[..i] + [entry];
    }
    assert p.entries[..|p.entries|] == p.entries;
    if !p.ValidTiming() {
      return Err(TimingInvalid);
    }
    return Ok(());
  }

  method NextEligibleIndex(p: Playlist, current: Option<nat>, seed: u64, excluded: seq<string>)
    returns (r: Option<nat>)
    ensures r == p.NextEligible(current, seed, excluded)
  {
    if |p.entries| == 0 {
      return None;
    }
    var here := p.InRange(current);
    if p.shuffle {
      var alternatives: seq<nat> := [];
      for i := 0 to |p.entries|
        invariant alternatives == p.Alternatives(here, excluded, i)
      {
        if Some(i) != here && p.Eligible(i, excluded) {
          alternatives := alternatives + [i];
        }
      }
      if |alternatives| > 0 {
        return Some(alternatives[Pick(seed, |alternatives|)]);
      }
      if here.Some? && p.repeating && p.Eligible(here.value, excluded) {
        return here;
      }
      return None;
    }
    var start := p.Start(here);
    var offset := 0;
    while offset < |p.entries|
      invariant offset <= |p.entries|
      invariant p.Scan(start, 0, excluded) == p.Scan(start, offset, excluded)
    {
      var unwrapped := start + offset;
      if !p.repeating && unwrapped >= |p.entries| {
        break;
      }
      var index := unwrapped % |p.entries|;
      if p.Eligible(index, excluded) {
        return Some(index);
      }
      offset := offset + 1;
    }
    return None;
  }

  /** The limits of a valid playlist. */
  lemma {:induction false} LimitsExact(p: Playlist)
    ensures p.Valid() <==>
            && ValidName(p.id)
            && !IsBlank(p.title) && |p.title| <= 256
            && |p.entries| <= 1024
            && (forall i :: 0 <= i < |p.entries| ==> ValidName(p.entries[i]))
            && (forall i, j :: 0 <= i < j < |p.entries| ==> p.entries[i] != p.entries[j])
            && 10 <= p.durationSeconds <= 86400
            && (if p.transition == NoTransition then p.transitionSeconds == 0 else p.transitionSeconds <= 10)
    ensures forall name :: ValidName(name) <==> name != "" && Utf8Length(name) <= 128
  {
    hide IsBlank, Utf8Length;
    if forall i :: 0 <= i < |p.entries| ==> ValidName(p.entries[i]) {
      assert forall e :: e in p.entries ==> ValidName(e);
    }
  }

  /** The fault reported is that of the first check that fails. */
  lemma {:induction false} FaultExact(p: Playlist)
    ensures p.Validation() == Err(IdentityInvalid) <==> !ValidName(p.id) || IsBlank(p.title) || |p.title| > 256
    ensures p.Validation() == Err(EntryLimit) <==>
            ValidName(p.id) && !IsBlank(p.title) && |p.title| <= 256 && |p.entries| > 1024
    ensures p.Validation() == Err(EntriesInvalid) <==>
            && ValidName(p.id) && !IsBlank(p.title) && |p.title| <= 256 && |p.entries| <= 1024
            && exists i :: 0 <= i < |p.entries| && (!ValidName(p.entries[i]) || p.entries[i] in p.entries[..i])
  {
    hide IsBlank, ValidName;
    if forall i :: 0 <= i < |p.entries| ==> ValidName(p.entries[i]) && p.entries[i] !in p.entries[..i] {
      forall i, j | 0 <= i < j < |p.entries|
        ensures p.entries[i] != p.entries[j]
      {
        assert p.entries[..j][i] == p.entries[i];
      }
    } else {
      var i :| 0 <= i < |p.entries| && !(ValidName(p.entries[i]) && p.entries[i] !in p.entries[..i]);
      assert p.entries[i] in p.entries;
    }
  }

  // ---- What the choice means ----

  /** Which positions the mode allows at all, before exclusions. */
  predicate Permitted(p: Playlist, current: Option<nat>, i: nat) {
    var here := p.InRange(current);
    && i < |p.entries|
    && if p.shuffle then Some(i) != here || p.repeating
       else p.repeating || here.None? || here.value < i
  }

  /** How many entries the sequential order passes before reaching `i`. */
  function Distance(p: Playlist, current: Option<nat>, i: nat): nat
    requires i < |p.entries|
  {
    var start := p.Start(p.InRange(current));
    if start <= i then i - start else i - start + |p.entries|
  }

  ghost predicate Candidate(p: Playlist, current: Option<nat>, excluded: seq<string>, i: nat) {
    Permitted(p, current, i) && p.entries[i] !in excluded
  }

  lemma {:induction false} WrapOnce(u: nat, n: nat)
    requires 0 < n && u < 2 * n
    ensures u % n == if u < n then u else u - n
  {
  }

  /** The scan from `offset` finds the candidate with the least distance not below `offset`. */
  lemma {:induction false} ScanExact(p: Playlist, current: Option<nat>, offset: nat, excluded: seq<string>)
    requires !p.shuffle && offset <= |p.entries| && |excluded| <= MAX_ENTRIES
    ensures var r := p.Scan(p.Start(p.InRange(current)), offset, excluded);
            && (r.Some? ==> Candidate(p, current, excluded, r.value) && offset <= Distance(p, current, r.value))
            && (forall i: nat :: Candidate(p, current, excluded, i) && offset <= Distance(p, current, i) ==>
                  r.Some? && Distance(p, current, r.value) <= Distance(p, current, i))
    decreases |p.entries| - offset
  {
    var start := p.Start(p.InRange(current));
    if offset < |p.entries| {
      var unwrapped := start + offset;
      WrapOnce(unwrapped, |p.entries|);
      var index := unwrapped % |p.entries|;
      assert Distance(p, current, index) == offset;
      if !p.repeating && unwrapped >= |p.entries| {
      } else if !p.Eligible(index, excluded) {
        ScanExact(p, current, offset + 1, excluded);
        forall i: nat | Candidate(p, current, excluded, i) && offset <= Distance(p, current, i)
          ensures offset + 1 <= Distance(p, current, i)
        {
          assert Distance(p, current, i) == offset ==> i == index;
        }
      }
    }
  }

  /**
   * With at most 1024 exclusions the choice is exact: nothing is returned only when no candidate
   * exists; a sequential playlist returns the nearest candidate in playing order; a shuffled one
   * stays on the current entry only when no other entry is left.
   */
  lemma {:induction false} SelectionExact(p: Playlist, current: Option<nat>, seed: u64, excluded: seq<string>)
    requires |excluded| <= MAX_ENTRIES
    ensures var r := p.NextEligible(current, seed, excluded);
            && (r.None? <==> forall i: nat :: !Candidate(p, current, excluded, i))
            && (r.Some? ==> Candidate(p, current, excluded, r.value))
            && (r.Some? && !p.shuffle ==>
                  forall i: nat :: Candidate(p, current, excluded, i) ==>
                    Distance(p, current, r.value) <= Distance(p, current, i))
            && (r.Some? && p.shuffle && r == p.InRange(current) ==>
                  forall i: nat :: Candidate(p, current, excluded, i) ==> Some(i) == r)
  {
    if |p.entries| == 0 {
    } else if p.shuffle {
      var here := p.InRange(current);
      var choices := p.Alternatives(here, excluded, |p.entries|);
      if |choices| > 0 {
        var k := Pick(seed, |choices|);
        assert choices[k] in choices;
        assert Candidate(p, current, excluded, choices[k]);
      } else {
        forall i: nat | Candidate(p, current, excluded, i)
          ensures Some(i) == here && p.repeating && p.Eligible(i, excluded)
        {
          assert i !in choices;
        }
        assert here.Some? && p.repeating && p.Eligible(here.value, excluded) ==>
            Candidate(p, current, excluded, here.value);
      }
    } else {
      ScanExact(p, current, 0, excluded);
    }
  }

  // ---- The shuffle ----

  lemma {:induction false} XorBits(a: nat, b: nat, k: nat)
    ensures Bit(Xor(a, b), k) == if Bit(a, k) == Bit(b, k) then 0 else 1
    decreases k
  {
    hide Xor;
    XorHalf(a, b);
    if k > 0 {
      XorBits(a / 2, b / 2, k - 1);
    }
  }

  lemma {:induction false} XorHalf(a: nat, b: nat)
    ensures Xor(a, b) % 2 == (if a % 2 == b % 2 then 0 else 1)
    ensures Xor(a, b) / 2 == Xor(a / 2, b / 2)
  {
    Parity(a, b);
    Doubled(Xor(a / 2, b / 2), (a + b) % 2);
  }

  lemma {:induction false} Parity(a: nat, b: nat)
    ensures (a + b) % 2 == if a % 2 == b % 2 then 0 else 1
  {
  }

  lemma {:induction false} Doubled(n: nat, parity: nat)
    requires parity < 2
    ensures (2 * n + parity) / 2 == n && (2 * n + parity) % 2 == parity
  {
  }

  function PowerOfTwo(m: nat): (r: nat)
    ensures r > 0
  {
    if m == 0 then 1 else 2 * PowerOfTwo(m - 1)
  }

  /** The bits of two numbers put side by side. */
  lemma {:induction false} JoinedBits(high: nat, low: nat, m: nat, k: nat)
    requires low < PowerOfTwo(m)
    ensures Bit(high * PowerOfTwo(m) + low, k) == if k < m then Bit(low, k) else Bit(high, k - m)
    decreases m
  {
    if m > 0 {
      JoinedHalf(high, low, PowerOfTwo(m - 1));
      if k > 0 {
        JoinedBits(high, low / 2, m - 1, k - 1);
      }
    }
  }

  lemma {:induction false} JoinedHalf(high: nat, low: nat, half: nat)
    ensures (high * (2 * half) + low) / 2 == high * half + low / 2
    ensures (high * (2 * half) + low) % 2 == low % 2
  {
    assert high * (2 * half) == 2 * (high * half);
  }

  lemma {:induction false} Powers()
    ensures PowerOfTwo(17) == 0x2_0000 && PowerOfTwo(47) == 0x8000_0000_0000
  {
    forall m: nat
      ensures PowerOfTwo(m + 4) == 16 * PowerOfTwo(m)
    {
      assert PowerOfTwo(m + 4) == 4 * PowerOfTwo(m + 2);
    }
    assert PowerOfTwo(13) == 0x2000 by {
      assert PowerOfTwo(5) == 0x20 && PowerOfTwo(9) == 0x200;
    }
    assert PowerOfTwo(29) == 0x2000_0000 by {
      assert PowerOfTwo(17) == 0x2_0000 && PowerOfTwo(21) == 0x20_0000 && PowerOfTwo(25) == 0x200_0000;
    }
    assert PowerOfTwo(45) == 0x2000_0000_0000 by {
      assert PowerOfTwo(33) == 0x2_0000_0000 && PowerOfTwo(37) == 0x20_0000_0000;
      assert PowerOfTwo(41) == 0x200_0000_0000;
    }
  }

  /** Rotating swaps the upper 17 and the lower 47 bits. */
  lemma {:induction false} RotationJoins(seed: u64)
    ensures var high, low := seed / 0x8000_0000_0000, seed % 0x8000_0000_0000;
            && 0 <= high < 0x2_0000 && seed == high * 0x8000_0000_0000 + low
            && RotateLeft17(seed) == low * 0x2_0000 + high
  {
  }

  /** Bit `k` of the mix is bit `k` of the seed against bit `k - 17`, around the 64 bits. */
  lemma {:induction false} MixExact(seed: u64, k: nat)
    requires k < 64
    ensures var other := Bit(seed, (k + 47) % 64);
            Bit(Xor(seed, RotateLeft17(seed)), k) == if Bit(seed, k) == other then 0 else 1
  {
    hide Xor, RotateLeft17, Bit, PowerOfTwo;
    var high, low := seed / 0x8000_0000_0000, seed % 0x8000_0000_0000;
    Powers();
    RotationJoins(seed);
    JoinedBits(high, low, 47, (k + 47) % 64);
    JoinedBits(low, high, 17, k);
    XorBits(seed, RotateLeft17(seed), k);
  }

  /** The entries below `upto` a shuffle may move to. */
  function Others(p: Playlist, current: Option<nat>, excluded: seq<string>, upto: nat): set<nat>
    requires upto <= |p.entries|
  {
    set i: nat | i < upto && Some(i) != p.InRange(current) && p.Eligible(i, excluded)
  }

  lemma {:induction false} OthersNext(p: Playlist, current: Option<nat>, excluded: seq<string>, upto: nat)
    requires upto < |p.entries|
    ensures var before, now := Others(p, current, excluded, upto), Others(p, current, excluded, upto + 1);
            if Some(upto) != p.InRange(current) && p.Eligible(upto, excluded) then |now| == |before| + 1
            else now == before
  {
    hide p.Eligible, p.InRange;
    var before, now := Others(p, current, excluded, upto), Others(p, current, excluded, upto + 1);
    if Some(upto) != p.InRange(current) && p.Eligible(upto, excluded) {
      assert now == before + {upto};
    } else {
      assert now == before;
    }
  }

  lemma {:induction false} AlternativesInOrder(
    p: Playlist, current: Option<nat>, excluded: seq<string>, upto: nat, k: nat)
    requires upto <= |p.entries|
    ensures var r := p.Alternatives(p.InRange(current), excluded, upto);
            && |r| == |Others(p, current, excluded, upto)|
            && (k < |r| ==> r[k] < upto && |Others(p, current, excluded, r[k])| == k)
  {
    hide p.Eligible, p.InRange;
    if upto == 0 {
      assert Others(p, current, excluded, 0) == {};
    } else {
      hide Others;
      AlternativesInOrder(p, current, excluded, upto - 1, k);
      OthersNext(p, current, excluded, upto - 1);
    }
  }

  /** A shuffle takes, of the other eligible entries, the one with `mix % count` of them before it. */
  lemma {:induction false} ShuffleExact(p: Playlist, current: Option<nat>, seed: u64, excluded: seq<string>)
    requires p.shuffle
    ensures var count := |Others(p, current, excluded, |p.entries|)|;
            var mix := Xor(seed, RotateLeft17(seed)) * 2654435769 % 18446744073709551616;
            var r := p.NextEligible(current, seed, excluded);
            count > 0 ==>
              && r.Some?
              && r.value in Others(p, current, excluded, |p.entries|)
              && |Others(p, current, excluded, r.value)| == mix % count
  {
    hide Xor, RotateLeft17;
    var here := p.InRange(current);
    var choices := p.Alternatives(here, excluded, |p.entries|);
    AlternativesInOrder(p, current, excluded, |p.entries|, 0);
    if |choices| > 0 {
      AlternativesInOrder(p, current, excluded, |p.entries|, Pick(seed, |choices|));
      assert choices[Pick(seed, |choices|)] in choices;
    }
  }
}
