/** Shared vocabulary: failure-carrying results, machine integers, byte strings and Rust text. */
module Common {

  datatype Option<+T> = None | Some(value: T)

  datatype Result<+T, +E> = Ok(value: T) | Err(error: E)

  const U64_MAX: int := 0xFFFF_FFFF_FFFF_FFFF
  const U32_MAX: int := 0xFFFF_FFFF

  type u64 = x: int | 0 <= x <= 0xFFFF_FFFF_FFFF_FFFF
  type u32 = x: int | 0 <= x <= 0xFFFF_FFFF
  type byte = x: int | 0 <= x < 256
  type Bytes = seq<byte>

  function SaturatingAdd(a: u64, b: u64): u64 {
    if a + b <= U64_MAX then a + b else U64_MAX
  }

  function SaturatingSub(a: u64, b: u64): u64 {
    if a < b then 0 else a - b
  }

  function WrappingInc(a: u64): u64 {
    if a == U64_MAX then 0 else a + 1
  }

  /** Bit `k` of `n`, the lowest being bit 0. */
  function Bit(n: nat, k: nat): (b: nat)
    ensures b < 2
  {
    if k == 0 then n % 2 else Bit(n / 2, k - 1)
  }

  ghost predicate Distinct<T>(s: seq<T>) {
    forall i, j :: 0 <= i < j < |s| ==> s[i] != s[j]
  }

  ghost function Elements<T>(s: seq<T>): set<T> {
    set x | x in s
  }

  /** The last `n` elements, or everything when there are fewer. */
  function LastN<T>(s: seq<T>, n: nat): seq<T> {
    if |s| <= n then s else s[|s| - n..]
  }

  function Concat<T>(chunks: seq<seq<T>>): seq<T> {
    if chunks == [] then [] else Concat(chunks[..|chunks| - 1]) + chunks[|chunks| - 1]
  }

  /** `x` stands in `s` at `o`. */
  ghost predicate At(s: Bytes, o: nat, x: Bytes) {
    o + |x| <= |s| && s[o..o + |x|] == x
  }

  lemma {:induction false} AtSplit(s: Bytes, o: nat, a: Bytes, b: Bytes)
    ensures At(s, o, a + b) <==> At(s, o, a) && At(s, o + |a|, b)
  {
    if At(s, o, a + b) {
      assert s[o..o + |a|] == s[o..o + |a| + |b|][..|a|];
      assert s[o + |a|..o + |a| + |b|] == s[o..o + |a| + |b|][|a|..];
    }
    if At(s, o, a) && At(s, o + |a|, b) {
      assert s[o..o + |a| + |b|] == s[o..o + |a|] + s[o + |a|..o + |a| + |b|];
    }
  }

  lemma {:induction false} AtByte(s: Bytes, o: nat, x: Bytes, i: nat)
    requires At(s, o, x) && i < |x|
    ensures o + i < |s| && s[o + i] == x[i]
  {
  }

  lemma {:induction false} AppendTwice(a: Bytes, b: Bytes, c: Bytes)
    ensures a + (b + c) == (a + b) + c
  {
  }

  /** A duplicate-free sequence drawn from `pool` is no longer than `pool`. */
  lemma {:induction false} DistinctFits<T>(s: seq<T>, pool: seq<T>)
    requires Distinct(s)
    requires forall x :: x in s ==> x in pool
    ensures |s| <= |pool|
  {
    DistinctCardinality(s);
    CardinalityBound(pool);
    SubsetCardinality(Elements(s), Elements(pool));
  }

  lemma {:induction false} DistinctCardinality<T>(s: seq<T>)
    requires Distinct(s)
    ensures |Elements(s)| == |s|
  {
    if s == [] {
      assert Elements(s) == {};
    } else {
      var last := |s| - 1;
      var t := s[..last];
      DistinctCardinality(t);
      assert s == t + [s[last]];
      assert s[last] !in t;
      assert Elements(s) == Elements(t) + {s[last]};
    }
  }

  lemma {:induction false} CardinalityBound<T>(s: seq<T>)
    ensures |Elements(s)| <= |s|
  {
    if s == [] {
      assert Elements(s) == {};
    } else {
      var last := |s| - 1;
      CardinalityBound(s[..last]);
      assert s == s[..last] + [s[last]];
      assert Elements(s) == Elements(s[..last]) + {s[last]};
    }
  }

  lemma {:induction false} SubsetCardinality<T>(a: set<T>, b: set<T>)
    requires a <= b
    ensures |a| <= |b|
  {
    assert b == a + (b - a);
  }
}

/** Rust `String` facts that the size limits depend on. A Dafny `char` is a Unicode scalar value. */
module RustStrings {

  /** `str::len`: the number of UTF-8 bytes. */
  function Utf8Length(s: string): nat {
    if s == "" then 0
    else Utf8Width(s[0]) + Utf8Length(s[1..])
  }

  function Utf8Width(c: char): nat {
    var code := c as int;
    if code < 0x80 then 1 else if code < 0x800 then 2 else if code < 0x1_0000 then 3 else 4
  }

  /** `s.trim().is_empty()`: nothing but Unicode white space. */
  predicate IsBlank(s: string) {
    forall c :: c in s ==> IsWhiteSpace(c)
  }

  predicate IsWhiteSpace(c: char) {
    var code := c as int;
    || 0x9 <= code <= 0xD || code in {0x20, 0x85, 0xA0, 0x1680}
    || 0x2000 <= code <= 0x200A || code in {0x2028, 0x2029, 0x202F, 0x205F, 0x3000}
  }
}
