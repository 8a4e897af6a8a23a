/** UTF-8 as numbers: what the byte-level checks of the readers mean. */
module Utf8 {
  import opened Common
  import opened RustStrings
  import Pkg

  /** A Unicode scalar value: a code point that is not a surrogate. */
  predicate IsScalar(c: nat) {
    c < 0xD800 || 0xE000 <= c < 0x11_0000
  }

  /** Its encoding: the code point's bits, six to a continuation byte. */
  function EncodeScalar(c: nat): (r: Bytes)
    requires IsScalar(c)
    ensures 1 <= |r| <= 4
  {
    if c < 0x80 then [c]
    else if c < 0x800 then [0xC0 + c / 64, 0x80 + c % 64]
    else if c < 0x1_0000 then [0xE0 + c / 4096, 0x80 + c / 64 % 64, 0x80 + c % 64]
    else [0xF0 + c / 262144, 0x80 + c / 4096 % 64, 0x80 + c / 64 % 64, 0x80 + c % 64]
  }

  ghost predicate Scalars(cs: seq<nat>) {
    forall i :: 0 <= i < |cs| ==> IsScalar(cs[i])
  }

  function EncodeText(cs: seq<nat>): Bytes
    requires Scalars(cs)
  {
    if cs == [] then [] else EncodeScalar(cs[0]) + EncodeText(cs[1..])
  }

  /** The byte string starts with the encoding of a scalar, and its code point. */
  ghost predicate Starts(s: Bytes, c: nat) {
    IsScalar(c) && EncodeScalar(c) <= s
  }

  lemma {:induction false} FirstScalar(s: Bytes) returns (c: nat)
    requires s != [] && Pkg.ValidUtf8(s)
    ensures Starts(s, c) && Pkg.ValidUtf8(s[|EncodeScalar(c)|..])
  {
    hide Pkg.ValidUtf8, EncodeScalar;
    FirstShape(s);
    var first: int := s[0];
    if first < 0x80 {
      c := first;
      OneByte(c);
      assert s[..1] == EncodeScalar(c);
    } else if first < 0xE0 {
      var a: int := s[1];
      c := TwoBytes(first - 0xC0, a - 0x80);
      assert s[..2] == EncodeScalar(c);
    } else if first < 0xF0 {
      var a: int, b: int := s[1], s[2];
      c := ThreeBytes(first - 0xE0, a - 0x80, b - 0x80);
      assert s[..3] == EncodeScalar(c);
    } else {
      var a: int, b: int, d: int := s[1], s[2], s[3];
      c := FourBytes(first - 0xF0, a - 0x80, b - 0x80, d - 0x80);
      assert s[..4] == EncodeScalar(c);
    }
  }

  lemma {:induction false} OneByte(c: nat)
    requires c < 0x80
    ensures IsScalar(c) && EncodeScalar(c) == [c]
  {
  }

  lemma {:induction false} TwoBytes(a: nat, b: nat) returns (c: nat)
    requires 2 <= a < 32 && b < 64
    ensures IsScalar(c) && EncodeScalar(c) == [0xC0 + a, 0x80 + b]
  {
    c := a * 64 + b;
    TwoDigits(a, b);
  }

  lemma {:induction false} ThreeBytes(a: nat, b: nat, d: nat) returns (c: nat)
    requires a < 16 && b < 64 && d < 64 && (a == 0 ==> 32 <= b) && (a == 13 ==> b < 32)
    ensures IsScalar(c) && EncodeScalar(c) == [0xE0 + a, 0x80 + b, 0x80 + d]
  {
    c := a * 4096 + b * 64 + d;
    ThreeDigits(a, b, d);
  }

  lemma {:induction false} FourBytes(a: nat, b: nat, d: nat, e: nat) returns (c: nat)
    requires a < 5 && b < 64 && d < 64 && e < 64 && (a == 0 ==> 16 <= b) && (a == 4 ==> b < 16)
    ensures IsScalar(c) && EncodeScalar(c) == [0xF0 + a, 0x80 + b, 0x80 + d, 0x80 + e]
  {
    c := a * 262144 + b * 4096 + d * 64 + e;
    FourDigits(a, b, d, e);
  }

  /** How many bytes the first byte calls for. */
  function Width(b: byte): nat {
    if b < 0x80 then 1 else if b < 0xE0 then 2 else if b < 0xF0 then 3 else 4
  }

  lemma {:induction false} FirstShape(s: Bytes)
    requires s != [] && Pkg.ValidUtf8(s)
    ensures s[0] < 0x80 || 0xC2 <= s[0] < 0xF5
    ensures Width(s[0]) <= |s| && Pkg.ValidUtf8(s[Width(s[0])..])
    ensures forall i :: 0 < i < Width(s[0]) ==> 0x80 <= s[i] < 0xC0
    ensures (s[0] == 0xE0 ==> 0xA0 <= s[1]) && (s[0] == 0xED ==> s[1] < 0xA0)
    ensures (s[0] == 0xF0 ==> 0x90 <= s[1]) && (s[0] == 0xF4 ==> s[1] < 0x90)
  {
  }

  lemma {:induction false} TwoDigits(a: nat, b: nat)
    requires b < 64
    ensures (a * 64 + b) / 64 == a && (a * 64 + b) % 64 == b
  {
  }

  lemma {:induction false} ThreeDigits(a: nat, b: nat, c: nat)
    requires b < 64 && c < 64
    ensures var n := a * 4096 + b * 64 + c; n / 4096 == a && n / 64 % 64 == b && n % 64 == c
  {
    var n := a * 4096 + b * 64 + c;
    assert n / 64 == a * 64 + b;
  }

  lemma {:induction false} FourDigits(a: nat, b: nat, c: nat, d: nat)
    requires b < 64 && c < 64 && d < 64
    ensures var n := a * 262144 + b * 4096 + c * 64 + d;
            n / 262144 == a && n / 4096 % 64 == b && n / 64 % 64 == c && n % 64 == d
  {
    var n := a * 262144 + b * 4096 + c * 64 + d;
    assert n / 64 == a * 4096 + b * 64 + c;
    assert n / 4096 == a * 64 + b;
  }

  lemma {:induction false} EncodedIsValid(c: nat, rest: Bytes)
    requires IsScalar(c) && Pkg.ValidUtf8(rest)
    ensures Pkg.ValidUtf8(EncodeScalar(c) + rest)
  {
    var s := EncodeScalar(c) + rest;
    assert s[|EncodeScalar(c)|..] == rest;
    if 0x800 <= c < 0x1_0000 {
      assert c / 4096 == 0 ==> c / 64 % 64 >= 32;
      assert c / 4096 == 13 ==> c / 64 % 64 < 32;
    } else if 0x1_0000 <= c {
      assert c / 262144 == 0 ==> c / 4096 % 64 >= 16;
      assert c / 262144 == 4 ==> c / 4096 % 64 < 16;
    }
  }

  lemma {:induction false} TextIsValid(cs: seq<nat>)
    requires Scalars(cs)
    ensures Pkg.ValidUtf8(EncodeText(cs))
  {
    if cs != [] {
      TextIsValid(cs[1..]);
      EncodedIsValid(cs[0], EncodeText(cs[1..]));
    }
  }

  lemma {:induction false} ValidIsText(s: Bytes) returns (cs: seq<nat>)
    requires Pkg.ValidUtf8(s)
    ensures Scalars(cs) && EncodeText(cs) == s
    decreases |s|
  {
    hide Pkg.ValidUtf8, EncodeScalar;
    if s == [] {
      cs := [];
    } else {
      var c := FirstScalar(s);
      var later := ValidIsText(s[|EncodeScalar(c)|..]);
      cs := [c] + later;
      assert cs[1..] == later;
      assert s == EncodeScalar(c) + s[|EncodeScalar(c)|..];
    }
  }

  /** A path's bytes pass the check exactly when they are the UTF-8 encoding of some text. */
  lemma {:induction false} ValidUtf8Exact(s: Bytes)
    ensures Pkg.ValidUtf8(s) <==> exists cs :: Scalars(cs) && EncodeText(cs) == s
  {
    if Pkg.ValidUtf8(s) {
      var cs := ValidIsText(s);
    }
    if cs :| Scalars(cs) && EncodeText(cs) == s {
      TextIsValid(cs);
    }
  }

  /** The code points of a text. */
  function CodePoints(s: string): (r: seq<nat>)
    ensures |r| == |s| && Scalars(r)
  {
    if s == "" then [] else [s[0] as int] + CodePoints(s[1..])
  }

  /** The length of a string is that of its encoding. */
  lemma {:induction false} LengthIsEncoded(s: string)
    ensures Utf8Length(s) == |EncodeText(CodePoints(s))|
  {
    if s != "" {
      LengthIsEncoded(s[1..]);
      assert CodePoints(s)[1..] == CodePoints(s[1..]);
    }
  }
}
