/** The UTF-8 check accepts exactly the encodings of Unicode scalar values. */
module Utf8 {
  import opened Bytes

  /** A code point that is not a surrogate. */
  predicate Scalar(c: nat) {
    c < 0xD800 || 0xE000 <= c <= 0x10FFFF
  }

  function EncodeScalar(c: nat): (b: bytes)
    requires Scalar(c)
    ensures b != []
  {
    if c < 0x80 then [c as byte]
    else if c < 0x800 then [(0xC0 + c / 0x40) as byte, (0x80 + c % 0x40) as byte]
    else if c < 0x10000 then
      [(0xE0 + c / 0x1000) as byte, (0x80 + c / 0x40 % 0x40) as byte, (0x80 + c % 0x40) as byte]
    else
      [(0xF0 + c / 0x40000) as byte, (0x80 + c / 0x1000 % 0x40) as byte,
       (0x80 + c / 0x40 % 0x40) as byte, (0x80 + c % 0x40) as byte]
  }

  ghost predicate Scalars(cs: seq<nat>) {
    forall i :: 0 <= i < |cs| ==> Scalar(cs[i])
  }

  function Encode(cs: seq<nat>): bytes
    requires Scalars(cs)
    decreases |cs|
  {
    if cs == [] then [] else EncodeScalar(cs[0]) + Encode(cs[1..])
  }

  lemma Digits(h: nat, k: nat, m: nat, l: nat)
    requires k < 0x40 && m < 0x40 && l < 0x40
    ensures var c := ((h * 0x40 + k) * 0x40 + m) * 0x40 + l;
      && c % 0x40 == l && c / 0x40 % 0x40 == m && c / 0x1000 % 0x40 == k && c / 0x40000 == h
      && c / 0x1000 == h * 0x40 + k && c / 0x40 == (h * 0x40 + k) * 0x40 + m
  {
    var c := ((h * 0x40 + k) * 0x40 + m) * 0x40 + l;
    assert c / 0x40 == (h * 0x40 + k) * 0x40 + m;
    assert c / 0x1000 == c / 0x40 / 0x40;
    assert c / 0x40000 == c / 0x1000 / 0x40;
  }

  /** The scalar value whose encoding is at the head. */
  function HeadScalar(b: bytes): nat
    requires b != [] && Utf8Head(b) > 0
  {
    var n := Utf8Head(b);
    var x := b[0] as nat;
    if n == 1 then x
    else if n == 2 then (x - 0xC0) * 0x40 + (b[1] as nat - 0x80)
    else if n == 3 then ((x - 0xE0) * 0x40 + (b[1] as nat - 0x80)) * 0x40 + (b[2] as nat - 0x80)
    else (((x - 0xF0) * 0x40 + (b[1] as nat - 0x80)) * 0x40 + (b[2] as nat - 0x80)) * 0x40 + (b[3] as nat - 0x80)
  }

  lemma TwoBytes(b: bytes)
    requires b != [] && Utf8Head(b) == 2
    ensures Scalar(HeadScalar(b)) && EncodeScalar(HeadScalar(b)) == b[..2]
  {
    Digits(0, 0, b[0] as nat - 0xC0, b[1] as nat - 0x80);
  }

  lemma ThreeBytes(b: bytes)
    requires b != [] && Utf8Head(b) == 3
    ensures Scalar(HeadScalar(b)) && EncodeScalar(HeadScalar(b)) == b[..3]
  {
    Digits(0, b[0] as nat - 0xE0, b[1] as nat - 0x80, b[2] as nat - 0x80);
  }

  lemma FourBytes(b: bytes)
    requires b != [] && Utf8Head(b) == 4
    ensures Scalar(HeadScalar(b)) && EncodeScalar(HeadScalar(b)) == b[..4]
  {
    Digits(b[0] as nat - 0xF0, b[1] as nat - 0x80, b[2] as nat - 0x80, b[3] as nat - 0x80);
  }

  lemma DecodeHead(b: bytes)
    requires b != [] && Utf8Head(b) > 0
    ensures Scalar(HeadScalar(b)) && EncodeScalar(HeadScalar(b)) == b[..Utf8Head(b)]
  {
    match Utf8Head(b) {
      case 1 =>
      case 2 => TwoBytes(b);
      case 3 => ThreeBytes(b);
      case _ =>
        HeadAtMost4(b);
        FourBytes(b);
    }
  }

  lemma HeadAtMost4(b: bytes)
    requires b != []
    ensures Utf8Head(b) <= 4
  {
  }

  lemma HeadOfScalar(c: nat, rest: bytes)
    requires Scalar(c)
    ensures Utf8Head(EncodeScalar(c) + rest) == |EncodeScalar(c)|
  {
  }

  lemma {:induction false} EncodedIsValid(cs: seq<nat>)
    requires Scalars(cs)
    ensures ValidUtf8(Encode(cs))
    decreases |cs|
  {
    hide EncodeScalar, Utf8Head, Scalar;
    if cs != [] {
      HeadOfScalar(cs[0], Encode(cs[1..]));
      EncodedIsValid(cs[1..]);
      assert Encode(cs)[|EncodeScalar(cs[0])|..] == Encode(cs[1..]);
    }
  }

  lemma {:induction false} ValidIsEncoded(b: bytes) returns (cs: seq<nat>)
    requires ValidUtf8(b)
    ensures Scalars(cs) && Encode(cs) == b
    decreases |b|
  {
    hide EncodeScalar, Utf8Head, Scalar, HeadScalar;
    if b == [] {
      cs := [];
    } else {
      var n := Utf8Head(b);
      var c := HeadScalar(b);
      DecodeHead(b);
      var rest := ValidIsEncoded(b[n..]);
      cs := [c] + rest;
      assert cs[1..] == rest && b == b[..n] + b[n..];
    }
  }

  /** Well-formed bytes are the encodings of sequences of scalar values, and nothing else is accepted. */
  lemma ValidIff(b: bytes)
    ensures ValidUtf8(b) <==> exists cs :: Scalars(cs) && Encode(cs) == b
  {
    if ValidUtf8(b) {
      var cs := ValidIsEncoded(b);
    }
    if cs :| Scalars(cs) && Encode(cs) == b {
      EncodedIsValid(cs);
    }
  }
}
