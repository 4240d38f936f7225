/**
 * Byte strings with the operations the decoder uses: Python slicing and
 * indexing (negative offsets included), big-endian integers and UTF-8 checks.
 */
module Bytes {
  import opened Wrappers

  newtype byte = x: int | 0 <= x < 256
  type bytes = seq<byte>

  /** A `str`, kept as the UTF-8 bytes it was decoded from. */
  type Text = bytes

  /** The exceptions the decoder can raise. */
  datatype Raised = IndexError | KeyError | StructError | TypeError | UnicodeError | ValueError

  // ---- Python slices -------------------------------------------------------

  function Clamp(i: int, n: nat): (j: nat)
    ensures j <= n
  {
    var k := if i < 0 then i + n else i;
    if k < 0 then 0 else if k > n then n else k
  }

  /** `b[lo:hi]` */
  function Slice(b: bytes, lo: int, hi: int): bytes {
    var l, h := Clamp(lo, |b|), Clamp(hi, |b|);
    if l < h then b[l..h] else []
  }

  // ---- Big-endian integers -------------------------------------------------

  function Pow256(k: nat): (p: nat)
    ensures p >= 1
  {
    if k == 0 then 1 else 256 * Pow256(k - 1)
  }

  function FromBE(b: bytes): nat {
    if b == [] then 0 else FromBE(b[..|b| - 1]) * 256 + b[|b| - 1] as nat
  }

  function ToBE(n: nat, k: nat): (b: bytes)
    ensures |b| == k
  {
    if k == 0 then [] else ToBE(n / 256, k - 1) + [(n % 256) as byte]
  }

  /** Two's complement reading of a `k`-byte unsigned number. */
  function Signed(u: nat, k: nat): int {
    if 2 * u < Pow256(k) then u else u - Pow256(k)
  }

  lemma {:induction false} FromToBE(n: nat, k: nat)
    requires n < Pow256(k)
    ensures FromBE(ToBE(n, k)) == n
  {
    if k > 0 {
      FromToBE(n / 256, k - 1);
      var b := ToBE(n, k);
      assert b[..|b| - 1] == ToBE(n / 256, k - 1);
    }
  }

  lemma LastByte(b: bytes)
    requires b != []
    ensures FromBE(b) == FromBE(b[..|b| - 1]) * 256 + b[|b| - 1] as nat
  {
  }

  lemma Carry(x: nat, p: nat, rest: nat, last: nat)
    ensures (x * p + rest) * 256 + last == x * (256 * p) + (rest * 256 + last)
  {
  }

  /** The first byte counts for the most. */
  lemma {:induction false} BigEndian(b: bytes)
    requires b != []
    ensures FromBE(b) == b[0] as nat * Pow256(|b| - 1) + FromBE(b[1..])
    decreases |b|
  {
    hide FromBE;
    var n := |b| - 1;
    LastByte(b);
    if n == 0 {
      assert b[..0] == b[1..] == [];
      Empty();
    } else {
      BigEndian(b[..n]);
      assert b[..n][1..] == b[1..][..n - 1];
      LastByte(b[1..]);
      Carry(b[0] as nat, Pow256(n - 1), FromBE(b[1..][..n - 1]), b[n] as nat);
    }
  }

  lemma Empty()
    ensures FromBE([]) == 0
  {
  }

  /** Two's complement: the value stays in its signed range and is the number read, or that less a full turn. */
  lemma SignedRange(u: nat, k: nat)
    requires u < Pow256(k)
    ensures 0 <= 2 * Signed(u, k) + Pow256(k) && 2 * Signed(u, k) < Pow256(k)
    ensures Signed(u, k) == u || Signed(u, k) == u - Pow256(k)
  {
  }

  // ---- UTF-8 (the strict form Python's decoder accepts) --------------------

  predicate Continuation(b: byte) {
    0x80 <= b <= 0xBF
  }

  /** Length of the well-formed sequence at the head of `b`, 0 if there is none. */
  function Utf8Head(b: bytes): (n: nat)
    requires b != []
    ensures n <= |b|
  {
    var c := b[0];
    if c < 0x80 then 1
    else if 0xC2 <= c <= 0xDF then
      if |b| >= 2 && Continuation(b[1]) then 2 else 0
    else if 0xE0 <= c <= 0xEF then
      if |b| >= 3 && Continuation(b[1]) && Continuation(b[2])
         && (c == 0xE0 ==> b[1] >= 0xA0) && (c == 0xED ==> b[1] <= 0x9F)
      then 3 else 0
    else if 0xF0 <= c <= 0xF4 then
      if |b| >= 4 && Continuation(b[1]) && Continuation(b[2]) && Continuation(b[3])
         && (c == 0xF0 ==> b[1] >= 0x90) && (c == 0xF4 ==> b[1] <= 0x8F)
      then 4 else 0
    else 0
  }

  predicate ValidUtf8(b: bytes) {
    b == [] || (Utf8Head(b) > 0 && ValidUtf8(b[Utf8Head(b)..]))
  }

  /** `b.decode("utf-8")` */
  function DecodeText(b: bytes): Result<Text, Raised> {
    if ValidUtf8(b) then Success(b) else Failure(UnicodeError)
  }

  function Ascii(s: string): Text
    requires forall i :: 0 <= i < |s| ==> s[i] < 128 as char
  {
    seq(|s|, i requires 0 <= i < |s| => s[i] as byte)
  }

  // ---- Where a byte string occurs in a buffer ------------------------------

  /** `x` occurs in `buf` at offset `pos`, wholly inside the buffer. */
  predicate At(buf: bytes, pos: int, x: bytes)
    decreases |x|
  {
    0 <= pos <= |buf| && (x == [] || (pos < |buf| && buf[pos] == x[0] && At(buf, pos + 1, x[1..])))
  }

  lemma {:induction false} AtSlice(buf: bytes, pos: int, x: bytes)
    requires At(buf, pos, x)
    ensures 0 <= pos && pos + |x| <= |buf| && buf[pos..pos + |x|] == x
    decreases |x|
  {
    if x != [] {
      AtSlice(buf, pos + 1, x[1..]);
      assert buf[pos..pos + |x|] == [buf[pos]] + buf[pos + 1..pos + |x|];
    }
  }

  lemma {:induction false} AtSplit(buf: bytes, pos: int, x: bytes, y: bytes)
    requires At(buf, pos, x + y)
    ensures At(buf, pos, x) && At(buf, pos + |x|, y)
    decreases |x|
  {
    if x == [] {
      assert x + y == y;
    } else {
      assert (x + y)[1..] == x[1..] + y;
      AtSplit(buf, pos + 1, x[1..], y);
    }
  }

  lemma {:induction false} AtWhole(buf: bytes, x: bytes, pos: nat, tail: bytes)
    requires buf == x + tail && pos <= |x|
    ensures At(buf, pos, x[pos..])
    decreases |x| - pos
  {
    if pos < |x| {
      AtWhole(buf, x, pos + 1, tail);
      assert x[pos..][1..] == x[pos + 1..];
    }
  }
}
