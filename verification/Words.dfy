/** Machine words and their little-endian byte images, as every structure that
    crosses a process or a network boundary here is copied byte for byte. */
module Words {
  type byte = x: int | 0 <= x < 0x100
  type u32 = x: int | 0 <= x < 0x1_0000_0000
  type i32 = x: int | -0x8000_0000 <= x < 0x8000_0000
  type u64 = x: int | 0 <= x < 0x1_0000_0000_0000_0000
  type i64 = x: int | -0x8000_0000_0000_0000 <= x < 0x8000_0000_0000_0000

  /** The value a `uint32_t` holds after an assignment from `x`. */
  function Wrap32(x: int): u32 {
    x % 0x1_0000_0000
  }

  /** Conversion of a `uint32_t` to `int32_t`, as in `header.seq = ++seq`. */
  function ToI32(x: u32): i32 {
    if x < 0x8000_0000 then x else x - 0x1_0000_0000
  }

  lemma WrapToI32(x: u32)
    ensures Wrap32(ToI32(x)) == x
  {
  }

  function ToI64(x: u64): i64 {
    if x < 0x8000_0000_0000_0000 then x else x - 0x1_0000_0000_0000_0000
  }

  function FromI64(x: i64): u64 {
    if x < 0 then x + 0x1_0000_0000_0000_0000 else x
  }

  /** `v` in `n` bytes, least significant first. */
  function Le(v: nat, n: nat): (bs: seq<byte>)
    ensures |bs| == n
    decreases n, v
  {
    if n == 0 then [] else [v % 0x100] + Le(v / 0x100, n - 1)
  }

  function FromLe(bs: seq<byte>): nat {
    if bs == [] then 0 else bs[0] + 0x100 * FromLe(bs[1..])
  }

  function Range(n: nat): nat {
    if n == 0 then 1 else 0x100 * Range(n - 1)
  }

  /** The byte of weight 256^i. */
  function ByteOf(v: nat, i: nat): byte
    decreases i
  {
    if i == 0 then v % 0x100 else ByteOf(v / 0x100, i - 1)
  }

  lemma {:induction false} LeByte(v: nat, n: nat, i: nat)
    requires i < n
    ensures Le(v, n)[i] == ByteOf(v, i)
    decreases n
  {
    if i > 0 {
      LeByte(v / 0x100, n - 1, i - 1);
    }
  }

  /** `v` stands in the message at this place, in `n` bytes, least significant first. */
  ghost predicate StandsAt(m: seq<byte>, at: nat, n: nat, v: nat) {
    at + n <= |m| && forall i: nat :: i < n ==> m[at + i] == ByteOf(v, i)
  }

  lemma LeStands(a: seq<byte>, v: nat, n: nat, b: seq<byte>)
    ensures StandsAt(a + Le(v, n) + b, |a|, n, v)
  {
    forall i: nat | i < n
      ensures (a + Le(v, n) + b)[|a| + i] == ByteOf(v, i)
    {
      LeByte(v, n, i);
    }
  }

  lemma {:induction false} LeRoundTrip(v: nat, n: nat)
    requires v < Range(n)
    ensures FromLe(Le(v, n)) == v
    decreases n
  {
    if n > 0 {
      LeRoundTrip(v / 0x100, n - 1);
      assert Le(v, n)[1..] == Le(v / 0x100, n - 1);
    }
  }

  lemma Le4RoundTrip(v: u32)
    ensures FromLe(Le(v, 4)) == v
  {
    assert Range(1) == 0x100;
    assert Range(2) == 0x1_0000;
    assert Range(3) == 0x100_0000;
    LeRoundTrip(v, 4);
  }

  lemma Le8RoundTrip(v: u64)
    ensures FromLe(Le(v, 8)) == v
  {
    assert Range(2) == 0x1_0000;
    assert Range(4) == 0x1_0000_0000;
    assert Range(6) == 0x1_0000_0000_0000;
    LeRoundTrip(v, 8);
  }

  lemma {:induction false} FromLeBound(bs: seq<byte>)
    ensures FromLe(bs) < Range(|bs|)
  {
    if bs != [] {
      FromLeBound(bs[1..]);
    }
  }

  /** Any four bytes read as a `uint32_t`. */
  function U32Of(bs: seq<byte>): u32
    requires |bs| == 4
  {
    FromLeBound(bs);
    assert Range(2) == 0x1_0000;
    FromLe(bs)
  }

  /** Any eight bytes read as a `size_t`. */
  function U64Of(bs: seq<byte>): u64
    requires |bs| == 8
  {
    FromLeBound(bs);
    assert Range(2) == 0x1_0000;
    assert Range(4) == 0x1_0000_0000;
    assert Range(6) == 0x1_0000_0000_0000;
    FromLe(bs)
  }

  lemma U64RoundTrip(v: u64, bs: seq<byte>)
    requires bs == Le(v, 8)
    ensures |bs| == 8 && U64Of(bs) == v
  {
    Le8RoundTrip(v);
  }

  lemma U32RoundTrip(v: u32, bs: seq<byte>)
    requires bs == Le(v, 4)
    ensures |bs| == 4 && U32Of(bs) == v
  {
    Le4RoundTrip(v);
  }

  /** A length written as a `size_t`. */
  function EncodeSize(n: nat): (bs: seq<byte>)
    ensures |bs| == 8
  {
    Le(n % 0x1_0000_0000_0000_0000, 8)
  }

  lemma SizeIsRead(n: nat)
    requires n < 0x1_0000_0000_0000_0000
    ensures U64Of(EncodeSize(n)) == n
  {
    hide Le, U64Of;
    U64RoundTrip(n, EncodeSize(n));
  }

  // ----- reads that come up short -----

  /** What the variables for a magic word and a length hold before they are read into; a
      file or stream that ends too early leaves part of that in them. */
  datatype Stale = Stale(magic: seq<byte>, length: seq<byte>) {
    predicate Valid() {
      |magic| == 4 && |length| == 8
    }
  }

  function Take(s: seq<byte>, n: nat): (r: seq<byte>)
    ensures |r| <= n
  {
    if |s| <= n then s else s[..n]
  }

  function Drop(s: seq<byte>, n: nat): seq<byte> {
    if |s| <= n then [] else s[n..]
  }

  /** A variable after a read of all its bytes that got these. */
  function Into(got: seq<byte>, before: seq<byte>): (after: seq<byte>)
    requires |got| <= |before|
    ensures |after| == |before|
  {
    got + before[|got|..]
  }

  function ZeroBytes(n: nat): (s: seq<byte>)
    ensures |s| == n
  {
    seq(n, _ => 0)
  }
}
