/** Octets, big-endian fields and the concatenation of chunks. */
module Bytes {
  type byte = x: int | 0 <= x < 256
  type u16 = x: int | 0 <= x < 0x1_0000
  type u32 = x: int | 0 <= x < 0x1_0000_0000

  datatype Option<+T> = None | Some(value: T)

  function U16(hi: byte, lo: byte): u16 {
    hi * 256 + lo
  }

  function BE16(n: u16): (b: seq<byte>)
    ensures |b| == 2 && U16(b[0], b[1]) == n
  {
    [n / 256, n % 256]
  }

  function U32(a: byte, b: byte, c: byte, d: byte): u32 {
    U16(a, b) * 0x1_0000 + U16(c, d)
  }

  function BE32(n: u32): (b: seq<byte>)
    ensures |b| == 4 && U32(b[0], b[1], b[2], b[3]) == n
  {
    BE16(n / 0x1_0000) + BE16(n % 0x1_0000)
  }

  /** Network order, on bytes that tell: the most significant first. */
  lemma NetworkOrder()
    ensures BE16(0x0102) == [1, 2] && U16(1, 2) == 0x0102
    ensures BE32(0x01020304) == [1, 2, 3, 4] && U32(1, 2, 3, 4) == 0x01020304
  {
    var n: u32, hi: u16, lo: u16 := 0x01020304, 0x0102, 0x0304;
    assert n / 0x1_0000 == hi && n % 0x1_0000 == lo;
    assert BE16(hi) == [1, 2] && BE16(lo) == [3, 4];
    assert BE32(n) == BE16(hi) + BE16(lo) == [1, 2, 3, 4];
  }

  /** An `as u16` cast. */
  function Wrap16(n: nat): u16 {
    n % 0x1_0000
  }

  /** Whole multiples of the modulus do not matter. */
  lemma {:induction false} WrapShift(q: nat, x: nat)
    ensures Wrap16(0x1_0000 * q + x) == Wrap16(x)
  {
    if q > 0 {
      WrapShift(q - 1, x);
      assert 0x1_0000 * q + x == (0x1_0000 * (q - 1) + x) + 0x1_0000;
    }
  }

  function Min(a: nat, b: nat): nat {
    if a <= b then a else b
  }

  lemma Assoc<T>(a: seq<T>, b: seq<T>, c: seq<T>)
    ensures a + b + c == a + (b + c)
  {
  }

  function Concat(chunks: seq<seq<byte>>): seq<byte> {
    if chunks == [] then [] else chunks[0] + Concat(chunks[1..])
  }

  lemma {:induction false} ConcatSnoc(chunks: seq<seq<byte>>, chunk: seq<byte>)
    ensures Concat(chunks + [chunk]) == Concat(chunks) + chunk
  {
    if chunks == [] {
      assert ([chunk])[1..] == [];
    } else {
      ConcatSnoc(chunks[1..], chunk);
      assert (chunks + [chunk])[1..] == chunks[1..] + [chunk];
    }
  }
}
