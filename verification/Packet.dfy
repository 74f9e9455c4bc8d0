/** IPv4/UDP packets as the DNS interceptor parses and builds them, and the Internet checksum. */
module Packet {
  import opened Bytes

  // ---- the Internet checksum, RFC 1071 -------------------------------------------

  /** The sum of the 16-bit words from index `i` on; an odd last byte is a high byte. */
  function WordSum(h: seq<byte>, i: nat): nat
    decreases |h| - i
  {
    if i >= |h| then 0
    else if i + 1 == |h| then U16(h[i], 0)
    else U16(h[i], h[i + 1]) + WordSum(h, i + 2)
  }

  /** The one's-complement sum of words that add up to `s`: `s` modulo 65535, with 0 kept for 0 alone. */
  function Folded(s: nat): (f: nat)
    ensures f < 0x1_0000 && f % 65535 == s % 65535 && (f == 0 <==> s == 0)
  {
    if s == 0 then 0 else 1 + (s - 1) % 65535
  }

  function Checksum(h: seq<byte>): u16 {
    65535 - Folded(WordSum(h, 0))
  }

  lemma FoldedUnique(f: nat, s: nat)
    requires f < 0x1_0000 && f % 65535 == s % 65535 && (f == 0 <==> s == 0)
    ensures f == Folded(s)
  {
  }

  lemma {:induction false} ModShift(q: nat, x: nat)
    ensures (65535 * q + x) % 65535 == x % 65535
  {
    if q > 0 {
      ModShift(q - 1, x);
      assert 65535 * q + x == (65535 * (q - 1) + x) + 65535;
    }
  }

  lemma FoldStep(s: nat)
    requires s >= 0x1_0000
    ensures Folded(s % 0x1_0000 + s / 0x1_0000) == Folded(s)
    ensures s % 0x1_0000 + s / 0x1_0000 < s
  {
    var q, r := s / 0x1_0000, s % 0x1_0000;
    assert s == 65535 * q + (q + r);
    ModShift(q, q + r);
    FoldedUnique(Folded(q + r), s);
  }

  lemma NoWrap(sum: nat, n: nat)
    requires n <= 131074 && sum <= 65535 * ((n + 1) / 2)
    ensures sum % 0x1_0000_0000 == sum
  {
  }

  lemma WrapAdd(s: nat, word: nat, rest: nat)
    ensures (s + (word + rest)) % 0x1_0000_0000 == ((s + word) % 0x1_0000_0000 + rest) % 0x1_0000_0000
  {
  }

  lemma AddStep(h: seq<byte>, i: nat, s: nat, word: nat)
    requires i < |h| && word == if i + 1 < |h| then U16(h[i], h[i + 1]) else U16(h[i], 0)
    ensures (s + WordSum(h, i)) % 0x1_0000_0000 == ((s + word) % 0x1_0000_0000 + WordSum(h, i + 2)) % 0x1_0000_0000
  {
    WrapAdd(s, word, WordSum(h, i + 2));
  }

  method AddWords(h: seq<byte>) returns (s: u32)
    ensures s == WordSum(h, 0) % 0x1_0000_0000
  {
    s := 0;
    var i := 0;
    while i < |h|
      invariant 0 <= i
      invariant WordSum(h, 0) % 0x1_0000_0000 == (s + WordSum(h, i)) % 0x1_0000_0000
    {
      var word := if i + 1 < |h| then U16(h[i], h[i + 1]) else U16(h[i], 0);
      AddStep(h, i, s, word);
      s := (s + word) % 0x1_0000_0000;
      i := i + 2;
    }
  }

  method Fold(sum: u32) returns (f: u16)
    ensures f == Folded(sum)
  {
    var s: nat := sum;
    while s / 0x1_0000 != 0
      invariant Folded(s) == Folded(sum)
      decreases s
    {
      FoldStep(s);
      s := s % 0x1_0000 + s / 0x1_0000;
    }
    FoldedUnique(s, s);
    f := s;
  }

  /** Each word adds at most 65535, so 65537 of them cannot overflow the accumulator. */
  lemma {:induction false} WordSumBound(h: seq<byte>, i: nat)
    requires i <= |h| + 1
    ensures WordSum(h, i) <= 65535 * ((|h| + 1 - i) / 2)
    decreases |h| - i
  {
    if i + 1 < |h| {
      WordSumBound(h, i + 2);
    }
  }

  /** The source's two loops on a `u32`; the accumulator wraps as in a release build. */
  method IpChecksum(h: seq<byte>) returns (ck: u16)
    ensures ck == 65535 - Folded(WordSum(h, 0) % 0x1_0000_0000)
    ensures |h| <= 131074 ==> ck == Checksum(h)
  {
    var s := AddWords(h);
    var f := Fold(s);
    ck := 65535 - f;
    if |h| <= 131074 {
      WordSumBound(h, 0);
      NoWrap(WordSum(h, 0), |h|);
    }
  }

  function SetWord(h: seq<byte>, k: nat, w: u16): (h': seq<byte>)
    requires k + 2 <= |h|
    ensures |h'| == |h|
  {
    h[k := BE16(w)[0]][k + 1 := BE16(w)[1]]
  }

  lemma {:induction false} WordSumAfter(h: seq<byte>, h': seq<byte>, i: nat)
    requires |h| == |h'| && forall j | i <= j < |h| :: h[j] == h'[j]
    ensures WordSum(h, i) == WordSum(h', i)
    decreases |h| - i
  {
    if i + 1 < |h| {
      WordSumAfter(h, h', i + 2);
    }
  }

  lemma {:induction false} WordSumSet(h: seq<byte>, i: nat, k: nat, w: u16)
    requires i <= k && k + 2 <= |h| && (k - i) % 2 == 0
    ensures WordSum(SetWord(h, k, w), i) + U16(h[k], h[k + 1]) == WordSum(h, i) + w
    decreases k - i
  {
    if i == k {
      WordSumAfter(h, SetWord(h, k, w), k + 2);
    } else {
      WordSumSet(h, i + 2, k, w);
    }
  }

  /** Adding the complement of its folded value folds any sum to 65535. */
  lemma ComplementFolds(s: nat)
    ensures Folded(s) <= s && Folded(s - Folded(s) + 65535) == 65535
  {
    if s == 0 {
      FoldedUnique(65535, 65535);
    } else {
      var q := (s - 1) / 65535;
      assert s - Folded(s) + 65535 == 65535 * (q + 1);
      ModShift(q + 1, 0);
      FoldedUnique(65535, 65535 * (q + 1));
    }
  }

  lemma FieldAdds(h: seq<byte>, k: nat, w: u16, h': seq<byte>)
    requires k + 2 <= |h| && k % 2 == 0 && h[k] == 0 && h[k + 1] == 0 && h' == SetWord(h, k, w)
    ensures WordSum(h', 0) == WordSum(h, 0) + w
  {
    WordSumSet(h, 0, k, w);
  }

  lemma SumsToZero(sum: nat, sum': nat, ck: u16)
    requires ck == 65535 - Folded(sum) && sum' == sum + ck
    ensures Folded(sum') == 65535
  {
    ComplementFolds(sum);
  }

  /** A checksum put in a zeroed aligned field makes any header sum to zero, the all-zero one included. */
  lemma ChecksumVerifies(h: seq<byte>, k: nat)
    requires k + 2 <= |h| && k % 2 == 0 && h[k] == 0 && h[k + 1] == 0
    ensures Checksum(SetWord(h, k, Checksum(h))) == 0
  {
    var h' := SetWord(h, k, Checksum(h));
    FieldAdds(h, k, Checksum(h), h');
    SumsToZero(WordSum(h, 0), WordSum(h', 0), Checksum(h));
  }

  lemma ModSum(s: nat, a: nat, s': nat, w: nat)
    requires s % 65535 == 0 && s' + a == s + w
    ensures s' % 65535 == 0 <==> a % 65535 == w % 65535
  {
  }

  /** Changing one word of a header that sums to zero is noticed, unless the words agree modulo 65535. */
  lemma ChangeDetectedIff(h: seq<byte>, k: nat, w: u16)
    requires k + 2 <= |h| && k % 2 == 0 && Checksum(h) == 0
    ensures Checksum(SetWord(h, k, w)) == 0
            <==> U16(h[k], h[k + 1]) % 65535 == w % 65535 && WordSum(SetWord(h, k, w), 0) > 0
  {
    var s, s' := WordSum(h, 0), WordSum(SetWord(h, k, w), 0);
    var was := U16(h[k], h[k + 1]);
    WordSumSet(h, 0, k, w);
    assert s % 65535 == 0 by {
      assert Folded(s) == 65535;
    }
    assert Folded(s') == 65535 <==> s' % 65535 == 0 && s' > 0 by {
      if s' % 65535 == 0 && s' > 0 {
        FoldedUnique(65535, s');
      }
    }
    ModSum(s, was, s', w);
  }

  // ---- UDP over IPv4 -------------------------------------------------------------

  datatype ByteOrder = BigEndian | LittleEndian

  /** `from_ne_bytes` */
  function FromNe(a: byte, b: byte, c: byte, d: byte, order: ByteOrder): u32 {
    if order.BigEndian? then U32(a, b, c, d) else U32(d, c, b, a)
  }

  /** `to_ne_bytes` */
  function NeBytes(n: u32, order: ByteOrder): (b: seq<byte>)
    ensures |b| == 4 && FromNe(b[0], b[1], b[2], b[3], order) == n
  {
    var b := BE32(n);
    if order.BigEndian? then b else [b[3], b[2], b[1], b[0]]
  }

  datatype Datagram = Datagram(srcIp: u32, srcPort: u16, dstIp: u32, dstPort: u16, payload: seq<byte>)

  /** Total on every byte string; what it returns as payload lies inside the packet, behind both headers. */
  function ParseUdpPacket(ip: seq<byte>, order: ByteOrder): (r: Option<Datagram>)
    ensures r.Some? ==> |ip| >= 28
    ensures r.Some? ==>
              var start := ip[0] % 16 * 4 + 8;
              start + |r.value.payload| <= |ip| && r.value.payload == ip[start..start + |r.value.payload|]
  {
    if |ip| < 28 || ip[0] / 16 != 4 || ip[9] != 17 then None
    else
      var ihl: nat := ip[0] % 16 * 4;
      if |ip| < ihl + 8 then None
      else
        var udpLen: nat := U16(ip[ihl + 4], ip[ihl + 5]);
        var start, end := ihl + 8, Min(ihl + udpLen, |ip|);
        if start > end then None
        else
          Some(Datagram(FromNe(ip[12], ip[13], ip[14], ip[15], order), U16(ip[ihl], ip[ihl + 1]),
                        FromNe(ip[16], ip[17], ip[18], ip[19], order), U16(ip[ihl + 2], ip[ihl + 3]),
                        ip[start..end]))
  }

  /**
   The layout, from section 3.1 of RFC 791 and RFC 768: version 4 and a header of `4 * words`
   bytes, protocol 17, the addresses at 12 and 16; behind the header the two ports, a length of
   at least 8 and a checksum nobody reads; then the payload, cut to the packet if that is short.
  */
  predicate Carries(ip: seq<byte>, order: ByteOrder, words: nat, length: u16, d: Datagram) {
    && |ip| >= 28 && words < 16 && 4 * words + 8 <= |ip| && length >= 8
    && ip[0] == 0x40 + words && ip[9] == 17
    && ip[12..16] == NeBytes(d.srcIp, order) && ip[16..20] == NeBytes(d.dstIp, order)
    && ip[4 * words..4 * words + 2] == BE16(d.srcPort) && ip[4 * words + 2..4 * words + 4] == BE16(d.dstPort)
    && ip[4 * words + 4..4 * words + 6] == BE16(length)
    && d.payload == ip[4 * words + 8..if 4 * words + length <= |ip| then 4 * words + length else |ip|]
  }

  lemma BE16Inverts(a: byte, b: byte)
    ensures BE16(U16(a, b)) == [a, b]
  {
  }

  lemma FieldIs(ip: seq<byte>, at: nat, n: u16)
    requires at + 2 <= |ip|
    ensures ip[at..at + 2] == BE16(n) <==> U16(ip[at], ip[at + 1]) == n
  {
    var f := ip[at..at + 2];
    assert f == [ip[at], ip[at + 1]];
    BE16Inverts(ip[at], ip[at + 1]);
  }

  lemma Halves(h: nat, l: nat)
    requires l < 0x1_0000
    ensures (h * 0x1_0000 + l) / 0x1_0000 == h && (h * 0x1_0000 + l) % 0x1_0000 == l
  {
  }

  lemma BE32Of(n: u32, hi: u16, lo: u16)
    requires n == hi * 0x1_0000 + lo
    ensures BE32(n) == BE16(hi) + BE16(lo)
  {
    Halves(hi, lo);
  }

  lemma BE32Inverts(a: byte, b: byte, c: byte, d: byte)
    ensures BE32(U32(a, b, c, d)) == [a, b, c, d]
  {
    BE32Of(U32(a, b, c, d), U16(a, b), U16(c, d));
    BE16Inverts(a, b);
    BE16Inverts(c, d);
  }

  lemma NeInverts(a: byte, b: byte, c: byte, d: byte, order: ByteOrder)
    ensures NeBytes(FromNe(a, b, c, d, order), order) == [a, b, c, d]
  {
    BE32Inverts(a, b, c, d);
    BE32Inverts(d, c, b, a);
  }

  lemma AddressIs(ip: seq<byte>, at: nat, n: u32, order: ByteOrder)
    requires at + 4 <= |ip|
    ensures ip[at..at + 4] == NeBytes(n, order) <==> FromNe(ip[at], ip[at + 1], ip[at + 2], ip[at + 3], order) == n
  {
    var f := ip[at..at + 4];
    assert f == [ip[at], ip[at + 1], ip[at + 2], ip[at + 3]];
    NeInverts(ip[at], ip[at + 1], ip[at + 2], ip[at + 3], order);
  }

  /** Host order, on bytes that tell. */
  lemma HostOrder()
    ensures NeBytes(0x01020304, BigEndian) == [1, 2, 3, 4] && NeBytes(0x01020304, LittleEndian) == [4, 3, 2, 1]
  {
    NetworkOrder();
  }

  /** The same layout, field by field. */
  predicate Named(ip: seq<byte>, order: ByteOrder, at: nat, length: u16, d: Datagram)
    requires |ip| >= 28 && at + 8 <= |ip| && length >= 8
  {
    && ip[9] == 17
    && FromNe(ip[12], ip[13], ip[14], ip[15], order) == d.srcIp
    && FromNe(ip[16], ip[17], ip[18], ip[19], order) == d.dstIp
    && U16(ip[at], ip[at + 1]) == d.srcPort && U16(ip[at + 2], ip[at + 3]) == d.dstPort
    && U16(ip[at + 4], ip[at + 5]) == length
    && d.payload == ip[at + 8..Min(at + length, |ip|)]
  }

  lemma UdpFieldsAre(ip: seq<byte>, at: nat, srcPort: u16, dstPort: u16, length: u16)
    requires at + 8 <= |ip|
    ensures ip[at..at + 2] == BE16(srcPort) <==> U16(ip[at], ip[at + 1]) == srcPort
    ensures ip[at + 2..at + 4] == BE16(dstPort) <==> U16(ip[at + 2], ip[at + 3]) == dstPort
    ensures ip[at + 4..at + 6] == BE16(length) <==> U16(ip[at + 4], ip[at + 5]) == length
  {
    FieldIs(ip, at, srcPort);
    FieldIs(ip, at + 2, dstPort);
    FieldIs(ip, at + 4, length);
  }

  lemma AddressesAre(ip: seq<byte>, src: u32, dst: u32, order: ByteOrder)
    requires |ip| >= 28
    ensures ip[12..16] == NeBytes(src, order) <==> FromNe(ip[12], ip[13], ip[14], ip[15], order) == src
    ensures ip[16..20] == NeBytes(dst, order) <==> FromNe(ip[16], ip[17], ip[18], ip[19], order) == dst
  {
    AddressIs(ip, 12, src, order);
    AddressIs(ip, 16, dst, order);
  }

  lemma CarriesNamed(ip: seq<byte>, order: ByteOrder, words: nat, length: u16, d: Datagram)
    requires |ip| >= 28 && words < 16 && 4 * words + 8 <= |ip| && length >= 8 && ip[0] == 0x40 + words
    ensures Carries(ip, order, words, length, d) <==> Named(ip, order, 4 * words, length, d)
  {
    UdpFieldsAre(ip, 4 * words, d.srcPort, d.dstPort, length);
    AddressesAre(ip, d.srcIp, d.dstIp, order);
  }

  lemma FieldsDecide(ip: seq<byte>, order: ByteOrder, words: nat, length: u16, d: Datagram)
    requires |ip| >= 28 && words < 16 && 4 * words + 8 <= |ip| && length >= 8 && ip[0] == 0x40 + words
    ensures Named(ip, order, 4 * words, length, d)
            <==> && ip[9] == 17 && U16(ip[4 * words + 4], ip[4 * words + 5]) == length
                 && ParseUdpPacket(ip, order) == Some(d)
  {
    assert ip[0] / 16 == 4 && ip[0] % 16 == words;
  }

  /** The parser returns exactly the datagrams that packets carry, and refuses everything else. */
  lemma ParsesIffCarries(ip: seq<byte>, order: ByteOrder, d: Datagram)
    ensures ParseUdpPacket(ip, order) == Some(d) <==> exists words: nat, length: u16 :: Carries(ip, order, words, length, d)
  {
    if ParseUdpPacket(ip, order) == Some(d) {
      var words := ip[0] % 16;
      assert ip[0] == 0x40 + words;
      var length := U16(ip[4 * words + 4], ip[4 * words + 5]);
      FieldsDecide(ip, order, words, length, d);
      CarriesNamed(ip, order, words, length, d);
    }
    if words: nat, length: u16 :| Carries(ip, order, words, length, d) {
      CarriesNamed(ip, order, words, length, d);
      FieldsDecide(ip, order, words, length, d);
    }
  }

  /** A packet of any other protocol, TCP for one, is left alone; so is any other version. */
  lemma OtherProtocolRefused(ip: seq<byte>, order: ByteOrder)
    requires |ip| < 28 || ip[9] != 17 || ip[0] < 0x40 || ip[0] > 0x4F
    ensures ParseUdpPacket(ip, order).None?
  {
  }

  /** The IPv4 header before its checksum, from the encoded total length and addresses. */
  function IpHeader(t: seq<byte>, s: seq<byte>, d: seq<byte>): (h: seq<byte>)
    requires |t| == 2 && |s| == |d| == 4
    ensures |h| == 20 && h[10] == 0 && h[11] == 0
  {
    [0x45, 0, t[0], t[1], 0, 0, 0x40, 0, 64, 17, 0, 0, s[0], s[1], s[2], s[3], d[0], d[1], d[2], d[3]]
  }

  function UdpHeader(srcPort: u16, dstPort: u16, udpLen: u16): (u: seq<byte>)
    ensures |u| == 8
  {
    BE16(srcPort) + BE16(dstPort) + BE16(udpLen) + [0, 0]
  }

  /** Header lengths are cast with `as u16`: they truncate. */
  function HeaderOf(d: Datagram, order: ByteOrder): (h: seq<byte>)
    ensures |h| == 20 && h[10] == 0 && h[11] == 0
  {
    IpHeader(BE16(Wrap16(28 + |d.payload|)), NeBytes(d.srcIp, order), NeBytes(d.dstIp, order))
  }

  /** The header as sent: its words sum to zero. */
  function CheckedHeader(d: Datagram, order: ByteOrder): (h: seq<byte>)
    ensures |h| == 20 && Checksum(h) == 0
  {
    var h := HeaderOf(d, order);
    ChecksumVerifies(h, 10);
    SetWord(h, 10, Checksum(h))
  }

  function UdpPacket(d: Datagram, order: ByteOrder): (p: seq<byte>)
    ensures |p| == 28 + |d.payload|
  {
    CheckedHeader(d, order) + UdpHeader(d.srcPort, d.dstPort, Wrap16(8 + |d.payload|)) + d.payload
  }

  /** `copy_from_slice` */
  method Copy(p: array<byte>, at: nat, src: seq<byte>)
    requires at + |src| <= p.Length
    modifies p
    ensures p[at..at + |src|] == src
    ensures forall i | 0 <= i < p.Length && !(at <= i < at + |src|) :: p[i] == old(p[i])
  {
    forall i | 0 <= i < |src| {
      p[at + i] := src[i];
    }
  }

  lemma HeaderIs(h: seq<byte>, t: seq<byte>, s: seq<byte>, d: seq<byte>)
    requires |h| == 20 && |t| == 2 && |s| == |d| == 4
    requires h[0] == 0x45 && h[1] == 0 && h[2] == t[0] && h[3] == t[1]
    requires h[4] == h[5] == 0 && h[6] == 0x40 && h[7] == 0 && h[8] == 64 && h[9] == 17 && h[10] == h[11] == 0
    requires h[12] == s[0] && h[13] == s[1] && h[14] == s[2] && h[15] == s[3]
    requires h[16] == d[0] && h[17] == d[1] && h[18] == d[2] && h[19] == d[3]
    ensures h == IpHeader(t, s, d)
  {
  }

  /** `copy_from_slice` of an address. */
  method PutAddress(p: array<byte>, at: nat, a: seq<byte>)
    requires at + 4 <= p.Length && |a| == 4
    modifies p
    ensures p[at] == a[0] && p[at + 1] == a[1] && p[at + 2] == a[2] && p[at + 3] == a[3]
    ensures forall i | 0 <= i < p.Length && !(at <= i < at + 4) :: p[i] == old(p[i])
  {
    p[at], p[at + 1], p[at + 2], p[at + 3] := a[0], a[1], a[2], a[3];
  }

  method PutIpHeader(p: array<byte>, t: seq<byte>, s: seq<byte>, d: seq<byte>)
    requires p.Length >= 28 && (forall i | 0 <= i < p.Length :: p[i] == 0)
    requires |t| == 2 && |s| == |d| == 4
    modifies p
    ensures p[..20] == IpHeader(t, s, d)
    ensures p[26] == p[27] == 0
  {
    p[0] := 0x45;
    p[2], p[3] := t[0], t[1];
    p[6] := 0x40;
    p[8] := 64;
    p[9] := 17;
    PutAddress(p, 12, s);
    PutAddress(p, 16, d);
    HeaderIs(p[..20], t, s, d);
  }

  /** One `copy_from_slice` of a big-endian field. */
  method PutField(p: array<byte>, at: nat, n: u16)
    requires at + 2 <= p.Length
    modifies p
    ensures U16(p[at], p[at + 1]) == n && p[at] == BE16(n)[0] && p[at + 1] == BE16(n)[1]
    ensures forall i | 0 <= i < p.Length && i != at && i != at + 1 :: p[i] == old(p[i])
  {
    p[at], p[at + 1] := BE16(n)[0], BE16(n)[1];
  }

  lemma UdpHeaderIs(u: seq<byte>, a: seq<byte>, b: seq<byte>, c: seq<byte>)
    requires |u| == 8 && |a| == |b| == |c| == 2
    requires u[0] == a[0] && u[1] == a[1] && u[2] == b[0] && u[3] == b[1] && u[4] == c[0] && u[5] == c[1]
    requires u[6] == u[7] == 0
    ensures u == a + b + c + [0, 0]
  {
  }

  method PutUdpHeader(p: array<byte>, srcPort: u16, dstPort: u16, udpLen: u16)
    requires p.Length >= 28 && p[26] == p[27] == 0
    modifies p
    ensures p[20..28] == UdpHeader(srcPort, dstPort, udpLen)
    ensures p[..20] == old(p[..20])
  {
    PutField(p, 20, srcPort);
    PutField(p, 22, dstPort);
    PutField(p, 24, udpLen);
    UdpHeaderIs(p[20..28], BE16(srcPort), BE16(dstPort), BE16(udpLen));
  }

  method PutChecksum(p: array<byte>)
    requires p.Length >= 28
    modifies p
    ensures p[..20] == SetWord(old(p[..20]), 10, Checksum(old(p[..20])))
    ensures p[26] == old(p[26]) && p[27] == old(p[27])
  {
    ghost var h := p[..20];
    var ck := IpChecksum(p[..20]);
    p[10], p[11] := BE16(ck)[0], BE16(ck)[1];
    assert p[..20] == SetWord(h, 10, ck);
  }

  method PutPayload(p: array<byte>, payload: seq<byte>)
    requires p.Length == 28 + |payload|
    modifies p
    ensures p[..] == old(p[..20]) + old(p[20..28]) + payload
  {
    ghost var a, b := p[..20], p[20..28];
    Copy(p, 28, payload);
    assert p[..20] == a && p[20..28] == b;
    assert p[..] == p[..20] + p[20..28] + p[28..];
  }

  /** The source's buffer, filled slice by slice. */
  method BuildUdpPacket(d: Datagram, order: ByteOrder) returns (packet: seq<byte>)
    ensures packet == UdpPacket(d, order)
  {
    var udpLen: nat := 8 + |d.payload|;
    var p := new byte[20 + udpLen](_ => 0);
    PutIpHeader(p, BE16(Wrap16(20 + udpLen)), NeBytes(d.srcIp, order), NeBytes(d.dstIp, order));
    PutChecksum(p);
    PutUdpHeader(p, d.srcPort, d.dstPort, Wrap16(udpLen));
    PutPayload(p, d.payload);
    packet := p[..];
  }

  lemma Slices(a: seq<byte>, b: seq<byte>, c: seq<byte>)
    requires |a| == 20 && |b| == 8
    ensures (a + b + c)[..20] == a && (a + b + c)[20..28] == b && (a + b + c)[28..] == c
  {
  }

  /** Where the checked header, the UDP header and the payload stand. */
  lemma Layout(d: Datagram, order: ByteOrder)
    ensures var p := UdpPacket(d, order);
            && p[..20] == CheckedHeader(d, order)
            && p[20..28] == UdpHeader(d.srcPort, d.dstPort, Wrap16(8 + |d.payload|))
            && p[28..] == d.payload
  {
    Slices(CheckedHeader(d, order), UdpHeader(d.srcPort, d.dstPort, Wrap16(8 + |d.payload|)), d.payload);
  }

  predicate IpFields(h: seq<byte>, total: u16, src: u32, dst: u32, order: ByteOrder)
    requires |h| >= 20
  {
    && h[0] == 0x45 && h[9] == 17 && U16(h[2], h[3]) == total
    && FromNe(h[12], h[13], h[14], h[15], order) == src
    && FromNe(h[16], h[17], h[18], h[19], order) == dst
  }

  predicate UdpFields(u: seq<byte>, srcPort: u16, dstPort: u16, udpLen: u16)
    requires |u| >= 8
  {
    U16(u[0], u[1]) == srcPort && U16(u[2], u[3]) == dstPort && U16(u[4], u[5]) == udpLen
  }

  lemma HeaderFields(total: u16, src: u32, dst: u32, order: ByteOrder, ck: u16)
    ensures var h := IpHeader(BE16(total), NeBytes(src, order), NeBytes(dst, order));
            && h[10] == 0 && h[11] == 0
            && IpFields(SetWord(h, 10, ck), total, src, dst, order)
  {
    var t, s, d := BE16(total), NeBytes(src, order), NeBytes(dst, order);
    var h := IpHeader(t, s, d);
    var h' := SetWord(h, 10, ck);
    assert h'[2] == t[0] && h'[3] == t[1];
    assert h'[12] == s[0] && h'[13] == s[1] && h'[14] == s[2] && h'[15] == s[3];
    assert h'[16] == d[0] && h'[17] == d[1] && h'[18] == d[2] && h'[19] == d[3];
  }

  lemma UdpHeaderFields(srcPort: u16, dstPort: u16, udpLen: u16)
    ensures UdpFields(UdpHeader(srcPort, dstPort, udpLen), srcPort, dstPort, udpLen)
  {
  }

  lemma IpFieldsPrefix(p: seq<byte>, h: seq<byte>, total: u16, src: u32, dst: u32, order: ByteOrder)
    requires |h| == 20 <= |p| && p[..20] == h && IpFields(h, total, src, dst, order)
    ensures IpFields(p, total, src, dst, order)
  {
    assert forall i | 0 <= i < 20 :: p[i] == h[i];
  }

  lemma UdpFieldsPrefix(p: seq<byte>, u: seq<byte>, srcPort: u16, dstPort: u16, udpLen: u16)
    requires |u| == 8 <= |p| && p[..8] == u && UdpFields(u, srcPort, dstPort, udpLen)
    ensures UdpFields(p, srcPort, dstPort, udpLen)
  {
    assert forall i | 0 <= i < 8 :: p[i] == u[i];
  }

  /** The fields of a built packet, the lengths truncated. */
  lemma BuiltFields(d: Datagram, order: ByteOrder)
    ensures IpFields(UdpPacket(d, order), Wrap16(28 + |d.payload|), d.srcIp, d.dstIp, order)
    ensures UdpFields(UdpPacket(d, order)[20..], d.srcPort, d.dstPort, Wrap16(8 + |d.payload|))
  {
    var p := UdpPacket(d, order);
    Layout(d, order);
    HeaderFields(Wrap16(28 + |d.payload|), d.srcIp, d.dstIp, order, Checksum(HeaderOf(d, order)));
    UdpHeaderFields(d.srcPort, d.dstPort, Wrap16(8 + |d.payload|));
    IpFieldsPrefix(p, p[..20], Wrap16(28 + |d.payload|), d.srcIp, d.dstIp, order);
    UdpFieldsPrefix(p[20..], p[20..28], d.srcPort, d.dstPort, Wrap16(8 + |d.payload|));
  }

  lemma WrapIff(n: nat)
    ensures Wrap16(n) <= n && (Wrap16(n) == n <==> n < 0x1_0000)
  {
  }

  lemma HeaderConstants(t: seq<byte>, s: seq<byte>, d: seq<byte>, ck: u16)
    requires |t| == 2 && |s| == |d| == 4
    ensures var h := SetWord(IpHeader(t, s, d), 10, ck);
            && h[0] == 0x45 && h[1] == 0 && h[4] == 0 && h[5] == 0
            && h[6] == 0x40 && h[7] == 0 && h[8] == 64 && h[9] == 17
  {
  }

  /** The constant bytes of a built packet: don't fragment, a TTL of 64, protocol 17, no UDP checksum. */
  lemma BuiltConstants(d: Datagram, order: ByteOrder)
    ensures var p := UdpPacket(d, order);
            && p[0] == 0x45 && p[1] == 0 && p[4] == 0 && p[5] == 0
            && p[6] == 0x40 && p[7] == 0 && p[8] == 64 && p[9] == 17
            && p[26] == 0 && p[27] == 0
  {
    var p, h := UdpPacket(d, order), CheckedHeader(d, order);
    Layout(d, order);
    assert forall i | 0 <= i < 20 :: p[i] == p[..20][i];
    assert p[26] == p[20..28][6] && p[27] == p[20..28][7];
    HeaderConstants(BE16(Wrap16(28 + |d.payload|)), NeBytes(d.srcIp, order), NeBytes(d.dstIp, order),
                    Checksum(HeaderOf(d, order)));
  }

  /** The total length field is right exactly up to 65507 payload bytes. */
  lemma TotalLengthIff(d: Datagram, order: ByteOrder)
    ensures U16(UdpPacket(d, order)[2], UdpPacket(d, order)[3]) == |UdpPacket(d, order)| <==> |d.payload| <= 65507
  {
    BuiltFields(d, order);
    WrapIff(28 + |d.payload|);
  }

  /** What the parser makes of a packet with the header fields named. */
  lemma ParsesFields(p: seq<byte>, d: Datagram, order: ByteOrder, total: u16, udpLen: u16)
    requires |p| >= 28
    requires IpFields(p, total, d.srcIp, d.dstIp, order) && UdpFields(p[20..], d.srcPort, d.dstPort, udpLen)
    ensures ParseUdpPacket(p, order)
            == if udpLen < 8 then None else Some(d.(payload := p[28..Min(20 + udpLen, |p|)]))
  {
    assert forall i | 0 <= i < 8 :: p[20..][i] == p[20 + i];
    assert p[0] / 16 == 4 && p[0] % 16 * 4 == 20;
  }

  lemma PayloadIff(p: seq<byte>, payload: seq<byte>, udpLen: u16)
    requires |p| == 28 + |payload| && p[28..] == payload && 8 <= udpLen <= 8 + |payload|
    ensures p[28..Min(20 + udpLen, |p|)] == payload <==> udpLen == 8 + |payload|
  {
    assert |p[28..20 + udpLen]| == udpLen - 8;
  }

  /** A packet built parses back to what it was built from, exactly up to 65527 payload bytes. */
  lemma RoundTripIff(d: Datagram, order: ByteOrder)
    ensures ParseUdpPacket(UdpPacket(d, order), order) == Some(d) <==> |d.payload| <= 65527
  {
    var p, udpLen := UdpPacket(d, order), Wrap16(8 + |d.payload|);
    Layout(d, order);
    BuiltFields(d, order);
    ParsesFields(p, d, order, Wrap16(28 + |d.payload|), udpLen);
    WrapIff(8 + |d.payload|);
    if udpLen >= 8 {
      PayloadIff(p, d.payload, udpLen);
    }
  }
}
