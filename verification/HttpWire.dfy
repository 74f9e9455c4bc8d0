/** The two directions of HTTP-mode framing as functions on whole byte strings. */
module HttpWire {
  import opened Bytes

  const CR: byte := 13
  const LF: byte := 10
  const CRLF: seq<byte> := [CR, LF]
  const MAX_HEADER := 16384
  const READ_CHUNK := 1024

  // ---- the header terminator -----------------------------------------------------

  predicate TerminatorAt(data: seq<byte>, i: nat) {
    i + 4 <= |data| && data[i] == CR && data[i + 1] == LF && data[i + 2] == CR && data[i + 3] == LF
  }

  /** A terminator is the four bytes CR LF CR LF. */
  lemma TerminatorIs(data: seq<byte>, i: nat)
    requires i + 4 <= |data|
    ensures TerminatorAt(data, i) <==> data[i..i + 4] == [13, 10, 13, 10]
  {
    var w := data[i..i + 4];
    assert w == [data[i], data[i + 1], data[i + 2], data[i + 3]];
  }

  predicate NoTerminator(data: seq<byte>) {
    forall i: nat | i + 4 <= |data| :: !TerminatorAt(data, i)
  }

  /** The end of the first terminator at or after index `i`. */
  function HeaderEndFrom(data: seq<byte>, i: nat): (end: Option<nat>)
    ensures end.None? ==> forall j: nat | i <= j && j + 4 <= |data| :: !TerminatorAt(data, j)
    ensures end.Some? ==> end.value >= i + 4 && TerminatorAt(data, end.value - 4)
    ensures end.Some? ==> forall j: nat | i <= j < end.value - 4 :: !TerminatorAt(data, j)
    decreases |data| - i
  {
    if i + 4 > |data| then None
    else if TerminatorAt(data, i) then Some(i + 4)
    else HeaderEndFrom(data, i + 1)
  }

  /** Where the header ends: just after the terminator of least index. */
  function HeaderEnd(data: seq<byte>): Option<nat> {
    HeaderEndFrom(data, 0)
  }

  function BodyOf(data: seq<byte>): seq<byte> {
    var end := HeaderEnd(data);
    if end.Some? then data[end.value..] else []
  }

  /** The source's search returns the least index of a terminator. */
  method FindDoubleCrlf(data: seq<byte>) returns (idx: Option<nat>)
    ensures idx.None? <==> NoTerminator(data)
    ensures idx.Some? ==> TerminatorAt(data, idx.value) && forall j: nat | j < idx.value :: !TerminatorAt(data, j)
    ensures idx.Some? ==> data[idx.value..idx.value + 4] == [13, 10, 13, 10]
    ensures HeaderEnd(data) == if idx.Some? then Some(idx.value + 4) else None
  {
    if |data| < 4 {
      return None;
    }
    for i := 0 to |data| - 3
      invariant forall j: nat | j < i :: !TerminatorAt(data, j)
      invariant HeaderEnd(data) == HeaderEndFrom(data, i)
    {
      var window := data[i..i + 4];
      assert window == [data[i], data[i + 1], data[i + 2], data[i + 3]];
      if window == [CR, LF, CR, LF] {
        TerminatorIs(data, i);
        return Some(i);
      }
    }
    return None;
  }

  /** A header end depends on nothing that follows it. */
  lemma HeaderEndExtends(data: seq<byte>, more: seq<byte>)
    ensures HeaderEnd(data).Some? ==>
              HeaderEnd(data + more) == HeaderEnd(data) && BodyOf(data + more) == BodyOf(data) + more
    ensures HeaderEnd(data).None? && HeaderEnd(data + more).Some? ==> HeaderEnd(data + more).value > |data|
  {
    var a, b := HeaderEnd(data), HeaderEnd(data + more);
    assert forall i: nat | i + 4 <= |data| :: TerminatorAt(data, i) <==> TerminatorAt(data + more, i);
    if a.Some? {
      assert TerminatorAt(data + more, a.value - 4);
      assert TerminatorAt(data, b.value - 4);
      assert a == b;
      assert (data + more)[a.value..] == data[a.value..] + more;
    }
  }

  // ---- the bounded header scan ---------------------------------------------------

  datatype Scan = NeedMore(seen: nat) | Found(seen: nat, end: nat) | TooLong(seen: nat)

  function ScanPiece(w: seq<byte>, seen: nat): Scan {
    var got := Min(seen, |w|);
    var end := HeaderEnd(w[..got]);
    if end.Some? then Found(got, end.value)
    else if got > MAX_HEADER then TooLong(got)
    else NeedMore(got)
  }

  /** Reading `w` in pieces of the given sizes until the header ends or grows too long. */
  function ScanHeader(w: seq<byte>, sizes: seq<nat>): Scan {
    if sizes == [] then NeedMore(0)
    else
      match ScanHeader(w, sizes[..|sizes| - 1])
      case NeedMore(seen) => ScanPiece(w, seen + sizes[|sizes| - 1])
      case done => done
  }

  ghost predicate Pieces(sizes: seq<nat>) {
    forall n | n in sizes :: 1 <= n <= 1024
  }

  lemma HeaderEndOfPrefix(w: seq<byte>, k: nat)
    requires k <= |w|
    ensures HeaderEnd(w[..k]) == if HeaderEnd(w).Some? && HeaderEnd(w).value <= k then HeaderEnd(w) else None
  {
    HeaderEndExtends(w[..k], w[k..]);
    assert w == w[..k] + w[k..];
  }

  /**
   Under every chunking: a scan finds only the true header end, keeps at most 17408 bytes,
   finds any header of at most 16385 bytes, and never finds one longer than 17408.
  */
  lemma {:induction false} ScanBounds(w: seq<byte>, sizes: seq<nat>)
    requires Pieces(sizes)
    ensures var s := ScanHeader(w, sizes);
            && s.seen <= Min(|w|, 17408)
            && (s.NeedMore? ==> s.seen <= 16384 && HeaderEnd(w[..s.seen]).None?)
            && (s.TooLong? ==> s.seen > 16384 && HeaderEnd(w[..s.seen]).None?)
            && (s.Found? ==> HeaderEnd(w) == Some(s.end) && s.end <= s.seen && s.seen - s.end < 1024)
            && (HeaderEnd(w).Some? && HeaderEnd(w).value <= 16385 ==> !s.TooLong?)
            && (HeaderEnd(w).Some? && HeaderEnd(w).value > 17408 ==> !s.Found?)
  {
    if sizes == [] {
      assert HeaderEnd(w[..0]).None?;
    } else {
      var n := |sizes| - 1;
      assert forall m | m in sizes[..n] :: m in sizes;
      ScanBounds(w, sizes[..n]);
      var before, s := ScanHeader(w, sizes[..n]), ScanHeader(w, sizes);
      assert sizes[n] in sizes;
      if before.NeedMore? {
        HeaderEndOfPrefix(w, before.seen);
        HeaderEndOfPrefix(w, s.seen);
      }
    }
  }

  /** Full-size reads as long as no header ends and the bound is not passed. */
  lemma {:induction false} ScanFull(w: seq<byte>, k: nat)
    requires k <= 16 && |w| >= k * READ_CHUNK
    requires HeaderEnd(w).None? || HeaderEnd(w).value > k * READ_CHUNK
    ensures ScanHeader(w, seq(k, i => READ_CHUNK)) == NeedMore(k * READ_CHUNK)
  {
    var sizes := seq(k, i => READ_CHUNK);
    if k > 0 {
      ScanFull(w, k - 1);
      assert sizes[..k - 1] == seq(k - 1, i => READ_CHUNK);
      HeaderEndOfPrefix(w, k * READ_CHUNK);
    }
  }

  /** Between the two bounds the chunking decides: some find the header, some refuse it. */
  lemma BoundsAreSharp(w: seq<byte>, end: nat)
    requires HeaderEnd(w) == Some(end) && 16385 < end <= 17408
    ensures exists sizes :: Pieces(sizes) && ScanHeader(w, sizes).Found?
    ensures exists sizes :: Pieces(sizes) && ScanHeader(w, sizes).TooLong?
  {
    var full := seq(16, i => READ_CHUNK);
    ScanFull(w, 16);
    var found, refused := full + [end - MAX_HEADER], full + [1];
    assert found[..16] == full && refused[..16] == full;
    HeaderEndOfPrefix(w, end);
    HeaderEndOfPrefix(w, MAX_HEADER + 1);
    assert ScanHeader(w, found).Found? && Pieces(found);
    assert ScanHeader(w, refused).TooLong? && Pieces(refused);
  }
}
