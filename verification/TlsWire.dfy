/** The two directions of TLS-mode framing as functions on whole byte strings. */
module TlsWire {
  import opened Bytes
  import opened WriteLedger

  const TLS_CHUNK_SIZE := 16384
  const FIRST_RESPONSE_DISCARD := 105
  const RECORD_HEADER_DISCARD := 3

  datatype TlsReadPhase = Discard(n: nat) | Length | Payload(n: nat)

  // ---- reading -------------------------------------------------------------------

  /** Frames, starting at a length field. */
  function Frames(w: seq<byte>): seq<byte>
    decreases |w|, 2
  {
    if |w| < 2 then [] else FrameBody(U16(w[0], w[1]), w[2..])
  }

  /** The rest of a frame with `n` payload bytes to come, and the frames after it. */
  function FrameBody(n: nat, w: seq<byte>): seq<byte>
    decreases |w|, 1
  {
    if |w| <= n then w else w[..n] + NextFrames(w[n..])
  }

  /** The frames that follow a finished one, behind their record header. */
  function NextFrames(w: seq<byte>): seq<byte>
    decreases |w|, 0
  {
    if |w| <= RECORD_HEADER_DISCARD then [] else Frames(w[RECORD_HEADER_DISCARD..])
  }

  /** The payload bytes carried by a server stream of which `w` has arrived. */
  function Decode(w: seq<byte>): seq<byte> {
    if |w| <= FIRST_RESPONSE_DISCARD then [] else Frames(w[FIRST_RESPONSE_DISCARD..])
  }

  /** What a reader in the given phase, holding the length bytes `got`, will make of `future`. */
  function Resume(phase: TlsReadPhase, got: seq<byte>, future: seq<byte>): seq<byte> {
    match phase
    case Discard(n) => if |future| <= n then [] else Frames(future[n..])
    case Length => Frames(got + future)
    case Payload(n) => FrameBody(n, future)
  }

  ghost predicate TracksAt(c: seq<byte>, out: seq<byte>, phase: TlsReadPhase, got: seq<byte>, future: seq<byte>) {
    Decode(c + future) == out + Resume(phase, got, future)
  }

  /** Having consumed `c` and delivered `out`, the reader is on course whatever follows. */
  ghost predicate Tracks(c: seq<byte>, out: seq<byte>, phase: TlsReadPhase, got: seq<byte>) {
    forall future :: TracksAt(c, out, phase, got, future)
  }

  lemma TracksFromStart()
    ensures Tracks([], [], Discard(FIRST_RESPONSE_DISCARD), [])
  {
    forall future
      ensures TracksAt([], [], Discard(FIRST_RESPONSE_DISCARD), [], future)
    {
      assert [] + future == future;
      assert [] + Decode(future) == Decode(future);
    }
  }

  /** On course means: exactly the payload of the prefix consumed so far has been delivered. */
  lemma TracksExact(c: seq<byte>, out: seq<byte>, phase: TlsReadPhase, got: seq<byte>)
    requires Tracks(c, out, phase, got) && |got| <= 2
    ensures out == Decode(c)
  {
    assert TracksAt(c, out, phase, got, []);
    assert c + [] == c && got + [] == got;
    if |got| == 2 {
      assert got[2..] == [];
    }
    assert Resume(phase, got, []) == [] by {
      if phase.Payload? { assert FrameBody(phase.n, []) == []; }
      if phase.Length? { assert Frames(got) == []; }
    }
  }

  ghost predicate MovesAt(phase: TlsReadPhase, got: seq<byte>, d: seq<byte>,
                          more: seq<byte>, phase': TlsReadPhase, got': seq<byte>, future: seq<byte>)
  {
    Resume(phase, got, d + future) == more + Resume(phase', got', future)
  }

  /** Over every future, reading `d` takes one reader state to the other and delivers `more`. */
  ghost predicate Moves(phase: TlsReadPhase, got: seq<byte>, d: seq<byte>,
                        more: seq<byte>, phase': TlsReadPhase, got': seq<byte>)
  {
    forall future :: MovesAt(phase, got, d, more, phase', got', future)
  }

  /** Such a move keeps the reader on course. */
  lemma TracksAdvance(c: seq<byte>, out: seq<byte>, phase: TlsReadPhase, got: seq<byte>,
                      d: seq<byte>, more: seq<byte>, phase': TlsReadPhase, got': seq<byte>)
    requires Tracks(c, out, phase, got)
    requires Moves(phase, got, d, more, phase', got')
    ensures Tracks(c + d, out + more, phase', got')
  {
    forall future
      ensures TracksAt(c + d, out + more, phase', got', future)
    {
      assert TracksAt(c, out, phase, got, d + future);
      assert MovesAt(phase, got, d, more, phase', got', future);
      Assoc(c, d, future);
      Assoc(out, more, Resume(phase', got', future));
    }
  }

  // The five moves of the reader. Each keeps it on course.

  lemma DiscardConsumes(c: seq<byte>, out: seq<byte>, n: nat, d: seq<byte>)
    requires Tracks(c, out, Discard(n), []) && |d| <= n
    ensures Tracks(c + d, out, Discard(n - |d|), [])
  {
    var phase' := Discard(n - |d|);
    forall future
      ensures MovesAt(Discard(n), [], d, [], phase', [], future)
    {
      if |future| > n - |d| {
        assert (d + future)[n..] == future[n - |d|..];
      }
    }
    TracksAdvance(c, out, Discard(n), [], d, [], phase', []);
    assert out + [] == out;
  }

  lemma DiscardDone(c: seq<byte>, out: seq<byte>)
    requires Tracks(c, out, Discard(0), [])
    ensures Tracks(c, out, Length, [])
  {
    var phase, nothing: seq<byte> := Discard(0), [];
    forall future
      ensures MovesAt(phase, nothing, nothing, nothing, Length, nothing, future)
    {
      assert nothing + future == future == future[0..];
      assert nothing + Frames(future) == Frames(future);
    }
    TracksAdvance(c, out, phase, nothing, nothing, nothing, Length, nothing);
    assert c + nothing == c && out + nothing == out;
  }

  lemma LengthConsumes(c: seq<byte>, out: seq<byte>, got: seq<byte>, d: seq<byte>)
    requires Tracks(c, out, Length, got)
    ensures Tracks(c + d, out, Length, got + d)
  {
    forall future
      ensures MovesAt(Length, got, d, [], Length, got + d, future)
    {
      Assoc(got, d, future);
      assert [] + Frames(got + d + future) == Frames(got + d + future);
    }
    TracksAdvance(c, out, Length, got, d, [], Length, got + d);
    assert out + [] == out;
  }

  lemma LengthDone(c: seq<byte>, out: seq<byte>, hi: byte, lo: byte)
    requires Tracks(c, out, Length, [hi, lo])
    ensures Tracks(c, out, Payload(U16(hi, lo)), [])
  {
    var got, phase', nothing: seq<byte> := [hi, lo], Payload(U16(hi, lo)), [];
    forall future
      ensures MovesAt(Length, got, nothing, nothing, phase', nothing, future)
    {
      assert nothing + future == future == (got + future)[2..];
      assert nothing + FrameBody(U16(hi, lo), future) == FrameBody(U16(hi, lo), future);
    }
    TracksAdvance(c, out, Length, got, nothing, nothing, phase', nothing);
    assert c + nothing == c && out + nothing == out;
  }

  lemma PayloadConsumes(c: seq<byte>, out: seq<byte>, n: nat, d: seq<byte>)
    requires Tracks(c, out, Payload(n), []) && |d| <= n
    ensures Tracks(c + d, out + d, Payload(n - |d|), [])
  {
    var phase' := Payload(n - |d|);
    forall future
      ensures MovesAt(Payload(n), [], d, d, phase', [], future)
    {
      if |future| > n - |d| {
        assert (d + future)[..n] == d + future[..n - |d|];
        assert (d + future)[n..] == future[n - |d|..];
        Assoc(d, future[..n - |d|], NextFrames(future[n - |d|..]));
      }
    }
    TracksAdvance(c, out, Payload(n), [], d, d, phase', []);
  }

  lemma PayloadDone(c: seq<byte>, out: seq<byte>)
    requires Tracks(c, out, Payload(0), [])
    ensures Tracks(c, out, Discard(RECORD_HEADER_DISCARD), [])
  {
    var phase, phase', nothing: seq<byte> := Payload(0), Discard(RECORD_HEADER_DISCARD), [];
    forall future
      ensures MovesAt(phase, nothing, nothing, nothing, phase', nothing, future)
    {
      assert nothing + future == future == future[0..];
      assert future[..0] + NextFrames(future) == nothing + NextFrames(future) == NextFrames(future);
    }
    TracksAdvance(c, out, phase, nothing, nothing, nothing, phase', nothing);
    assert c + nothing == c && out + nothing == out;
  }

  lemma PrefixBehind(a: seq<byte>, x: seq<byte>, y: seq<byte>)
    requires x <= y
    ensures a + x <= a + y
  {
    assert y == x + y[|x|..];
    Assoc(a, x, y[|x|..]);
  }

  lemma {:induction false} NextFramesMonotone(w: seq<byte>, more: seq<byte>)
    ensures NextFrames(w) <= NextFrames(w + more)
    decreases |w|, 0
  {
    if |w| > RECORD_HEADER_DISCARD {
      FramesMonotone(w[RECORD_HEADER_DISCARD..], more);
      assert (w + more)[RECORD_HEADER_DISCARD..] == w[RECORD_HEADER_DISCARD..] + more;
    }
  }

  lemma {:induction false} FrameBodyMonotone(n: nat, w: seq<byte>, more: seq<byte>)
    ensures FrameBody(n, w) <= FrameBody(n, w + more)
    decreases |w|, 1
  {
    if |w| > n {
      assert (w + more)[..n] == w[..n];
      assert (w + more)[n..] == w[n..] + more;
      NextFramesMonotone(w[n..], more);
      PrefixBehind(w[..n], NextFrames(w[n..]), NextFrames(w[n..] + more));
    }
  }

  /** More bytes never change what has already been decoded. */
  lemma {:induction false} FramesMonotone(w: seq<byte>, more: seq<byte>)
    ensures Frames(w) <= Frames(w + more)
    decreases |w|, 2
  {
    if |w| >= 2 {
      FrameBodyMonotone(U16(w[0], w[1]), w[2..], more);
      assert (w + more)[2..] == w[2..] + more;
    }
  }

  lemma DecodeMonotone(w: seq<byte>, more: seq<byte>)
    ensures Decode(w) <= Decode(w + more)
  {
    if |w| > FIRST_RESPONSE_DISCARD {
      FramesMonotone(w[FIRST_RESPONSE_DISCARD..], more);
      assert (w + more)[FIRST_RESPONSE_DISCARD..] == w[FIRST_RESPONSE_DISCARD..] + more;
    }
  }

  // ---- writing -------------------------------------------------------------------

  /** One application-data record; `chunk.len() as u16` is written out as `Wrap16`. */
  function Record(chunk: seq<byte>): seq<byte> {
    [0x17, 0x03, 0x03] + BE16(Wrap16(|chunk|)) + chunk
  }

  function Records(chunks: seq<seq<byte>>): seq<byte> {
    if chunks == [] then [] else Record(chunks[0]) + Records(chunks[1..])
  }

  lemma {:induction false} RecordsSnoc(chunks: seq<seq<byte>>, chunk: seq<byte>)
    ensures Records(chunks + [chunk]) == Records(chunks) + Record(chunk)
  {
    if chunks == [] {
      assert [chunk][1..] == [];
    } else {
      RecordsSnoc(chunks[1..], chunk);
      assert (chunks + [chunk])[1..] == chunks[1..] + [chunk];
    }
  }

  /** How many bytes of `buf` one `poll_write` frames. */
  function ChunkOf(buf: seq<byte>): (n: nat)
    ensures n == if |buf| <= 16384 then |buf| else 16384
  {
    Min(|buf|, TLS_CHUNK_SIZE)
  }

  /** The calls that `poll_write`, `poll_flush` and `poll_shutdown` of `TlsObfs` make on the ledger. */
  ghost predicate TlsCall(c: Call) {
    c.Write? ==> c.take == ChunkOf(c.buf)
  }

  // ---- writing, then reading -----------------------------------------------------

  ghost predicate Framable(chunks: seq<seq<byte>>) {
    forall c | c in chunks :: |c| < 0x1_0000
  }

  lemma RecordSplits(chunk: seq<byte>, rest: seq<byte>)
    requires |chunk| < 0x1_0000
    ensures |Record(chunk)| == 5 + |chunk|
    ensures (Record(chunk) + rest)[RECORD_HEADER_DISCARD..] == BE16(|chunk|) + (chunk + rest)
  {
    var header: seq<byte> := [0x17, 0x03, 0x03];
    var len := BE16(|chunk|);
    assert Wrap16(|chunk|) == |chunk|;
    assert Record(chunk) == header + len + chunk;
    Assoc(header + len, chunk, rest);
    Assoc(header, len, chunk + rest);
    assert (header + (len + (chunk + rest)))[|header|..] == len + (chunk + rest);
  }

  lemma FrameBodyExact(chunk: seq<byte>, rest: seq<byte>)
    ensures FrameBody(|chunk|, chunk + rest) == chunk + NextFrames(rest)
  {
    assert (chunk + rest)[..|chunk|] == chunk && (chunk + rest)[|chunk|..] == rest;
    assert rest == [] ==> chunk + rest == chunk + NextFrames(rest);
  }

  lemma FramesOfLength(n: u16, body: seq<byte>)
    ensures Frames(BE16(n) + body) == FrameBody(n, body)
  {
    assert (BE16(n) + body)[2..] == body;
  }

  lemma FramesOfRecord(chunk: seq<byte>, rest: seq<byte>)
    requires |chunk| < 0x1_0000
    ensures NextFrames(Record(chunk) + rest) == chunk + NextFrames(rest)
  {
    RecordSplits(chunk, rest);
    FramesOfLength(|chunk|, chunk + rest);
    FrameBodyExact(chunk, rest);
  }

  lemma {:induction false} FramesOfRecords(chunks: seq<seq<byte>>)
    requires Framable(chunks)
    ensures NextFrames(Records(chunks)) == Concat(chunks)
  {
    if chunks != [] {
      assert chunks[0] in chunks;
      FramesOfRecords(chunks[1..]);
      FramesOfRecord(chunks[0], Records(chunks[1..]));
    }
  }

  /** Application-data records of TLS 1.2, section 6.2 of RFC 5246, read by one that checks every byte. */
  function StrictRecords(w: seq<byte>): Option<seq<seq<byte>>>
    decreases |w|
  {
    if w == [] then Some([])
    else if |w| < 5 || w[0] != 23 || w[1] != 3 || w[2] != 3 || |w| - 5 < U16(w[3], w[4]) then None
    else
      var n: nat := 5 + U16(w[3], w[4]);
      var rest := StrictRecords(w[n..]);
      if rest.None? then None else Some([w[5..n]] + rest.value)
  }

  lemma StrictRecord(chunk: seq<byte>, rest: seq<byte>)
    requires |chunk| < 0x1_0000
    ensures var w := Record(chunk) + rest;
            && |w| == 5 + |chunk| + |rest| && w[0] == 23 && w[1] == 3 && w[2] == 3 && U16(w[3], w[4]) == |chunk|
            && w[5..5 + |chunk|] == chunk && w[5 + |chunk|..] == rest
  {
    var r := Record(chunk);
    assert Wrap16(|chunk|) == |chunk|;
    assert r[3] == BE16(|chunk|)[0] && r[4] == BE16(|chunk|)[1];
    assert r[5..] == chunk;
    assert (r + rest)[5..5 + |chunk|] == r[5..] && (r + rest)[|r|..] == rest;
  }

  lemma {:induction false} StrictInvertsRecords(chunks: seq<seq<byte>>)
    requires Framable(chunks)
    ensures StrictRecords(Records(chunks)) == Some(chunks)
  {
    if chunks != [] {
      assert chunks[0] in chunks;
      StrictInvertsRecords(chunks[1..]);
      StrictRecord(chunks[0], Records(chunks[1..]));
      assert [chunks[0]] + chunks[1..] == chunks;
    }
  }

  /** Any 102 bytes followed by a record stream decode to exactly the chunks framed. */
  lemma DecodeOfRecords(skip: seq<byte>, chunks: seq<seq<byte>>)
    requires |skip| == 102 && Framable(chunks)
    ensures Decode(skip + Records(chunks)) == Concat(chunks)
  {
    FramesOfRecords(chunks);
    if |Records(chunks)| > RECORD_HEADER_DISCARD {
      assert (skip + Records(chunks))[FIRST_RESPONSE_DISCARD..] == Records(chunks)[RECORD_HEADER_DISCARD..];
    }
  }

  /** Every chunk framed by TLS calls fits a record. */
  lemma {:induction false} RunFramable(calls: seq<Call>)
    requires forall c | c in calls :: TlsCall(c)
    ensures Framable(Run(calls).framed)
  {
    if calls != [] {
      RunFramable(calls[..|calls| - 1]);
      assert calls[|calls| - 1] in calls;
    }
  }

  /**
   Round trip over whole runs: for every disciplined run of writes, flushes and shutdowns,
   the records that follow the first chunk, behind any 102 bytes, are read back as exactly
   the bytes accepted (and in flight) after that chunk.
  */
  lemma AcceptedBytesRoundTrip(calls: seq<Call>, skip: seq<byte>)
    requires forall c | c in calls :: TlsCall(c)
    requires DisciplinedRun(calls)
    requires |skip| == 102
    requires Run(calls).framed != []
    ensures var l := Run(calls);
            l.framed[0] + Decode(skip + Records(l.framed[1..])) == l.accepted + l.inFlight
  {
    var l := Run(calls);
    RunFramable(calls);
    ConservedIffDisciplined(calls);
    DecodeOfRecords(skip, l.framed[1..]);
  }
}
