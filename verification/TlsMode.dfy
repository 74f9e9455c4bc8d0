/** TLS-mode simple-obfs: the poll-driven adapter, refined to `TlsWire`, `ClientHello` and `WriteLedger`. */
module TlsMode {
  import opened Bytes
  import opened Transport
  import opened WriteLedger
  import opened TlsWire
  import opened ClientHello

  /** Framing of a run of chunks: `hello` carries the first, records carry the rest. */
  function WireOf(hello: seq<byte>, chunks: seq<seq<byte>>): seq<byte> {
    if chunks == [] then [] else hello + Records(chunks[1..])
  }

  lemma WireOfFirst(hello: seq<byte>, chunk: seq<byte>)
    ensures WireOf(hello, [chunk]) == hello
  {
    assert [chunk][1..] == [];
    assert hello + [] == hello;
  }

  lemma WireOfSnoc(hello: seq<byte>, chunks: seq<seq<byte>>, chunk: seq<byte>)
    requires chunks != []
    ensures WireOf(hello, chunks + [chunk]) == WireOf(hello, chunks) + Record(chunk)
  {
    RecordsSnoc(chunks[1..], chunk);
    assert (chunks + [chunk])[1..] == chunks[1..] + [chunk];
    Assoc(hello, Records(chunks[1..]), Record(chunk));
  }

  class TlsObfs {
    const inner: Stream
    const server: seq<byte>

    // Where the reader stands in the framing.
    var firstResponse: bool
    var readPhase: TlsReadPhase
    const lenBuf: array<byte>
    var lenProgress: nat

    // The framed bytes on their way out.
    var firstRequest: bool
    var writeBuf: seq<byte>
    var writeBufOff: nat
    var pendingInput: nat

    // History.
    /** Where `inner` stood when it was wrapped. */
    ghost const readFrom: nat
    ghost const sentBefore: seq<byte>
    /** Every byte handed to the caller, over all polls. */
    ghost var delivered: seq<byte>
    /** Every write, flush and shutdown so far, and what they add up to. */
    ghost var calls: seq<Call>
    ghost var ledger: Ledger
    /** The ClientHello, once there is one, and what was drawn for it. */
    ghost var hello: seq<byte>
    ghost var salt: Salt

    /** The part of the wire that has been read through this adapter. */
    ghost function Consumed(): seq<byte>
      reads this, inner
      requires readFrom <= inner.pos <= |inner.wire|
    {
      inner.wire[readFrom..inner.pos]
    }

    /** The length bytes that have arrived, while the reader waits for them. */
    ghost function Held(): seq<byte>
      reads this, lenBuf
      requires lenBuf.Length == 2 && lenProgress <= 2
    {
      if readPhase.Length? then lenBuf[..lenProgress] else []
    }

    ghost predicate ValidRead()
      reads this, inner, lenBuf
    {
      && readFrom <= inner.pos <= |inner.wire|
      && lenBuf.Length == 2
      && lenProgress <= 2
      && Tracks(Consumed(), delivered, readPhase, Held())
    }

    /** What was sent and queued is the framing of the ledger's chunks, the first one inside `hello`. */
    ghost predicate Accounted()
      reads this, inner
    {
      && writeBufOff <= |writeBuf|
      && (writeBuf != [] ==> writeBufOff < |writeBuf| && !firstRequest)
      && ledger.queued == (writeBuf != [])
      && pendingInput == |ledger.inFlight|
      && firstRequest == (ledger.framed == [])
      && ledger == Run(calls)
      && (forall c | c in calls :: TlsCall(c))
      && inner.sent + writeBuf[writeBufOff..] == sentBefore + WireOf(hello, ledger.framed)
    }

    /** `hello` is built around the first chunk. */
    ghost predicate Greeted()
      reads this
    {
      ledger.framed != [] ==> hello == HelloBytes(ledger.framed[0], server, salt)
    }

    ghost predicate ValidWrite()
      reads this, inner
    {
      Accounted() && Greeted()
    }

    constructor (inner: Stream, server: seq<byte>)
      requires inner.pos <= |inner.wire|
      ensures ValidRead() && ValidWrite() && fresh(lenBuf)
      ensures this.inner == inner && this.server == server
      ensures delivered == [] && calls == [] && Consumed() == []
    {
      this.inner, this.server := inner, server;
      firstResponse, readPhase, lenProgress := true, Discard(FIRST_RESPONSE_DISCARD), 0;
      lenBuf := new byte[2];
      firstRequest, writeBuf, writeBufOff, pendingInput := true, [], 0, 0;
      readFrom, sentBefore := inner.pos, inner.sent;
      delivered, calls, ledger := [], [], EMPTY;
      hello := [];
      TracksFromStart();
    }

    /** One read in the Discard branch; an empty answer leaves the reader where it was. */
    method PollDiscard(remaining: nat) returns (q: Poll<seq<byte>>)
      requires ValidRead() && readPhase == Discard(remaining) && remaining > 0
      modifies this`readPhase, inner`pos, inner`answers
      ensures ValidRead()
      ensures if q.Ready? && q.value != [] then old(inner.pos) < inner.pos
              else inner.pos == old(inner.pos) && readPhase == old(readPhase)
      ensures q.Ready? && q.value == [] ==> inner.pos == |inner.wire|
      ensures inner.answers == Passing(old(inner.answers), q)
    {
      ghost var c := Consumed();
      var take := Min(remaining, 256);
      q := inner.PollRead(take);
      if q.Ready? {
        readPhase := Discard(remaining - |q.value|);
        DiscardConsumes(c, delivered, remaining, q.value);
        assert Consumed() == c + q.value;
      }
    }

    /** One read in the Length branch. */
    method PollLength() returns (q: Poll<seq<byte>>)
      requires ValidRead() && readPhase == Length && lenProgress < 2
      modifies this`lenProgress, lenBuf, inner`pos, inner`answers
      ensures ValidRead()
      ensures if q.Ready? && q.value != [] then old(inner.pos) < inner.pos
              else inner.pos == old(inner.pos) && lenProgress == old(lenProgress)
      ensures q.Ready? && q.value == [] ==> inner.pos == |inner.wire|
      ensures inner.answers == Passing(old(inner.answers), q)
    {
      ghost var c, got := Consumed(), Held();
      var need := 2 - lenProgress;
      q := inner.PollRead(need);
      if q.Ready? {
        assert Consumed() == c + q.value;
        forall i | 0 <= i < |q.value| {
          lenBuf[lenProgress + i] := q.value[i];
        }
        lenProgress := lenProgress + |q.value|;
        assert Held() == got + q.value;
        LengthConsumes(c, delivered, got, q.value);
      }
    }

    /** One read in the Payload branch. */
    method PollPayload(space: nat, remaining: nat) returns (q: Poll<seq<byte>>)
      requires ValidRead() && readPhase == Payload(remaining) && 0 < space <= remaining
      modifies this`readPhase, this`delivered, inner`pos, inner`answers
      ensures ValidRead()
      ensures old(inner.pos) <= inner.pos
      ensures delivered == old(delivered) + (if q.Ready? then q.value else [])
      ensures q.Ready? ==> |q.value| <= space
      ensures q.Ready? && q.value == [] ==> inner.pos == |inner.wire|
      ensures inner.answers == Passing(old(inner.answers), q)
    {
      ghost var c := Consumed();
      q := inner.PollRead(space);
      if q.Ready? {
        readPhase := Payload(remaining - |q.value|);
        PayloadConsumes(c, delivered, remaining, q.value);
        delivered := delivered + q.value;
        assert Consumed() == c + q.value;
      }
    }

    /** Phase changes that consume nothing come in this order. */
    ghost function Rank(): nat
      reads this
    {
      match readPhase
      case Length => if lenProgress >= 2 then 2 else 0
      case Discard(n) => if n == 0 then 1 else 0
      case Payload(n) => if n == 0 then 1 else 0
    }

    /**
     One read poll with `room` bytes of space. Whatever it answers, the bytes delivered over
     all polls are exactly the payload in the wire consumed over all polls. It terminates on
     any wire, and it adds nothing to a buffer with space left only at end of file.
    */
    method PollRead(room: nat) returns (p: Poll<seq<byte>>)
      requires ValidRead()
      modifies this`readPhase, this`lenProgress, this`firstResponse, this`delivered, lenBuf, inner`pos, inner`answers
      ensures ValidRead()
      ensures old(inner.pos) <= inner.pos
      ensures delivered == old(delivered) + (if p.Ready? then p.value else [])
      ensures delivered == Decode(Consumed())
      ensures p.Ready? ==> |p.value| <= room
      ensures p.Ready? && p.value == [] && room > 0 ==> inner.pos == |inner.wire|
      ensures inner.answers == Passing(old(inner.answers), p)
    {
      while true
        invariant ValidRead()
        invariant old(inner.pos) <= inner.pos
        invariant delivered == old(delivered) && inner.answers == old(inner.answers)
        decreases |inner.wire| - inner.pos, Rank()
      {
        TracksExact(Consumed(), delivered, readPhase, Held());
        match readPhase {
          case Discard(remaining) =>
            if remaining == 0 {
              readPhase, lenProgress := Length, 0;
              DiscardDone(Consumed(), delivered);
            } else {
              var q := PollDiscard(remaining);
              if !q.Ready? || q.value == [] {
                return q;
              }
            }
          case Length =>
            if lenProgress >= 2 {
              readPhase := Payload(U16(lenBuf[0], lenBuf[1]));
              assert lenBuf[..2] == [lenBuf[0], lenBuf[1]];
              LengthDone(Consumed(), delivered, lenBuf[0], lenBuf[1]);
            } else {
              var q := PollLength();
              if !q.Ready? || q.value == [] {
                return q;
              }
            }
          case Payload(remaining) =>
            if remaining == 0 {
              readPhase, firstResponse := Discard(RECORD_HEADER_DISCARD), false;
              PayloadDone(Consumed(), delivered);
            } else {
              var space := Min(room, remaining);
              if space == 0 {
                return Ready([]);
              }
              p := PollPayload(space, remaining);
              TracksExact(Consumed(), delivered, readPhase, Held());
              return p;
            }
        }
      }
    }

    /** Hands the queue to `inner`; what is sent plus what is queued does not change. */
    method PollDrainWriteBuf() returns (p: Poll<()>)
      requires writeBufOff <= |writeBuf|
      requires writeBuf != [] ==> writeBufOff < |writeBuf|
      modifies this`writeBuf, this`writeBufOff, inner`sent, inner`answers
      ensures writeBufOff <= |writeBuf|
      ensures inner.sent + writeBuf[writeBufOff..] == old(inner.sent + writeBuf[writeBufOff..])
      ensures p.Ready? ==> writeBuf == []
      ensures !p.Ready? ==> writeBuf == old(writeBuf) && writeBufOff < |writeBuf|
      ensures inner.answers == Passing(old(inner.answers), p)
    {
      ghost var total := inner.sent + writeBuf[writeBufOff..];
      while writeBufOff < |writeBuf|
        invariant writeBuf == old(writeBuf) && writeBufOff <= |writeBuf|
        invariant inner.sent + writeBuf[writeBufOff..] == total && inner.answers == old(inner.answers)
        decreases |writeBuf| - writeBufOff
      {
        ghost var sent := inner.sent;
        var q := inner.PollWrite(writeBuf[writeBufOff..]);
        if !q.Ready? {
          return q.Unready();
        }
        if q.value == 0 {
          assert inner.sent == sent;
          return Failed(WriteZero);
        }
        Handed(sent, writeBuf, writeBufOff, q.value);
        writeBufOff := writeBufOff + q.value;
      }
      writeBuf, writeBufOff := [], 0;
      assert inner.sent + writeBuf[writeBufOff..] == total;
      return Ready(());
    }

    /** Enters one call in the history. */
    ghost method Note(c: Call)
      requires ledger == Run(calls)
      requires TlsCall(c) && forall c' | c' in calls :: TlsCall(c')
      modifies this`calls, this`ledger
      ensures calls == old(calls) + [c] && ledger == Step(old(ledger), c)
      ensures ledger == Run(calls)
      ensures forall c' | c' in calls :: TlsCall(c')
    {
      RunSnoc(calls, c);
      calls, ledger := calls + [c], Step(ledger, c);
    }

    /** A retry: finishes draining, then reports the length of the chunk in flight. */
    method PollRetry(buf: seq<byte>) returns (p: Poll<nat>)
      requires Accounted() && writeBuf != []
      modifies this`writeBuf, this`writeBufOff, this`pendingInput, this`calls, this`ledger, inner`sent, inner`answers
      ensures Accounted() && ledger.framed == old(ledger.framed)
      ensures calls == old(calls) + [Write(buf, ChunkOf(buf), p.Ready?)]
      ensures p.Ready? ==> p.value == |old(ledger.inFlight)|
      ensures inner.answers == Passing(old(inner.answers), p)
    {
      var q := PollDrainWriteBuf();
      Note(Write(buf, ChunkOf(buf), q.Ready?));
      if !q.Ready? {
        return q.Unready();
      }
      var consumed := pendingInput;
      pendingInput := 0;
      return Ready(consumed);
    }

    /** Drains a chunk that has just been queued, and reports its length if that succeeds. */
    method PollEnframed(buf: seq<byte>, take: nat) returns (p: Poll<nat>)
      requires ledger == Run(calls) && !ledger.queued && forall c | c in calls :: TlsCall(c)
      requires buf != [] && take == ChunkOf(buf)
      requires !firstRequest && writeBuf != [] && writeBufOff == 0 && pendingInput == take
      requires inner.sent + writeBuf[writeBufOff..] == sentBefore + WireOf(hello, ledger.framed + [buf[..take]])
      modifies this`writeBuf, this`writeBufOff, this`pendingInput, this`calls, this`ledger, inner`sent, inner`answers
      ensures Accounted() && ledger.framed == old(ledger.framed) + [buf[..take]]
      ensures calls == old(calls) + [Write(buf, take, p.Ready?)]
      ensures p.Ready? ==> p.value == take
      ensures inner.answers == Passing(old(inner.answers), p)
    {
      var q := PollDrainWriteBuf();
      Note(Write(buf, take, q.Ready?));
      if !q.Ready? {
        return q.Unready();
      }
      var consumed := pendingInput;
      pendingInput := 0;
      return Ready(consumed);
    }

    /** Queues the first chunk inside a ClientHello. */
    method EnframeFirst(chunk: seq<byte>, entropy: Salt)
      requires Accounted() && writeBuf == [] && firstRequest
      modifies this`firstRequest, this`writeBuf, this`writeBufOff, this`pendingInput, this`hello, this`salt
      ensures !firstRequest && writeBuf != [] && writeBufOff == 0 && pendingInput == |chunk|
      ensures inner.sent + writeBuf[writeBufOff..] == sentBefore + WireOf(hello, ledger.framed + [chunk])
      ensures salt == entropy && hello == HelloBytes(chunk, server, salt)
    {
      assert inner.sent == sentBefore by {
        assert inner.sent + writeBuf[writeBufOff..] == inner.sent;
      }
      firstRequest := false;
      writeBuf := BuildClientHello(chunk, server, entropy);
      hello, salt := writeBuf, entropy;
      WireOfFirst(hello, chunk);
      assert ledger.framed + [chunk] == [chunk];
      writeBufOff := 0;
      pendingInput := |chunk|;
    }

    /** Queues any later chunk as an application-data record. */
    method EnframeRecord(chunk: seq<byte>)
      requires Accounted() && writeBuf == [] && !firstRequest
      modifies this`writeBuf, this`writeBufOff, this`pendingInput
      ensures writeBuf != [] && writeBufOff == 0 && pendingInput == |chunk|
      ensures inner.sent + writeBuf[writeBufOff..] == sentBefore + WireOf(hello, ledger.framed + [chunk])
    {
      assert inner.sent == sentBefore + WireOf(hello, ledger.framed) by {
        assert inner.sent + writeBuf[writeBufOff..] == inner.sent;
      }
      var framed: seq<byte> := [0x17, 0x03, 0x03];
      framed := framed + BE16(Wrap16(|chunk|));
      framed := framed + chunk;
      writeBuf := framed;
      WireOfSnoc(hello, ledger.framed, chunk);
      Assoc(sentBefore, WireOf(hello, ledger.framed), Record(chunk));
      writeBufOff := 0;
      pendingInput := |chunk|;
    }

    /**
     One write poll. The bytes sent and queued stay the framing of the ledger's chunks, and
     the ledger moves exactly as `WriteLedger` says.
    */
    method PollWrite(buf: seq<byte>, entropy: Salt) returns (p: Poll<nat>)
      requires ValidWrite()
      modifies this`firstRequest, this`writeBuf, this`writeBufOff, this`pendingInput,
               this`calls, this`ledger, this`hello, this`salt, inner`sent, inner`answers
      ensures ValidWrite()
      ensures calls == old(calls) + [if buf == [] && !old(ledger.queued) then Nothing
                                     else Write(buf, ChunkOf(buf), p.Ready?)]
      ensures p.Ready? ==> p.value == if old(ledger.queued) then |old(ledger.inFlight)| else ChunkOf(buf)
      ensures salt == if old(ledger.framed) == [] && buf != [] then entropy else old(salt)
      ensures hello == if old(ledger.framed) == [] && buf != [] then HelloBytes(buf[..ChunkOf(buf)], server, salt)
                       else old(hello)
      ensures inner.answers == Passing(old(inner.answers), p)
    {
      if writeBuf != [] {
        p := PollRetry(buf);
      } else if buf == [] {
        Note(Nothing);
        p := Ready(0);
      } else {
        var take := ChunkOf(buf);
        if firstRequest {
          EnframeFirst(buf[..take], entropy);
        } else {
          EnframeRecord(buf[..take]);
        }
        p := PollEnframed(buf, take);
      }
    }

    /** Drains the queue and reports nothing: `pendingInput` is left as it is. */
    method FlushQueue() returns (q: Poll<()>)
      requires Accounted()
      modifies this`writeBuf, this`writeBufOff, this`calls, this`ledger, inner`sent, inner`answers
      ensures Accounted() && ledger.framed == old(ledger.framed)
      ensures calls == old(calls) + [Flush(writeBuf == [])]
      ensures q.Ready? <==> writeBuf == []
      ensures inner.answers == Passing(old(inner.answers), q)
    {
      if writeBuf == [] {
        Note(Flush(true));
        return Ready(());
      }
      q := PollDrainWriteBuf();
      Note(Flush(q.Ready?));
    }

    /** Drains the queue before it flushes `inner`. */
    method PollFlush() returns (p: Poll<()>)
      requires ValidWrite()
      modifies this`writeBuf, this`writeBufOff, this`calls, this`ledger, inner`sent, inner`answers
      ensures ValidWrite()
      ensures calls == old(calls) + [Flush(writeBuf == [])]
      ensures p.Ready? ==> writeBuf == []
      ensures inner.answers == if p.Ready? then old(inner.answers) + [Flushed] else Passing(old(inner.answers), p)
    {
      var q := FlushQueue();
      if !q.Ready? {
        return q;
      }
      p := inner.PollFlush();
    }

    /** Shutdown drains in the same way before it closes `inner`. */
    method PollShutdown() returns (p: Poll<()>)
      requires ValidWrite()
      modifies this`writeBuf, this`writeBufOff, this`calls, this`ledger, inner`sent, inner`answers
      ensures ValidWrite()
      ensures calls == old(calls) + [Flush(writeBuf == [])]
      ensures p.Ready? ==> writeBuf == []
      ensures inner.answers == if p.Ready? then old(inner.answers) + [Closed] else Passing(old(inner.answers), p)
    {
      var q := FlushQueue();
      if !q.Ready? {
        return q;
      }
      p := inner.PollShutdown();
    }
  }

  /** A server that knows the TLS grammar: the hello's ticket, then every record that follows. */
  function ServerReads(wire: seq<byte>): Option<seq<byte>> {
    if |wire| < 5 || |wire| < 5 + U16(wire[3], wire[4]) as nat then None
    else
      var n: nat := 5 + U16(wire[3], wire[4]);
      var hello := ParseClientHello(wire[..n]);
      var ticket := if hello.None? then None else Ticket(hello.value.extensions);
      var records := StrictRecords(wire[n..]);
      if ticket.None? || records.None? then None else Some(ticket.value + Concat(records.value))
  }

  lemma ServerReadsParts(hello: seq<byte>, records: seq<byte>, chunk: seq<byte>, rest: seq<seq<byte>>)
    requires |hello| >= 5 && 5 + U16(hello[3], hello[4]) as nat == |hello|
    requires ParseClientHello(hello).Some? && Ticket(ParseClientHello(hello).value.extensions) == Some(chunk)
    requires StrictRecords(records) == Some(rest)
    ensures ServerReads(hello + records) == Some(chunk + Concat(rest))
  {
    assert (hello + records)[..|hello|] == hello && (hello + records)[|hello|..] == records;
  }

  /** A hello within the 16-bit bound, followed by records, is read as its chunk and theirs. */
  lemma ServerReadsWire(server: seq<byte>, salt: Salt, framed: seq<seq<byte>>)
    requires framed != [] && Framable(framed) && 212 + |framed[0]| + |server| < 0x1_0000
    ensures ServerReads(HelloBytes(framed[0], server, salt) + Records(framed[1..])) == Some(Concat(framed))
  {
    RecordLength(framed[0], server, salt);
    WrapSmallIff(212 + (|framed[0]| + |server|));
    HelloCarries(framed[0], server, salt);
    StrictInvertsRecords(framed[1..]);
    ServerReadsParts(HelloBytes(framed[0], server, salt), Records(framed[1..]), framed[0], framed[1..]);
  }

  /**
   The whole write side, over every disciplined run: from all that was sent and queued a
   server reads exactly the bytes accepted (and in flight), provided the hello's record length
   fits 16 bits; if it does not, the hello cannot be parsed.
  */
  lemma ServerReadsAccepted(writer: TlsObfs)
    requires writer.ValidWrite() && DisciplinedRun(writer.calls) && writer.ledger.framed != []
    ensures var out, l := writer.inner.sent + writer.writeBuf[writer.writeBufOff..], writer.ledger;
            && writer.sentBefore + writer.hello <= out
            && (if 212 + |l.framed[0]| + |writer.server| < 0x1_0000
                then ServerReads(out[|writer.sentBefore|..]) == Some(l.accepted + l.inFlight)
                else ParseClientHello(writer.hello).None?)
  {
    var framed := writer.ledger.framed;
    var out := writer.inner.sent + writer.writeBuf[writer.writeBufOff..];
    assert out == writer.sentBefore + writer.hello + Records(framed[1..]) by {
      Assoc(writer.sentBefore, writer.hello, Records(framed[1..]));
    }
    RunFramable(writer.calls);
    ConservedIffDisciplined(writer.calls);
    if 212 + |framed[0]| + |writer.server| < 0x1_0000 {
      ServerReadsWire(writer.server, writer.salt, framed);
      assert out[|writer.sentBefore|..] == writer.hello + Records(framed[1..]);
    } else {
      HelloParsesIff(framed[0], writer.server, writer.salt);
    }
  }

  /** The same for a caller that retries before anything else, which it can see to itself. */
  lemma ServerReadsRetryingCaller(writer: TlsObfs)
    requires writer.ValidWrite() && RetryingRun(writer.calls) && writer.ledger.framed != []
    ensures var out, l := writer.inner.sent + writer.writeBuf[writer.writeBufOff..], writer.ledger;
            && writer.sentBefore + writer.hello <= out
            && (if 212 + |l.framed[0]| + |writer.server| < 0x1_0000
                then ServerReads(out[|writer.sentBefore|..]) == Some(l.accepted + l.inFlight)
                else ParseClientHello(writer.hello).None?)
  {
    RetryingIsDisciplined(writer.calls);
    ServerReadsAccepted(writer);
  }

  lemma ReaderDelivers(calls: seq<Call>, reader: TlsObfs, skip: seq<byte>)
    requires (forall c | c in calls :: TlsCall(c)) && DisciplinedRun(calls) && Run(calls).framed != []
    requires |skip| == 102
    requires reader.ValidRead() && reader.Consumed() <= skip + Records(Run(calls).framed[1..])
    ensures var l := Run(calls);
            && l.framed[0] + reader.delivered <= l.accepted + l.inFlight
            && (reader.Consumed() == skip + Records(l.framed[1..]) ==>
                  l.framed[0] + reader.delivered == l.accepted + l.inFlight)
  {
    var whole := skip + Records(Run(calls).framed[1..]);
    var c := reader.Consumed();
    AcceptedBytesRoundTrip(calls, skip);
    TracksExact(c, reader.delivered, reader.readPhase, reader.Held());
    assert whole == c + whole[|c|..];
    DecodeMonotone(c, whole[|c|..]);
  }

  /**
   End to end: whatever part of the writer's records, behind any 102 bytes, a reader has
   consumed, it has delivered a prefix of the bytes the writer accepted (and has in flight)
   after its first chunk; when it has consumed all of them, it has delivered all of these.
  */
  lemma ReaderDeliversAccepted(writer: TlsObfs, reader: TlsObfs, skip: seq<byte>)
    requires writer.ValidWrite() && DisciplinedRun(writer.calls) && writer.ledger.framed != []
    requires |skip| == 102
    requires reader.ValidRead() && reader.Consumed() <= skip + Records(writer.ledger.framed[1..])
    ensures var l := writer.ledger;
            && l.framed[0] + reader.delivered <= l.accepted + l.inFlight
            && (reader.Consumed() == skip + Records(l.framed[1..]) ==>
                  l.framed[0] + reader.delivered == l.accepted + l.inFlight)
  {
    ReaderDelivers(writer.calls, reader, skip);
  }
}
