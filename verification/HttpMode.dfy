/** HTTP-mode simple-obfs: the poll-driven adapter, refined to `HttpWire`, `HttpRequest` and `WriteLedger`. */
module HttpMode {
  import opened Bytes
  import opened Transport
  import opened WriteLedger
  import opened HttpWire
  import opened HttpRequest

  /** Everything in a request that is drawn from the random generator. */
  datatype Agent = Agent(major: nat, minor: nat, key: seq<byte>)

  /** `request` carries the first chunk; the rest goes out as it is. */
  function WireOf(request: seq<byte>, chunks: seq<seq<byte>>): seq<byte> {
    if chunks == [] then [] else request + Concat(chunks[1..])
  }

  lemma WireOfFirst(request: seq<byte>, chunk: seq<byte>)
    ensures WireOf(request, [chunk]) == request
  {
    assert [chunk][1..] == [];
    assert request + [] == request;
  }

  lemma WireOfSnoc(request: seq<byte>, chunks: seq<seq<byte>>, chunk: seq<byte>)
    requires chunks != []
    ensures WireOf(request, chunks + [chunk]) == WireOf(request, chunks) + chunk
  {
    assert (chunks + [chunk])[1..] == chunks[1..] + [chunk];
    ConcatSnoc(chunks[1..], chunk);
    Assoc(request, Concat(chunks[1..]), chunk);
  }

  lemma SlicesJoin(w: seq<byte>, a: nat, b: nat, c: nat)
    requires a <= b <= c <= |w|
    ensures w[a..b] + w[b..c] == w[a..c] == w[a..][..c - a]
  {
  }

  lemma SplitBody(body: seq<byte>, take: nat, kept: seq<byte>)
    requires take <= |body| && kept == body[take..]
    ensures body[..take] + kept[0..] == body
  {
  }

  /** One more read of a header that has not ended, as a step of `ScanHeader`. */
  lemma AdvanceScan(w: seq<byte>, pieces: seq<nat>, scratch: seq<byte>, d: seq<byte>)
    requires Pieces(pieces) && 1 <= |d| <= READ_CHUNK
    requires ScanHeader(w, pieces) == NeedMore(|scratch|)
    requires |scratch + d| <= |w| && scratch + d == w[..|scratch + d|]
    ensures Pieces(pieces + [|d|]) && |scratch + d| <= MAX_HEADER + READ_CHUNK
    ensures var seen, end := |scratch + d|, HeaderEnd(scratch + d);
            && ScanHeader(w, pieces + [|d|])
               == (if end.Some? then Found(seen, end.value) else if seen > MAX_HEADER then TooLong(seen) else NeedMore(seen))
            && (end.Some? ==> seen - end.value < READ_CHUNK)
  {
    var pieces' := pieces + [|d|];
    assert pieces'[..|pieces|] == pieces && pieces'[|pieces|] == |d|;
    assert forall m | m in pieces' :: m in pieces || m == |d|;
    ScanBounds(w, pieces);
    ScanBounds(w, pieces');
  }

  class HttpObfs {
    const inner: Stream
    const host: seq<byte>
    const port: u16

    // The first chunk and its request, until it is sent.
    var firstRequest: bool
    var writeBuf: seq<byte>
    var writeBufOff: nat
    var pendingInput: nat

    // The response header, until it is passed.
    var firstResponse: bool
    var responseScratch: seq<byte>
    var leftover: seq<byte>
    var leftoverOff: nat

    // History.
    /** Where `inner` stood when it was wrapped. */
    ghost const readFrom: nat
    ghost const sentBefore: seq<byte>
    /** Every byte handed to the caller, over all polls. */
    ghost var delivered: seq<byte>
    /** The sizes offered by the reads of the header, in order. */
    ghost var pieces: seq<nat>
    ghost var calls: seq<Call>
    ghost var ledger: Ledger
    /** The request, once there is one, and what was drawn for it. */
    ghost var request: seq<byte>
    ghost var agent: Agent

    ghost function RequestOf(chunk: seq<byte>): seq<byte>
      reads this
    {
      Request(host, port, agent.major, agent.minor, agent.key, chunk)
    }

    /** All that the peer sends through this adapter. */
    ghost function Incoming(): seq<byte>
      reads this
      requires readFrom <= |inner.wire|
    {
      inner.wire[readFrom..]
    }

    /** The part of it that has been read. */
    ghost function Consumed(): seq<byte>
      reads this, inner
      requires readFrom <= inner.pos <= |inner.wire|
    {
      inner.wire[readFrom..inner.pos]
    }

    ghost predicate ScanningHeader()
      reads this, inner
      requires readFrom <= inner.pos <= |inner.wire|
    {
      && delivered == [] && leftover == []
      && responseScratch == Consumed() && |responseScratch| <= MAX_HEADER
      && ScanHeader(Incoming(), pieces) == NeedMore(|Consumed()|)
    }

    ghost predicate PassedHeader()
      reads this, inner
      requires readFrom <= inner.pos <= |inner.wire| && leftoverOff <= |leftover|
    {
      && responseScratch == []
      && ScanHeader(Incoming(), pieces).Found?
      && HeaderEnd(Consumed()) == Some(ScanHeader(Incoming(), pieces).end)
      && delivered + leftover[leftoverOff..] == BodyOf(Consumed())
    }

    ghost predicate ValidRead()
      reads this, inner
    {
      && readFrom <= inner.pos <= |inner.wire|
      && Pieces(pieces)
      && leftoverOff <= |leftover| < READ_CHUNK
      && (leftover == [] ==> leftoverOff == 0)
      && (leftover != [] ==> leftoverOff < |leftover|)
      && (if firstResponse then ScanningHeader() else PassedHeader())
    }

    /** What was sent and queued is the framing of the ledger's chunks, the first one inside `request`. */
    ghost predicate Accounted()
      reads this, inner
    {
      && writeBufOff <= |writeBuf|
      && (writeBuf != [] ==> writeBufOff < |writeBuf| && !firstRequest)
      && ledger.queued == (writeBuf != [])
      && (ledger.queued ==> pendingInput == |ledger.inFlight|)
      && firstRequest == (ledger.framed == [])
      && ledger == Run(calls)
      && inner.sent + writeBuf[writeBufOff..] == sentBefore + WireOf(request, ledger.framed)
    }

    /** `request` is built around the first chunk. */
    ghost predicate Greeted()
      reads this
    {
      ledger.framed != [] ==> request == RequestOf(ledger.framed[0])
    }

    ghost predicate ValidWrite()
      reads this, inner
    {
      Accounted() && Greeted()
    }

    constructor (inner: Stream, host: seq<byte>, port: u16)
      requires inner.pos <= |inner.wire|
      ensures ValidRead() && ValidWrite()
      ensures this.inner == inner && this.host == host && this.port == port
      ensures delivered == [] && calls == [] && Consumed() == []
    {
      this.inner, this.host, this.port := inner, host, port;
      firstRequest, writeBuf, writeBufOff, pendingInput := true, [], 0, 0;
      firstResponse, responseScratch, leftover, leftoverOff := true, [], [], 0;
      readFrom, sentBefore := inner.pos, inner.sent;
      delivered, pieces, calls, ledger, request := [], [], [], EMPTY, [];
      agent := Agent(0, 0, []);
    }

    /** Hands over body bytes kept from the read that ended the header. */
    method DrainLeftover(room: nat) returns (p: Poll<seq<byte>>)
      requires ValidRead() && leftoverOff < |leftover|
      modifies this`leftover, this`leftoverOff, this`delivered
      ensures ValidRead()
      ensures p.Ready? && delivered == old(delivered) + p.value && |p.value| <= room
      ensures p.value == [] ==> room == 0
    {
      var avail := leftover[leftoverOff..];
      var take := Min(|avail|, room);
      p := Ready(avail[..take]);
      leftoverOff := leftoverOff + take;
      delivered := delivered + p.value;
      Handed(old(delivered), leftover, old(leftoverOff), take);
      if leftoverOff >= |leftover| {
        assert leftover[leftoverOff..] == [];
        leftover, leftoverOff := [], 0;
      }
    }

    /** Where the scan stands after a piece, given the header end of the scratch buffer. */
    ghost predicate AfterPiece(end: Option<nat>, seen: nat)
      reads this
      requires readFrom <= |inner.wire|
    {
      && ScanHeader(Incoming(), pieces)
         == (if end.Some? then Found(seen, end.value) else if seen > MAX_HEADER then TooLong(seen) else NeedMore(seen))
      && (end.Some? ==> seen - end.value < READ_CHUNK)
    }

    /** One read of at most `READ_CHUNK` bytes into the scratch buffer. */
    method PollPiece() returns (q: Poll<seq<byte>>)
      requires ValidRead() && firstResponse
      modifies this`responseScratch, this`pieces, inner`pos, inner`answers
      ensures old(inner.pos) <= inner.pos <= |inner.wire| && Pieces(pieces)
      ensures q != Failed(InvalidData)
      ensures if q.Ready? && q.value != []
              then
                && old(inner.pos) < inner.pos
                && responseScratch == Consumed() && |responseScratch| <= MAX_HEADER + READ_CHUNK
                && AfterPiece(HeaderEnd(responseScratch), |responseScratch|)
              else ValidRead() && inner.pos == old(inner.pos)
      ensures q.Ready? && q.value == [] ==> inner.pos == |inner.wire|
      ensures inner.answers == Passing(old(inner.answers), q)
    {
      q := inner.PollRead(READ_CHUNK);
      if q.Ready? && q.value != [] {
        SlicesJoin(inner.wire, readFrom, old(inner.pos), inner.pos);
        AdvanceScan(Incoming(), pieces, responseScratch, q.value);
        responseScratch := responseScratch + q.value;
        pieces := pieces + [|q.value|];
      }
    }

    /** The header ends at the terminator found: hands over the body so far, keeps what does not fit. */
    method EndHeader(room: nat, idx: nat) returns (p: Poll<seq<byte>>)
      requires readFrom <= inner.pos <= |inner.wire| && Pieces(pieces)
      requires firstResponse && delivered == [] && leftover == [] && leftoverOff == 0
      requires responseScratch == Consumed()
      requires HeaderEnd(Consumed()) == Some(idx + 4) && |Consumed()| - (idx + 4) < READ_CHUNK
      requires ScanHeader(Incoming(), pieces) == Found(|Consumed()|, idx + 4)
      modifies this`firstResponse, this`responseScratch, this`leftover, this`leftoverOff, this`delivered
      ensures ValidRead() && !firstResponse
      ensures p.Ready? && delivered == p.value && |p.value| <= room
      ensures p.value == [] && room > 0 ==> BodyOf(Consumed()) == []
    {
      firstResponse := false;
      var bodyStart := idx + 4;
      var body := responseScratch[bodyStart..];
      var take := Min(|body|, room);
      p := Ready(body[..take]);
      delivered := p.value;
      if take < |body| {
        leftover, leftoverOff := body[take..], 0;
      }
      responseScratch := [];
      SplitBody(body, take, leftover);
    }

    /** Reads into the scratch buffer until the header ends. */
    method PollHeader(room: nat) returns (p: Poll<seq<byte>>)
      requires ValidRead() && firstResponse
      modifies this`firstResponse, this`responseScratch, this`leftover, this`leftoverOff,
               this`delivered, this`pieces, inner`pos, inner`answers
      ensures old(inner.pos) <= inner.pos <= |inner.wire|
      ensures delivered == if p.Ready? then p.value else []
      ensures if p == Failed(InvalidData)
              then |Consumed()| > 16384 && HeaderEnd(Consumed()).None? && ScanHeader(Incoming(), pieces).TooLong?
              else ValidRead()
      ensures p == Failed(InvalidData) ==> HeaderEnd(Incoming()).None? || HeaderEnd(Incoming()).value > 16385
      ensures p == Failed(InvalidData) ==> |responseScratch| <= 17408
      ensures p.Ready? ==> |p.value| <= room
      ensures p.Ready? && p.value == [] && room > 0 ==>
                inner.pos == |inner.wire| || (!firstResponse && BodyOf(Consumed()) == [])
      ensures inner.answers == Passing(old(inner.answers), p)
    {
      while true
        invariant ValidRead() && firstResponse && old(inner.pos) <= inner.pos
        invariant inner.answers == old(inner.answers)
        decreases |inner.wire| - inner.pos
      {
        var q := PollPiece();
        if !q.Ready? || q.value == [] {
          return q;
        }
        var idx := FindDoubleCrlf(responseScratch);
        if idx.Some? {
          p := EndHeader(room, idx.value);
          return p;
        }
        if |responseScratch| > MAX_HEADER {
          ScanBounds(Incoming(), pieces);
          return Failed(InvalidData);
        }
      }
    }

    /**
     One read poll with `room` bytes of space. Over all polls, the bytes delivered, and those
     kept back in `leftover`, are what follows the first CRLF CRLF of the bytes consumed.
     Before passthrough, a poll with space adds nothing only at end of file, or once, when
     the terminator ends a read. InvalidData is answered only if more than 16384 bytes hold
     no terminator, and ends the adapter's use for reading.
    */
    method PollRead(room: nat) returns (p: Poll<seq<byte>>)
      requires ValidRead()
      modifies this`firstResponse, this`responseScratch, this`leftover, this`leftoverOff,
               this`delivered, this`pieces, inner`pos, inner`answers
      ensures old(inner.pos) <= inner.pos <= |inner.wire|
      ensures delivered == old(delivered) + (if p.Ready? then p.value else [])
      ensures if p == Failed(InvalidData)
              then |Consumed()| > 16384 && HeaderEnd(Consumed()).None? && ScanHeader(Incoming(), pieces).TooLong?
              else ValidRead()
      ensures p == Failed(InvalidData) ==> HeaderEnd(Incoming()).None? || HeaderEnd(Incoming()).value > 16385
      ensures p == Failed(InvalidData) ==> |responseScratch| <= 17408
      ensures !old(firstResponse) ==> !firstResponse
      ensures p.Ready? ==> |p.value| <= room
      ensures p.Ready? && p.value == [] && room > 0 ==>
                inner.pos == |inner.wire| || (old(firstResponse) && !firstResponse && BodyOf(Consumed()) == [])
      ensures inner.answers == Passing(old(inner.answers), p)
    {
      if leftoverOff < |leftover| {
        p := DrainLeftover(room);
      } else if firstResponse {
        p := PollHeader(room);
      } else {
        ghost var c := Consumed();
        p := inner.PollRead(room);
        if p.Ready? {
          delivered := delivered + p.value;
          SlicesJoin(inner.wire, readFrom, old(inner.pos), inner.pos);
          HeaderEndExtends(c, p.value);
          assert Consumed() == c + p.value;
          assert delivered + leftover[leftoverOff..] == delivered;
        }
      }
    }

    /**
     What has been delivered is a prefix of what follows the header on the whole wire. The
     header has been passed exactly when its end has been read, and one beyond 17408 never is.
    */
    lemma DeliveredIsBody()
      requires ValidRead()
      ensures delivered <= BodyOf(Consumed()) <= BodyOf(Incoming())
      ensures !firstResponse <==> HeaderEnd(Incoming()).Some? && HeaderEnd(Incoming()).value <= |Consumed()|
      ensures !firstResponse ==> HeaderEnd(Incoming()).value <= 17408
    {
      var c, rest := Consumed(), inner.wire[inner.pos..];
      assert Incoming() == c + rest;
      HeaderEndExtends(c, rest);
      ScanBounds(Incoming(), pieces);
    }

    /** Hands the queue to `inner`; what is sent plus what is queued does not change. */
    method PollDrainWriteBuf() returns (p: Poll<()>)
      requires writeBufOff <= |writeBuf|
      requires writeBuf != [] ==> writeBufOff < |writeBuf|
      modifies this`writeBuf, this`writeBufOff, inner`sent, inner`answers
      ensures writeBufOff <= |writeBuf|
      ensures inner.sent + writeBuf[writeBufOff..] == old(inner.sent + writeBuf[writeBufOff..])
      ensures p.Ready? ==> writeBuf == []
      ensures !p.Ready? ==> writeBuf == old(writeBuf) && writeBufOff < |writeBuf|
      ensures inner.answers == Passing(old(inner.answers), p)
    {
      ghost var total := inner.sent + writeBuf[writeBufOff..];
      while writeBufOff < |writeBuf|
        invariant writeBuf == old(writeBuf) && writeBufOff <= |writeBuf|
        invariant inner.sent + writeBuf[writeBufOff..] == total && inner.answers == old(inner.answers)
        decreases |writeBuf| - writeBufOff
      {
        ghost var sent := inner.sent;
        var q := inner.PollWrite(writeBuf[writeBufOff..]);
        if !q.Ready? {
          return q.Unready();
        }
        if q.value == 0 {
          assert inner.sent == sent;
          return Failed(WriteZero);
        }
        Handed(sent, writeBuf, writeBufOff, q.value);
        writeBufOff := writeBufOff + q.value;
      }
      writeBuf, writeBufOff := [], 0;
      assert inner.sent + writeBuf[writeBufOff..] == total;
      return Ready(());
    }

    /** Enters one call in the history. */
    ghost method Note(c: Call)
      requires ledger == Run(calls)
      modifies this`calls, this`ledger
      ensures calls == old(calls) + [c] && ledger == Step(old(ledger), c)
      ensures ledger == Run(calls)
    {
      RunSnoc(calls, c);
      calls, ledger := calls + [c], Step(ledger, c);
    }

    /** A retry: finishes draining, then reports the length of the chunk in flight. */
    method PollRetry(buf: seq<byte>) returns (p: Poll<nat>)
      requires Accounted() && writeBuf != []
      modifies this`writeBuf, this`writeBufOff, this`pendingInput, this`calls, this`ledger, inner`sent, inner`answers
      ensures Accounted() && ledger.framed == old(ledger.framed)
      ensures calls == old(calls) + [Write(buf, |buf|, p.Ready?)]
      ensures p.Ready? ==> p.value == |old(ledger.inFlight)|
      ensures inner.answers == Passing(old(inner.answers), p)
    {
      var q := PollDrainWriteBuf();
      Note(Write(buf, |buf|, q.Ready?));
      if !q.Ready? {
        return q.Unready();
      }
      var consumed := pendingInput;
      pendingInput := 0;
      return Ready(consumed);
    }

    /** Drains the request that has just been queued, and reports the length of its chunk if that succeeds. */
    method PollEnframed(buf: seq<byte>) returns (p: Poll<nat>)
      requires ledger == Run(calls) && !ledger.queued
      requires !firstRequest && writeBuf != [] && writeBufOff == 0 && pendingInput == |buf|
      requires inner.sent + writeBuf[writeBufOff..] == sentBefore + WireOf(request, ledger.framed + [buf])
      modifies this`writeBuf, this`writeBufOff, this`pendingInput, this`calls, this`ledger, inner`sent, inner`answers
      ensures Accounted() && ledger.framed == old(ledger.framed) + [buf]
      ensures calls == old(calls) + [Write(buf, |buf|, p.Ready?)]
      ensures p.Ready? ==> p.value == |buf|
      ensures inner.answers == Passing(old(inner.answers), p)
    {
      assert buf[..|buf|] == buf;
      var q := PollDrainWriteBuf();
      Note(Write(buf, |buf|, q.Ready?));
      if !q.Ready? {
        return q.Unready();
      }
      var consumed := pendingInput;
      pendingInput := 0;
      return Ready(consumed);
    }

    method Enframe(chunk: seq<byte>, req: seq<byte>)
      requires ledger.framed == [] && writeBuf == [] && firstRequest && req != []
      requires inner.sent == sentBefore
      modifies this`firstRequest, this`writeBuf, this`writeBufOff, this`pendingInput, this`request
      ensures !firstRequest && writeBuf != [] && writeBufOff == 0 && pendingInput == |chunk|
      ensures inner.sent + writeBuf[writeBufOff..] == sentBefore + WireOf(request, ledger.framed + [chunk])
      ensures request == req
    {
      firstRequest := false;
      writeBuf, writeBufOff := req, 0;
      request := req;
      WireOfFirst(req, chunk);
      assert ledger.framed + [chunk] == [chunk];
      pendingInput := |chunk|;
    }

    /** The first write: `req` is the request around `buf`. */
    method PollFirst(buf: seq<byte>, ghost drawn: Agent, req: seq<byte>) returns (p: Poll<nat>)
      requires Accounted() && writeBuf == [] && firstRequest
      requires req == Request(host, port, drawn.major, drawn.minor, drawn.key, buf)
      modifies this`firstRequest, this`writeBuf, this`writeBufOff, this`pendingInput,
               this`calls, this`ledger, this`request, this`agent, inner`sent, inner`answers
      ensures ValidWrite()
      ensures calls == old(calls) + [Write(buf, |buf|, p.Ready?)]
      ensures p.Ready? ==> p.value == |buf|
      ensures agent == drawn && request == RequestOf(buf)
      ensures inner.answers == Passing(old(inner.answers), p)
    {
      assert inner.sent + writeBuf[writeBufOff..] == inner.sent;
      agent := drawn;
      Enframe(buf, req);
      p := PollEnframed(buf);
    }

    /** Any later write goes straight to `inner`. */
    method PollPassthrough(buf: seq<byte>) returns (p: Poll<nat>)
      requires Accounted() && writeBuf == [] && !firstRequest
      modifies this`calls, this`ledger, inner`sent, inner`answers
      ensures Accounted()
      ensures calls == old(calls) + [if p.Ready? && p.value > 0 then Write(buf, p.value, true) else Nothing]
      ensures p.Ready? ==> p.value <= |buf|
      ensures ledger.framed == old(ledger.framed) + if p.Ready? && p.value > 0 then [buf[..p.value]] else []
      ensures inner.answers == if p == Ready(0) then old(inner.answers) + [Refused] else Passing(old(inner.answers), p)
    {
      ghost var before := inner.sent;
      assert before + writeBuf[writeBufOff..] == before;
      p := inner.PollWrite(buf);
      assert inner.sent + writeBuf[writeBufOff..] == inner.sent;
      if p.Ready? && p.value > 0 {
        WireOfSnoc(request, ledger.framed, buf[..p.value]);
        Assoc(sentBefore, WireOf(request, ledger.framed), buf[..p.value]);
        Note(Write(buf, p.value, true));
      } else {
        assert p.Ready? ==> before + buf[..0] == before;
        Note(Nothing);
      }
    }

    /**
     One write poll. The first chunk goes out inside the request, later bytes as they are;
     the ledger says what was framed and what was reported.
    */
    method PollWrite(buf: seq<byte>, drawn: Agent) returns (p: Poll<nat>)
      requires ValidWrite()
      modifies this`firstRequest, this`writeBuf, this`writeBufOff, this`pendingInput,
               this`calls, this`ledger, this`request, this`agent, inner`sent, inner`answers
      ensures ValidWrite()
      ensures if old(ledger.queued) || old(ledger.framed) == [] then calls == old(calls) + [Write(buf, |buf|, p.Ready?)]
              else if p.Ready? && p.value > 0 then calls == old(calls) + [Write(buf, p.value, true)]
              else calls == old(calls) + [Nothing]
      ensures p.Ready? && old(ledger.queued) ==> p.value == |old(ledger.inFlight)|
      ensures p.Ready? && old(ledger.framed) == [] ==> p.value == |buf|
      ensures p.Ready? && !old(ledger.queued) ==> p.value <= |buf|
      ensures agent == if old(ledger.framed) == [] then drawn else old(agent)
      ensures request == if old(ledger.framed) == [] then RequestOf(buf) else old(request)
      ensures inner.answers
              == if p == Ready(0) && !old(ledger.queued) && old(ledger.framed) != [] then old(inner.answers) + [Refused]
                 else Passing(old(inner.answers), p)
    {
      if writeBuf != [] {
        p := PollRetry(buf);
      } else if firstRequest {
        var req := BuildHttpRequest(host, port, drawn.major, drawn.minor, drawn.key, buf);
        p := PollFirst(buf, drawn, req);
      } else {
        p := PollPassthrough(buf);
      }
    }

    /** Drains the queue and reports nothing: `pendingInput` is left as it is. */
    method FlushQueue() returns (q: Poll<()>)
      requires Accounted()
      modifies this`writeBuf, this`writeBufOff, this`calls, this`ledger, inner`sent, inner`answers
      ensures Accounted() && ledger.framed == old(ledger.framed)
      ensures calls == old(calls) + [Flush(writeBuf == [])]
      ensures q.Ready? <==> writeBuf == []
      ensures inner.answers == Passing(old(inner.answers), q)
    {
      if writeBuf == [] {
        Note(Flush(true));
        return Ready(());
      }
      q := PollDrainWriteBuf();
      Note(Flush(q.Ready?));
    }

    /** Drains the queue before it flushes `inner`. */
    method PollFlush() returns (p: Poll<()>)
      requires ValidWrite()
      modifies this`writeBuf, this`writeBufOff, this`calls, this`ledger, inner`sent, inner`answers
      ensures ValidWrite()
      ensures calls == old(calls) + [Flush(writeBuf == [])]
      ensures p.Ready? ==> writeBuf == []
      ensures inner.answers == if p.Ready? then old(inner.answers) + [Flushed] else Passing(old(inner.answers), p)
    {
      var q := FlushQueue();
      if !q.Ready? {
        return q;
      }
      p := inner.PollFlush();
    }

    /** Shutdown drains in the same way before it closes `inner`. */
    method PollShutdown() returns (p: Poll<()>)
      requires ValidWrite()
      modifies this`writeBuf, this`writeBufOff, this`calls, this`ledger, inner`sent, inner`answers
      ensures ValidWrite()
      ensures calls == old(calls) + [Flush(writeBuf == [])]
      ensures p.Ready? ==> writeBuf == []
      ensures inner.answers == if p.Ready? then old(inner.answers) + [Closed] else Passing(old(inner.answers), p)
    {
      var q := FlushQueue();
      if !q.Ready? {
        return q;
      }
      p := inner.PollShutdown();
    }
  }

  lemma HeaderFirst(header: seq<byte>, chunks: seq<seq<byte>>)
    requires chunks != []
    ensures WireOf(header + chunks[0], chunks) == header + Concat(chunks)
  {
    Assoc(header, chunks[0], Concat(chunks[1..]));
  }

  /**
   The whole write side, over every disciplined run: a peer that strips up to the first blank
   line of all that was sent and queued finds exactly the bytes accepted (and in flight), if
   and only if the Host line has no blank line.
  */
  lemma ServerReadsAccepted(writer: HttpObfs)
    requires writer.ValidWrite() && DisciplinedRun(writer.calls) && writer.ledger.framed != []
    requires CR !in writer.agent.key
    ensures var out := writer.inner.sent + writer.writeBuf[writer.writeBufOff..];
            && writer.sentBefore <= out
            && (BodyOf(out[|writer.sentBefore|..]) == writer.ledger.accepted + writer.ledger.inFlight
                <==> NoTerminator(HostHeader(writer.host, writer.port) + CRLF))
  {
    var framed, a := writer.ledger.framed, writer.agent;
    var header := RequestHeader(writer.host, writer.port, a.major, a.minor, a.key, |framed[0]|);
    ConservedIffDisciplined(writer.calls);
    HeaderFirst(header, framed);
    HeaderStripsIff(writer.host, writer.port, a.major, a.minor, a.key, |framed[0]|, Concat(framed));
    var out := writer.inner.sent + writer.writeBuf[writer.writeBufOff..];
    assert out[|writer.sentBefore|..] == WireOf(writer.request, framed);
  }

  /** The same for a caller that retries before anything else, which it can see to itself. */
  lemma ServerReadsRetryingCaller(writer: HttpObfs)
    requires writer.ValidWrite() && RetryingRun(writer.calls) && writer.ledger.framed != []
    requires CR !in writer.agent.key
    ensures var out := writer.inner.sent + writer.writeBuf[writer.writeBufOff..];
            && writer.sentBefore <= out
            && (BodyOf(out[|writer.sentBefore|..]) == writer.ledger.accepted + writer.ledger.inFlight
                <==> NoTerminator(HostHeader(writer.host, writer.port) + CRLF))
  {
    RetryingIsDisciplined(writer.calls);
    ServerReadsAccepted(writer);
  }
}
