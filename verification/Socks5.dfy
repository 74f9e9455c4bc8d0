/** The SOCKS5 client of the TCP relay: which target it asks for, the bytes it sends, the bytes it reads. */
module Socks5 {
  import opened Bytes
  import opened DnsEncode
  import opened DnsName
  import opened DnsResponse
  import opened DnsTable

  /** The relay's target. The two address variants of the source's `Ip(SocketAddr)` are told apart by `ip`. */
  datatype Target = Address(ip: Ip, port: u16) | Domain(host: seq<byte>, port: u16)

  ghost predicate WellFormed(target: Target) {
    target.Address? ==> |target.ip.octets| == if target.ip.V4? then 4 else 16
  }

  function TargetFor(name: Option<seq<byte>>, ip: Ip, port: u16): Target {
    match name
    case Some(host) => Domain(host, port)
    case None => Address(ip, port)
  }

  method ChooseTarget(table: Table, ip: Ip, port: u16) returns (target: Target)
    requires table.Valid()
    modifies table, table.clock
    ensures table.Valid()
    ensures exists at :: old(table.clock.time) <= at <= table.clock.time
              && target == TargetFor(Answered(old(table.history), ip, at), ip, port)
  {
    var name := table.Lookup(ip);
    match name {
      case Some(hostname) => target := Domain(hostname, port);
      case None => target := Address(ip, port);
    }
  }

  // ---- the request ---------------------------------------------------------------

  /** `db.len() as u8` truncates. */
  function ConnectRequest(target: Target): seq<byte> {
    match target
    case Address(V4(octets), port) => [0x05, 0x01, 0x00, 0x01] + octets + BE16(port)
    case Address(V6(octets), port) => [0x05, 0x01, 0x00, 0x04] + octets + BE16(port)
    case Domain(host, port) => [0x05, 0x01, 0x00, 0x03, |host| % 256] + host + BE16(port)
  }

  /** A CONNECT request and nothing more, section 4 of RFC 1928. */
  function ParseConnect(b: seq<byte>): Option<Target> {
    if |b| < 5 || b[..3] != [0x05, 0x01, 0x00] then None
    else if b[3] == 0x01 then
      if |b| != 10 then None else Some(Address(V4(b[4..8]), U16(b[8], b[9])))
    else if b[3] == 0x04 then
      if |b| != 22 then None else Some(Address(V6(b[4..20]), U16(b[20], b[21])))
    else if b[3] == 0x03 then
      var len: nat := b[4];
      var n := 5 + len;
      if |b| != n + 2 then None else Some(Domain(b[5..n], U16(b[n], b[n + 1])))
    else None
  }

  lemma AddressDecodes(kind: byte, octets: seq<byte>, port: u16, rest: seq<byte>)
    requires rest == [0x05, 0x01, 0x00, kind] + octets + BE16(port)
    ensures rest[..3] == [0x05, 0x01, 0x00] && rest[3] == kind && |rest| == 6 + |octets|
    ensures rest[4..4 + |octets|] == octets
    ensures U16(rest[4 + |octets|], rest[5 + |octets|]) == port
  {
    var n := 4 + |octets|;
    assert rest[n] == BE16(port)[0] && rest[n + 1] == BE16(port)[1];
  }

  lemma DomainDecodes(len: byte, host: seq<byte>, port: u16, rest: seq<byte>)
    requires rest == [0x05, 0x01, 0x00, 0x03, len] + host + BE16(port)
    ensures rest[..3] == [0x05, 0x01, 0x00] && rest[3] == 0x03 && rest[4] == len && |rest| == 7 + |host|
    ensures rest[5..5 + |host|] == host
    ensures U16(rest[5 + |host|], rest[6 + |host|]) == port
  {
    var n := 5 + |host|;
    assert rest[n] == BE16(port)[0] && rest[n + 1] == BE16(port)[1];
  }

  /** The proxy decodes the target it was meant to, exactly when a domain fits one length byte. */
  lemma RequestDecodesIff(target: Target)
    requires WellFormed(target)
    ensures ParseConnect(ConnectRequest(target))
            == if target.Domain? && |target.host| > 255 then None else Some(target)
  {
    match target
    case Address(V4(octets), port) => AddressDecodes(0x01, octets, port, ConnectRequest(target));
    case Address(V6(octets), port) => AddressDecodes(0x04, octets, port, ConnectRequest(target));
    case Domain(host, port) => DomainDecodes(|host| % 256, host, port, ConnectRequest(target));
  }

  /**
   From a DNS answer to the proxy: for a minute after a response is processed, a stream to
   any address in it asks the proxy for the first question's name and the stream's port,
   exactly if the name has at most 255 bytes; a longer one makes a request no proxy can read.
  */
  lemma AnswerReachesProxy(history: seq<Event>, fill: seq<Event>, later: seq<Event>,
                           data: seq<byte>, utf8: Label -> bool, start: nat, a: Answer, t: nat, port: u16)
    requires Fills(fill, ParseResponse(data, utf8), start) && a in ParseResponse(data, utf8)
    requires forall e | e in later :: !(e.Insert? && e.ip == a.ip)
    requires t < start + 60 * 1_000_000_000
    ensures NameAt(data, utf8, HEADER_SIZE).Some?
    ensures ParseConnect(ConnectRequest(TargetFor(Answered(history + fill + later, a.ip, t), a.ip, port)))
            == var name := NameAt(data, utf8, HEADER_SIZE).value.0; if |name| <= 255 then Some(Domain(name, port)) else None
  {
    AnswerStaysUsable(history, fill, later, data, utf8, start, a, t);
    ResponseHost(data, utf8);
    RequestDecodesIff(Domain(a.host, port));
  }

  /** Without an answer the proxy is asked for the stream's own address and port; with one, for the name. */
  lemma TargetReachesProxy(name: Option<seq<byte>>, ip: Ip, port: u16)
    requires |ip.octets| == if ip.V4? then 4 else 16
    ensures ParseConnect(ConnectRequest(TargetFor(name, ip, port)))
            == if name.None? then Some(Address(ip, port))
               else if |name.value| <= 255 then Some(Domain(name.value, port))
               else None
  {
    RequestDecodesIff(TargetFor(name, ip, port));
  }

  /** Requests on the wire: 1.2.3.4:443, a.b:80, and an IPv6 address. */
  lemma RequestsOnTheWire(ip: Ip, octets: seq<byte>)
    ensures ConnectRequest(TargetFor(None, V6(octets), 443)) == [5, 1, 0, 4] + octets + [1, 187]
    ensures ConnectRequest(TargetFor(None, V4([1, 2, 3, 4]), 443)) == [5, 1, 0, 1, 1, 2, 3, 4, 1, 187]
    ensures ConnectRequest(TargetFor(Some([97, 46, 98]), ip, 80)) == [5, 1, 0, 3, 3, 97, 46, 98, 0, 80]
  {
    assert BE16(443) == [1, 187] && BE16(80) == [0, 80];
  }

  lemma JoinTwo(a: Label, b: Label)
    ensures Join([a, b]) == a + [46] + b
  {
    assert [a, b][..1] == [a];
  }

  lemma OneAddress(r: Record, host: seq<byte>)
    requires IsAddress(r)
    ensures Addresses([r], host) == [AnswerOf(r, host)]
  {
    assert [r][1..] == [];
    assert Addresses([r], host) == [AnswerOf(r, host)] + Addresses([], host);
  }

  /** The message with one question and one answer. */
  function Exchange(head: seq<byte>, question: seq<Label>, r: Record): seq<byte> {
    EncodeMessage(head, Message([question], [r]))
  }

  lemma ExchangeParses(head: seq<byte>, utf8: Label -> bool, question: seq<Label>, r: Record)
    requires |head| == 4 && Encodable(utf8, question) && EncodableRecord(utf8, r) && IsAddress(r)
    ensures ParseResponse(Exchange(head, question, r), utf8) == [AnswerOf(r, Join(question))]
  {
    EncodedParses(head, utf8, Message([question], [r]));
    OneAddress(r, Join(question));
  }

  /**
   The failing half is reachable: a response to a question of two 150-byte labels, with any
   address record, makes every stream to that address send a request that cannot be decoded.
  */
  lemma LongNameReachesNoProxy(history: seq<Event>, fill: seq<Event>, later: seq<Event>, head: seq<byte>,
                               utf8: Label -> bool, a: Label, b: Label, r: Record, start: nat, t: nat, port: u16)
    requires |head| == 4 && |a| == |b| == 150 && utf8(a) && utf8(b) && EncodableRecord(utf8, r) && IsAddress(r)
    requires Fills(fill, ParseResponse(Exchange(head, [a, b], r), utf8), start) && t < start + 60 * 1_000_000_000
    requires forall e | e in later :: !(e.Insert? && e.ip == AnswerOf(r, []).ip)
    ensures var ip := AnswerOf(r, []).ip;
            && Answered(history + fill + later, ip, t) == Some(a + [46] + b)
            && ParseConnect(ConnectRequest(TargetFor(Answered(history + fill + later, ip, t), ip, port))).None?
  {
    var data, answer := Exchange(head, [a, b], r), AnswerOf(r, Join([a, b]));
    assert [a, b][1..] == [b] && [b][1..] == [];
    ExchangeParses(head, utf8, [a, b], r);
    JoinTwo(a, b);
    AnswerStaysUsable(history, fill, later, data, utf8, start, answer, t);
    ResponseHost(data, utf8);
    RequestDecodesIff(Domain(a + [46] + b, port));
  }

  // ---- the exchange --------------------------------------------------------------

  /** A TCP connection to the proxy. It may break at any time. */
  class Connection {
    const incoming: seq<byte>
    var pos: nat
    var sent: seq<byte>
    /** Whether an operation has failed although the peer had sent enough. */
    ghost var broke: bool

    constructor (incoming: seq<byte>)
      ensures this.incoming == incoming && pos == 0 && sent == [] && !broke
    {
      this.incoming := incoming;
      pos, sent, broke := 0, [], false;
    }

    method WriteAll(data: seq<byte>) returns (ok: bool)
      modifies this`sent, this`broke
      ensures if ok then sent == old(sent) + data && broke == old(broke) else broke
    {
      if * {
        broke := true;
        return false;
      }
      sent := sent + data;
      return true;
    }

    /** Fails if the connection breaks or ends before `n` bytes have come. */
    method ReadExact(n: nat) returns (r: Option<seq<byte>>)
      requires pos <= |incoming|
      modifies this`pos, this`broke
      ensures pos <= |incoming|
      ensures r.Some? ==> pos == old(pos) + n && r.value == incoming[old(pos)..pos]
      ensures r.None? ==> pos == old(pos)
      ensures if r.None? && n <= |incoming| - pos then broke else broke == old(broke)
    {
      if n > |incoming| - pos {
        return None;
      } else if * {
        broke := true;
        return None;
      }
      r := Some(incoming[pos..pos + n]);
      pos := pos + n;
    }
  }

  datatype Outcome = Connected | AuthFailed | Refused(rep: byte) | IoError

  /** The length of a reply, section 6 of RFC 1928. */
  function ReplyLength(b: seq<byte>): Option<nat> {
    if |b| < 5 then None
    else if b[3] == 0x01 then Some(10)
    else if b[3] == 0x04 then Some(22)
    else if b[3] == 0x03 then Some(7 + b[4] as nat)
    else None
  }

  /** What the proxy's bytes mean: the outcome, and how many of them belong to the exchange. */
  function Verdict(b: seq<byte>): (Outcome, nat) {
    if |b| < 2 then (IoError, 0)
    else if b[0] != 0x05 || b[1] != 0x00 then (AuthFailed, 2)
    else if |b| < 6 then (IoError, 2)
    else if b[2] != 0x05 || b[3] != 0x00 then (Refused(b[3]), 6)
    else if b[5] !in {0x01, 0x03, 0x04} then (Connected, 6)
    else
      var n := ReplyLength(b[2..]);
      if n.None? || 2 + n.value > |b| then (IoError, 6) else (Connected, 2 + n.value)
  }

  /** The rest of a reply whose four-byte head has been read. */
  method ReadBoundAddress(stream: Connection, atyp: byte) returns (o: Outcome)
    requires stream.pos == 6 && !stream.broke && |stream.incoming| >= 6 && stream.incoming[5] == atyp
    requires stream.incoming[0] == 0x05 && stream.incoming[1] == 0x00
    requires stream.incoming[2] == 0x05 && stream.incoming[3] == 0x00
    modifies stream`pos, stream`broke
    ensures if stream.broke then o == IoError else o == Verdict(stream.incoming).0
    ensures o != IoError ==> o == Connected && stream.pos == Verdict(stream.incoming).1
  {
    match atyp
    case 0x01 =>
      var b := stream.ReadExact(6);
      return if b.None? then IoError else Connected;
    case 0x03 =>
      var l := stream.ReadExact(1);
      if l.None? {
        return IoError;
      }
      assert l.value[0] == stream.incoming[2..][4];
      var n: nat := l.value[0];
      var b := stream.ReadExact(n + 2);
      return if b.None? then IoError else Connected;
    case 0x04 =>
      var b := stream.ReadExact(18);
      return if b.None? then IoError else Connected;
    case _ =>
      return Connected;
  }

  /**
   The exchange. Unless the connection breaks, the outcome is the verdict on the proxy's
   bytes; on success the greeting and the request have been sent, and exactly the method
   choice and the reply have been read.
  */
  method Connect(stream: Connection, target: Target) returns (o: Outcome)
    requires stream.pos == 0 && stream.sent == [] && !stream.broke
    modifies stream
    ensures if stream.broke then o == IoError else o == Verdict(stream.incoming).0
    ensures o != IoError ==> stream.pos == Verdict(stream.incoming).1
    ensures o == Connected || o.Refused? ==> stream.sent == [0x05, 0x01, 0x00] + ConnectRequest(target)
  {
    var ok := stream.WriteAll([0x05, 0x01, 0x00]);
    if !ok {
      return IoError;
    }
    var resp := stream.ReadExact(2);
    if resp.None? {
      return IoError;
    }
    assert resp.value[0] == stream.incoming[0] && resp.value[1] == stream.incoming[1];
    if resp.value[0] != 0x05 || resp.value[1] != 0x00 {
      return AuthFailed;
    }

    ok := stream.WriteAll(ConnectRequest(target));
    if !ok {
      return IoError;
    }

    var rh := stream.ReadExact(4);
    if rh.None? {
      return IoError;
    }
    assert rh.value == stream.incoming[2..6];
    assert rh.value[0] == stream.incoming[2] && rh.value[1] == stream.incoming[3] && rh.value[3] == stream.incoming[5];
    if rh.value[0] != 0x05 || rh.value[1] != 0x00 {
      return Refused(rh.value[1]);
    }
    o := ReadBoundAddress(stream, rh.value[3]);
  }

  /** For address types 1, 3 and 4, success leaves the stream exactly behind the reply. */
  lemma ReplyConsumedExactly(b: seq<byte>)
    requires Verdict(b).0 == Connected && b[5] in {0x01, 0x03, 0x04}
    ensures Verdict(b).1 <= |b| && b[..2] == [0x05, 0x00]
    ensures ReplyLength(b[2..Verdict(b).1]) == Some(|b[2..Verdict(b).1]|)
  {
    var n := Verdict(b).1;
    assert b[2..n][3] == b[2..][3] == b[5] && b[2..n][4] == b[2..][4];
  }

  // ---- the replies of section 6 of RFC 1928 --------------------------------------

  /** A reply with a bound address of any of the three types. */
  function Reply(rep: byte, bound: Target): seq<byte> {
    match bound
    case Address(V4(octets), port) => [5, rep, 0, 1] + octets + BE16(port)
    case Address(V6(octets), port) => [5, rep, 0, 4] + octets + BE16(port)
    case Domain(host, port) => [5, rep, 0, 3] + ([|host| % 256] + host) + BE16(port)
  }

  lemma ReplySize(rep: byte, bound: Target)
    requires WellFormed(bound)
    ensures |Reply(rep, bound)| == if bound.Domain? then 7 + |bound.host| else if bound.ip.V4? then 10 else 22
  {
  }

  /** The head of a reply, and where its address starts. */
  lemma ReplyHead(rep: byte, bound: Target)
    requires WellFormed(bound) && (bound.Domain? ==> |bound.host| <= 255)
    ensures var r := Reply(rep, bound);
            && |r| >= 7 && r[0] == 5 && r[1] == rep && r[2] == 0
            && (bound.Address? && bound.ip.V4? ==> r[3] == 1)
            && (bound.Address? && bound.ip.V6? ==> r[3] == 4)
            && (bound.Domain? ==> r[3] == 3 && r[4] == |bound.host|)
  {
  }

  /** What the bytes say, by their first six and the length byte of a domain. */
  lemma VerdictByHead(b: seq<byte>, size: nat)
    requires |b| >= 6 && b[0] == 5 && b[1] == 0 && b[2] == 5
    requires b[3] == 0 ==> b[5] in {1, 3, 4}
    requires b[3] == 0 && b[5] == 3 ==> |b| >= 7
    requires b[3] == 0 ==> size == if b[5] == 1 then 10 else if b[5] == 4 then 22 else 7 + b[6] as nat
    requires b[3] == 0 ==> |b| >= 7
    ensures Verdict(b) == if b[3] != 0 then (Refused(b[3]), 6) else if 2 + size <= |b| then (Connected, 2 + size) else (IoError, 6)
  {
    assert b[2..][3] == b[5];
    assert |b| >= 7 ==> b[2..][4] == b[6];
  }

  lemma ReplyBytes(r: seq<byte>, rest: seq<byte>)
    requires |r| >= 7
    ensures var b := [5, 0] + r + rest;
            |b| == 2 + |r| + |rest| && b[0] == 5 && b[1] == 0 && forall i | 0 <= i < 5 :: b[i + 2] == r[i]
  {
  }

  /**
   Whatever follows it, a reply that grants the request succeeds and is consumed to its last byte
   and no further; one that refuses it is a refusal with its code.
  */
  lemma ReplyUnderstood(rep: byte, bound: Target, rest: seq<byte>)
    requires WellFormed(bound) && (bound.Domain? ==> |bound.host| <= 255)
    ensures Verdict([5, 0] + Reply(rep, bound) + rest)
            == if rep == 0 then (Connected, 2 + |Reply(rep, bound)|) else (Refused(rep), 6)
  {
    var r := Reply(rep, bound);
    var b := [5, 0] + r + rest;
    ReplySize(rep, bound);
    ReplyHead(rep, bound);
    ReplyBytes(r, rest);
    assert b[2] == r[0] && b[3] == r[1] && b[5] == r[3] && b[6] == r[4];
    VerdictByHead(b, |r|);
  }

  /** A proxy that does not accept going without authentication, and one that cuts its reply short. */
  lemma OtherVerdicts(choice: byte, bound: Target, k: nat)
    requires WellFormed(bound) && (bound.Domain? ==> |bound.host| <= 255) && k < |Reply(0, bound)|
    ensures choice != 0 ==> Verdict([5, choice]) == (AuthFailed, 2)
    ensures Verdict([5, 0] + Reply(0, bound)[..k]).0 == IoError
  {
    var r := Reply(0, bound);
    var b := [5, 0] + r[..k];
    ReplySize(0, bound);
    ReplyHead(0, bound);
    assert forall i | 0 <= i < k :: b[i + 2] == r[i];
    if k >= 5 {
      assert b[2] == r[0] && b[3] == r[1] && b[5] == r[3] && b[6] == r[4];
      VerdictByHead(b, |r|);
    } else if k == 4 {
      assert b[2] == r[0] && b[3] == r[1] && b[5] == r[3];
    }
  }

  /** Replies outside the standard: another version is a refusal, an unknown address type is read no further. */
  lemma OddReplies(b: seq<byte>)
    ensures |b| >= 2 && b[0] != 5 ==> Verdict(b) == (AuthFailed, 2)
    ensures |b| >= 6 && b[0] == 5 && b[1] == 0 && b[2] != 5 ==> Verdict(b) == (Refused(b[3]), 6)
    ensures |b| >= 6 && b[0] == 5 && b[1] == 0 && b[2] == 5 && b[3] == 0 && b[5] != 1 && b[5] != 3 && b[5] != 4 ==>
              Verdict(b) == (Connected, 6)
  {
  }
}
