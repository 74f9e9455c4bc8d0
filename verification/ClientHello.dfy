/**
 The fake TLS ClientHello of TLS-mode simple-obfs, and a parser of the record, handshake
 and extension layers that knows nothing of how it was built.
*/
module ClientHello {
  import opened Bytes

  type bytes28 = s: seq<byte> | |s| == 28 witness seq(28, i => 0)
  type bytes32 = s: seq<byte> | |s| == 32 witness seq(32, i => 0)

  /** Everything in a ClientHello that is drawn from the clock or the random generator. */
  datatype Salt = Salt(now: u32, random: bytes28, sessionId: bytes32)

  const CIPHER_SUITES: seq<byte> := [
    0xc0, 0x2c, 0xc0, 0x30, 0x00, 0x9f, 0xcc, 0xa9, 0xcc, 0xa8, 0xcc, 0xaa, 0xc0, 0x2b, 0xc0,
    0x2f, 0x00, 0x9e, 0xc0, 0x24, 0xc0, 0x28, 0x00, 0x6b, 0xc0, 0x23, 0xc0, 0x27
  ] + [
    0x00, 0x67, 0xc0, 0x0a, 0xc0, 0x14, 0x00, 0x39, 0xc0, 0x09, 0xc0, 0x13, 0x00, 0x33, 0x00,
    0x9d, 0x00, 0x9c, 0x00, 0x3d, 0x00, 0x3c, 0x00, 0x35, 0x00, 0x2f, 0x00, 0xff
  ]
  const EC_POINT_FORMATS: seq<byte> := [0x03, 0x01, 0x00, 0x02]
  const SUPPORTED_GROUPS: seq<byte> := [0x00, 0x08, 0x00, 0x1d, 0x00, 0x17, 0x00, 0x19, 0x00, 0x18]
  const SIGNATURE_ALGORITHMS: seq<byte> := [
    0x00, 0x1e, 0x06, 0x01, 0x06, 0x02, 0x06, 0x03, 0x05, 0x01, 0x05,
    0x02, 0x05, 0x03, 0x04, 0x01, 0x04, 0x02, 0x04, 0x03, 0x03, 0x01, 0x03, 0x02, 0x03, 0x03,
    0x02, 0x01, 0x02, 0x02, 0x02, 0x03
  ]

  // ---- what is sent --------------------------------------------------------------

  datatype Extension = Extension(kind: u16, body: seq<byte>)

  function Encoded(e: Extension): (b: seq<byte>)
    ensures |b| == 4 + |e.body|
  {
    BE16(e.kind) + BE16(Wrap16(|e.body|)) + e.body
  }

  function TotalSize(es: seq<Extension>): nat {
    if es == [] then 0 else 4 + |es[0].body| + TotalSize(es[1..])
  }

  function EncodeAll(es: seq<Extension>): (b: seq<byte>)
    ensures |b| == TotalSize(es)
  {
    if es == [] then [] else Encoded(es[0]) + EncodeAll(es[1..])
  }

  /** The server_name extension body; its two lengths are 16-bit sums. */
  function SniBody(server: seq<byte>): (b: seq<byte>)
    ensures |b| == 5 + |server|
  {
    BE16(Wrap16(|server| + 3)) + [0x00] + BE16(Wrap16(|server|)) + server
  }

  function Fixed(): (es: seq<Extension>)
    ensures |es| == 5
  {
    [Extension(0x0b, EC_POINT_FORMATS), Extension(0x0a, SUPPORTED_GROUPS),
     Extension(0x0d, SIGNATURE_ALGORITHMS), Extension(0x16, []), Extension(0x17, [])]
  }

  function Extensions(data: seq<byte>, server: seq<byte>): (es: seq<Extension>)
    ensures |es| == 7
  {
    [Extension(0x23, data), Extension(0x00, SniBody(server))] + Fixed()
  }

  /** Record header and handshake header. */
  function Header(size: nat): (b: seq<byte>)
    ensures |b| == 9
  {
    [0x16] + [0x03, 0x01] + BE16(Wrap16(212 + size)) + [0x01] + [0x00] + BE16(Wrap16(208 + size))
  }

  /** Version, random and session id. */
  function Intro(salt: Salt): (b: seq<byte>)
    ensures |b| == 67
  {
    [0x03, 0x03] + BE32(salt.now) + salt.random + [32] + salt.sessionId
  }

  function Suites(): (b: seq<byte>)
    ensures |b| == 60
  {
    [0x00, 0x38] + CIPHER_SUITES + [0x01, 0x00]
  }

  /** The whole record; every length is the 16-bit sum the builder computes. */
  function HelloBytes(data: seq<byte>, server: seq<byte>, salt: Salt): (b: seq<byte>)
    ensures b != []
  {
    var size := |data| + |server|;
    Header(size) + Intro(salt) + Suites() + BE16(Wrap16(79 + size)) + EncodeAll(Extensions(data, server))
  }

  // ---- what a server reads -------------------------------------------------------

  datatype Hello = Hello(random: seq<byte>, sessionId: seq<byte>, suites: seq<byte>,
                         compression: seq<byte>, extensions: seq<Extension>)

  /** A vector with a length prefix of one byte, and what follows it. */
  function Vector8(b: seq<byte>): Option<(seq<byte>, seq<byte>)> {
    if |b| < 1 || |b| - 1 < b[0] then None else Some((b[1..][..b[0]], b[1..][b[0]..]))
  }

  /** A vector with a length prefix of two bytes, and what follows it. */
  function Vector16(b: seq<byte>): Option<(seq<byte>, seq<byte>)> {
    if |b| < 2 || |b| - 2 < U16(b[0], b[1]) then None
    else
      var n := U16(b[0], b[1]);
      Some((b[2..][..n], b[2..][n..]))
  }

  /** Extension list, section 7.4.1.4 of RFC 5246. */
  function WalkExtensions(b: seq<byte>): Option<seq<Extension>> {
    if b == [] then Some([])
    else if |b| < 4 then None
    else
      var v := Vector16(b[2..]);
      if v.None? then None
      else
        var rest := WalkExtensions(v.value.1);
        if rest.None? then None else Some([Extension(U16(b[0], b[1]), v.value.0)] + rest.value)
  }

  function HostEntry(b: seq<byte>): Option<seq<byte>> {
    if b == [] || b[0] != 0 then None
    else
      var name := Vector16(b[1..]);
      if name.None? || name.value.1 != [] then None else Some(name.value.0)
  }

  /** Server name list with one host name, section 3 of RFC 6066. */
  function HostName(b: seq<byte>): Option<seq<byte>> {
    var list := Vector16(b);
    if list.None? || list.value.1 != [] then None else HostEntry(list.value.0)
  }

  function ParseExtensions(random: seq<byte>, sid: seq<byte>, suites: seq<byte>, compression: seq<byte>,
                           b: seq<byte>): Option<Hello>
  {
    var exts := Vector16(b);
    if exts.None? || exts.value.1 != [] then None
    else
      var walked := WalkExtensions(exts.value.0);
      if walked.None? then None else Some(Hello(random, sid, suites, compression, walked.value))
  }

  function ParseCompression(random: seq<byte>, sid: seq<byte>, suites: seq<byte>, b: seq<byte>): Option<Hello> {
    var compression := Vector8(b);
    if compression.None? then None
    else ParseExtensions(random, sid, suites, compression.value.0, compression.value.1)
  }

  function ParseSuites(random: seq<byte>, sid: seq<byte>, b: seq<byte>): Option<Hello> {
    var suites := Vector16(b);
    if suites.None? then None else ParseCompression(random, sid, suites.value.0, suites.value.1)
  }

  function ParseSessionId(random: seq<byte>, b: seq<byte>): Option<Hello> {
    var sid := Vector8(b);
    if sid.None? then None else ParseSuites(random, sid.value.0, sid.value.1)
  }

  /** ClientHello body, section 7.4.1.2 of RFC 5246, one field at a time. */
  function ParseBody(b: seq<byte>): Option<Hello> {
    if |b| < 34 || b[..2] != [0x03, 0x03] then None else ParseSessionId(b[2..34], b[34..])
  }

  /** One handshake record holding one ClientHello and nothing else. */
  function ParseClientHello(b: seq<byte>): Option<Hello> {
    if |b| < 9 || b[0] != 0x16 || b[1] != 0x03 || b[2] != 0x01 || U16(b[3], b[4]) != |b| - 5 then None
    else if b[5] != 0x01 || b[6] * 0x1_0000 + U16(b[7], b[8]) != |b| - 9 then None
    else ParseBody(b[9..])
  }

  // ---- the two agree -------------------------------------------------------------

  lemma Vector8Of(n: byte, body: seq<byte>, rest: seq<byte>)
    requires n == |body|
    ensures Vector8([n] + (body + rest)) == Some((body, rest))
  {
    assert ([n] + (body + rest))[1..] == body + rest;
  }

  lemma Vector16Of(n: u16, body: seq<byte>, rest: seq<byte>)
    requires n == |body|
    ensures Vector16(BE16(n) + (body + rest)) == Some((body, rest))
  {
    assert (BE16(n) + (body + rest))[2..] == body + rest;
  }

  predicate Fits(es: seq<Extension>) {
    forall e | e in es :: |e.body| < 0x1_0000
  }

  lemma WrapSmallIff(n: nat)
    ensures Wrap16(n) == n <==> n < 0x1_0000
  {
  }

  lemma EncodedSplits(e: Extension, rest: seq<byte>)
    requires |e.body| < 0x1_0000
    ensures Encoded(e) + rest == BE16(e.kind) + (BE16(|e.body|) + (e.body + rest))
  {
    WrapSmallIff(|e.body|);
    Assoc(BE16(e.kind) + BE16(|e.body|), e.body, rest);
    Assoc(BE16(e.kind), BE16(|e.body|), e.body + rest);
  }

  lemma WalkFields(kind: seq<byte>, tail: seq<byte>, e: Extension, rest: seq<byte>)
    requires kind == BE16(e.kind) && |tail| >= 2 && Vector16(tail) == Some((e.body, rest)) && |rest| < |tail|
    ensures var more := WalkExtensions(rest);
            WalkExtensions(kind + tail) == if more.None? then None else Some([e] + more.value)
  {
    assert (kind + tail)[2..] == tail;
  }

  lemma WalkOne(e: Extension, rest: seq<byte>)
    requires |e.body| < 0x1_0000
    ensures var more := WalkExtensions(rest);
            WalkExtensions(Encoded(e) + rest) == if more.None? then None else Some([e] + more.value)
  {
    EncodedSplits(e, rest);
    Vector16Of(|e.body|, e.body, rest);
    WalkFields(BE16(e.kind), BE16(|e.body|) + (e.body + rest), e, rest);
  }

  lemma {:induction false} WalkInvertsEncode(es: seq<Extension>)
    requires Fits(es)
    ensures WalkExtensions(EncodeAll(es)) == Some(es)
  {
    if es != [] {
      assert es[0] in es;
      WalkInvertsEncode(es[1..]);
      WalkOne(es[0], EncodeAll(es[1..]));
      assert [es[0]] + es[1..] == es;
    }
  }

  lemma EncodeAllOne(e: Extension, es: seq<Extension>)
    ensures EncodeAll([e] + es) == Encoded(e) + EncodeAll(es)
  {
    assert ([e] + es)[1..] == es;
  }

  lemma TotalSizeOne(e: Extension, es: seq<Extension>)
    ensures TotalSize([e] + es) == 4 + |e.body| + TotalSize(es)
  {
    assert ([e] + es)[1..] == es;
  }

  lemma FixedSize()
    ensures TotalSize(Fixed()) == 66
  {
    var a, b := Extension(0x0b, EC_POINT_FORMATS), Extension(0x0a, SUPPORTED_GROUPS);
    var c := Extension(0x0d, SIGNATURE_ALGORITHMS);
    var d, e := Extension(0x16, []), Extension(0x17, []);
    assert |a.body| == 4 && |b.body| == 10 && |c.body| == 32;
    TotalSizeOne(e, []);
    TotalSizeOne(d, [e]);
    TotalSizeOne(c, [d, e]);
    TotalSizeOne(b, [c, d, e]);
    TotalSizeOne(a, [b, c, d, e]);
    assert [e] == [e] + [] && [d, e] == [d] + [e] && [c, d, e] == [c] + [d, e];
    assert [b, c, d, e] == [b] + [c, d, e] && [a, b, c, d, e] == [a] + [b, c, d, e];
  }

  lemma ExtensionsSize(data: seq<byte>, server: seq<byte>)
    ensures |EncodeAll(Extensions(data, server))| == 79 + |data| + |server|
  {
    var es := Extensions(data, server);
    FixedSize();
    var ticket, sni := es[0], es[1];
    TotalSizeOne(sni, es[2..]);
    TotalSizeOne(ticket, es[1..]);
    assert es[2..] == Fixed() && es[1..] == [sni] + es[2..] && es == [ticket] + es[1..];
  }

  lemma HostEntryOf(server: seq<byte>)
    requires |server| < 0x1_0000
    ensures HostEntry([0x00] + (BE16(|server|) + (server + []))) == Some(server)
  {
    Vector16Of(|server|, server, []);
    assert ([0x00] + (BE16(|server|) + (server + [])))[1..] == BE16(|server|) + (server + []);
  }

  lemma HostNameOf(list: seq<byte>)
    requires |list| < 0x1_0000
    ensures HostName(BE16(|list|) + (list + [])) == HostEntry(list)
  {
    Vector16Of(|list|, list, []);
  }

  lemma SniBodyNests(len: seq<byte>, zero: seq<byte>, len': seq<byte>, server: seq<byte>)
    ensures len + zero + len' + server == len + ((zero + (len' + (server + []))) + [])
  {
    assert server + [] == server;
    Assoc(len, zero, len');
    Assoc(len, zero + len', server);
    Assoc(zero, len', server);
    assert zero + (len' + server) + [] == zero + (len' + server);
  }

  lemma HostNameRecovers(server: seq<byte>)
    requires |server| + 5 < 0x1_0000
    ensures HostName(SniBody(server)) == Some(server)
  {
    assert Wrap16(|server|) == |server| && Wrap16(|server| + 3) == |server| + 3;
    SniBodyNests(BE16(|server| + 3), [0x00], BE16(|server|), server);
    HostNameOf([0x00] + (BE16(|server|) + (server + [])));
    HostEntryOf(server);
  }

  function HelloOf(data: seq<byte>, server: seq<byte>, salt: Salt): Hello {
    Hello(BE32(salt.now) + salt.random, salt.sessionId, CIPHER_SUITES, [0x00], Extensions(data, server))
  }

  lemma ParseBodyOf(random: seq<byte>, rest: seq<byte>)
    requires |random| == 32
    ensures ParseBody([0x03, 0x03] + (random + rest)) == ParseSessionId(random, rest)
  {
    var b := [0x03, 0x03] + (random + rest);
    assert b[..2] == [0x03, 0x03] && b[2..34] == random && b[34..] == rest;
  }

  lemma ParseSessionIdOf(random: seq<byte>, sid: seq<byte>, rest: seq<byte>)
    requires |sid| == 32
    ensures ParseSessionId(random, [32] + (sid + rest)) == ParseSuites(random, sid, rest)
  {
    Vector8Of(32, sid, rest);
  }

  lemma ParseSuitesOf(random: seq<byte>, sid: seq<byte>, suites: seq<byte>, rest: seq<byte>)
    requires |suites| == 56
    ensures ParseSuites(random, sid, BE16(56) + (suites + rest)) == ParseCompression(random, sid, suites, rest)
  {
    Vector16Of(56, suites, rest);
  }

  lemma ParseCompressionOf(random: seq<byte>, sid: seq<byte>, suites: seq<byte>, rest: seq<byte>)
    ensures ParseCompression(random, sid, suites, [1] + ([0x00] + rest))
            == ParseExtensions(random, sid, suites, [0x00], rest)
  {
    Vector8Of(1, [0x00], rest);
  }

  lemma ParseExtensionsOf(random: seq<byte>, sid: seq<byte>, suites: seq<byte>, exts: seq<byte>, es: seq<Extension>)
    requires |exts| < 0x1_0000 && WalkExtensions(exts) == Some(es)
    ensures ParseExtensions(random, sid, suites, [0x00], BE16(|exts|) + (exts + []))
            == Some(Hello(random, sid, suites, [0x00], es))
  {
    Vector16Of(|exts|, exts, []);
  }

  lemma ParseWholeBody(random: seq<byte>, sid: seq<byte>, suites: seq<byte>, exts: seq<byte>, es: seq<Extension>)
    requires |random| == 32 && |sid| == 32 && |suites| == 56
    requires |exts| < 0x1_0000 && WalkExtensions(exts) == Some(es)
    ensures ParseBody([0x03, 0x03] + (random + ([32] + (sid + (BE16(56) + (suites
                      + ([1] + ([0x00] + (BE16(|exts|) + (exts + []))))))))))
            == Some(Hello(random, sid, suites, [0x00], es))
  {
    var e := BE16(|exts|) + (exts + []);
    var c := [1] + ([0x00] + e);
    var s := BE16(56) + (suites + c);
    ParseBodyOf(random, [32] + (sid + s));
    ParseSessionIdOf(random, sid, s);
    ParseSuitesOf(random, sid, suites, c);
    ParseCompressionOf(random, sid, suites, e);
    ParseExtensionsOf(random, sid, suites, exts, es);
  }

  /** The pieces of a hello, regrouped the way the grammar nests them. */
  lemma Regroup(version: seq<byte>, now: seq<byte>, random: seq<byte>, n: seq<byte>, sid: seq<byte>,
                m: seq<byte>, suites: seq<byte>, one: seq<byte>, zero: seq<byte>, len: seq<byte>, exts: seq<byte>)
    ensures (version + now + random + n + sid) + (m + suites + (one + zero)) + len + exts
         == version + ((now + random) + (n + (sid + (m + (suites + (one + (zero + (len + (exts + [])))))))))
  {
    assert exts + [] == exts;
    Assoc((version + now + random + n + sid) + (m + suites + (one + zero)), len, exts);
    var e := len + exts;
    Assoc(version + now + random + n + sid, m + suites + (one + zero), e);
    Assoc(m + suites, one + zero, e);
    Assoc(m, suites, one + zero + e);
    Assoc(one, zero, e);
    var s := m + (suites + (one + (zero + e)));
    Assoc(version + now + random + n, sid, s);
    Assoc(version + now + random, n, sid + s);
    Assoc(version, now, random);
    Assoc(version, now + random, n + (sid + s));
  }

  lemma SuitesNest()
    ensures Suites() == BE16(56) + CIPHER_SUITES + ([1] + [0x00])
  {
    assert BE16(56) == [0x00, 0x38];
    assert [1] + [0x00] == [0x01, 0x00];
  }

  lemma BodyNests(salt: Salt, len: seq<byte>, exts: seq<byte>)
    ensures Intro(salt) + Suites() + len + exts
         == [0x03, 0x03] + ((BE32(salt.now) + salt.random) + ([32] + (salt.sessionId + (BE16(56) + (CIPHER_SUITES
            + ([1] + ([0x00] + (len + (exts + [])))))))))
  {
    SuitesNest();
    Regroup([0x03, 0x03], BE32(salt.now), salt.random, [32], salt.sessionId, BE16(56), CIPHER_SUITES,
            [1], [0x00], len, exts);
  }

  lemma BodyRecovers(salt: Salt, exts: seq<byte>, es: seq<Extension>)
    requires |exts| < 0x1_0000 && WalkExtensions(exts) == Some(es)
    ensures ParseBody(Intro(salt) + Suites() + BE16(|exts|) + exts)
            == Some(Hello(BE32(salt.now) + salt.random, salt.sessionId, CIPHER_SUITES, [0x00], es))
  {
    BodyNests(salt, BE16(|exts|), exts);
    ParseWholeBody(BE32(salt.now) + salt.random, salt.sessionId, CIPHER_SUITES, exts, es);
  }

  lemma ExtensionsRecovered(data: seq<byte>, server: seq<byte>)
    requires 79 + |data| + |server| < 0x1_0000
    ensures WalkExtensions(EncodeAll(Extensions(data, server))) == Some(Extensions(data, server))
  {
    assert Fits(Extensions(data, server));
    WalkInvertsEncode(Extensions(data, server));
  }

  lemma HeaderFields(size: nat)
    ensures var h := Header(size);
            && h[0] == 0x16 && h[1] == 0x03 && h[2] == 0x01 && h[5] == 0x01 && h[6] == 0
            && U16(h[3], h[4]) == Wrap16(212 + size) && U16(h[7], h[8]) == Wrap16(208 + size)
  {
    var h := Header(size);
    assert h[3..5] == BE16(Wrap16(212 + size));
    assert h[7..9] == BE16(Wrap16(208 + size));
    assert h[3] == h[3..5][0] && h[4] == h[3..5][1] && h[7] == h[7..9][0] && h[8] == h[7..9][1];
  }

  lemma Assoc5(a: seq<byte>, b: seq<byte>, c: seq<byte>, d: seq<byte>, e: seq<byte>)
    ensures a + b + c + d + e == a + (b + c + d + e)
  {
    Assoc(a, b, c);
    Assoc(a, b + c, d);
    Assoc(a, b + c + d, e);
  }

  lemma ParseFramed(h: seq<byte>, body: seq<byte>)
    requires |h| == 9 && h[0] == 0x16 && h[1] == 0x03 && h[2] == 0x01 && h[5] == 0x01 && h[6] == 0
    ensures ParseClientHello(h + body)
            == if U16(h[3], h[4]) == 4 + |body| && U16(h[7], h[8]) == |body| then ParseBody(body) else None
  {
    assert (h + body)[9..] == body;
  }

  lemma HelloSplits(data: seq<byte>, server: seq<byte>, salt: Salt,
                    h: seq<byte>, intro: seq<byte>, suites: seq<byte>, len: seq<byte>, exts: seq<byte>)
    requires h == Header(|data| + |server|) && intro == Intro(salt) && suites == Suites()
    requires len == BE16(Wrap16(79 + (|data| + |server|))) && exts == EncodeAll(Extensions(data, server))
    ensures HelloBytes(data, server, salt) == h + (intro + suites + len + exts)
  {
    Assoc5(h, intro, suites, len, exts);
  }

  /** Record and handshake lengths, seen from the parser. */
  lemma HelloFramed(data: seq<byte>, server: seq<byte>, salt: Salt, size: nat, body: seq<byte>)
    requires size == |data| + |server|
    requires body == Intro(salt) + Suites() + BE16(Wrap16(79 + size)) + EncodeAll(Extensions(data, server))
    ensures |HelloBytes(data, server, salt)| == 217 + size && |body| == 208 + size
    ensures ParseClientHello(HelloBytes(data, server, salt)) == if 212 + size < 0x1_0000 then ParseBody(body) else None
  {
    HelloSplits(data, server, salt, Header(size), Intro(salt), Suites(), BE16(Wrap16(79 + size)),
                EncodeAll(Extensions(data, server)));
    ExtensionsSize(data, server);
    HeaderFields(size);
    ParseFramed(Header(size), body);
    WrapSmallIff(212 + size);
    WrapSmallIff(208 + size);
  }

  /**
   Every nested length covers what it should, and a server that knows only the TLS grammar
   finds `data` and `server`, exactly when the record length does not overflow 16 bits.
  */
  lemma HelloParsesIff(data: seq<byte>, server: seq<byte>, salt: Salt)
    ensures |HelloBytes(data, server, salt)| == 217 + |data| + |server|
    ensures ParseClientHello(HelloBytes(data, server, salt))
            == if 212 + |data| + |server| < 0x1_0000 then Some(HelloOf(data, server, salt)) else None
  {
    var size := |data| + |server|;
    var exts := EncodeAll(Extensions(data, server));
    HelloFramed(data, server, salt, size, Intro(salt) + Suites() + BE16(Wrap16(79 + size)) + exts);
    if 212 + size < 0x1_0000 {
      ExtensionsSize(data, server);
      WrapSmallIff(79 + size);
      ExtensionsRecovered(data, server);
      BodyRecovers(salt, exts, Extensions(data, server));
    }
  }

  /** In a hello that parses, the ticket is the payload and the host name is the server. */
  lemma HelloCarries(data: seq<byte>, server: seq<byte>, salt: Salt)
    requires 212 + |data| + |server| < 0x1_0000
    ensures var h := ParseClientHello(HelloBytes(data, server, salt));
            && h.Some? && |h.value.extensions| == 7
            && h.value.extensions[0] == Extension(0x23, data)
            && h.value.extensions[1].kind == 0x00
            && HostName(h.value.extensions[1].body) == Some(server)
  {
    HelloParsesIff(data, server, salt);
    HostNameRecovers(server);
  }

  lemma SuitesOffered()
    ensures |CIPHER_SUITES| == 56
    ensures CIPHER_SUITES[..4] == [0xc0, 0x2c, 0xc0, 0x30] && CIPHER_SUITES[52..] == [0x00, 0x2f, 0x00, 0xff]
  {
    var head, tail := CIPHER_SUITES[..4], CIPHER_SUITES[52..];
    assert |head| == 4 && |tail| == 4;
    assert head[0] == 0xc0 && head[1] == 0x2c && head[2] == 0xc0 && head[3] == 0x30;
    assert tail[0] == 0x00 && tail[1] == 0x2f && tail[2] == 0x00 && tail[3] == 0xff;
  }

  lemma FixedOffered(data: seq<byte>, server: seq<byte>)
    ensures var es := Extensions(data, server);
            && es[2] == Extension(11, [3, 1, 0, 2])
            && es[3] == Extension(10, [0, 8, 0, 0x1d, 0, 0x17, 0, 0x19, 0, 0x18])
            && es[4].kind == 13 && |es[4].body| == 32 && es[4].body[..2] == [0, 30]
            && es[5] == Extension(22, []) && es[6] == Extension(23, [])
  {
    assert |SIGNATURE_ALGORITHMS| == 32;
  }

  /** What else such a hello offers: its salt, the cipher suites, no compression, and the fixed extensions. */
  lemma HelloOffers(data: seq<byte>, server: seq<byte>, salt: Salt, suites: seq<byte>, es: seq<Extension>)
    requires 212 + |data| + |server| < 0x1_0000
    requires suites == CIPHER_SUITES && es == Extensions(data, server)
    ensures ParseClientHello(HelloBytes(data, server, salt))
            == Some(Hello(BE32(salt.now) + salt.random, salt.sessionId, suites, [0x00], es))
    ensures |suites| == 56 && suites[..4] == [0xc0, 0x2c, 0xc0, 0x30] && suites[52..] == [0x00, 0x2f, 0x00, 0xff]
    ensures es[2] == Extension(11, [3, 1, 0, 2])
    ensures es[3] == Extension(10, [0, 8, 0, 0x1d, 0, 0x17, 0, 0x19, 0, 0x18])
    ensures es[4].kind == 13 && |es[4].body| == 32 && es[4].body[..2] == [0, 30]
    ensures es[5] == Extension(22, []) && es[6] == Extension(23, [])
  {
    HelloParsesIff(data, server, salt);
    SuitesOffered();
    FixedOffered(data, server);
  }

  /** The record header of a hello names its length, truncated. */
  lemma RecordLength(data: seq<byte>, server: seq<byte>, salt: Salt)
    ensures var b := HelloBytes(data, server, salt);
            |b| == 217 + |data| + |server| && U16(b[3], b[4]) == Wrap16(212 + (|data| + |server|))
  {
    var h := Header(|data| + |server|);
    HelloParsesIff(data, server, salt);
    HeaderFields(|data| + |server|);
    HelloSplits(data, server, salt, h, Intro(salt), Suites(), BE16(Wrap16(79 + (|data| + |server|))),
                EncodeAll(Extensions(data, server)));
  }

  function Ticket(es: seq<Extension>): Option<seq<byte>> {
    if es == [] then None
    else if es[0].kind == 0x23 then Some(es[0].body)
    else Ticket(es[1..])
  }

  // ---- the builder ---------------------------------------------------------------

  lemma {:induction false} EncodeAllSnoc(es: seq<Extension>, e: Extension)
    ensures EncodeAll(es + [e]) == EncodeAll(es) + Encoded(e)
  {
    if es == [] {
      EncodeAllOne(e, es);
      assert es + [e] == [e] == [e] + es;
    } else {
      var f, rest := es[0], es[1..];
      EncodeAllSnoc(rest, e);
      EncodeAllOne(f, rest + [e]);
      EncodeAllOne(f, rest);
      assert es == [f] + rest && es + [e] == [f] + (rest + [e]);
      Assoc(Encoded(f), EncodeAll(rest), Encoded(e));
    }
  }

  /** Appends one extension to a buffer that ends in the extensions `done`. */
  lemma Pushed(front: seq<byte>, done: seq<Extension>, e: Extension)
    ensures front + EncodeAll(done) + Encoded(e) == front + EncodeAll(done + [e])
  {
    EncodeAllSnoc(done, e);
    Assoc(front, EncodeAll(done), Encoded(e));
  }

  lemma ExtensionsEncoded(data: seq<byte>, server: seq<byte>)
    ensures EncodeAll(Extensions(data, server))
            == Encoded(Extension(0x23, data)) + Encoded(Extension(0x00, SniBody(server))) + EncodeAll(Fixed())
  {
    var ticket, sni, rest := Extension(0x23, data), Extension(0x00, SniBody(server)), Fixed();
    EncodeAllOne(sni, rest);
    EncodeAllOne(ticket, [sni] + rest);
    assert [ticket, sni] + rest == [ticket] + ([sni] + rest);
    Assoc(Encoded(ticket), Encoded(sni), EncodeAll(rest));
  }

  lemma Pushed5(buf: seq<byte>, a: seq<byte>, b: seq<byte>, c: seq<byte>, d: seq<byte>, e: seq<byte>)
    ensures buf + a + b + c + d + e == buf + (a + b + c + d + e)
  {
    Assoc(buf, a, b);
    Assoc(buf, a + b, c);
    Assoc(buf, a + b + c, d);
    Assoc(buf, a + b + c + d, e);
  }

  lemma Wrapped(n: nat, k: nat)
    ensures Wrap16(Wrap16(n) + k) == Wrap16(k + n)
  {
    assert k + n == 0x1_0000 * (n / 0x1_0000) + (Wrap16(n) + k);
    WrapShift(n / 0x1_0000, Wrap16(n) + k);
  }

  lemma Pushed3(buf: seq<byte>, a: seq<byte>, b: seq<byte>, c: seq<byte>)
    ensures buf + a + b + c == buf + (a + b + c)
  {
    Assoc(buf, a, b);
    Assoc(buf, a + b, c);
  }

  /** Version to compression methods, as the builder pushes them. */
  method PushIntro(front: seq<byte>, salt: Salt) returns (buf: seq<byte>)
    ensures buf == front + Intro(salt) + Suites()
  {
    buf := front + [0x03, 0x03];
    buf := buf + BE32(salt.now);
    buf := buf + salt.random;
    buf := buf + [32];
    buf := buf + salt.sessionId;
    Pushed5(front, [0x03, 0x03], BE32(salt.now), salt.random, [32], salt.sessionId);
    ghost var was := buf;
    buf := buf + [0x00, 0x38];
    buf := buf + CIPHER_SUITES;
    buf := buf + [0x01, 0x00];
    Pushed3(was, [0x00, 0x38], CIPHER_SUITES, [0x01, 0x00]);
  }

  /** Session ticket. */
  method PushTicket(start: seq<byte>, data: seq<byte>) returns (buf: seq<byte>)
    ensures buf == start + Encoded(Extension(0x23, data))
  {
    var dataLen := Wrap16(|data|);
    buf := start + [0x00, 0x23];
    buf := buf + BE16(dataLen);
    buf := buf + data;
    assert BE16(0x23) == [0x00, 0x23];
    Pushed3(start, [0x00, 0x23], BE16(dataLen), data);
  }

  lemma KindSni()
    ensures BE16(0x00) == [0x00, 0x00]
  {
  }

  lemma EncodedSni(server: seq<byte>)
    ensures Encoded(Extension(0x00, SniBody(server)))
         == [0x00, 0x00] + BE16(Wrap16(Wrap16(|server|) + 5)) + SniBody(server)
  {
    Wrapped(|server|, 5);
    KindSni();
  }

  lemma Pushed4(buf: seq<byte>, a: seq<byte>, b: seq<byte>, c: seq<byte>, d: seq<byte>)
    ensures buf + a + b + c + d == buf + (a + b + c + d)
  {
    Assoc(buf, a, b);
    Assoc(buf, a + b, c);
    Assoc(buf, a + b + c, d);
  }

  method PushSniBody(front: seq<byte>, server: seq<byte>) returns (buf: seq<byte>)
    ensures buf == front + SniBody(server)
  {
    var serverLen: nat := Wrap16(|server|);
    Wrapped(|server|, 3);
    buf := front + BE16(Wrap16(serverLen + 3));
    buf := buf + [0x00];
    buf := buf + BE16(serverLen);
    buf := buf + server;
    Pushed4(front, BE16(Wrap16(serverLen + 3)), [0x00], BE16(serverLen), server);
  }

  /** Server name. */
  method PushServerName(start: seq<byte>, server: seq<byte>) returns (buf: seq<byte>)
    ensures buf == start + Encoded(Extension(0x00, SniBody(server)))
  {
    var serverLen: nat := Wrap16(|server|);
    buf := start + [0x00, 0x00];
    buf := buf + BE16(Wrap16(serverLen + 5));
    buf := PushSniBody(buf, server);
    Pushed3(start, [0x00, 0x00], BE16(Wrap16(serverLen + 5)), SniBody(server));
    EncodedSni(server);
  }

  predicate ShortHead(e: Extension, head: seq<byte>) {
    e.kind < 256 && |e.body| < 256 && head == [0x00, e.kind, 0x00, |e.body|]
  }

  lemma SmallField(n: nat)
    requires n < 256
    ensures BE16(n) == [0x00, n]
  {
  }

  lemma ShortEncoding(e: Extension)
    requires e.kind < 256 && |e.body| < 256
    ensures Encoded(e) == [0x00, e.kind, 0x00, |e.body|] + e.body
  {
    WrapSmallIff(|e.body|);
    SmallField(e.kind);
    SmallField(|e.body|);
  }

  /** One short extension: its kind and length in four literal bytes, then its body. */
  method PushOne(start: seq<byte>, e: Extension, head: seq<byte>) returns (buf: seq<byte>)
    requires ShortHead(e, head)
    ensures buf == start + Encoded(e)
  {
    buf := start + (head + e.body);
    ShortEncoding(e);
  }

  method PushFive(start: seq<byte>, a: Extension, headA: seq<byte>, b: Extension, headB: seq<byte>,
                  c: Extension, headC: seq<byte>, d: Extension, headD: seq<byte>, e: Extension, headE: seq<byte>)
    returns (buf: seq<byte>)
    requires ShortHead(a, headA) && ShortHead(b, headB) && ShortHead(c, headC)
    requires ShortHead(d, headD) && ShortHead(e, headE)
    ensures buf == start + EncodeAll([a, b, c, d, e])
  {
    assert start + EncodeAll([]) == start;
    buf := PushOne(start, a, headA);
    Pushed(start, [], a);
    assert [] + [a] == [a];
    buf := PushOne(buf, b, headB);
    Pushed(start, [a], b);
    assert [a] + [b] == [a, b];
    buf := PushOne(buf, c, headC);
    Pushed(start, [a, b], c);
    assert [a, b] + [c] == [a, b, c];
    buf := PushOne(buf, d, headD);
    Pushed(start, [a, b, c], d);
    assert [a, b, c] + [d] == [a, b, c, d];
    buf := PushOne(buf, e, headE);
    Pushed(start, [a, b, c, d], e);
    assert [a, b, c, d] + [e] == [a, b, c, d, e];
  }

  /** The five extensions that never change. */
  method PushFixed(start: seq<byte>) returns (buf: seq<byte>)
    ensures buf == start + EncodeAll(Fixed())
  {
    buf := PushFive(start, Extension(0x0b, EC_POINT_FORMATS), [0x00, 0x0b, 0x00, 0x04],
                    Extension(0x0a, SUPPORTED_GROUPS), [0x00, 0x0a, 0x00, 0x0a],
                    Extension(0x0d, SIGNATURE_ALGORITHMS), [0x00, 0x0d, 0x00, 0x20],
                    Extension(0x16, []), [0x00, 0x16, 0x00, 0x00], Extension(0x17, []), [0x00, 0x17, 0x00, 0x00]);
  }

  /** The seven extensions, as the builder pushes them. */
  method PushExtensions(front: seq<byte>, data: seq<byte>, server: seq<byte>) returns (buf: seq<byte>)
    ensures buf == front + EncodeAll(Extensions(data, server))
  {
    buf := PushTicket(front, data);
    buf := PushServerName(buf, server);
    buf := PushFixed(buf);
    Pushed3(front, Encoded(Extension(0x23, data)), Encoded(Extension(0x00, SniBody(server))), EncodeAll(Fixed()));
    ExtensionsEncoded(data, server);
  }

  lemma WrapSum(k: nat, a: nat, b: nat)
    ensures Wrap16(k + Wrap16(a) + Wrap16(b)) == Wrap16(k + (a + b))
  {
    var q := a / 0x1_0000 + b / 0x1_0000;
    assert k + (a + b) == 0x1_0000 * q + (k + Wrap16(a) + Wrap16(b));
    WrapShift(q, k + Wrap16(a) + Wrap16(b));
  }

  lemma HeaderWraps(d: nat, n: nat)
    ensures Header(d + n) == [0x16] + [0x03, 0x01] + BE16(Wrap16(212 + Wrap16(d) + Wrap16(n))) + [0x01] + [0x00]
                             + BE16(Wrap16(208 + Wrap16(d) + Wrap16(n)))
  {
    WrapSum(212, d, n);
    WrapSum(208, d, n);
  }

  method PushHeader(data: seq<byte>, server: seq<byte>) returns (buf: seq<byte>)
    ensures buf == Header(|data| + |server|)
  {
    var dataLen: nat, serverLen: nat := Wrap16(|data|), Wrap16(|server|);
    HeaderWraps(|data|, |server|);
    buf := [0x16];
    buf := buf + [0x03, 0x01];
    var recordLen := Wrap16(212 + dataLen + serverLen);
    buf := buf + BE16(recordLen);
    buf := buf + [0x01];
    buf := buf + [0x00];
    var handshakeLen := Wrap16(208 + dataLen + serverLen);
    buf := buf + BE16(handshakeLen);
  }

  method PushExtensionsLength(front: seq<byte>, data: seq<byte>, server: seq<byte>) returns (buf: seq<byte>)
    ensures buf == front + BE16(Wrap16(79 + (|data| + |server|)))
  {
    var dataLen: nat, serverLen: nat := Wrap16(|data|), Wrap16(|server|);
    WrapSum(79, |data|, |server|);
    var extLen := Wrap16(79 + dataLen + serverLen);
    buf := front + BE16(extLen);
  }

  /** The builder; arithmetic on `u16` wraps as in a release build. */
  method BuildClientHello(data: seq<byte>, server: seq<byte>, salt: Salt) returns (buf: seq<byte>)
    ensures buf == HelloBytes(data, server, salt)
  {
    buf := PushHeader(data, server);
    buf := PushIntro(buf, salt);
    buf := PushExtensionsLength(buf, data, server);
    buf := PushExtensions(buf, data, server);
  }
}
