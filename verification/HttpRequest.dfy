/** The fake HTTP request that carries the first chunk of HTTP-mode simple-obfs. */
module HttpRequest {
  import opened Bytes
  import opened HttpWire

  function Ascii(s: string): (b: seq<byte>)
    ensures |b| == |s|
  {
    seq(|s|, i requires 0 <= i < |s| => (s[i] as int) % 256)
  }

  function Decimal(n: nat): (digits: seq<byte>)
    ensures digits != [] && forall d | d in digits :: 48 <= d <= 57
  {
    if n < 10 then [48 + n] else Decimal(n / 10) + [48 + n % 10]
  }

  function HostHeader(host: seq<byte>, port: u16): seq<byte> {
    if port == 80 then host else host + [58] + Decimal(port)
  }

  /** The lines after the Host line. `key` stands for the random key in base64. */
  function TailLines(uaMaj: nat, uaMin: nat, key: seq<byte>, length: nat): seq<seq<byte>> {
    [Ascii("User-Agent: curl/7.") + Decimal(uaMaj) + [46] + Decimal(uaMin),
     Ascii("Upgrade: websocket"),
     Ascii("Connection: Upgrade"),
     Ascii("Sec-WebSocket-Key: ") + key,
     Ascii("Content-Length: ") + Decimal(length)]
  }

  function Lines(ls: seq<seq<byte>>): seq<byte> {
    if ls == [] then [] else Lines(ls[..|ls| - 1]) + (ls[|ls| - 1] + CRLF)
  }

  function RequestHeader(host: seq<byte>, port: u16, uaMaj: nat, uaMin: nat, key: seq<byte>, length: nat): seq<byte> {
    Ascii("GET / HTTP/1.1") + CRLF + (Ascii("Host: ") + HostHeader(host, port) + CRLF)
    + Lines(TailLines(uaMaj, uaMin, key, length)) + CRLF
  }

  function Request(host: seq<byte>, port: u16, uaMaj: nat, uaMin: nat, key: seq<byte>, body: seq<byte>): (r: seq<byte>)
    ensures r != []
  {
    RequestHeader(host, port, uaMaj, uaMin, key, |body|) + body
  }

  // ---- where the first terminator of a request is --------------------------------

  /** A line that no terminator can reach into from the left: it begins with neither CR nor LF, and has no CR. */
  ghost predicate CleanLine(l: seq<byte>) {
    l != [] && l[0] != CR && l[0] != LF && CR !in l
  }

  lemma Glue(a: seq<byte>, b: seq<byte>)
    requires b != [] && b[0] != CR && b[0] != LF
    ensures NoTerminator(a + b) <==> NoTerminator(a) && NoTerminator(b)
  {
    forall i: nat | i + 4 <= |a + b|
      ensures TerminatorAt(a + b, i) <==> (TerminatorAt(a, i) || (i >= |a| && TerminatorAt(b, i - |a|)))
    {
      if i < |a| < i + 4 {
        assert (a + b)[|a|] == b[0];
      }
    }
    forall i: nat | i + 4 <= |b|
      ensures TerminatorAt(b, i) <==> TerminatorAt(a + b, |a| + i)
    {
    }
  }

  lemma CleanLineEnds(l: seq<byte>)
    requires CR !in l
    ensures NoTerminator(l + CRLF)
  {
    forall i: nat | i + 4 <= |l + CRLF|
      ensures !TerminatorAt(l + CRLF, i)
    {
      assert (l + CRLF)[i] == l[i] && l[i] in l;
    }
  }

  lemma {:induction false} CleanLines(a: seq<byte>, ls: seq<seq<byte>>)
    requires forall l | l in ls :: CleanLine(l)
    ensures NoTerminator(a + Lines(ls)) <==> NoTerminator(a)
  {
    if ls == [] {
      assert a + [] == a;
    } else {
      var n := |ls| - 1;
      assert forall l | l in ls[..n] :: l in ls;
      assert ls[n] in ls;
      CleanLines(a, ls[..n]);
      CleanLineEnds(ls[n]);
      Glue(a + Lines(ls[..n]), ls[n] + CRLF);
      Assoc(a, Lines(ls[..n]), ls[n] + CRLF);
    }
  }

  lemma UpgradeLine()
    ensures CleanLine(Ascii("Upgrade: websocket"))
  {
  }

  lemma ConnectionLine()
    ensures CleanLine(Ascii("Connection: Upgrade"))
  {
  }

  lemma KeyLabel()
    ensures CleanLine(Ascii("Sec-WebSocket-Key: "))
  {
  }

  lemma LengthLabel()
    ensures CleanLine(Ascii("Content-Length: "))
  {
  }

  lemma UserAgentLabel()
    ensures CleanLine(Ascii("User-Agent: curl/7."))
  {
  }

  lemma CleanConcat(a: seq<byte>, b: seq<byte>)
    requires CleanLine(a) && CR !in b
    ensures CleanLine(a + b)
  {
  }

  lemma UserAgentIsClean(uaMaj: nat, uaMin: nat)
    ensures CleanLine(Ascii("User-Agent: curl/7.") + Decimal(uaMaj) + [46] + Decimal(uaMin))
  {
    UserAgentLabel();
    CleanConcat(Ascii("User-Agent: curl/7."), Decimal(uaMaj));
    CleanConcat(Ascii("User-Agent: curl/7.") + Decimal(uaMaj), [46]);
    CleanConcat(Ascii("User-Agent: curl/7.") + Decimal(uaMaj) + [46], Decimal(uaMin));
  }

  lemma TailIsClean(uaMaj: nat, uaMin: nat, key: seq<byte>, length: nat)
    requires CR !in key
    ensures forall l | l in TailLines(uaMaj, uaMin, key, length) :: CleanLine(l)
  {
    UserAgentIsClean(uaMaj, uaMin);
    UpgradeLine();
    ConnectionLine();
    KeyLabel();
    LengthLabel();
    CleanConcat(Ascii("Sec-WebSocket-Key: "), key);
    CleanConcat(Ascii("Content-Length: "), Decimal(length));
  }

  /** If nothing before a final CRLF CRLF completes a terminator, the header ends right there. */
  lemma EndsAtBlankLine(a: seq<byte>, last: byte, body: seq<byte>)
    requires last != CR && last != LF
    ensures var front := a + [last];
            HeaderEnd(front + CRLF + CRLF + body) == Some(|front| + 4) <==> NoTerminator(front)
  {
    var front := a + [last];
    var r := front + CRLF + CRLF + body;
    var end := |front| + 4;
    assert TerminatorAt(r, |front|);
    assert forall i: nat | i + 4 <= |front| :: TerminatorAt(front, i) <==> TerminatorAt(r, i);
    assert r[|front| - 1] == last;
    assert forall i: nat | |front| - 4 < i < |front| :: !TerminatorAt(r, i);
    if NoTerminator(front) {
      assert forall i: nat | i < |front| :: !TerminatorAt(r, i);
    } else {
      var i: nat :| i + 4 <= |front| && TerminatorAt(front, i);
      assert TerminatorAt(r, i);
    }
  }

  lemma HostLine(start: seq<byte>, prefix: seq<byte>, host: seq<byte>)
    requires CR !in start && CR !in prefix && LF !in prefix && prefix != []
    ensures NoTerminator(start + CRLF + (prefix + host + CRLF)) <==> NoTerminator(host + CRLF)
  {
    CleanLineEnds(start);
    Assoc(prefix, host, CRLF);
    var b := host + CRLF;
    assert prefix[0] in prefix;
    Glue(start + CRLF, prefix + b);
    forall i: nat | i + 4 <= |prefix + b|
      ensures TerminatorAt(prefix + b, i) <==> i >= |prefix| && TerminatorAt(b, i - |prefix|)
    {
      if i < |prefix| {
        assert (prefix + b)[i] == prefix[i] && prefix[i] in prefix;
      }
    }
    forall i: nat | i + 4 <= |b|
      ensures TerminatorAt(b, i) <==> TerminatorAt(prefix + b, |prefix| + i)
    {
    }
  }

  lemma BodyIffHeaderEnd(header: seq<byte>, body: seq<byte>)
    requires |header| >= 4 && TerminatorAt(header, |header| - 4)
    ensures BodyOf(header + body) == body <==> HeaderEnd(header + body) == Some(|header|)
  {
    var r := header + body;
    assert TerminatorAt(r, |header| - 4);
    if HeaderEnd(r) == Some(|header|) {
      assert r[|header|..] == body;
    } else {
      assert HeaderEnd(r).value < |header|;
      assert |BodyOf(r)| > |body|;
    }
  }

  lemma StartLineIsClean()
    ensures CR !in Ascii("GET / HTTP/1.1") && CR !in Ascii("Host: ") && LF !in Ascii("Host: ")
  {
  }

  lemma LengthLineEnds(n: nat)
    ensures var l := Ascii("Content-Length: ") + Decimal(n); l[|l| - 1] != CR && l[|l| - 1] != LF
  {
    var digits := Decimal(n);
    assert digits[|digits| - 1] in digits;
  }

  lemma StripsIff(start: seq<byte>, ls: seq<seq<byte>>, body: seq<byte>)
    requires ls != [] && forall l | l in ls :: CleanLine(l)
    requires var l := ls[|ls| - 1]; l != [] && l[|l| - 1] != CR && l[|l| - 1] != LF
    ensures BodyOf(start + Lines(ls) + CRLF + body) == body <==> NoTerminator(start)
  {
    var n := |ls| - 1;
    var lastLine := ls[n];
    assert lastLine in ls;
    assert forall l | l in ls[..n] :: l in ls;
    CleanLines(start, ls[..n]);
    var front := start + Lines(ls[..n]) + lastLine;
    assert NoTerminator(lastLine);
    Glue(start + Lines(ls[..n]), lastLine);
    assert front == front[..|front| - 1] + [lastLine[|lastLine| - 1]];
    EndsAtBlankLine(front[..|front| - 1], lastLine[|lastLine| - 1], body);
    Assoc(start, Lines(ls[..n]), lastLine + CRLF);
    Assoc(start + Lines(ls[..n]), lastLine, CRLF);
    BodyIffHeaderEnd(front + CRLF + CRLF, body);
  }

  /** Whatever length the header names, what follows it is the body exactly if the Host line has no blank line. */
  lemma HeaderStripsIff(host: seq<byte>, port: u16, uaMaj: nat, uaMin: nat, key: seq<byte>, length: nat, body: seq<byte>)
    requires CR !in key
    ensures BodyOf(RequestHeader(host, port, uaMaj, uaMin, key, length) + body) == body
            <==> NoTerminator(HostHeader(host, port) + CRLF)
  {
    var start := Ascii("GET / HTTP/1.1") + CRLF + (Ascii("Host: ") + HostHeader(host, port) + CRLF);
    var ls := TailLines(uaMaj, uaMin, key, length);
    StartLineIsClean();
    HostLine(Ascii("GET / HTTP/1.1"), Ascii("Host: "), HostHeader(host, port));
    TailIsClean(uaMaj, uaMin, key, length);
    LengthLineEnds(length);
    StripsIff(start, ls, body);
  }

  /**
   A peer that strips up to the first blank line gets the chunk back exactly when the Host
   line introduces no blank line of its own.
  */
  lemma RequestStripsIff(host: seq<byte>, port: u16, uaMaj: nat, uaMin: nat, key: seq<byte>, body: seq<byte>)
    requires CR !in key
    ensures BodyOf(Request(host, port, uaMaj, uaMin, key, body)) == body
            <==> NoTerminator(HostHeader(host, port) + CRLF)
  {
    HeaderStripsIff(host, port, uaMaj, uaMin, key, |body|, body);
  }

  /** Hosts that do introduce one: any that ends in CR LF, on port 80. */
  lemma TrailingLineBreakLosesBody(name: seq<byte>, uaMaj: nat, uaMin: nat, key: seq<byte>, body: seq<byte>)
    requires CR !in key
    ensures BodyOf(Request(name + CRLF, 80, uaMaj, uaMin, key, body)) != body
  {
    var host := name + CRLF;
    assert TerminatorAt(host + CRLF, |name|);
    RequestStripsIff(host, 80, uaMaj, uaMin, key, body);
  }

  // ---- what a server reads -------------------------------------------------------

  /** The number that decimal digits denote. */
  function ReadDecimal(digits: seq<byte>): Option<nat> {
    if digits == [] then Some(0)
    else
      var n := |digits| - 1;
      var front := ReadDecimal(digits[..n]);
      if front.None? || digits[n] < 48 || digits[n] > 57 then None else Some(10 * front.value + (digits[n] - 48))
  }

  lemma {:induction false} DecimalReads(n: nat)
    ensures ReadDecimal(Decimal(n)) == Some(n)
  {
    if n < 10 {
      assert Decimal(n)[..0] == [];
    } else {
      DecimalReads(n / 10);
      assert Decimal(n)[..|Decimal(n)| - 1] == Decimal(n / 10);
    }
  }

  /** Where the first line ends. */
  function LineEnd(b: seq<byte>, i: nat): (end: Option<nat>)
    ensures end.Some? ==> i <= end.value && end.value + 2 <= |b| && b[end.value..end.value + 2] == [13, 10]
    decreases |b| - i
  {
    if i + 2 > |b| then None
    else if b[i] == 13 && b[i + 1] == 10 then
      assert b[i..i + 2] == [13, 10];
      Some(i)
    else LineEnd(b, i + 1)
  }

  /** The lines up to an empty one, and what follows that. */
  function ReadHeader(b: seq<byte>): Option<(seq<seq<byte>>, seq<byte>)>
    decreases |b|
  {
    var end := LineEnd(b, 0);
    if end.None? then None
    else
      var line, rest := b[..end.value], b[end.value + 2..];
      if line == [] then Some(([], rest))
      else
        var more := ReadHeader(rest);
        if more.None? then None else Some(([line] + more.value.0, more.value.1))
  }

  lemma {:induction false} LineEndsAfter(l: seq<byte>, rest: seq<byte>, i: nat)
    requires CR !in l && i <= |l|
    ensures LineEnd(l + CRLF + rest, i) == Some(|l|)
    decreases |l| - i
  {
    var b := l + CRLF + rest;
    if i < |l| {
      assert b[i] == l[i] && l[i] in l;
      LineEndsAfter(l, rest, i + 1);
    } else {
      assert b[i] == 13 && b[i + 1] == 10;
    }
  }

  lemma LineRead(l: seq<byte>, rest: seq<byte>)
    requires CR !in l
    ensures ReadHeader(l + CRLF + rest)
            == if l == [] then Some(([], rest))
               else
                 var more := ReadHeader(rest);
                 if more.None? then None else Some(([l] + more.value.0, more.value.1))
  {
    LineEndsAfter(l, rest, 0);
    var b := l + CRLF + rest;
    assert b[..|l|] == l && b[|l| + 2..] == rest;
  }

  lemma {:induction false} LinesCons(l: seq<byte>, ls: seq<seq<byte>>)
    ensures Lines([l] + ls) == l + CRLF + Lines(ls)
    decreases |ls|
  {
    if ls == [] {
      assert [l] + ls == [l] && [l][..0] == [];
      assert Lines([l]) == [] + (l + CRLF);
      assert l + CRLF + [] == l + CRLF;
    } else {
      var n := |ls| - 1;
      LinesCons(l, ls[..n]);
      assert ([l] + ls)[..|ls|] == [l] + ls[..n] && ([l] + ls)[|ls|] == ls[n];
      Assoc(l + CRLF, Lines(ls[..n]), ls[n] + CRLF);
    }
  }

  lemma {:induction false} LinesRead(ls: seq<seq<byte>>, body: seq<byte>)
    requires forall l | l in ls :: l != [] && CR !in l
    ensures ReadHeader(Lines(ls) + (CRLF + body)) == Some((ls, body))
    decreases |ls|
  {
    if ls == [] {
      assert Lines(ls) + (CRLF + body) == [] + CRLF + body;
      LineRead([], body);
    } else {
      var l, rest := ls[0], ls[1..];
      assert l in ls && forall m | m in rest :: m in ls;
      LinesRead(rest, body);
      assert ls == [l] + rest;
      LinesCons(l, rest);
      Assoc(l + CRLF, Lines(rest), CRLF + body);
      LineRead(l, Lines(rest) + (CRLF + body));
    }
  }

  /** The host, and the port unless it is 80, in a form that gives both back. */
  lemma HostReads(host: seq<byte>, port: u16) returns (digits: seq<byte>)
    ensures port == 80 ==> HostHeader(host, port) == host
    ensures port != 80 ==> HostHeader(host, port) == host + Ascii(":") + digits && ReadDecimal(digits) == Some(port)
  {
    digits := Decimal(port);
    DecimalReads(port);
    assert Ascii(":") == [58];
  }

  lemma HeaderIsLines(a: seq<byte>, b: seq<byte>, tail: seq<seq<byte>>, body: seq<byte>)
    ensures a + CRLF + (b + CRLF) + Lines(tail) + CRLF + body == Lines([a, b] + tail) + (CRLF + body)
  {
    LinesCons(b, tail);
    LinesCons(a, [b] + tail);
    assert [a, b] + tail == [a] + ([b] + tail);
    Assoc(a + CRLF, b + CRLF, Lines(tail));
    Assoc(Lines([a, b] + tail), CRLF, body);
  }

  /** ASCII, on characters that tell. */
  lemma AsciiBytes()
    ensures Ascii("GET / HTTP/1.1") == [71, 69, 84, 32, 47, 32, 72, 84, 84, 80, 47, 49, 46, 49]
  {
  }

  lemma HostIsClean(host: seq<byte>, port: u16)
    requires CR !in host
    ensures CR !in HostHeader(host, port)
  {
    if port != 80 {
      assert forall d | d in Decimal(port) :: d >= 48;
    }
  }

  /**
   A server that reads lines finds in every request with a clean host and key: a GET of the
   root, the host and port, the upgrade, the key, and a Content-Length that is the body's.
  */
  lemma ServerReadsRequest(host: seq<byte>, port: u16, uaMaj: nat, uaMin: nat, key: seq<byte>, body: seq<byte>)
    returns (lines: seq<seq<byte>>, length: seq<byte>)
    requires CR !in host && CR !in key
    ensures ReadHeader(Request(host, port, uaMaj, uaMin, key, body)) == Some((lines, body)) && |lines| == 7
    ensures lines[0] == Ascii("GET / HTTP/1.1") && lines[1] == Ascii("Host: ") + HostHeader(host, port)
    ensures lines[2] == Ascii("User-Agent: curl/7.") + Decimal(uaMaj) + Ascii(".") + Decimal(uaMin)
    ensures lines[3] == Ascii("Upgrade: websocket") && lines[4] == Ascii("Connection: Upgrade")
    ensures lines[5] == Ascii("Sec-WebSocket-Key: ") + key
    ensures lines[6] == Ascii("Content-Length: ") + length && ReadDecimal(length) == Some(|body|)
  {
    var a, b := Ascii("GET / HTTP/1.1"), Ascii("Host: ") + HostHeader(host, port);
    var tail := TailLines(uaMaj, uaMin, key, |body|);
    length := Decimal(|body|);
    DecimalReads(|body|);
    assert Ascii(".") == [46];
    HeaderIsLines(a, b, tail, body);
    StartLineIsClean();
    HostIsClean(host, port);
    TailIsClean(uaMaj, uaMin, key, |body|);
    lines := [a, b] + tail;
    LinesRead(lines, body);
  }

  // ---- the builder ---------------------------------------------------------------

  lemma LinesUpTo(front: seq<byte>, ls: seq<seq<byte>>, i: nat)
    requires i < |ls|
    ensures front + Lines(ls[..i]) + (ls[i] + CRLF) == front + Lines(ls[..i + 1])
  {
    assert ls[..i + 1][..i] == ls[..i];
    Assoc(front, Lines(ls[..i]), ls[i] + CRLF);
  }

  method PushLine(buf: seq<byte>, line: seq<byte>) returns (req: seq<byte>)
    ensures req == buf + (line + CRLF)
  {
    req := buf + line;
    req := req + CRLF;
    Assoc(buf, line, CRLF);
  }

  method PushLines(front: seq<byte>, a: seq<byte>, b: seq<byte>, c: seq<byte>, d: seq<byte>, e: seq<byte>)
    returns (req: seq<byte>)
    ensures req == front + Lines([a, b, c, d, e])
  {
    ghost var ls := [a, b, c, d, e];
    assert front + Lines(ls[..0]) == front;
    req := PushLine(front, a);
    LinesUpTo(front, ls, 0);
    req := PushLine(req, b);
    LinesUpTo(front, ls, 1);
    req := PushLine(req, c);
    LinesUpTo(front, ls, 2);
    req := PushLine(req, d);
    LinesUpTo(front, ls, 3);
    req := PushLine(req, e);
    LinesUpTo(front, ls, 4);
    assert ls[..5] == ls;
  }

  method PushTail(front: seq<byte>, uaMaj: nat, uaMin: nat, key: seq<byte>, length: nat) returns (req: seq<byte>)
    ensures req == front + Lines(TailLines(uaMaj, uaMin, key, length))
  {
    req := PushLines(front, Ascii("User-Agent: curl/7.") + Decimal(uaMaj) + [46] + Decimal(uaMin),
                     Ascii("Upgrade: websocket"), Ascii("Connection: Upgrade"),
                     Ascii("Sec-WebSocket-Key: ") + key, Ascii("Content-Length: ") + Decimal(length));
  }

  /** Writes the request line by line; `RequestStripsIff` says what a peer can make of it. */
  method BuildHttpRequest(host: seq<byte>, port: u16, uaMaj: nat, uaMin: nat, key: seq<byte>, body: seq<byte>)
    returns (req: seq<byte>)
    ensures req == Request(host, port, uaMaj, uaMin, key, body)
    ensures CR !in key ==> (BodyOf(req) == body <==> NoTerminator(HostHeader(host, port) + CRLF))
  {
    req := Ascii("GET / HTTP/1.1") + CRLF;
    req := PushLine(req, Ascii("Host: ") + HostHeader(host, port));
    req := PushTail(req, uaMaj, uaMin, key, |body|);
    req := req + CRLF;
    req := req + body;
    if CR !in key {
      RequestStripsIff(host, port, uaMaj, uaMin, key, body);
    }
  }
}
