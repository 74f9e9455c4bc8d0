/** DNS responses, section 4.1 of RFC 1035: the address records a parser finds in one. */
module DnsResponse {
  import opened Bytes
  import opened DnsName

  const HEADER_SIZE := 12

  datatype Ip = V4(octets: seq<byte>) | V6(octets: seq<byte>)

  datatype Answer = Answer(ip: Ip, host: seq<byte>, ttl: u32)

  // ---- the grammar ---------------------------------------------------------------

  datatype Record = Record(owner: seq<Label>, rtype: u16, rclass: u16, ttl: u32, rdata: seq<byte>)

  datatype Message = Message(questions: seq<seq<Label>>, answers: seq<Record>)

  /** Questions from `pos` on: a name, then four bytes of type and class. Returns where they end. */
  ghost predicate QuestionsAt(data: seq<byte>, utf8: Label -> bool, pos: nat, qs: seq<seq<Label>>, end: nat)
    decreases |qs|
  {
    if qs == [] then end == pos
    else
      && Names(data, utf8, pos, qs[0]) && NameEnd(data, pos).Some?
      && NameEnd(data, pos).value + 4 <= |data|
      && QuestionsAt(data, utf8, NameEnd(data, pos).value + 4, qs[1..], end)
  }

  /** The fixed fields and the data of one record. */
  ghost predicate RecordTail(data: seq<byte>, e: nat, r: Record) {
    && e + 10 + |r.rdata| <= |data|
    && U16(data[e], data[e + 1]) == r.rtype && U16(data[e + 2], data[e + 3]) == r.rclass
    && U32(data[e + 4], data[e + 5], data[e + 6], data[e + 7]) == r.ttl
    && U16(data[e + 8], data[e + 9]) == |r.rdata|
    && data[e + 10..e + 10 + |r.rdata|] == r.rdata
  }

  ghost predicate RecordIs(data: seq<byte>, utf8: Label -> bool, pos: nat, r: Record) {
    Names(data, utf8, pos, r.owner) && NameEnd(data, pos).Some? && RecordTail(data, NameEnd(data, pos).value, r)
  }

  ghost function AfterRecord(data: seq<byte>, pos: nat, r: Record): nat {
    if NameEnd(data, pos).Some? then NameEnd(data, pos).value + 10 + |r.rdata| else pos
  }

  /** Resource records from `pos` on. */
  ghost predicate RecordsAt(data: seq<byte>, utf8: Label -> bool, pos: nat, rs: seq<Record>)
    decreases |rs|
  {
    rs == [] ||
    (RecordIs(data, utf8, pos, rs[0]) && RecordsAt(data, utf8, AfterRecord(data, pos, rs[0]), rs[1..]))
  }

  /** `data` is a message with these questions and answers, whatever sections follow. */
  ghost predicate Represents(data: seq<byte>, utf8: Label -> bool, m: Message) {
    && |data| >= HEADER_SIZE
    && U16(data[4], data[5]) == |m.questions| && U16(data[6], data[7]) == |m.answers|
    && exists mid: nat :: QuestionsAt(data, utf8, HEADER_SIZE, m.questions, mid) && RecordsAt(data, utf8, mid, m.answers)
  }

  /** An A record of four bytes or an AAAA record of sixteen. */
  predicate IsAddress(r: Record) {
    (r.rtype == 1 && |r.rdata| == 4) || (r.rtype == 28 && |r.rdata| == 16)
  }

  function AnswerOf(r: Record, host: seq<byte>): Answer {
    Answer(if r.rtype == 1 then V4(r.rdata) else V6(r.rdata), host, r.ttl)
  }

  /** The address records among `rs`, under the name `host`. */
  function Addresses(rs: seq<Record>, host: seq<byte>): seq<Answer> {
    if rs == [] then []
    else if IsAddress(rs[0]) then [AnswerOf(rs[0], host)] + Addresses(rs[1..], host)
    else Addresses(rs[1..], host)
  }

  // ---- parsing -------------------------------------------------------------------

  /** Where the answers start, after `n` more questions from `offset`. */
  function SkipQuestions(data: seq<byte>, utf8: Label -> bool, offset: nat, n: nat): Option<nat>
    decreases n
  {
    if n == 0 then Some(offset)
    else
      var name := NameAt(data, utf8, offset);
      if name.None? then None else SkipQuestions(data, utf8, name.value.1 + 4, n - 1)
  }

  function RecordTailAt(data: seq<byte>, owner: seq<Label>, e: nat): Option<(Record, nat)> {
    if e + 10 > |data| then None
    else
      var n := U16(data[e + 8], data[e + 9]);
      if e + 10 + n > |data| then None
      else Some((Record(owner, U16(data[e], data[e + 1]), U16(data[e + 2], data[e + 3]),
                        U32(data[e + 4], data[e + 5], data[e + 6], data[e + 7]), data[e + 10..e + 10 + n]), e + 10 + n))
  }

  /** The record at `offset`, and the offset after it. */
  function RecordAt(data: seq<byte>, utf8: Label -> bool, offset: nat): Option<(Record, nat)> {
    var owner := LabelsFrom(data, utf8, offset, MAX_JUMPS);
    var name := NameAt(data, utf8, offset);
    if owner.None? || name.None? then None else RecordTailAt(data, owner.value, name.value.1)
  }

  /** The next `n` records, up to the first that cannot be read. */
  function RecordsFrom(data: seq<byte>, utf8: Label -> bool, offset: nat, n: nat): seq<Record>
    decreases n
  {
    if n == 0 then []
    else
      var r := RecordAt(data, utf8, offset);
      if r.None? then [] else [r.value.0] + RecordsFrom(data, utf8, r.value.1, n - 1)
  }

  /** How often `for _ in 1..qdcount` runs. */
  function Further(qdcount: nat): nat {
    if qdcount == 0 then 0 else qdcount - 1
  }

  /** What follows the first question. */
  function ParseSections(data: seq<byte>, utf8: Label -> bool, offset: nat, host: seq<byte>,
                         qdcount: nat, ancount: nat): seq<Answer>
  {
    var start := SkipQuestions(data, utf8, offset, Further(qdcount));
    if start.None? then [] else Addresses(RecordsFrom(data, utf8, start.value, ancount), host)
  }

  function ParseCounted(data: seq<byte>, utf8: Label -> bool, qdcount: nat, ancount: nat): seq<Answer> {
    var first := NameAt(data, utf8, HEADER_SIZE);
    if first.None? then []
    else ParseSections(data, utf8, first.value.1 + 4, first.value.0, qdcount, ancount)
  }

  function ParseResponse(data: seq<byte>, utf8: Label -> bool): seq<Answer> {
    if |data| < HEADER_SIZE then []
    else ParseCounted(data, utf8, U16(data[4], data[5]), U16(data[6], data[7]))
  }

  method ParseDnsQueryName(data: seq<byte>, utf8: Label -> bool) returns (name: Option<seq<byte>>)
    ensures name == if |data| < HEADER_SIZE || NameAt(data, utf8, HEADER_SIZE).None? then None
                    else Some(NameAt(data, utf8, HEADER_SIZE).value.0)
  {
    if |data| < 12 {
      return None;
    }
    var r := ReadDnsName(data, utf8, 12);
    if r.None? {
      return None;
    }
    return Some(r.value.0);
  }

  /** The loop over the questions after the first. */
  method SkipFurtherQuestions(data: seq<byte>, utf8: Label -> bool, start: nat, qdcount: nat) returns (r: Option<nat>)
    ensures r == SkipQuestions(data, utf8, start, Further(qdcount))
  {
    var offset := start;
    for i := 1 to Further(qdcount) + 1
      invariant SkipQuestions(data, utf8, start, Further(qdcount))
             == SkipQuestions(data, utf8, offset, Further(qdcount) + 1 - i)
    {
      var q := ReadDnsName(data, utf8, offset);
      if q.None? {
        return None;
      }
      offset := q.value.1 + 4;
    }
    return Some(offset);
  }

  /** The answers among the next `left` records. */
  ghost predicate Owed(data: seq<byte>, utf8: Label -> bool, offset: nat, left: nat, host: seq<byte>, owed: seq<Answer>) {
    owed == Addresses(RecordsFrom(data, utf8, offset, left), host)
  }

  lemma NoMore(data: seq<byte>, utf8: Label -> bool, offset: nat, n: nat, host: seq<byte>)
    ensures n == 0 || RecordAt(data, utf8, offset).None? ==> Addresses(RecordsFrom(data, utf8, offset, n), host) == []
  {
  }

  lemma AddressesCons(r: Record, rs: seq<Record>, host: seq<byte>)
    ensures Addresses([r] + rs, host) == (if IsAddress(r) then [AnswerOf(r, host)] else []) + Addresses(rs, host)
  {
    assert ([r] + rs)[1..] == rs;
  }

  lemma RecordsCons(data: seq<byte>, utf8: Label -> bool, pos: nat, r: Record, next: nat, n: nat)
    requires RecordAt(data, utf8, pos) == Some((r, next)) && n > 0
    ensures RecordsFrom(data, utf8, pos, n) == [r] + RecordsFrom(data, utf8, next, n - 1)
  {
  }

  /** One turn of the loop on the specification side. */
  lemma AnswerStep(data: seq<byte>, utf8: Label -> bool, offset: nat, n: nat, host: seq<byte>) returns (rest: seq<Answer>)
    requires n > 0 && RecordAt(data, utf8, offset).Some?
    ensures var r := RecordAt(data, utf8, offset).value;
            && rest == Addresses(RecordsFrom(data, utf8, r.1, n - 1), host)
            && Addresses(RecordsFrom(data, utf8, offset, n), host)
               == (if IsAddress(r.0) then [AnswerOf(r.0, host)] else []) + rest
  {
    var r := RecordAt(data, utf8, offset).value;
    RecordsCons(data, utf8, offset, r.0, r.1, n);
    AddressesCons(r.0, RecordsFrom(data, utf8, r.1, n - 1), host);
    rest := Addresses(RecordsFrom(data, utf8, r.1, n - 1), host);
  }

  /** The same body from the end of the owner name on. */
  method ReadTail(data: seq<byte>, ghost owner: seq<Label>, e: nat, hostname: seq<byte>)
    returns (found: seq<Answer>, next: Option<nat>)
    ensures next.None? <==> RecordTailAt(data, owner, e).None?
    ensures next.Some? ==> var r := RecordTailAt(data, owner, e).value;
              next.value == r.1 && found == if IsAddress(r.0) then [AnswerOf(r.0, hostname)] else []
  {
    found, next := [], None;
    var offset := e;
    if offset + 10 > |data| {
      return;
    }
    var rtype := U16(data[offset], data[offset + 1]);
    var ttl := U32(data[offset + 4], data[offset + 5], data[offset + 6], data[offset + 7]);
    var rdlength := U16(data[offset + 8], data[offset + 9]);
    offset := offset + 10;
    if offset + rdlength > |data| {
      return;
    }
    if rtype == 1 && rdlength == 4 {
      var ip := V4([data[offset], data[offset + 1], data[offset + 2], data[offset + 3]]);
      assert ip.octets == data[offset..offset + rdlength];
      found := [Answer(ip, hostname, ttl)];
    } else if rtype == 28 && rdlength == 16 {
      found := [Answer(V6(data[offset..offset + 16]), hostname, ttl)];
    }
    offset := offset + rdlength;
    next := Some(offset);
  }

  /** The loop's body: what it pushes, and the offset it goes on from; None stands for its `break`. */
  method ReadAnswer(data: seq<byte>, utf8: Label -> bool, start: nat, hostname: seq<byte>)
    returns (found: seq<Answer>, next: Option<nat>)
    ensures next.None? <==> RecordAt(data, utf8, start).None?
    ensures next.Some? ==> var r := RecordAt(data, utf8, start).value;
              next.value == r.1 && found == if IsAddress(r.0) then [AnswerOf(r.0, hostname)] else []
  {
    found, next := [], None;
    if start >= |data| {
      return;
    }
    var name := ReadDnsName(data, utf8, start);
    if name.None? {
      return;
    }
    found, next := ReadTail(data, LabelsFrom(data, utf8, start, MAX_JUMPS).value, name.value.1, hostname);
  }

  /** One turn of the loop, which leaves `owed'` of the answers owed; `more` is false if it breaks. */
  method CollectOne(data: seq<byte>, utf8: Label -> bool, offset: nat, hostname: seq<byte>,
                    ghost left: nat, ghost owed: seq<Answer>)
    returns (found: seq<Answer>, offset': nat, more: bool, ghost owed': seq<Answer>)
    requires left > 0 && Owed(data, utf8, offset, left, hostname, owed)
    ensures owed == found + owed'
    ensures left == 1 || !more ==> owed' == []
    ensures more ==> Owed(data, utf8, offset', left - 1, hostname, owed')
  {
    var pushed, next := ReadAnswer(data, utf8, offset, hostname);
    if next.None? {
      NoMore(data, utf8, offset, left, hostname);
      return [], offset, false, [];
    }
    owed' := AnswerStep(data, utf8, offset, left, hostname);
    NoMore(data, utf8, next.value, 0, hostname);
    found, offset', more := pushed, next.value, true;
  }

  /** The loop over the answers, given what it owes. */
  method CollectOwed(data: seq<byte>, utf8: Label -> bool, start: nat, ancount: nat, hostname: seq<byte>,
                     ghost all: seq<Answer>)
    returns (results: seq<Answer>)
    requires Owed(data, utf8, start, ancount, hostname, all) && (ancount == 0 ==> all == [])
    ensures results == all
  {
    results := [];
    var offset := start;
    ghost var owed, left := all, ancount;
    assert [] + owed == owed;
    for j := 0 to ancount
      invariant left == ancount - j
      invariant all == results + owed && (left == 0 ==> owed == [])
      invariant left > 0 ==> Owed(data, utf8, offset, left, hostname, owed)
    {
      var found, more;
      ghost var owed';
      found, offset, more, owed' := CollectOne(data, utf8, offset, hostname, left, owed);
      Assoc(results, found, owed');
      results, owed := results + found, owed';
      if !more {
        break;
      }
      left := left - 1;
    }
    assert results + owed == results;
  }

  method CollectAnswers(data: seq<byte>, utf8: Label -> bool, start: nat, ancount: nat, hostname: seq<byte>)
    returns (results: seq<Answer>)
    ensures results == Addresses(RecordsFrom(data, utf8, start, ancount), hostname)
  {
    NoMore(data, utf8, start, ancount, hostname);
    results := CollectOwed(data, utf8, start, ancount, hostname,
                           Addresses(RecordsFrom(data, utf8, start, ancount), hostname));
  }

  /** The whole parser; its two loops follow. */
  method ParseDnsResponseRecords(data: seq<byte>, utf8: Label -> bool) returns (results: seq<Answer>)
    ensures results == ParseResponse(data, utf8)
  {
    results := [];
    if |data| < 12 {
      return;
    }
    var qdcount := U16(data[4], data[5]);
    var ancount := U16(data[6], data[7]);
    var first := ReadDnsName(data, utf8, 12);
    if first.None? {
      return;
    }
    var hostname := first.value.0;
    var offset: nat := first.value.1 + 4;
    var start := SkipFurtherQuestions(data, utf8, offset, qdcount);
    if start.None? {
      return;
    }
    results := CollectAnswers(data, utf8, start.value, ancount, hostname);
  }

  // ---- parsing meets the grammar -------------------------------------------------

  lemma {:induction false} QuestionsSkipped(data: seq<byte>, utf8: Label -> bool, pos: nat, qs: seq<seq<Label>>, end: nat)
    requires QuestionsAt(data, utf8, pos, qs, end)
    ensures SkipQuestions(data, utf8, pos, |qs|) == Some(end)
    decreases |qs|
  {
    if qs != [] {
      NameRead(data, utf8, pos, qs[0]);
      QuestionsSkipped(data, utf8, NameEnd(data, pos).value + 4, qs[1..], end);
    }
  }

  lemma RecordParsed(data: seq<byte>, utf8: Label -> bool, pos: nat, r: Record)
    requires RecordIs(data, utf8, pos, r)
    ensures RecordAt(data, utf8, pos) == Some((r, AfterRecord(data, pos, r)))
  {
    NameRead(data, utf8, pos, r.owner);
  }

  lemma RecordsJoin(data: seq<byte>, utf8: Label -> bool, pos: nat, rs: seq<Record>, next: nat)
    requires rs != [] && RecordAt(data, utf8, pos) == Some((rs[0], next))
    requires RecordsFrom(data, utf8, next, |rs| - 1) == rs[1..]
    ensures RecordsFrom(data, utf8, pos, |rs|) == rs
  {
    RecordsCons(data, utf8, pos, rs[0], next, |rs|);
    assert [rs[0]] + rs[1..] == rs;
  }

  lemma {:induction false} RecordsParsed(data: seq<byte>, utf8: Label -> bool, pos: nat, rs: seq<Record>)
    requires RecordsAt(data, utf8, pos, rs)
    ensures RecordsFrom(data, utf8, pos, |rs|) == rs
    decreases |rs|
  {
    if rs != [] {
      var next := AfterRecord(data, pos, rs[0]);
      RecordParsed(data, utf8, pos, rs[0]);
      RecordsParsed(data, utf8, next, rs[1..]);
      RecordsJoin(data, utf8, pos, rs, next);
    }
  }

  lemma QuestionsRead(data: seq<byte>, utf8: Label -> bool, qs: seq<seq<Label>>, mid: nat)
    requires QuestionsAt(data, utf8, HEADER_SIZE, qs, mid) && qs != []
    ensures var first := NameAt(data, utf8, HEADER_SIZE);
            && first.Some? && first.value.0 == Join(qs[0])
            && SkipQuestions(data, utf8, first.value.1 + 4, Further(|qs|)) == Some(mid)
  {
    NameRead(data, utf8, HEADER_SIZE, qs[0]);
    QuestionsSkipped(data, utf8, NameEnd(data, HEADER_SIZE).value + 4, qs[1..], mid);
  }

  lemma SectionsMeetGrammar(data: seq<byte>, utf8: Label -> bool, qs: seq<seq<Label>>, rs: seq<Record>, mid: nat)
    requires QuestionsAt(data, utf8, HEADER_SIZE, qs, mid) && RecordsAt(data, utf8, mid, rs) && qs != []
    ensures ParseCounted(data, utf8, |qs|, |rs|) == Addresses(rs, Join(qs[0]))
  {
    QuestionsRead(data, utf8, qs, mid);
    RecordsParsed(data, utf8, mid, rs);
  }

  lemma {:induction false} AddressesConcat(rs: seq<Record>, more: seq<Record>, host: seq<byte>)
    ensures Addresses(rs + more, host) == Addresses(rs, host) + Addresses(more, host)
    decreases |rs|
  {
    if rs == [] {
      assert rs + more == more;
    } else {
      AddressesConcat(rs[1..], more, host);
      assert rs + more == [rs[0]] + (rs[1..] + more);
      AddressesCons(rs[0], rs[1..] + more, host);
      assert rs == [rs[0]] + rs[1..];
      AddressesCons(rs[0], rs[1..], host);
      Assoc(Addresses([rs[0]], host), Addresses(rs[1..], host), Addresses(more, host));
      AddressesCons(rs[0], [], host);
    }
  }

  /** What each record contributes, wherever it stands: its four or sixteen bytes with its TTL, or nothing. */
  lemma RecordContributes(before: seq<Record>, r: Record, after: seq<Record>, host: seq<byte>)
    ensures Addresses(before + [r] + after, host)
            == Addresses(before, host)
               + (if r.rtype == 1 && |r.rdata| == 4 then [Answer(V4(r.rdata), host, r.ttl)]
                  else if r.rtype == 28 && |r.rdata| == 16 then [Answer(V6(r.rdata), host, r.ttl)]
                  else [])
               + Addresses(after, host)
  {
    AddressesConcat(before + [r], after, host);
    AddressesConcat(before, [r], host);
    AddressesCons(r, [], host);
    assert [r] + [] == [r];
  }

  /**
   Every message with a question parses to exactly its A and AAAA records of the right
   length, in order, with their own TTLs and the first question's name.
  */
  lemma ParseMeetsGrammar(data: seq<byte>, utf8: Label -> bool, m: Message)
    requires Represents(data, utf8, m) && m.questions != []
    ensures ParseResponse(data, utf8) == Addresses(m.answers, Join(m.questions[0]))
  {
    var mid: nat :| QuestionsAt(data, utf8, HEADER_SIZE, m.questions, mid) && RecordsAt(data, utf8, mid, m.answers);
    SectionsMeetGrammar(data, utf8, m.questions, m.answers, mid);
  }

  lemma OneRecord(data: seq<byte>, utf8: Label -> bool, pos: nat, r: Record)
    requires RecordIs(data, utf8, pos, r)
    ensures RecordsAt(data, utf8, pos, [r])
  {
    assert [r][1..] == [];
  }

  lemma OneRecordRepresents(data: seq<byte>, utf8: Label -> bool, r: Record)
    requires |data| >= HEADER_SIZE && U16(data[4], data[5]) == 0 && U16(data[6], data[7]) == 1
    requires RecordIs(data, utf8, HEADER_SIZE, r)
    ensures Represents(data, utf8, Message([], [r]))
  {
    OneRecord(data, utf8, HEADER_SIZE, r);
    assert QuestionsAt(data, utf8, HEADER_SIZE, [], HEADER_SIZE);
  }

  /**
   A response whose header counts no question and one answer, which is a record of at most
   four data bytes under any owner, compressed or not, and with any TTL: the parser takes the
   owner for the question, and what is left is too short for a record.
  */
  lemma NoQuestionLosesRecord(data: seq<byte>, utf8: Label -> bool, r: Record)
    requires |data| >= HEADER_SIZE && U16(data[4], data[5]) == 0 && U16(data[6], data[7]) == 1
    requires RecordIs(data, utf8, HEADER_SIZE, r) && AfterRecord(data, HEADER_SIZE, r) == |data| && |r.rdata| <= 4
    ensures Represents(data, utf8, Message([], [r]))
    ensures ParseResponse(data, utf8) == []
  {
    OneRecordRepresents(data, utf8, r);
    NameRead(data, utf8, HEADER_SIZE, r.owner);
    var offset := NameEnd(data, HEADER_SIZE).value + 4;
    if LabelsFrom(data, utf8, offset, MAX_JUMPS).Some? {
      ReadHasEnd(data, utf8, offset, MAX_JUMPS);
    }
    assert RecordAt(data, utf8, offset).None?;
  }

  /** In the 22 bytes that are left of an AAAA record, one record of at most eleven data bytes fits. */
  lemma ShortRestIsNoAAAA(data: seq<byte>, utf8: Label -> bool, offset: nat, host: seq<byte>)
    requires offset + 22 == |data|
    ensures forall a | a in Addresses(RecordsFrom(data, utf8, offset, 1), host) :: a.ip.V4?
  {
    if LabelsFrom(data, utf8, offset, MAX_JUMPS).Some? {
      ReadHasEnd(data, utf8, offset, MAX_JUMPS);
    }
    var rs := RecordsFrom(data, utf8, offset, 1);
    if rs != [] {
      assert rs == [rs[0]] && |rs[0].rdata| < 16;
      assert rs[1..] == [];
    }
  }

  /**
   So a single address record, A or AAAA, of a response that counts no question is always
   lost: nothing that the parser returns has its address.
  */
  lemma NoQuestionLosesAddress(data: seq<byte>, utf8: Label -> bool, r: Record)
    requires |data| >= HEADER_SIZE && U16(data[4], data[5]) == 0 && U16(data[6], data[7]) == 1
    requires RecordIs(data, utf8, HEADER_SIZE, r) && AfterRecord(data, HEADER_SIZE, r) == |data| && IsAddress(r)
    ensures forall a | a in ParseResponse(data, utf8) :: a.ip != AnswerOf(r, []).ip
  {
    if r.rtype == 1 {
      NoQuestionLosesRecord(data, utf8, r);
    } else {
      NameRead(data, utf8, HEADER_SIZE, r.owner);
      ShortRestIsNoAAAA(data, utf8, NameEnd(data, HEADER_SIZE).value + 4, Join(r.owner));
    }
  }

  /** Among one-answer messages, the address comes through if and only if the message counts a question. */
  lemma AddressComesThroughIff(data: seq<byte>, utf8: Label -> bool, m: Message)
    requires Represents(data, utf8, m) && |m.answers| == 1 && IsAddress(m.answers[0])
    requires m.questions == [] ==> AfterRecord(data, HEADER_SIZE, m.answers[0]) == |data|
    ensures (exists a :: a in ParseResponse(data, utf8) && a.ip == AnswerOf(m.answers[0], []).ip) <==> m.questions != []
  {
    var r := m.answers[0];
    if m.questions == [] {
      NoQuestionLosesAddress(data, utf8, r);
    } else {
      ParseMeetsGrammar(data, utf8, m);
      var host := Join(m.questions[0]);
      assert m.answers == [r] + [];
      AddressesCons(r, [], host);
      assert AnswerOf(r, host) in ParseResponse(data, utf8);
    }
  }

  /**
   Messages that count no question and hold one AAAA record, owned by the root, whose bytes
   spell an A record when read from `data[17]` on: its owner, then its type in `data[18..20]`,
   its length in `data[26..28]` and its address in `data[28..32]`.
  */
  ghost predicate Misread(data: seq<byte>) {
    && |data| == 39
    && data[4] == data[5] == 0 && data[6] == 0 && data[7] == 1
    && data[12] == 0 && data[13] == 0 && data[14] == 28 && data[21] == 0 && data[22] == 16
    && data[17] == 0 && data[18] == 0 && data[19] == 1 && data[26] == 0 && data[27] == 4
  }

  function MisreadByte(i: nat): byte {
    match i
    case 7 => 1
    case 14 => 28
    case 16 => 1
    case 19 => 1
    case 22 => 16
    case 23 => 9
    case 24 => 9
    case 25 => 9
    case 27 => 4
    case 28 => 1
    case 29 => 2
    case 30 => 3
    case 31 => 4
    case _ => 0
  }

  /** One of them: its AAAA record 909:900:401:203:400:: holds the A record 1.2.3.4. */
  function MisreadBytes(): (b: seq<byte>)
    ensures Misread(b) && b[28..32] == [1, 2, 3, 4]
  {
    seq(39, i requires 0 <= i < 39 => MisreadByte(i))
  }

  lemma RootName(data: seq<byte>, utf8: Label -> bool, pos: nat)
    requires pos < |data| && data[pos] == 0
    ensures Names(data, utf8, pos, []) && NameEnd(data, pos) == Some(pos + 1)
    ensures LabelsFrom(data, utf8, pos, MAX_JUMPS) == Some([]) && NameAt(data, utf8, pos) == Some(([], pos + 1))
  {
    assert Spells(data, utf8, pos, [], 0);
    assert Join([]) == [];
  }

  lemma MisreadRecords(data: seq<byte>, utf8: Label -> bool) returns (aaaa: Record, a: Record)
    requires Misread(data)
    ensures IsAddress(aaaa) && aaaa.rtype == 28 && aaaa.rdata == data[23..]
    ensures IsAddress(a) && a.rtype == 1 && a.rdata == data[28..32]
    ensures NameEnd(data, HEADER_SIZE) == Some(13) && RecordIs(data, utf8, HEADER_SIZE, aaaa) && RecordIs(data, utf8, 17, a)
  {
    aaaa := Record([], 28, U16(data[15], data[16]), U32(data[17], data[18], data[19], data[20]), data[23..]);
    a := Record([], 1, U16(data[20], data[21]), U32(data[22], data[23], data[24], data[25]), data[28..32]);
    RootName(data, utf8, HEADER_SIZE);
    RootName(data, utf8, 17);
    assert RecordTail(data, 13, aaaa) && RecordTail(data, 18, a);
  }

  /**
   What the parser makes of such a response: it reads the record that its own bytes spell,
   read one name and four bytes too late, if they spell one.
  */
  lemma NoQuestionReadsShifted(data: seq<byte>, utf8: Label -> bool, r: Record, shifted: Record)
    requires |data| >= HEADER_SIZE && U16(data[4], data[5]) == 0 && U16(data[6], data[7]) == 1
    requires RecordIs(data, utf8, HEADER_SIZE, r)
    requires RecordIs(data, utf8, NameEnd(data, HEADER_SIZE).value + 4, shifted)
    ensures Represents(data, utf8, Message([], [r]))
    ensures ParseResponse(data, utf8) == Addresses([shifted], Join(r.owner))
  {
    var offset := NameEnd(data, HEADER_SIZE).value + 4;
    OneRecordRepresents(data, utf8, r);
    NameRead(data, utf8, HEADER_SIZE, r.owner);
    RecordParsed(data, utf8, offset, shifted);
    RecordsCons(data, utf8, offset, shifted, AfterRecord(data, offset, shifted), 1);
  }

  lemma OneAddressFound(a: Record, host: seq<byte>)
    requires a.rtype == 1 && |a.rdata| == 4
    ensures Addresses([a], host) == [Answer(V4(a.rdata), host, a.ttl)]
  {
    assert [a][1..] == [];
    assert Addresses([a], host) == [AnswerOf(a, host)] + Addresses([], host);
  }

  /** An instance, with nothing more said about its bytes. */
  lemma MisreadInstance(utf8: Label -> bool) returns (data: seq<byte>, aaaa: Record, a: Record)
    ensures |data| >= HEADER_SIZE && U16(data[4], data[5]) == 0 && U16(data[6], data[7]) == 1
    ensures RecordIs(data, utf8, HEADER_SIZE, aaaa) && IsAddress(aaaa) && aaaa.rtype == 28
    ensures NameEnd(data, HEADER_SIZE) == Some(13) && RecordIs(data, utf8, 17, a)
    ensures a.rtype == 1 && a.rdata == [1, 2, 3, 4]
  {
    data := MisreadBytes();
    aaaa, a := MisreadRecords(data, utf8);
  }

  /** So the parser can not only lose the record, it can invent an address: 1.2.3.4 out of one AAAA record. */
  lemma NoQuestionInventsAddress(utf8: Label -> bool) returns (data: seq<byte>, aaaa: Record)
    ensures Represents(data, utf8, Message([], [aaaa])) && IsAddress(aaaa) && aaaa.rtype == 28
    ensures |ParseResponse(data, utf8)| == 1 && ParseResponse(data, utf8)[0].ip == V4([1, 2, 3, 4])
  {
    var a;
    data, aaaa, a := MisreadInstance(utf8);
    NoQuestionReadsShifted(data, utf8, aaaa, a);
    OneAddressFound(a, Join(aaaa.owner));
  }

  // ---- truncation ----------------------------------------------------------------

  lemma {:induction false} SkipTruncated(data: seq<byte>, utf8: Label -> bool, k: nat, offset: nat, n: nat)
    requires k <= |data| && SkipQuestions(data[..k], utf8, offset, n).Some?
    ensures SkipQuestions(data, utf8, offset, n) == SkipQuestions(data[..k], utf8, offset, n)
    decreases n
  {
    if n > 0 {
      NameTruncated(data, utf8, k, offset);
      SkipTruncated(data, utf8, k, NameAt(data, utf8, offset).value.1 + 4, n - 1);
    }
  }

  lemma TailTruncated(data: seq<byte>, k: nat, owner: seq<Label>, e: nat)
    requires k <= |data| && RecordTailAt(data[..k], owner, e).Some?
    ensures RecordTailAt(data, owner, e) == RecordTailAt(data[..k], owner, e)
  {
    var n := U16(data[e + 8], data[e + 9]);
    assert data[..k][e + 10..e + 10 + n] == data[e + 10..e + 10 + n];
  }

  lemma RecordTruncated(data: seq<byte>, utf8: Label -> bool, k: nat, offset: nat)
    requires k <= |data| && RecordAt(data[..k], utf8, offset).Some?
    ensures RecordAt(data, utf8, offset) == RecordAt(data[..k], utf8, offset)
  {
    NameTruncated(data, utf8, k, offset);
    LabelsTruncated(data, utf8, k, offset, MAX_JUMPS);
    TailTruncated(data, k, LabelsFrom(data, utf8, offset, MAX_JUMPS).value, NameAt(data, utf8, offset).value.1);
  }

  lemma {:induction false} RecordsTruncated(data: seq<byte>, utf8: Label -> bool, k: nat, offset: nat, n: nat)
    requires k <= |data|
    ensures RecordsFrom(data[..k], utf8, offset, n) <= RecordsFrom(data, utf8, offset, n)
    decreases n
  {
    if n > 0 && RecordAt(data[..k], utf8, offset).Some? {
      RecordTruncated(data, utf8, k, offset);
      var r := RecordAt(data, utf8, offset).value;
      RecordsTruncated(data, utf8, k, r.1, n - 1);
      RecordsCons(data[..k], utf8, offset, r.0, r.1, n);
      RecordsCons(data, utf8, offset, r.0, r.1, n);
    }
  }

  lemma {:induction false} AddressesMonotone(rs: seq<Record>, rs': seq<Record>, host: seq<byte>)
    requires rs <= rs'
    ensures Addresses(rs, host) <= Addresses(rs', host)
  {
    if rs != [] {
      AddressesMonotone(rs[1..], rs'[1..], host);
    }
  }

  lemma SectionsTruncated(data: seq<byte>, utf8: Label -> bool, k: nat, offset: nat, host: seq<byte>,
                          qdcount: nat, ancount: nat)
    requires k <= |data|
    ensures ParseSections(data[..k], utf8, offset, host, qdcount, ancount)
         <= ParseSections(data, utf8, offset, host, qdcount, ancount)
  {
    if SkipQuestions(data[..k], utf8, offset, Further(qdcount)).Some? {
      SkipTruncated(data, utf8, k, offset, Further(qdcount));
      var start := SkipQuestions(data, utf8, offset, Further(qdcount)).value;
      RecordsTruncated(data, utf8, k, start, ancount);
      AddressesMonotone(RecordsFrom(data[..k], utf8, start, ancount), RecordsFrom(data, utf8, start, ancount), host);
    }
  }

  lemma CountedTruncated(data: seq<byte>, utf8: Label -> bool, k: nat, qdcount: nat, ancount: nat)
    requires k <= |data|
    ensures ParseCounted(data[..k], utf8, qdcount, ancount) <= ParseCounted(data, utf8, qdcount, ancount)
  {
    if NameAt(data[..k], utf8, HEADER_SIZE).Some? {
      NameTruncated(data, utf8, k, HEADER_SIZE);
      var first := NameAt(data, utf8, HEADER_SIZE).value;
      SectionsTruncated(data, utf8, k, first.1 + 4, first.0, qdcount, ancount);
    }
  }

  /** Cutting a response short only cuts its records short: none is changed, none invented. */
  lemma ParseTruncated(data: seq<byte>, utf8: Label -> bool, k: nat)
    requires k <= |data|
    ensures ParseResponse(data[..k], utf8) <= ParseResponse(data, utf8)
  {
    if k >= HEADER_SIZE {
      CountedTruncated(data, utf8, k, U16(data[4], data[5]), U16(data[6], data[7]));
    }
  }
}
