/** Uncompressed DNS messages: every message of the grammar has an encoding, and the parser inverts it. */
module DnsEncode {
  import opened Bytes
  import opened DnsName
  import opened DnsResponse

  /** `piece` stands in `data` at `pos`. */
  predicate At(data: seq<byte>, pos: nat, piece: seq<byte>) {
    pos + |piece| <= |data| && data[pos..pos + |piece|] == piece
  }

  lemma AtParts(data: seq<byte>, pos: nat, a: seq<byte>, b: seq<byte>)
    requires At(data, pos, a + b)
    ensures At(data, pos, a) && At(data, pos + |a|, b)
  {
    var whole := data[pos..pos + |a + b|];
    assert whole[..|a|] == a && whole[|a|..] == b;
    assert data[pos..pos + |a|] == whole[..|a|];
    assert data[pos + |a|..pos + |a| + |b|] == whole[|a|..];
  }

  lemma AtByte(data: seq<byte>, pos: nat, piece: seq<byte>, i: nat)
    requires At(data, pos, piece) && i < |piece|
    ensures data[pos + i] == piece[i]
  {
    assert data[pos..pos + |piece|][i] == piece[i];
  }

  ghost predicate Encodable(utf8: Label -> bool, labels: seq<Label>) {
    labels == [] || (0 < |labels[0]| < 0xC0 && utf8(labels[0]) && Encodable(utf8, labels[1..]))
  }

  function EncodeLabel(l: Label): seq<byte> {
    [|l| % 256] + l
  }

  function EncodeName(labels: seq<Label>): seq<byte> {
    if labels == [] then [0] else EncodeLabel(labels[0]) + EncodeName(labels[1..])
  }

  /** One label in front of a spelled name. */
  lemma LabelSpelled(data: seq<byte>, utf8: Label -> bool, pos: nat, labels: seq<Label>)
    requires labels != [] && 0 < |labels[0]| < 0xC0 && utf8(labels[0])
    requires At(data, pos, EncodeLabel(labels[0]))
    requires Spells(data, utf8, pos + 1 + |labels[0]|, labels[1..], 0)
    ensures Spells(data, utf8, pos, labels, 0)
    ensures NameEnd(data, pos) == NameEnd(data, pos + 1 + |labels[0]|)
  {
    var l := labels[0];
    AtParts(data, pos, [|l| % 256], l);
    AtByte(data, pos, [|l| % 256], 0);
  }

  lemma RootSpelled(data: seq<byte>, utf8: Label -> bool, pos: nat)
    requires At(data, pos, [0])
    ensures Spells(data, utf8, pos, [], 0) && NameEnd(data, pos) == Some(pos + 1)
  {
    AtByte(data, pos, [0], 0);
  }

  lemma NameSplits(data: seq<byte>, pos: nat, labels: seq<Label>)
    requires labels != [] && At(data, pos, EncodeName(labels))
    ensures At(data, pos, EncodeLabel(labels[0])) && At(data, pos + 1 + |labels[0]|, EncodeName(labels[1..]))
    ensures |EncodeName(labels)| == 1 + |labels[0]| + |EncodeName(labels[1..])|
  {
    AtParts(data, pos, EncodeLabel(labels[0]), EncodeName(labels[1..]));
  }

  lemma {:induction false} NameEncoded(data: seq<byte>, utf8: Label -> bool, pos: nat, labels: seq<Label>)
    requires Encodable(utf8, labels) && At(data, pos, EncodeName(labels))
    ensures Spells(data, utf8, pos, labels, 0)
    ensures NameEnd(data, pos) == Some(pos + |EncodeName(labels)|)
    decreases |labels|
  {
    if labels == [] {
      RootSpelled(data, utf8, pos);
    } else {
      NameSplits(data, pos, labels);
      NameEncoded(data, utf8, pos + 1 + |labels[0]|, labels[1..]);
      LabelSpelled(data, utf8, pos, labels);
    }
  }

  lemma NameNamed(data: seq<byte>, utf8: Label -> bool, pos: nat, labels: seq<Label>)
    requires Encodable(utf8, labels) && At(data, pos, EncodeName(labels))
    ensures Names(data, utf8, pos, labels) && NameEnd(data, pos) == Some(pos + |EncodeName(labels)|)
  {
    NameEncoded(data, utf8, pos, labels);
  }

  /** A name that can be written can be read, with no pointer at all. */
  lemma NameReadsBack(data: seq<byte>, utf8: Label -> bool, pos: nat, labels: seq<Label>)
    requires Encodable(utf8, labels) && At(data, pos, EncodeName(labels))
    ensures Names(data, utf8, pos, labels)
    ensures NameAt(data, utf8, pos) == Some((Join(labels), pos + |EncodeName(labels)|))
  {
    NameEncoded(data, utf8, pos, labels);
    assert Names(data, utf8, pos, labels);
    NameRead(data, utf8, pos, labels);
  }

  ghost predicate EncodableQuestions(utf8: Label -> bool, qs: seq<seq<Label>>) {
    qs == [] || (Encodable(utf8, qs[0]) && EncodableQuestions(utf8, qs[1..]))
  }

  ghost predicate EncodableRecord(utf8: Label -> bool, r: Record) {
    Encodable(utf8, r.owner) && |r.rdata| < 0x1_0000
  }

  ghost predicate EncodableRecords(utf8: Label -> bool, rs: seq<Record>) {
    rs == [] || (EncodableRecord(utf8, rs[0]) && EncodableRecords(utf8, rs[1..]))
  }

  ghost predicate EncodableMessage(utf8: Label -> bool, m: Message) {
    && |m.questions| < 0x1_0000 && |m.answers| < 0x1_0000
    && EncodableQuestions(utf8, m.questions) && EncodableRecords(utf8, m.answers)
  }

  /** Type A, class IN; the parser looks at neither. */
  const QUESTION_TAIL: seq<byte> := [0, 1, 0, 1]

  function EncodeQuestions(qs: seq<seq<Label>>): seq<byte> {
    if qs == [] then [] else EncodeName(qs[0]) + QUESTION_TAIL + EncodeQuestions(qs[1..])
  }

  lemma ThreeAt(data: seq<byte>, pos: nat, a: seq<byte>, b: seq<byte>, c: seq<byte>)
    requires At(data, pos, a + b + c)
    ensures At(data, pos, a) && At(data, pos + |a|, b) && At(data, pos + |a| + |b|, c)
  {
    AtParts(data, pos, a + b, c);
    AtParts(data, pos, a, b);
  }

  lemma WholeAt(data: seq<byte>, pos: nat, whole: seq<byte>, a: seq<byte>, b: seq<byte>, c: seq<byte>)
    requires At(data, pos, whole) && whole == a + b + c
    ensures At(data, pos, a) && At(data, pos + |a|, b) && At(data, pos + |a| + |b|, c)
    ensures |whole| == |a| + |b| + |c|
  {
    ThreeAt(data, pos, a, b, c);
  }

  lemma QuestionSplits(data: seq<byte>, pos: nat, qs: seq<seq<Label>>)
    requires qs != [] && At(data, pos, EncodeQuestions(qs))
    ensures var n := pos + |EncodeName(qs[0])|;
            && At(data, pos, EncodeName(qs[0])) && n + 4 <= |data| && At(data, n + 4, EncodeQuestions(qs[1..]))
            && n + 4 + |EncodeQuestions(qs[1..])| == pos + |EncodeQuestions(qs)|
  {
    WholeAt(data, pos, EncodeQuestions(qs), EncodeName(qs[0]), QUESTION_TAIL, EncodeQuestions(qs[1..]));
  }

  lemma {:induction false} QuestionsEncoded(data: seq<byte>, utf8: Label -> bool, pos: nat, qs: seq<seq<Label>>)
    requires EncodableQuestions(utf8, qs) && At(data, pos, EncodeQuestions(qs))
    ensures QuestionsAt(data, utf8, pos, qs, pos + |EncodeQuestions(qs)|)
    decreases |qs|
  {
    if qs != [] {
      QuestionSplits(data, pos, qs);
      NameNamed(data, utf8, pos, qs[0]);
      QuestionsEncoded(data, utf8, pos + |EncodeName(qs[0])| + 4, qs[1..]);
    }
  }

  function EncodeFields(rtype: u16, rclass: u16, ttl: u32, size: u16): (b: seq<byte>)
    ensures |b| == 10
  {
    BE16(rtype) + BE16(rclass) + BE32(ttl) + BE16(size)
  }

  lemma U16At(data: seq<byte>, pos: nat, n: u16)
    requires At(data, pos, BE16(n))
    ensures U16(data[pos], data[pos + 1]) == n
  {
    AtByte(data, pos, BE16(n), 0);
    AtByte(data, pos, BE16(n), 1);
  }

  lemma U32At(data: seq<byte>, pos: nat, n: u32)
    requires At(data, pos, BE32(n))
    ensures U32(data[pos], data[pos + 1], data[pos + 2], data[pos + 3]) == n
  {
    AtByte(data, pos, BE32(n), 0);
    AtByte(data, pos, BE32(n), 1);
    AtByte(data, pos, BE32(n), 2);
    AtByte(data, pos, BE32(n), 3);
  }

  lemma FieldsEncoded(data: seq<byte>, e: nat, rtype: u16, rclass: u16, ttl: u32, size: u16)
    requires At(data, e, EncodeFields(rtype, rclass, ttl, size))
    ensures e + 10 <= |data|
    ensures U16(data[e], data[e + 1]) == rtype && U16(data[e + 2], data[e + 3]) == rclass
    ensures U32(data[e + 4], data[e + 5], data[e + 6], data[e + 7]) == ttl
    ensures U16(data[e + 8], data[e + 9]) == size
  {
    AtParts(data, e, BE16(rtype) + BE16(rclass) + BE32(ttl), BE16(size));
    AtParts(data, e, BE16(rtype) + BE16(rclass), BE32(ttl));
    AtParts(data, e, BE16(rtype), BE16(rclass));
    U16At(data, e, rtype);
    U16At(data, e + 2, rclass);
    U32At(data, e + 4, ttl);
    U16At(data, e + 8, size);
  }

  function EncodeRecord(r: Record): seq<byte> {
    EncodeName(r.owner) + EncodeFields(r.rtype, r.rclass, r.ttl, Wrap16(|r.rdata|)) + r.rdata
  }

  lemma TailEncoded(data: seq<byte>, e: nat, r: Record)
    requires |r.rdata| < 0x1_0000
    requires At(data, e, EncodeFields(r.rtype, r.rclass, r.ttl, Wrap16(|r.rdata|)))
    requires At(data, e + 10, r.rdata)
    ensures RecordTail(data, e, r)
  {
    FieldsEncoded(data, e, r.rtype, r.rclass, r.ttl, Wrap16(|r.rdata|));
  }

  lemma RecordStands(data: seq<byte>, utf8: Label -> bool, pos: nat, end: nat, r: Record)
    requires Spells(data, utf8, pos, r.owner, 0) && NameEnd(data, pos) == Some(end) && RecordTail(data, end, r)
    ensures RecordIs(data, utf8, pos, r) && AfterRecord(data, pos, r) == end + 10 + |r.rdata|
  {
    assert Names(data, utf8, pos, r.owner);
  }

  lemma RecordEncoded(data: seq<byte>, utf8: Label -> bool, pos: nat, r: Record)
    requires EncodableRecord(utf8, r) && At(data, pos, EncodeRecord(r))
    ensures RecordIs(data, utf8, pos, r) && AfterRecord(data, pos, r) == pos + |EncodeRecord(r)|
  {
    var end := pos + |EncodeName(r.owner)|;
    ThreeAt(data, pos, EncodeName(r.owner), EncodeFields(r.rtype, r.rclass, r.ttl, Wrap16(|r.rdata|)), r.rdata);
    NameEncoded(data, utf8, pos, r.owner);
    TailEncoded(data, end, r);
    RecordStands(data, utf8, pos, end, r);
  }

  function EncodeRecords(rs: seq<Record>): seq<byte> {
    if rs == [] then [] else EncodeRecord(rs[0]) + EncodeRecords(rs[1..])
  }

  lemma RecordsJoin(data: seq<byte>, utf8: Label -> bool, pos: nat, rs: seq<Record>, next: nat)
    requires rs != [] && RecordIs(data, utf8, pos, rs[0]) && AfterRecord(data, pos, rs[0]) == next
    requires RecordsAt(data, utf8, next, rs[1..])
    ensures RecordsAt(data, utf8, pos, rs)
  {
  }

  lemma {:induction false} RecordsEncoded(data: seq<byte>, utf8: Label -> bool, pos: nat, rs: seq<Record>)
    requires EncodableRecords(utf8, rs) && At(data, pos, EncodeRecords(rs))
    ensures RecordsAt(data, utf8, pos, rs)
    decreases |rs|
  {
    if rs != [] {
      var next := pos + |EncodeRecord(rs[0])|;
      AtParts(data, pos, EncodeRecord(rs[0]), EncodeRecords(rs[1..]));
      RecordEncoded(data, utf8, pos, rs[0]);
      RecordsEncoded(data, utf8, next, rs[1..]);
      RecordsJoin(data, utf8, pos, rs, next);
    }
  }

  /** Id and flags, the four section counts. */
  function EncodeHeader(head: seq<byte>, qdcount: u16, ancount: u16): seq<byte> {
    head + BE16(qdcount) + BE16(ancount) + [0, 0, 0, 0]
  }

  function EncodeMessage(head: seq<byte>, m: Message): seq<byte> {
    EncodeHeader(head, Wrap16(|m.questions|), Wrap16(|m.answers|)) + EncodeQuestions(m.questions) + EncodeRecords(m.answers)
  }

  lemma CountsEncoded(data: seq<byte>, head: seq<byte>, qdcount: u16, ancount: u16)
    requires |head| == 4 && At(data, 0, EncodeHeader(head, qdcount, ancount))
    ensures |EncodeHeader(head, qdcount, ancount)| == HEADER_SIZE <= |data|
    ensures U16(data[4], data[5]) == qdcount && U16(data[6], data[7]) == ancount
  {
    AtParts(data, 0, head + BE16(qdcount) + BE16(ancount), [0, 0, 0, 0]);
    ThreeAt(data, 0, head, BE16(qdcount), BE16(ancount));
    U16At(data, 4, qdcount);
    U16At(data, 6, ancount);
  }

  /** The counts and both sections of a message are where they should be. */
  predicate Stands(data: seq<byte>, qdcount: nat, ancount: nat, qs: seq<byte>, rs: seq<byte>) {
    && |data| >= HEADER_SIZE
    && U16(data[4], data[5]) == qdcount && U16(data[6], data[7]) == ancount
    && At(data, HEADER_SIZE, qs) && At(data, HEADER_SIZE + |qs|, rs)
  }

  lemma AtWhole(data: seq<byte>)
    ensures At(data, 0, data)
  {
  }

  lemma HeaderStands(data: seq<byte>, head: seq<byte>, qdcount: u16, ancount: u16, qs: seq<byte>, rs: seq<byte>)
    requires |head| == 4 && data == EncodeHeader(head, qdcount, ancount) + qs + rs
    ensures Stands(data, qdcount, ancount, qs, rs)
  {
    AtWhole(data);
    ThreeAt(data, 0, EncodeHeader(head, qdcount, ancount), qs, rs);
    CountsEncoded(data, head, qdcount, ancount);
  }

  lemma SectionsRepresent(data: seq<byte>, utf8: Label -> bool, m: Message, qs: seq<byte>, rs: seq<byte>)
    requires Stands(data, |m.questions|, |m.answers|, qs, rs)
    requires QuestionsAt(data, utf8, HEADER_SIZE, m.questions, HEADER_SIZE + |qs|)
    requires RecordsAt(data, utf8, HEADER_SIZE + |qs|, m.answers)
    ensures Represents(data, utf8, m)
  {
  }

  lemma Fits16(n: nat)
    requires n < 0x1_0000
    ensures Wrap16(n) == n
  {
  }

  lemma QuestionsStand(data: seq<byte>, utf8: Label -> bool, questions: seq<seq<Label>>, qs: seq<byte>)
    requires At(data, HEADER_SIZE, qs) && qs == EncodeQuestions(questions) && EncodableQuestions(utf8, questions)
    ensures QuestionsAt(data, utf8, HEADER_SIZE, questions, HEADER_SIZE + |qs|)
  {
    QuestionsEncoded(data, utf8, HEADER_SIZE, questions);
  }

  lemma RecordsStand(data: seq<byte>, utf8: Label -> bool, pos: nat, answers: seq<Record>, rs: seq<byte>)
    requires At(data, pos, rs) && rs == EncodeRecords(answers) && EncodableRecords(utf8, answers)
    ensures RecordsAt(data, utf8, pos, answers)
  {
    RecordsEncoded(data, utf8, pos, answers);
  }

  /** Every message whose counts and lengths fit has an encoding, whatever its id and flags. */
  lemma MessageEncoded(head: seq<byte>, utf8: Label -> bool, m: Message)
    requires |head| == 4 && EncodableMessage(utf8, m)
    ensures Represents(EncodeMessage(head, m), utf8, m)
  {
    var data, qs, rs := EncodeMessage(head, m), EncodeQuestions(m.questions), EncodeRecords(m.answers);
    Fits16(|m.questions|);
    Fits16(|m.answers|);
    HeaderStands(data, head, Wrap16(|m.questions|), Wrap16(|m.answers|), qs, rs);
    QuestionsStand(data, utf8, m.questions, qs);
    RecordsStand(data, utf8, HEADER_SIZE + |qs|, m.answers, rs);
    SectionsRepresent(data, utf8, m, qs, rs);
  }

  /** Any such message with a question parses back to its address records. */
  lemma EncodedParses(head: seq<byte>, utf8: Label -> bool, m: Message)
    requires |head| == 4 && EncodableMessage(utf8, m) && m.questions != []
    ensures ParseResponse(EncodeMessage(head, m), utf8) == Addresses(m.answers, Join(m.questions[0]))
  {
    MessageEncoded(head, utf8, m);
    ParseMeetsGrammar(EncodeMessage(head, m), utf8, m);
  }

  // ---- compression ---------------------------------------------------------------

  /** A pointer to `off`, section 4.1.4 of RFC 1035: the two high bits set, then 14 bits of offset. */
  function EncodePointer(off: nat): (b: seq<byte>)
    requires off < 0x4000
    ensures |b| == 2
  {
    [0xC0 + off / 256, off % 256]
  }

  /** Where a pointer stands, the name it points to is read, with an end right behind the pointer. */
  lemma PointerReads(data: seq<byte>, utf8: Label -> bool, pos: nat, off: nat, labels: seq<Label>, hops: nat)
    requires off < 0x4000 && At(data, pos, EncodePointer(off))
    requires Spells(data, utf8, off, labels, hops) && hops <= 31
    ensures Spells(data, utf8, pos, labels, hops + 1) && Names(data, utf8, pos, labels)
    ensures NameEnd(data, pos) == Some(pos + 2)
    ensures NameAt(data, utf8, pos) == Some((Join(labels), pos + 2))
  {
    AtByte(data, pos, EncodePointer(off), 0);
    AtByte(data, pos, EncodePointer(off), 1);
    assert Spells(data, utf8, pos, labels, hops + 1);
    NameRead(data, utf8, pos, labels);
  }

  lemma {:induction false} SelfPointerEmpty(data: seq<byte>, utf8: Label -> bool, pos: nat, left: nat)
    requires pos + 1 < |data| && data[pos] >= 0xC0 && Pointer(data[pos], data[pos + 1]) == pos
    ensures LabelsFrom(data, utf8, pos, left).None?
    decreases left
  {
    if left > 0 {
      SelfPointerEmpty(data, utf8, pos, left - 1);
    }
  }

  /** A pointer to itself is followed until the limit refuses it. */
  lemma SelfPointerRefused(data: seq<byte>, utf8: Label -> bool, pos: nat)
    requires pos < 0x4000 && At(data, pos, EncodePointer(pos))
    ensures NameAt(data, utf8, pos).None?
  {
    AtByte(data, pos, EncodePointer(pos), 0);
    AtByte(data, pos, EncodePointer(pos), 1);
    SelfPointerEmpty(data, utf8, pos, MAX_JUMPS);
  }

  /** The owner field of most answers: a pointer to the question, which stands at offset 12. */
  const QUESTION_POINTER: seq<byte> := [0xC0, 0x0C]

  /** A record that points back to the question for its owner. */
  function EncodeShort(r: Record): (b: seq<byte>)
    ensures |b| == 12 + |r.rdata|
  {
    QUESTION_POINTER + EncodeFields(r.rtype, r.rclass, r.ttl, Wrap16(|r.rdata|)) + r.rdata
  }

  function EncodeShorts(rs: seq<Record>): seq<byte> {
    if rs == [] then [] else EncodeShort(rs[0]) + EncodeShorts(rs[1..])
  }

  /** Records about the question itself, with lengths that fit. */
  ghost predicate ShortRecords(rs: seq<Record>, question: seq<Label>) {
    rs == [] || (rs[0].owner == question && |rs[0].rdata| < 0x1_0000 && ShortRecords(rs[1..], question))
  }

  lemma ShortEncoded(data: seq<byte>, utf8: Label -> bool, pos: nat, question: seq<Label>, r: Record)
    requires Spells(data, utf8, HEADER_SIZE, question, 0) && At(data, pos, EncodeShort(r))
    requires r.owner == question && |r.rdata| < 0x1_0000
    ensures RecordIs(data, utf8, pos, r) && AfterRecord(data, pos, r) == pos + |EncodeShort(r)|
  {
    ThreeAt(data, pos, QUESTION_POINTER, EncodeFields(r.rtype, r.rclass, r.ttl, Wrap16(|r.rdata|)), r.rdata);
    assert EncodePointer(HEADER_SIZE) == QUESTION_POINTER;
    PointerReads(data, utf8, pos, HEADER_SIZE, question, 0);
    TailEncoded(data, pos + 2, r);
  }

  lemma {:induction false} ShortsEncoded(data: seq<byte>, utf8: Label -> bool, pos: nat, question: seq<Label>, rs: seq<Record>)
    requires Spells(data, utf8, HEADER_SIZE, question, 0)
    requires ShortRecords(rs, question) && At(data, pos, EncodeShorts(rs))
    ensures RecordsAt(data, utf8, pos, rs)
    decreases |rs|
  {
    if rs != [] {
      var next := pos + |EncodeShort(rs[0])|;
      AtParts(data, pos, EncodeShort(rs[0]), EncodeShorts(rs[1..]));
      ShortEncoded(data, utf8, pos, question, rs[0]);
      ShortsEncoded(data, utf8, next, question, rs[1..]);
      RecordsJoin(data, utf8, pos, rs, next);
    }
  }

  /** The response that servers send: one question, and every answer pointing back to it. */
  function EncodeCompressed(head: seq<byte>, question: seq<Label>, rs: seq<Record>): seq<byte> {
    EncodeHeader(head, 1, Wrap16(|rs|)) + (EncodeName(question) + QUESTION_TAIL) + EncodeShorts(rs)
  }

  lemma OneQuestion(data: seq<byte>, utf8: Label -> bool, question: seq<Label>)
    requires Encodable(utf8, question) && At(data, HEADER_SIZE, EncodeName(question) + QUESTION_TAIL)
    ensures Spells(data, utf8, HEADER_SIZE, question, 0)
    ensures QuestionsAt(data, utf8, HEADER_SIZE, [question], HEADER_SIZE + |EncodeName(question) + QUESTION_TAIL|)
  {
    AtParts(data, HEADER_SIZE, EncodeName(question), QUESTION_TAIL);
    NameEncoded(data, utf8, HEADER_SIZE, question);
    NameNamed(data, utf8, HEADER_SIZE, question);
    assert [question][1..] == [];
  }

  lemma CompressedStands(data: seq<byte>, utf8: Label -> bool, question: seq<Label>, rs: seq<Record>,
                         q: seq<byte>, answers: seq<byte>)
    requires Stands(data, 1, |rs|, q, answers)
    requires q == EncodeName(question) + QUESTION_TAIL && Encodable(utf8, question)
    requires answers == EncodeShorts(rs) && ShortRecords(rs, question)
    ensures Represents(data, utf8, Message([question], rs))
  {
    OneQuestion(data, utf8, question);
    ShortsEncoded(data, utf8, HEADER_SIZE + |q|, question, rs);
    SectionsRepresent(data, utf8, Message([question], rs), q, answers);
  }

  /** Such a response parses to exactly its address records, whatever its id and flags. */
  lemma CompressedParses(head: seq<byte>, utf8: Label -> bool, question: seq<Label>, rs: seq<Record>)
    requires |head| == 4 && Encodable(utf8, question) && ShortRecords(rs, question) && |rs| < 0x1_0000
    ensures ParseResponse(EncodeCompressed(head, question, rs), utf8) == Addresses(rs, Join(question))
  {
    var data, q, answers := EncodeCompressed(head, question, rs), EncodeName(question) + QUESTION_TAIL, EncodeShorts(rs);
    Fits16(|rs|);
    HeaderStands(data, head, 1, Wrap16(|rs|), q, answers);
    CompressedStands(data, utf8, question, rs, q, answers);
    ParseMeetsGrammar(data, utf8, Message([question], rs));
  }
}
