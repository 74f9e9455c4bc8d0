/** DNS names with compression pointers, section 4.1.4 of RFC 1035, as the source reads them. */
module DnsName {
  import opened Bytes

  const MAX_JUMPS := 32

  type Label = seq<byte>

  /** `labels.join(".")` */
  function Join(labels: seq<Label>): seq<byte> {
    if labels == [] then []
    else if |labels| == 1 then labels[0]
    else Join(labels[..|labels| - 1]) + [46] + labels[|labels| - 1]
  }

  function Pointer(hi: byte, lo: byte): nat {
    hi % 64 * 256 + lo
  }

  // ---- the grammar ---------------------------------------------------------------

  /**
   The bytes at `pos` spell `labels` by following exactly `hops` pointers. A length byte
   counts as a label length up to 0xBF, as the source treats it. `utf8` is any predicate
   on labels.
  */
  ghost predicate Spells(data: seq<byte>, utf8: Label -> bool, pos: nat, labels: seq<Label>, hops: nat)
    decreases hops, |labels|
  {
    && pos < |data|
    && var b := data[pos];
       if b == 0 then labels == [] && hops == 0
       else if b >= 0xC0 then
         pos + 1 < |data| && hops > 0 && Spells(data, utf8, Pointer(b, data[pos + 1]), labels, hops - 1)
       else
         && labels != [] && pos + 1 + b <= |data|
         && labels[0] == data[pos + 1..pos + 1 + b] && utf8(labels[0])
         && Spells(data, utf8, pos + 1 + b, labels[1..], hops)
  }

  /** At most 32 pointers spell `labels`. */
  ghost predicate Names(data: seq<byte>, utf8: Label -> bool, pos: nat, labels: seq<Label>) {
    exists hops: nat :: hops <= 32 && Spells(data, utf8, pos, labels, hops)
  }

  /** Where the bytes of the name at `pos` stop: after the root label or after the first pointer. */
  function NameEnd(data: seq<byte>, pos: nat): Option<nat>
    decreases |data| - pos
  {
    if pos >= |data| then None
    else if data[pos] == 0 then Some(pos + 1)
    else if data[pos] >= 0xC0 then if pos + 2 <= |data| then Some(pos + 2) else None
    else NameEnd(data, pos + 1 + data[pos])
  }

  // ---- reading -------------------------------------------------------------------

  function Prepend(front: seq<Label>, rest: Option<seq<Label>>): Option<seq<Label>> {
    if rest.None? then None else Some(front + rest.value)
  }

  /** The labels read from `pos` when `left` more pointers may be followed. */
  function LabelsFrom(data: seq<byte>, utf8: Label -> bool, pos: nat, left: nat): Option<seq<Label>>
    decreases left, |data| - pos
  {
    if pos >= |data| then None
    else
      var b := data[pos];
      if b == 0 then Some([])
      else if b >= 0xC0 then
        if pos + 1 >= |data| || left == 0 then None
        else LabelsFrom(data, utf8, Pointer(b, data[pos + 1]), left - 1)
      else if pos + 1 + b > |data| || !utf8(data[pos + 1..pos + 1 + b]) then None
      else Prepend([data[pos + 1..pos + 1 + b]], LabelsFrom(data, utf8, pos + 1 + b, left))
  }

  /** The name at `offset` and where it ends. */
  function NameAt(data: seq<byte>, utf8: Label -> bool, offset: nat): Option<(seq<byte>, nat)> {
    var labels := LabelsFrom(data, utf8, offset, MAX_JUMPS);
    var end := NameEnd(data, offset);
    if labels.None? || end.None? then None else Some((Join(labels.value), end.value))
  }

  lemma PrependOne(front: seq<Label>, l: Label, rest: Option<seq<Label>>)
    ensures Prepend(front, Prepend([l], rest)) == Prepend(front + [l], rest)
  {
    if rest.Some? {
      Assoc(front, [l], rest.value);
    }
  }

  /** The state of the loop: with `labels` read, what remains is the name from `pos` on. */
  ghost predicate OnCourse(data: seq<byte>, utf8: Label -> bool, offset: nat, labels: seq<Label>, pos: nat, jumps: nat) {
    && jumps <= MAX_JUMPS
    && LabelsFrom(data, utf8, offset, MAX_JUMPS) == Prepend(labels, LabelsFrom(data, utf8, pos, MAX_JUMPS - jumps))
  }

  /** Where the name ends, if known already, or else where its bytes go on. */
  ghost predicate EndKnown(data: seq<byte>, offset: nat, jumped: bool, endPos: nat, pos: nat) {
    NameEnd(data, offset) == if jumped then Some(endPos) else NameEnd(data, pos)
  }

  lemma CourseStarts(data: seq<byte>, utf8: Label -> bool, offset: nat)
    ensures OnCourse(data, utf8, offset, [], offset, 0) && EndKnown(data, offset, false, 0, offset)
  {
    var all := LabelsFrom(data, utf8, offset, MAX_JUMPS);
    assert all.Some? ==> [] + all.value == all.value;
  }

  lemma LabelStep(data: seq<byte>, utf8: Label -> bool, offset: nat, labels: seq<Label>, pos: nat, jumps: nat,
                  jumped: bool, endPos: nat)
    requires OnCourse(data, utf8, offset, labels, pos, jumps) && EndKnown(data, offset, jumped, endPos, pos)
    requires pos < |data| && 0 < data[pos] < 0xC0 && pos + 1 + data[pos] <= |data|
    requires utf8(data[pos + 1..pos + 1 + data[pos]])
    ensures var next := pos + 1 + data[pos];
            && OnCourse(data, utf8, offset, labels + [data[pos + 1..next]], next, jumps)
            && EndKnown(data, offset, jumped, endPos, next)
  {
    var next := pos + 1 + data[pos];
    PrependOne(labels, data[pos + 1..next], LabelsFrom(data, utf8, next, MAX_JUMPS - jumps));
  }

  lemma PointerStep(data: seq<byte>, utf8: Label -> bool, offset: nat, labels: seq<Label>, pos: nat, jumps: nat,
                    jumped: bool, endPos: nat)
    requires OnCourse(data, utf8, offset, labels, pos, jumps) && EndKnown(data, offset, jumped, endPos, pos)
    requires pos + 1 < |data| && data[pos] >= 0xC0
    ensures jumps < MAX_JUMPS ==> OnCourse(data, utf8, offset, labels, Pointer(data[pos], data[pos + 1]), jumps + 1)
    ensures jumps == MAX_JUMPS ==> NameAt(data, utf8, offset).None?
    ensures EndKnown(data, offset, true, if jumped then endPos else pos + 2, Pointer(data[pos], data[pos + 1]))
  {
  }

  /** The source's loop. It ends on cyclic pointers too: each turn uses up a jump or moves on. */
  method ReadDnsName(data: seq<byte>, utf8: Label -> bool, offset: nat) returns (r: Option<(seq<byte>, nat)>)
    ensures r == NameAt(data, utf8, offset)
  {
    var labels: seq<Label> := [];
    var pos: nat := offset;
    var jumped := false;
    var endPos := 0;
    var jumps := 0;
    CourseStarts(data, utf8, offset);
    while true
      invariant OnCourse(data, utf8, offset, labels, pos, jumps)
      invariant EndKnown(data, offset, jumped, endPos, pos)
      decreases MAX_JUMPS - jumps, |data| - pos
    {
      if pos >= |data| {
        return None;
      }
      var lenByte := data[pos];
      if lenByte == 0 {
        if !jumped {
          endPos := pos + 1;
        }
        break;
      }
      if lenByte >= 0xC0 {
        if pos + 1 >= |data| {
          return None;
        }
        PointerStep(data, utf8, offset, labels, pos, jumps, jumped, endPos);
        if !jumped {
          endPos := pos + 2;
        }
        pos := Pointer(lenByte, data[pos + 1]);
        jumped := true;
        jumps := jumps + 1;
        if jumps > MAX_JUMPS {
          return None;
        }
        continue;
      }
      var labelLen := lenByte;
      if pos + 1 + labelLen > |data| {
        return None;
      }
      var l := data[pos + 1..pos + 1 + labelLen];
      if !utf8(l) {
        return None;
      }
      LabelStep(data, utf8, offset, labels, pos, jumps, jumped, endPos);
      labels := labels + [l];
      pos := pos + 1 + labelLen;
    }
    assert labels + [] == labels;
    return Some((Join(labels), endPos));
  }

  // ---- reading meets the grammar -------------------------------------------------

  lemma {:induction false} SpelledIsRead(data: seq<byte>, utf8: Label -> bool, pos: nat, labels: seq<Label>,
                                        hops: nat, left: nat)
    requires Spells(data, utf8, pos, labels, hops) && hops <= left
    ensures LabelsFrom(data, utf8, pos, left) == Some(labels)
    decreases hops, |labels|
  {
    var b := data[pos];
    if b >= 0xC0 {
      SpelledIsRead(data, utf8, Pointer(b, data[pos + 1]), labels, hops - 1, left - 1);
    } else if b != 0 {
      SpelledIsRead(data, utf8, pos + 1 + b, labels[1..], hops, left);
      assert [labels[0]] + labels[1..] == labels;
    }
  }

  lemma {:induction false} ReadIsSpelled(data: seq<byte>, utf8: Label -> bool, pos: nat, left: nat) returns (hops: nat)
    requires LabelsFrom(data, utf8, pos, left).Some?
    ensures hops <= left && Spells(data, utf8, pos, LabelsFrom(data, utf8, pos, left).value, hops)
    decreases left, |data| - pos
  {
    var b := data[pos];
    if b == 0 {
      hops := 0;
    } else if b >= 0xC0 {
      hops := ReadIsSpelled(data, utf8, Pointer(b, data[pos + 1]), left - 1);
      hops := hops + 1;
    } else {
      hops := ReadIsSpelled(data, utf8, pos + 1 + b, left);
    }
  }

  lemma {:induction false} ReadHasEnd(data: seq<byte>, utf8: Label -> bool, pos: nat, left: nat)
    requires LabelsFrom(data, utf8, pos, left).Some?
    ensures NameEnd(data, pos).Some? && pos < NameEnd(data, pos).value <= |data|
    decreases |data| - pos
  {
    if 0 < data[pos] < 0xC0 {
      ReadHasEnd(data, utf8, pos + 1 + data[pos], left);
    }
  }

  /** A name the grammar has is read, up to its end. */
  lemma NameRead(data: seq<byte>, utf8: Label -> bool, offset: nat, labels: seq<Label>)
    requires Names(data, utf8, offset, labels)
    ensures NameEnd(data, offset).Some?
    ensures LabelsFrom(data, utf8, offset, MAX_JUMPS) == Some(labels)
    ensures NameAt(data, utf8, offset) == Some((Join(labels), NameEnd(data, offset).value))
  {
    var hops: nat :| hops <= MAX_JUMPS && Spells(data, utf8, offset, labels, hops);
    SpelledIsRead(data, utf8, offset, labels, hops, MAX_JUMPS);
    ReadHasEnd(data, utf8, offset, MAX_JUMPS);
  }

  /** A name is read exactly when the grammar has one there; it is that one, and its end is in range. */
  lemma NameReadIff(data: seq<byte>, utf8: Label -> bool, offset: nat)
    ensures NameAt(data, utf8, offset).Some? <==> exists labels :: Names(data, utf8, offset, labels)
    ensures forall labels | Names(data, utf8, offset, labels) ::
              NameAt(data, utf8, offset).Some? && NameAt(data, utf8, offset).value.0 == Join(labels)
    ensures NameAt(data, utf8, offset).Some? ==>
              NameEnd(data, offset) == Some(NameAt(data, utf8, offset).value.1)
              && offset < NameAt(data, utf8, offset).value.1 <= |data|
  {
    forall labels | Names(data, utf8, offset, labels)
      ensures NameAt(data, utf8, offset).Some? && NameAt(data, utf8, offset).value.0 == Join(labels)
    {
      NameRead(data, utf8, offset, labels);
    }
    if NameAt(data, utf8, offset).Some? {
      var hops := ReadIsSpelled(data, utf8, offset, MAX_JUMPS);
      assert Names(data, utf8, offset, LabelsFrom(data, utf8, offset, MAX_JUMPS).value);
      ReadHasEnd(data, utf8, offset, MAX_JUMPS);
    }
  }

  /** Each of the at most 33 runs of labels lies inside the message, two bytes a label. */
  lemma {:induction false} LabelBound(data: seq<byte>, utf8: Label -> bool, pos: nat, left: nat)
    requires LabelsFrom(data, utf8, pos, left).Some?
    ensures 2 * |LabelsFrom(data, utf8, pos, left).value| <= left * |data| + (|data| - pos)
    decreases left, |data| - pos
  {
    var b := data[pos];
    if b >= 0xC0 {
      var ptr := Pointer(b, data[pos + 1]);
      LabelBound(data, utf8, ptr, left - 1);
      assert (left - 1) * |data| + |data| == left * |data|;
    } else if b != 0 {
      LabelBound(data, utf8, pos + 1 + b, left);
    }
  }

  lemma NameLabelBound(data: seq<byte>, utf8: Label -> bool, offset: nat)
    requires LabelsFrom(data, utf8, offset, MAX_JUMPS).Some?
    ensures |LabelsFrom(data, utf8, offset, MAX_JUMPS).value| <= 33 * |data| / 2
  {
    LabelBound(data, utf8, offset, MAX_JUMPS);
  }

  // ---- one step ------------------------------------------------------------------

  lemma {:induction false} JoinCons(l: Label, labels: seq<Label>)
    requires labels != []
    ensures Join([l] + labels) == l + [46] + Join(labels)
    decreases |labels|
  {
    var n := |labels| - 1;
    assert ([l] + labels)[..|labels|] == [l] + labels[..n];
    if n == 0 {
      assert [l] + labels[..0] == [l];
    } else {
      JoinCons(l, labels[..n]);
      Assoc(l + [46], Join(labels[..n]), [46]);
      Assoc(l + [46], Join(labels[..n]) + [46], labels[n]);
    }
  }

  /** No label read is empty, so the name is empty only without labels. */
  lemma {:induction false} ReadLabelsNonEmpty(data: seq<byte>, utf8: Label -> bool, pos: nat, left: nat)
    ensures var labels := LabelsFrom(data, utf8, pos, left);
            labels.Some? && labels.value != [] ==> labels.value[0] != []
    decreases left, |data| - pos
  {
    if pos + 1 < |data| && data[pos] >= 0xC0 && left > 0 {
      ReadLabelsNonEmpty(data, utf8, Pointer(data[pos], data[pos + 1]), left - 1);
    }
  }

  lemma JoinEmpty(labels: seq<Label>)
    requires labels != [] && labels[0] != []
    ensures Join(labels) != []
  {
    if |labels| > 1 {
      assert Join(labels) == Join(labels[..|labels| - 1]) + [46] + labels[|labels| - 1];
    }
  }

  /** The same name read with the rest of the labels one step on. */
  lemma LabelThenRest(data: seq<byte>, utf8: Label -> bool, pos: nat)
    requires pos < |data| && 0 < data[pos] < 0xC0 && pos + 1 + data[pos] <= |data|
    requires utf8(data[pos + 1..pos + 1 + data[pos]])
    ensures var l, rest := data[pos + 1..pos + 1 + data[pos]], NameAt(data, utf8, pos + 1 + data[pos]);
            NameAt(data, utf8, pos)
            == if rest.None? then None
               else Some((if rest.value.0 == [] then l else l + [46] + rest.value.0, rest.value.1))
  {
    var l, next := data[pos + 1..pos + 1 + data[pos]], pos + 1 + data[pos];
    var labels := LabelsFrom(data, utf8, next, MAX_JUMPS);
    if labels.Some? {
      ReadHasEnd(data, utf8, next, MAX_JUMPS);
      if labels.value == [] {
        assert [l] + [] == [l];
      } else {
        ReadLabelsNonEmpty(data, utf8, next, MAX_JUMPS);
        JoinEmpty(labels.value);
        JoinCons(l, labels.value);
      }
    }
  }

  /**
   What is read at a byte that is no pointer, byte by byte: nothing past the end, the empty name
   at a zero, and otherwise a label within the message that is UTF-8, then a dot and the rest.
  */
  lemma NameStep(data: seq<byte>, utf8: Label -> bool, pos: nat)
    ensures pos >= |data| ==> NameAt(data, utf8, pos).None?
    ensures pos + 1 == |data| && data[pos] >= 0xC0 ==> NameAt(data, utf8, pos).None?
    ensures pos < |data| && data[pos] == 0 ==> NameAt(data, utf8, pos) == Some(([], pos + 1))
    ensures pos < |data| && 0 < data[pos] < 0xC0 ==>
              var next := pos + 1 + data[pos];
              if next > |data| || !utf8(data[pos + 1..next]) || NameAt(data, utf8, next).None?
              then NameAt(data, utf8, pos).None?
              else
                var l, rest := data[pos + 1..next], NameAt(data, utf8, next).value;
                NameAt(data, utf8, pos) == Some((if rest.0 == [] then l else l + [46] + rest.0, rest.1))
  {
    if pos < |data| && 0 < data[pos] < 0xC0 {
      var next := pos + 1 + data[pos];
      if next <= |data| && utf8(data[pos + 1..next]) {
        LabelThenRest(data, utf8, pos);
      }
    }
  }

  // ---- truncation ----------------------------------------------------------------

  lemma {:induction false} LabelsTruncated(data: seq<byte>, utf8: Label -> bool, k: nat, pos: nat, left: nat)
    requires k <= |data| && LabelsFrom(data[..k], utf8, pos, left).Some?
    ensures LabelsFrom(data, utf8, pos, left) == LabelsFrom(data[..k], utf8, pos, left)
    decreases left, |data| - pos
  {
    var b := data[pos];
    assert data[..k][pos] == b;
    if b >= 0xC0 {
      LabelsTruncated(data, utf8, k, Pointer(b, data[pos + 1]), left - 1);
    } else if b != 0 {
      assert data[..k][pos + 1..pos + 1 + b] == data[pos + 1..pos + 1 + b];
      LabelsTruncated(data, utf8, k, pos + 1 + b, left);
    }
  }

  /** The end of a name depends on no byte from that end on. */
  lemma {:induction false} NameEndLocal(data: seq<byte>, data': seq<byte>, pos: nat)
    requires NameEnd(data, pos).Some?
    requires NameEnd(data, pos).value <= |data| && NameEnd(data, pos).value <= |data'|
    requires data[..NameEnd(data, pos).value] == data'[..NameEnd(data, pos).value]
    ensures NameEnd(data', pos) == NameEnd(data, pos) && NameEnd(data, pos).value > pos
    decreases |data| - pos
  {
    var e := NameEnd(data, pos).value;
    if 0 < data[pos] < 0xC0 {
      NameEndLocal(data, data', pos + 1 + data[pos]);
    }
    assert data[pos] == data[..e][pos] == data'[..e][pos] == data'[pos];
  }

  /** A name read from a truncated message reads the same from the whole. */
  lemma NameTruncated(data: seq<byte>, utf8: Label -> bool, k: nat, offset: nat)
    requires k <= |data| && NameAt(data[..k], utf8, offset).Some?
    ensures NameAt(data, utf8, offset) == NameAt(data[..k], utf8, offset)
  {
    LabelsTruncated(data, utf8, k, offset, MAX_JUMPS);
    ReadHasEnd(data[..k], utf8, offset, MAX_JUMPS);
    var e := NameEnd(data[..k], offset).value;
    assert data[..k][..e] == data[..e];
    NameEndLocal(data[..k], data, offset);
  }
}
