/**
 What an obfuscating writer has framed, and what it has told its caller it took.

 Both adapters buffer a framed chunk, drain the buffer, and report the chunk's length
 once it is drained; `poll_flush` and `poll_shutdown` drain the same buffer but report
 nothing. This module is the state machine that the two classes refine, and it settles
 when the bytes framed are the bytes accepted.
*/
module WriteLedger {
  import opened Bytes

  /** `inFlight` is the chunk that has been framed but not yet reported as taken. */
  datatype Ledger = Ledger(framed: seq<seq<byte>>, accepted: seq<byte>, queued: bool, inFlight: seq<byte>)

  datatype Call =
    /** A write of `buf`, of which `take` bytes are framed if nothing is queued. */
    | Write(buf: seq<byte>, take: nat, drained: bool)
    /** A flush or a shutdown. */
    | Flush(drained: bool)
    /** A write that moves nothing. */
    | Nothing

  const EMPTY := Ledger([], [], false, [])

  function Step(l: Ledger, c: Call): Ledger {
    match c
    case Nothing => l
    case Flush(drained) => if drained then l.(queued := false) else l
    case Write(buf, take, drained) =>
      if l.queued then
        if drained
        then Ledger(l.framed, l.accepted + buf[..Min(|l.inFlight|, |buf|)], false, [])
        else l
      else
        var chunk := buf[..Min(take, |buf|)];
        if drained
        then Ledger(l.framed + [chunk], l.accepted + chunk, false, [])
        else Ledger(l.framed + [chunk], l.accepted, true, chunk)
  }

  function Run(calls: seq<Call>): Ledger {
    if calls == [] then EMPTY else Step(Run(calls[..|calls| - 1]), calls[|calls| - 1])
  }

  lemma RunSnoc(calls: seq<Call>, c: Call)
    ensures Run(calls + [c]) == Step(Run(calls), c)
  {
    assert (calls + [c])[..|calls|] == calls;
  }

  /** The bytes framed are the bytes accepted, followed by the chunk in flight. */
  ghost predicate Conserved(l: Ledger) {
    Concat(l.framed) == l.accepted + l.inFlight
  }

  /**
   What the caller owes. The retry that completes a queued chunk must offer a buffer that
   begins with that chunk, and no new chunk may be offered after a flush has drained one
   whose length was never reported.
  */
  ghost predicate Disciplined(l: Ledger, c: Call) {
    c.Write? ==>
      if l.queued then c.drained ==> l.inFlight <= c.buf else l.inFlight == []
  }

  ghost predicate DisciplinedRun(calls: seq<Call>) {
    calls == [] ||
    (DisciplinedRun(calls[..|calls| - 1]) && Disciplined(Run(calls[..|calls| - 1]), calls[|calls| - 1]))
  }

  /** True in every reachable state: the chunk in flight is the last chunk framed. */
  ghost predicate WellFormed(l: Ledger) {
    && |l.accepted| + |l.inFlight| <= |Concat(l.framed)|
    && l.inFlight == Concat(l.framed)[|Concat(l.framed)| - |l.inFlight|..]
  }

  lemma StepWellFormed(l: Ledger, c: Call)
    requires WellFormed(l)
    ensures WellFormed(Step(l, c))
  {
    if c.Write? && !l.queued {
      ConcatSnoc(l.framed, c.buf[..Min(c.take, |c.buf|)]);
    }
  }

  lemma {:induction false} RunWellFormed(calls: seq<Call>)
    ensures WellFormed(Run(calls))
  {
    if calls != [] {
      RunWellFormed(calls[..|calls| - 1]);
      StepWellFormed(Run(calls[..|calls| - 1]), calls[|calls| - 1]);
    }
  }

  /** One call keeps the balance exactly when it is disciplined, and never restores it. */
  lemma StepConserved(l: Ledger, c: Call)
    requires WellFormed(l)
    ensures Conserved(Step(l, c)) <==> Conserved(l) && Disciplined(l, c)
  {
    var framed := Concat(l.framed);
    if c.Write? && l.queued && c.drained {
      var reported := c.buf[..Min(|l.inFlight|, |c.buf|)];
      if framed == l.accepted + reported {
        assert |reported| == |l.inFlight|;
        assert reported == framed[|framed| - |reported|..];
        assert l.inFlight == reported;
      }
    } else if c.Write? && !l.queued {
      var chunk := c.buf[..Min(c.take, |c.buf|)];
      ConcatSnoc(l.framed, chunk);
      if framed + chunk == l.accepted + chunk {
        assert |l.inFlight| == 0;
        assert framed == (framed + chunk)[..|framed|] == l.accepted;
      }
    }
  }

  /** Over every run: framed and accepted bytes agree if and only if every call was disciplined. */
  lemma {:induction false} ConservedIffDisciplined(calls: seq<Call>)
    ensures Conserved(Run(calls)) <==> DisciplinedRun(calls)
  {
    if calls != [] {
      var n := |calls| - 1;
      ConservedIffDisciplined(calls[..n]);
      RunWellFormed(calls[..n]);
      StepConserved(Run(calls[..n]), calls[n]);
    }
  }

  /** Handing `n` queued bytes over changes nothing in sent plus queued. */
  lemma Handed(sent: seq<byte>, buf: seq<byte>, off: nat, n: nat)
    requires off + n <= |buf|
    ensures sent + buf[off..][..n] + buf[off + n..] == sent + buf[off..]
  {
    assert buf[off..] == buf[off..][..n] + buf[off + n..];
    Assoc(sent, buf[off..][..n], buf[off + n..]);
  }

  // ---- the same rule in the caller's terms ---------------------------------------

  /** The buffer of the write that was last answered without a length and not completed since. */
  function Outstanding(calls: seq<Call>): Option<seq<byte>> {
    if calls == [] then None
    else
      var before, c := Outstanding(calls[..|calls| - 1]), calls[|calls| - 1];
      if !c.Write? then before
      else if c.drained then None
      else if before.Some? then before
      else Some(c.buf)
  }

  /** While a write is outstanding: no flush, and every write offers the same bytes or more. */
  predicate Retries(outstanding: Option<seq<byte>>, c: Call) {
    outstanding.Some? ==> !c.Flush? && (c.Write? ==> outstanding.value <= c.buf)
  }

  predicate RetryingRun(calls: seq<Call>) {
    calls == [] ||
    (RetryingRun(calls[..|calls| - 1]) && Retries(Outstanding(calls[..|calls| - 1]), calls[|calls| - 1]))
  }

  /** What a caller sees is enough: it knows what is queued, and it knows the chunk in flight up to a tail. */
  lemma {:induction false} RetryingIsDisciplined(calls: seq<Call>)
    requires RetryingRun(calls)
    ensures DisciplinedRun(calls) && Conserved(Run(calls))
    ensures var l, owed := Run(calls), Outstanding(calls);
            && l.queued == owed.Some?
            && (if owed.Some? then l.inFlight <= owed.value else l.inFlight == [])
  {
    if calls != [] {
      var n := |calls| - 1;
      RetryingIsDisciplined(calls[..n]);
    }
    ConservedIffDisciplined(calls);
  }

  /** A flush between a Pending write and its retry sends the chunk twice. */
  lemma FlushBeforeRetryDuplicates(chunk: seq<byte>)
    requires chunk != []
    ensures var calls := [Write(chunk, |chunk|, false), Flush(true), Write(chunk, |chunk|, true)];
            && Concat(Run(calls).framed) == chunk + chunk
            && Run(calls).accepted == chunk
            && !Conserved(Run(calls))
  {
    var w := Write(chunk, |chunk|, false);
    var w' := Write(chunk, |chunk|, true);
    var calls := [w, Flush(true), w'];
    assert calls[..2] == [w, Flush(true)] && calls[..2][..1] == [w];
    assert Run([w]) == Ledger([chunk], [], true, chunk) by {
      assert chunk[..|chunk|] == chunk && [w][..0] == [];
    }
    assert Run(calls[..2]) == Ledger([chunk], [], false, chunk);
    assert Run(calls) == Ledger([chunk, chunk], chunk, false, []);
    ConcatSnoc([chunk], chunk);
    ConcatSnoc([], chunk);
  }
}
