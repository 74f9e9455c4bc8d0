/**
 The byte stream that an adapter wraps, seen through its poll interface. Which bytes a
 poll moves, whether it is Pending and whether it fails are all left open: a result
 proved for these contracts holds for every behaviour of the stream.
*/
module Transport {
  import opened Bytes

  datatype Error = Broken | WriteZero | InvalidData

  datatype Poll<+T> = Pending | Ready(value: T) | Failed(error: Error) {
    /** An answer without a value, passed on. */
    function Unready<U>(): Poll<U>
      requires !Ready?
    {
      if Pending? then Pending else Failed(error)
    }
  }

  /** What the stream answered instead of moving bytes, and what it finished. */
  datatype Answer = Stalled | Broke | Refused | Flushed | Closed

  /** The answers after a poll that ended in `p`: an adapter may report no trouble of its own making. */
  function Passing<T>(answers: seq<Answer>, p: Poll<T>): seq<Answer> {
    match p
    case Pending => answers + [Stalled]
    case Failed(Broken) => answers + [Broke]
    case Failed(WriteZero) => answers + [Refused]
    case _ => answers
  }

  class Stream {
    /** Every byte the peer will ever send; the end of `wire` is end of file. */
    const wire: seq<byte>
    /** How many of them have been read. */
    var pos: nat
    /** Every byte written so far. */
    var sent: seq<byte>
    /** Everything it ever answered but bytes moved. */
    ghost var answers: seq<Answer>

    constructor (wire: seq<byte>)
      ensures this.wire == wire && pos == 0 && sent == [] && answers == []
    {
      this.wire := wire;
      pos, sent, answers := 0, [], [];
    }

    /** Offers `room` bytes of space. An empty read with space left means end of file. */
    method PollRead(room: nat) returns (p: Poll<seq<byte>>)
      requires pos <= |wire|
      modifies this`pos, this`answers
      ensures old(pos) <= pos <= |wire|
      ensures p.Ready? ==> p.value == wire[old(pos)..pos] && |p.value| <= room
      ensures p.Ready? && p.value == [] && room > 0 ==> pos == |wire|
      ensures !p.Ready? ==> pos == old(pos)
      ensures p.Failed? ==> p.error == Broken
      ensures answers == Passing(old(answers), p)
    {
      if * {
        answers := answers + [Stalled];
        return Pending;
      } else if * {
        answers := answers + [Broke];
        return Failed(Broken);
      }
      var most := Min(room, |wire| - pos);
      var n: nat :| n <= most && (most > 0 ==> n > 0);
      p := Ready(wire[pos..pos + n]);
      pos := pos + n;
    }

    /** Takes any prefix of `data`, possibly none of it. */
    method PollWrite(data: seq<byte>) returns (p: Poll<nat>)
      modifies this`sent, this`answers
      ensures p.Ready? ==> p.value <= |data| && sent == old(sent) + data[..p.value]
      ensures !p.Ready? ==> sent == old(sent)
      ensures p.Failed? ==> p.error == Broken
      ensures answers == if p == Ready(0) then old(answers) + [Refused] else Passing(old(answers), p)
    {
      if * {
        answers := answers + [Stalled];
        return Pending;
      } else if * {
        answers := answers + [Broke];
        return Failed(Broken);
      }
      var n: nat :| n <= |data|;
      p := Ready(n);
      sent := sent + data[..n];
      if n == 0 {
        answers := answers + [Refused];
      }
    }

    method PollFlush() returns (p: Poll<()>)
      modifies this`answers
      ensures p.Failed? ==> p.error == Broken
      ensures answers == if p.Ready? then old(answers) + [Flushed] else Passing(old(answers), p)
    {
      if * {
        answers := answers + [Stalled];
        return Pending;
      } else if * {
        answers := answers + [Broke];
        return Failed(Broken);
      }
      answers := answers + [Flushed];
      p := Ready(());
    }

    method PollShutdown() returns (p: Poll<()>)
      modifies this`answers
      ensures p.Failed? ==> p.error == Broken
      ensures answers == if p.Ready? then old(answers) + [Closed] else Passing(old(answers), p)
    {
      if * {
        answers := answers + [Stalled];
        return Pending;
      } else if * {
        answers := answers + [Broke];
        return Failed(Broken);
      }
      answers := answers + [Closed];
      p := Ready(());
    }
  }
}
