/** The table from addresses to hostnames, refined to the history of its inserts. */
module DnsTable {
  import opened Bytes
  import opened DnsName
  import opened DnsResponse

  const SECOND := 1_000_000_000
  const MIN_TTL_SECS := 60
  const MAX_TTL_SECS := 3600
  const EVICTION_THRESHOLD := 4096

  function ClampTtl(ttl: u32): nat {
    if ttl < MIN_TTL_SECS then MIN_TTL_SECS else if ttl > MAX_TTL_SECS then MAX_TTL_SECS else ttl
  }

  // ---- the specification: what was inserted, and when ----------------------------

  datatype Event = Insert(ip: Ip, host: seq<byte>, ttl: u32, at: nat) | Lookup(ip: Ip, at: nat)

  function Latest(history: seq<Event>, ip: Ip): Option<Event> {
    if history == [] then None
    else
      var e := history[|history| - 1];
      if e.Insert? && e.ip == ip then Some(e) else Latest(history[..|history| - 1], ip)
  }

  /** The hostname a lookup at time `t` owes: that of the latest insert, while its clamped TTL lasts. */
  function Answered(history: seq<Event>, ip: Ip, t: nat): Option<seq<byte>> {
    match Latest(history, ip)
    case Some(Insert(_, host, ttl, at)) => if t < at + ClampTtl(ttl) * SECOND then Some(host) else None
    case _ => None
  }

  lemma LatestSnoc(history: seq<Event>, e: Event)
    ensures forall ip :: Latest(history + [e], ip) == if e.Insert? && e.ip == ip then Some(e) else Latest(history, ip)
  {
    assert (history + [e])[..|history|] == history;
  }

  /** `e` is the insert for `ip` that no other insert for it follows. */
  ghost predicate IsLatest(history: seq<Event>, ip: Ip, k: nat) {
    && k < |history| && history[k].Insert? && history[k].ip == ip
    && forall j | k < j < |history| :: !(history[j].Insert? && history[j].ip == ip)
  }

  lemma {:induction false} LatestFound(history: seq<Event>, ip: Ip, k: nat)
    requires IsLatest(history, ip, k)
    ensures Latest(history, ip) == Some(history[k])
    decreases |history|
  {
    var n := |history| - 1;
    if k < n {
      assert IsLatest(history[..n], ip, k) by {
        assert forall j | k < j < n :: history[..n][j] == history[j];
      }
      LatestFound(history[..n], ip, k);
    }
  }

  lemma {:induction false} LatestAbsent(history: seq<Event>, ip: Ip)
    requires forall j | 0 <= j < |history| :: !(history[j].Insert? && history[j].ip == ip)
    ensures Latest(history, ip).None?
    decreases |history|
  {
    if history != [] {
      var n := |history| - 1;
      assert forall j | 0 <= j < n :: history[..n][j] == history[j];
      LatestAbsent(history[..n], ip);
    }
  }

  /**
   What a lookup owes, in seconds and in the events themselves: the name of the last insert for
   the address, for the TTL it came with, but at least a minute and at most an hour.
  */
  lemma AnsweredMeans(history: seq<Event>, ip: Ip, k: nat, t: nat)
    requires IsLatest(history, ip, k)
    ensures var e := history[k];
            var seconds := if e.ttl < 60 then 60 else if e.ttl > 3600 then 3600 else e.ttl as nat;
            Answered(history, ip, t) == if t < e.at + seconds * 1_000_000_000 then Some(e.host) else None
  {
    LatestFound(history, ip, k);
  }

  lemma NothingInsertedNothingAnswered(history: seq<Event>, ip: Ip, t: nat)
    requires forall j | 0 <= j < |history| :: !(history[j].Insert? && history[j].ip == ip)
    ensures Answered(history, ip, t).None?
  {
    LatestAbsent(history, ip);
  }

  // ---- the table -----------------------------------------------------------------

  /** The monotonic clock: how far it moves between two readings is left open. */
  class Clock {
    var time: nat

    constructor ()
      ensures time == 0
    {
      time := 0;
    }

    method Now() returns (t: nat)
      modifies this
      ensures old(time) <= t == time
    {
      var tick: nat :| true;
      time := time + tick;
      return time;
    }
  }

  datatype Entry = Entry(hostname: seq<byte>, expiresAt: nat)

  class Table {
    const clock: Clock
    var entries: map<Ip, Entry>
    ghost var history: seq<Event>

    ghost predicate Holds(ip: Ip)
      reads this
      requires ip in entries
    {
      match Latest(history, ip)
      case Some(Insert(_, host, ttl, at)) => entries[ip] == Entry(host, at + ClampTtl(ttl) * SECOND)
      case _ => false
    }

    /** An address with an insert has that insert's entry, or no entry once it has expired. */
    ghost predicate Valid()
      reads this, clock
    {
      && (forall ip | ip in entries :: Holds(ip))
      && (forall ip :: ip !in entries ==> Answered(history, ip, clock.time).None?)
    }

    constructor (clock: Clock)
      ensures Valid() && this.clock == clock && history == []
    {
      this.clock := clock;
      entries, history := map[], [];
    }

    /** `retain`: keeps what has not expired. */
    method Sweep()
      requires Valid()
      modifies this`entries, clock
      ensures Valid()
      ensures old(clock.time) <= clock.time
      ensures forall ip | ip in entries :: entries[ip].expiresAt > clock.time
    {
      var now := clock.Now();
      entries := map ip | ip in entries && entries[ip].expiresAt > now :: entries[ip];
    }

    /** Inserts, and sweeps out what has expired if the table has grown past the threshold. */
    method Insert(ip: Ip, hostname: seq<byte>, ttlSecs: u32)
      requires Valid()
      modifies this, clock
      ensures Valid()
      ensures old(clock.time) <= clock.time
      ensures exists at :: old(clock.time) <= at <= clock.time
                && history == old(history) + [Event.Insert(ip, hostname, ttlSecs, at)]
      ensures |entries| > 4096 ==> forall other | other in entries :: entries[other].expiresAt > clock.time
    {
      var ttl := ClampTtl(ttlSecs);
      var at := clock.Now();
      var expiresAt := at + ttl * SECOND;
      LatestSnoc(history, Event.Insert(ip, hostname, ttlSecs, at));
      entries := entries[ip := Entry(hostname, expiresAt)];
      history := history + [Event.Insert(ip, hostname, ttlSecs, at)];
      if |entries| > EVICTION_THRESHOLD {
        Sweep();
      }
    }

    /** Answers from the entries; the answer is the one the history owes, whatever was swept out before. */
    method Lookup(ip: Ip) returns (r: Option<seq<byte>>)
      requires Valid()
      modifies this, clock
      ensures Valid()
      ensures old(clock.time) <= clock.time
      ensures exists at :: old(clock.time) <= at <= clock.time
                && r == Answered(old(history), ip, at) && history == old(history) + [Event.Lookup(ip, at)]
    {
      var at := clock.Now();
      LatestSnoc(history, Event.Lookup(ip, at));
      r := None;
      if ip in entries {
        var entry := entries[ip];
        if entry.expiresAt > at {
          r := Some(entry.hostname);
        } else {
          entries := map other | other in entries && other != ip :: entries[other];
        }
      }
      assert r == Answered(history, ip, at);
      history := history + [Event.Lookup(ip, at)];
    }
  }

  // ---- filling it from a response ------------------------------------------------

  /** `fill` inserts exactly these answers, in order, at times from `start` on. */
  ghost predicate Fills(fill: seq<Event>, answers: seq<Answer>, start: nat) {
    && |fill| == |answers|
    && forall i | 0 <= i < |fill| ::
         && fill[i].Insert? && fill[i].ip == answers[i].ip && fill[i].host == answers[i].host
         && fill[i].ttl == answers[i].ttl && start <= fill[i].at
  }

  lemma FillsSnoc(fill: seq<Event>, answers: seq<Answer>, i: nat, start: nat, e: Event)
    requires i < |answers| && Fills(fill, answers[..i], start)
    requires e.Insert? && e.ip == answers[i].ip && e.host == answers[i].host && e.ttl == answers[i].ttl && start <= e.at
    ensures Fills(fill + [e], answers[..i + 1], start)
  {
    assert forall j: nat | j < i :: answers[..i + 1][j] == answers[..i][j];
  }

  lemma HistorySnoc(history: seq<Event>, fill: seq<Event>, e: Event)
    ensures history + fill + [e] == history + (fill + [e])
  {
  }

  /** What `handle_dns_query` does with a response: parse it and insert every record. */
  method FillFromResponse(table: Table, response: seq<byte>, utf8: Label -> bool) returns (ghost fill: seq<Event>)
    requires table.Valid()
    modifies table, table.clock
    ensures table.Valid()
    ensures old(table.clock.time) <= table.clock.time
    ensures Fills(fill, ParseResponse(response, utf8), old(table.clock.time))
    ensures table.history == old(table.history) + fill
  {
    var answers := ParseDnsResponseRecords(response, utf8);
    fill := [];
    for i := 0 to |answers|
      invariant table.Valid() && old(table.clock.time) <= table.clock.time
      invariant Fills(fill, answers[..i], old(table.clock.time))
      invariant table.history == old(table.history) + fill
    {
      ghost var before := table.history;
      table.Insert(answers[i].ip, answers[i].host, answers[i].ttl);
      ghost var e := table.history[|before|];
      FillsSnoc(fill, answers, i, old(table.clock.time), e);
      HistorySnoc(old(table.history), fill, e);
      fill := fill + [e];
    }
    assert answers[..|answers|] == answers;
  }

  // ---- an answer stays usable ----------------------------------------------------

  lemma {:induction false} AnsweredLater(history: seq<Event>, later: seq<Event>, ip: Ip)
    requires forall e | e in later :: !(e.Insert? && e.ip == ip)
    ensures Latest(history + later, ip) == Latest(history, ip)
  {
    if later == [] {
      assert history + [] == history;
    } else {
      var n := |later| - 1;
      assert forall e | e in later[..n] :: e in later;
      AnsweredLater(history, later[..n], ip);
      assert (history + later)[..|history + later| - 1] == history + later[..n];
      assert (history + later)[|history + later| - 1] == later[n] && later[n] in later;
    }
  }

  lemma {:induction false} LatestInFill(history: seq<Event>, fill: seq<Event>, ip: Ip) returns (k: nat)
    requires exists i :: 0 <= i < |fill| && fill[i].Insert? && fill[i].ip == ip
    ensures k < |fill| && fill[k].Insert? && fill[k].ip == ip && Latest(history + fill, ip) == Some(fill[k])
  {
    var n := |fill| - 1;
    assert (history + fill)[..|history + fill| - 1] == history + fill[..n];
    assert (history + fill)[|history + fill| - 1] == fill[n];
    if fill[n].Insert? && fill[n].ip == ip {
      k := n;
    } else {
      var i :| 0 <= i < |fill| && fill[i].Insert? && fill[i].ip == ip;
      assert fill[..n][i] == fill[i];
      k := LatestInFill(history, fill[..n], ip);
    }
  }

  lemma {:induction false} AddressesShareHost(rs: seq<Record>, host: seq<byte>)
    ensures forall a | a in Addresses(rs, host) :: a.host == host
  {
    if rs != [] {
      AddressesShareHost(rs[1..], host);
    }
  }

  lemma SectionsShareHost(data: seq<byte>, utf8: Label -> bool, offset: nat, host: seq<byte>, qdcount: nat, ancount: nat)
    ensures forall a | a in ParseSections(data, utf8, offset, host, qdcount, ancount) :: a.host == host
  {
    var start := SkipQuestions(data, utf8, offset, Further(qdcount));
    if start.Some? {
      AddressesShareHost(RecordsFrom(data, utf8, start.value, ancount), host);
    }
  }

  /** All answers of a response carry the name of its first question. */
  lemma ResponseHost(data: seq<byte>, utf8: Label -> bool)
    ensures forall a | a in ParseResponse(data, utf8) ::
              NameAt(data, utf8, HEADER_SIZE).Some? && a.host == NameAt(data, utf8, HEADER_SIZE).value.0
  {
    if |data| >= HEADER_SIZE && NameAt(data, utf8, HEADER_SIZE).Some? {
      var first := NameAt(data, utf8, HEADER_SIZE).value;
      SectionsShareHost(data, utf8, first.1 + 4, first.0, U16(data[4], data[5]), U16(data[6], data[7]));
    }
  }

  /**
   For a minute after a response is processed, every address in it is answered with the
   first question's name, unless something newer was inserted for that address.
  */
  lemma AnswerStaysUsable(history: seq<Event>, fill: seq<Event>, later: seq<Event>,
                          data: seq<byte>, utf8: Label -> bool, start: nat, a: Answer, t: nat)
    requires Fills(fill, ParseResponse(data, utf8), start) && a in ParseResponse(data, utf8)
    requires forall e | e in later :: !(e.Insert? && e.ip == a.ip)
    requires t < start + 60 * 1_000_000_000
    ensures NameAt(data, utf8, HEADER_SIZE).Some?
    ensures Answered(history + fill + later, a.ip, t) == Some(NameAt(data, utf8, HEADER_SIZE).value.0)
  {
    var i :| 0 <= i < |fill| && ParseResponse(data, utf8)[i] == a;
    assert fill[i].Insert? && fill[i].ip == a.ip;
    AnsweredLater(history + fill, later, a.ip);
    var k := LatestInFill(history, fill, a.ip);
    ResponseHost(data, utf8);
    assert ParseResponse(data, utf8)[k] in ParseResponse(data, utf8);
  }
}
