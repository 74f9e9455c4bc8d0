/** Replay of the saved selections when the VPN connects. */
module SelectionReplay {
  datatype ProxyGroup = ProxyGroup(name: string, kind: string, all: seq<string>)

  datatype Call = Call(group: string, name: string)

  type Members = map<string, seq<string>>

  predicate IsBypass(name: string) {
    name == "DIRECT" || name == "REJECT"
  }

  /** The walk of the source; it ends on every graph because each turn visits a group for the first time. */
  predicate ResolvesToBypass(name: string, groups: Members, visited: set<string>)
    decreases groups.Keys - visited
  {
    if IsBypass(name) then true
    else if name !in groups || groups[name] == [] then false
    else if name in visited then false
    else
      assert name in groups.Keys - visited;
      ResolvesToBypass(groups[name][0], groups, visited + {name})
  }

  /** Taking the first member `k` times from `name` arrives at DIRECT or REJECT. */
  predicate BypassAfter(name: string, groups: Members, k: nat)
    decreases k
  {
    if k == 0 then IsBypass(name)
    else name in groups && groups[name] != [] && BypassAfter(groups[name][0], groups, k - 1)
  }

  ghost predicate LeadsToBypass(name: string, groups: Members) {
    exists k: nat :: BypassAfter(name, groups, k)
  }

  lemma {:induction false} WalkIsSound(name: string, groups: Members, visited: set<string>) returns (k: nat)
    requires ResolvesToBypass(name, groups, visited)
    ensures BypassAfter(name, groups, k)
    decreases groups.Keys - visited
  {
    if IsBypass(name) {
      k := 0;
    } else {
      assert name in groups.Keys - visited;
      var j := WalkIsSound(groups[name][0], groups, visited + {name});
      k := j + 1;
    }
  }

  /** No visited group is met again on a shortest way to a bypass. */
  lemma {:induction false} WalkIsComplete(name: string, groups: Members, visited: set<string>, k: nat)
    requires BypassAfter(name, groups, k) && (forall j: nat | j < k :: !BypassAfter(name, groups, j))
    requires forall v, j: nat | v in visited && j <= k :: !BypassAfter(v, groups, j)
    ensures ResolvesToBypass(name, groups, visited)
    decreases k
  {
    if k > 0 {
      assert !BypassAfter(name, groups, 0);
      forall j: nat | j < k - 1
        ensures !BypassAfter(groups[name][0], groups, j)
      {
        assert !BypassAfter(name, groups, j + 1);
      }
      WalkIsComplete(groups[name][0], groups, visited + {name}, k - 1);
    }
  }

  lemma {:induction false} Shortest(name: string, groups: Members, k: nat) returns (m: nat)
    requires BypassAfter(name, groups, k)
    ensures BypassAfter(name, groups, m) && forall j: nat | j < m :: !BypassAfter(name, groups, j)
  {
    m := 0;
    while !BypassAfter(name, groups, m)
      invariant m <= k && forall j: nat | j < m :: !BypassAfter(name, groups, j)
      decreases k - m
    {
      m := m + 1;
    }
  }

  /** On every graph, cyclic ones included, the guarded walk decides whether first members lead to a bypass. */
  lemma WalkDecidesBypass(name: string, groups: Members)
    ensures ResolvesToBypass(name, groups, {}) <==> LeadsToBypass(name, groups)
  {
    if ResolvesToBypass(name, groups, {}) {
      var k := WalkIsSound(name, groups, {});
    }
    if LeadsToBypass(name, groups) {
      var k: nat :| BypassAfter(name, groups, k);
      var m := Shortest(name, groups, k);
      WalkIsComplete(name, groups, {}, m);
    }
  }

  // ---- the replay ----------------------------------------------------------------

  /** `groupsByName`: of two groups with one name the later counts. */
  function MembersOf(groups: seq<ProxyGroup>): Members {
    if groups == [] then map[]
    else
      var last := groups[|groups| - 1];
      MembersOf(groups[..|groups| - 1])[last.name := last.all]
  }

  /** The map holds every group, of whatever kind, under its name: the last one, if several share it. */
  lemma {:induction false} MembersMean(groups: seq<ProxyGroup>, name: string)
    ensures name in MembersOf(groups) <==> exists i :: 0 <= i < |groups| && groups[i].name == name
    ensures forall i | 0 <= i < |groups| && groups[i].name == name && (forall j | i < j < |groups| :: groups[j].name != name) ::
              name in MembersOf(groups) && MembersOf(groups)[name] == groups[i].all
    decreases |groups|
  {
    if groups != [] {
      var n := |groups| - 1;
      MembersMean(groups[..n], name);
      assert forall i | 0 <= i < n :: groups[..n][i] == groups[i];
      assert groups[n].name == name || (name in MembersOf(groups) <==> name in MembersOf(groups[..n]));
    }
  }

  /** Taking the first member of the group of that name `k` times arrives at DIRECT or REJECT. */
  predicate FirstMembersArrive(groups: seq<ProxyGroup>, name: string, k: nat)
    decreases k
  {
    if k == 0 then name == "DIRECT" || name == "REJECT"
    else exists g :: g in groups && g.name == name && g.all != [] && FirstMembersArrive(groups, g.all[0], k - 1)
  }

  lemma {:induction false} ArrivalIsBypass(groups: seq<ProxyGroup>, name: string, k: nat)
    requires forall i, j | 0 <= i < j < |groups| :: groups[i].name != groups[j].name
    ensures FirstMembersArrive(groups, name, k) <==> BypassAfter(name, MembersOf(groups), k)
    decreases k
  {
    if k > 0 {
      MembersMean(groups, name);
      forall i | 0 <= i < |groups| && groups[i].name == name
        ensures name in MembersOf(groups) && MembersOf(groups)[name] == groups[i].all
        ensures groups[i].all != [] ==>
                  (FirstMembersArrive(groups, groups[i].all[0], k - 1)
                   <==> BypassAfter(groups[i].all[0], MembersOf(groups), k - 1))
      {
        if groups[i].all != [] {
          ArrivalIsBypass(groups, groups[i].all[0], k - 1);
        }
      }
      assert forall i | 0 <= i < |groups| :: groups[i] in groups;
    }
  }

  /** What the replay is for, without the walk. */
  ghost predicate Eligible(g: ProxyGroup, members: Members, selections: map<string, string>) {
    && g.kind == "Selector"
    && g.name in selections && selections[g.name] in g.all
    && !LeadsToBypass(g.all[0], members)
  }

  ghost predicate Owes(g: ProxyGroup, members: Members, selections: map<string, string>, c: Call) {
    Eligible(g, members, selections) && c == Call(g.name, selections[g.name])
  }

  /** Which of the first `n` groups owe the call. */
  ghost function Positions(groups: seq<ProxyGroup>, n: nat, members: Members, selections: map<string, string>,
                           c: Call): set<nat>
    requires n <= |groups|
  {
    set i: nat | i < n && Owes(groups[i], members, selections, c)
  }

  /** `MihomoApi`: a request may fail; the replay carries on all the same. */
  class MihomoApi {
    ghost var calls: seq<Call>

    method SelectProxy(group: string, name: string) returns (ok: bool)
      modifies this
      ensures calls == old(calls) + [Call(group, name)]
    {
      calls := calls + [Call(group, name)];
      if * {
        return false;
      }
      ok := true;
    }
  }

  method GroupsByName(groups: seq<ProxyGroup>) returns (members: Members)
    ensures members == MembersOf(groups)
  {
    members := map[];
    for i := 0 to |groups|
      invariant members == MembersOf(groups[..i])
    {
      members := members[groups[i].name := groups[i].all];
      assert groups[..i + 1][..i] == groups[..i];
    }
    assert groups[..|groups|] == groups;
  }

  /** The calls are, one for one, the eligible ones of the first `n` groups with their saved nodes. */
  ghost predicate OncePerEligible(calls: seq<Call>, groups: seq<ProxyGroup>, n: nat, members: Members,
                                  selections: map<string, string>)
    requires n <= |groups|
  {
    forall c :: multiset(calls)[c] == |Positions(groups, n, members, selections, c)|
  }

  lemma NoPositions(groups: seq<ProxyGroup>, members: Members, selections: map<string, string>)
    ensures OncePerEligible([], groups, 0, members, selections)
  {
    forall c
      ensures multiset([])[c] == |Positions(groups, 0, members, selections, c)|
    {
      assert Positions(groups, 0, members, selections, c) == {};
    }
  }

  lemma PositionsAt(groups: seq<ProxyGroup>, i: nat, members: Members, selections: map<string, string>, c: Call)
    requires i < |groups|
    ensures |Positions(groups, i + 1, members, selections, c)|
            == |Positions(groups, i, members, selections, c)| + if Owes(groups[i], members, selections, c) then 1 else 0
  {
    var shorter := Positions(groups, i, members, selections, c);
    assert Positions(groups, i + 1, members, selections, c)
           == if Owes(groups[i], members, selections, c) then shorter + {i} else shorter;
  }

  lemma PositionsGrow(groups: seq<ProxyGroup>, i: nat, members: Members, selections: map<string, string>, made: seq<Call>)
    requires i < |groups| && OncePerEligible(made, groups, i, members, selections)
    ensures var g := groups[i];
            if Eligible(g, members, selections)
            then OncePerEligible(made + [Call(g.name, selections[g.name])], groups, i + 1, members, selections)
            else OncePerEligible(made, groups, i + 1, members, selections)
  {
    var g := groups[i];
    var call := Call(g.name, if g.name in selections then selections[g.name] else "");
    var now := if Eligible(g, members, selections) then made + [call] else made;
    forall c
      ensures multiset(now)[c] == |Positions(groups, i + 1, members, selections, c)|
    {
      PositionsAt(groups, i, members, selections, c);
      assert multiset(made + [call]) == multiset(made) + multiset{call};
    }
  }

  /** The calls owed to the first `n` groups, in their order. */
  ghost function Owed(groups: seq<ProxyGroup>, n: nat, members: Members, selections: map<string, string>): seq<Call>
    requires n <= |groups|
  {
    if n == 0 then []
    else
      var g, before := groups[n - 1], Owed(groups, n - 1, members, selections);
      if Eligible(g, members, selections) then before + [Call(g.name, selections[g.name])] else before
  }

  lemma Appended(before: seq<Call>, owed: seq<Call>, c: Call)
    ensures before + owed + [c] == before + (owed + [c])
  {
  }

  method ReplaySelectionsOnConnect(api: MihomoApi, groups: seq<ProxyGroup>, selections: map<string, string>)
    modifies api
    ensures api.calls == old(api.calls) + Owed(groups, |groups|, MembersOf(groups), selections)
  {
    var members := GroupsByName(groups);
    ghost var before := api.calls;
    for i := 0 to |groups|
      invariant api.calls == before + Owed(groups, i, members, selections)
    {
      var group := groups[i];
      if group.kind != "Selector" || group.name !in selections { continue; }
      var saved := selections[group.name];
      if group.all == [] || saved !in group.all { continue; }
      WalkDecidesBypass(group.all[0], members);
      if ResolvesToBypass(group.all[0], members, {}) { continue; }
      var _ := api.SelectProxy(group.name, saved);
      Appended(before, Owed(groups, i, members, selections), Call(group.name, saved));
    }
  }

  /** Call for call, what is owed matches the eligible groups. */
  lemma {:induction false} OwedOnce(groups: seq<ProxyGroup>, n: nat, members: Members, selections: map<string, string>)
    requires n <= |groups|
    ensures OncePerEligible(Owed(groups, n, members, selections), groups, n, members, selections)
    decreases n
  {
    if n == 0 {
      NoPositions(groups, members, selections);
    } else {
      OwedOnce(groups, n - 1, members, selections);
      PositionsGrow(groups, n - 1, members, selections, Owed(groups, n - 1, members, selections));
    }
  }

  /** The calls come in the order of the groups: those of the first groups are the first calls. */
  lemma {:induction false} OwedInOrder(groups: seq<ProxyGroup>, n: nat, m: nat, members: Members,
                                       selections: map<string, string>)
    requires n <= m <= |groups|
    ensures Owed(groups, n, members, selections) <= Owed(groups, m, members, selections)
    decreases m
  {
    if n < m {
      OwedInOrder(groups, n, m - 1, members, selections);
    }
  }

  /** The call that replays a group's saved node. */
  ghost predicate Replays(groups: seq<ProxyGroup>, g: ProxyGroup, selections: map<string, string>, c: Call) {
    && g in groups && g.kind == "Selector"
    && g.name in selections && selections[g.name] in g.all
    && (forall k: nat :: !FirstMembersArrive(groups, g.all[0], k))
    && c.group == g.name && c.name == selections[g.name]
  }

  lemma ReplaysIsOwed(groups: seq<ProxyGroup>, g: ProxyGroup, selections: map<string, string>, c: Call)
    requires forall i, j | 0 <= i < j < |groups| :: groups[i].name != groups[j].name
    ensures Replays(groups, g, selections, c) <==> g in groups && Owes(g, MembersOf(groups), selections, c)
  {
    if g.all != [] {
      forall k: nat
        ensures FirstMembersArrive(groups, g.all[0], k) <==> BypassAfter(g.all[0], MembersOf(groups), k)
      {
        ArrivalIsBypass(groups, g.all[0], k);
      }
    }
  }

  /**
   With names as distinct as the keys of a map: each Selector whose saved node is a member, and
   whose first members never arrive at DIRECT or REJECT, is called for exactly once, with that
   node, and no other call is made.
  */
  lemma DistinctOnce(groups: seq<ProxyGroup>, selections: map<string, string>, c: Call)
    requires forall i, j | 0 <= i < j < |groups| :: groups[i].name != groups[j].name
    ensures var calls := Owed(groups, |groups|, MembersOf(groups), selections);
            && multiset(calls)[c] <= 1
            && (c in calls <==> exists g :: Replays(groups, g, selections, c))
  {
    var members := MembersOf(groups);
    var calls, at := Owed(groups, |groups|, members, selections), Positions(groups, |groups|, members, selections, c);
    OwedOnce(groups, |groups|, members, selections);
    assert c in calls <==> c in multiset(calls);
    if i :| i in at {
      assert at == {i};
      assert groups[i] in groups;
      ReplaysIsOwed(groups, groups[i], selections, c);
    }
    if g :| Replays(groups, g, selections, c) {
      ReplaysIsOwed(groups, g, selections, c);
      var i: nat :| i < |groups| && groups[i] == g;
      assert i in at;
    }
  }
}
