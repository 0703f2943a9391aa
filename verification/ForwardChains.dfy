/**
 What a batch of forwarded updates does compared with what each update would do on its own: the cycle detection of
 `libs/voltage-routing/src/batch.rs` shares its visited points within a group, so updates can block one another.
 */
module ForwardChains {
  import opened Basics
  import opened Routing
  import opened ForwardCascade

  // ---------------------------------------------------------------- updates on their own

  predicate Goes(routes: Routes, u: Update, visited: set<RouteKey>) {
    Routed(routes, u) && routes[u.key].key !in visited + {u.key}
  }

  /** What one update does on its own: hop until there is no route, the depth is used up, or a point comes again. */
  function Chain(routes: Routes, u: Update, visited: set<RouteKey>): (chain: seq<Update>)
    ensures chain != [] && chain[0] == u
    decreases MAX_DEPTH - u.depth
  {
    if Goes(routes, u, visited) then [u] + Chain(routes, Hop(routes, u), visited + {u.key}) else [u]
  }

  /** An update with the points that its own chain passed before it. */
  datatype Traced = Traced(u: Update, own: set<RouteKey>)

  function Plain(ts: seq<Traced>): seq<Update> {
    if ts == [] then [] else Plain(ts[..|ts| - 1]) + [ts[|ts| - 1].u]
  }

  function Chains(routes: Routes, ts: seq<Traced>): seq<Update> {
    if ts == [] then [] else Chains(routes, ts[..|ts| - 1]) + Chain(routes, ts[|ts| - 1].u, ts[|ts| - 1].own)
  }

  /** The updates of a batch as it is given, with nothing passed yet. */
  function Untraced(us: seq<Update>): seq<Traced> {
    if us == [] then [] else Untraced(us[..|us| - 1]) + [Traced(us[|us| - 1], {})]
  }

  function Onward(routes: Routes, t: Traced): Traced
    requires t.u.key in routes
  {
    Traced(Hop(routes, t.u), t.own + {t.u.key})
  }

  /** The hops that the members would make on their own. */
  function Onwards(routes: Routes, group: seq<Traced>): seq<Traced> {
    if group == [] then []
    else
      var before, t := Onwards(routes, group[..|group| - 1]), group[|group| - 1];
      if Goes(routes, t.u, t.own) then before + [Onward(routes, t)] else before
  }

  predicate Free(routes: Routes, u: Update, seen: set<RouteKey>) {
    Routed(routes, u) && routes[u.key].key !in seen
  }

  /** The hops that the group makes. */
  function Made(routes: Routes, group: seq<Traced>, visited: set<RouteKey>): seq<Traced> {
    if group == [] then []
    else
      var before, t := Made(routes, group[..|group| - 1], visited), group[|group| - 1];
      if Free(routes, t.u, visited + Keys(Plain(group))) then before + [Onward(routes, t)] else before
  }

  function TracedMembers(ts: seq<Traced>, g: Group): seq<Traced> {
    if ts == [] then []
    else
      var before, t := TracedMembers(ts[..|ts| - 1], g), ts[|ts| - 1];
      if GroupOf(t.u) == g then before + [t] else before
  }

  predicate OwnWithin(ts: seq<Traced>, visited: set<RouteKey>) {
    forall t | t in ts :: t.own <= visited
  }

  // ---------------------------------------------------------------- the condition

  /** No member's next point is visited, or the point of itself or an earlier member, unless its own chain passed it. */
  predicate NoneBlocked(routes: Routes, group: seq<Traced>, visited: set<RouteKey>) {
    group == [] ||
    (var before, t := group[..|group| - 1], group[|group| - 1];
     && NoneBlocked(routes, before, visited)
     && (Goes(routes, t.u, t.own) ==> Free(routes, t.u, visited + Keys(Plain(group)))))
  }

  /** The same for the hops of the group, which see the points of the whole group as visited. */
  predicate GroupClear(level: nat, routes: Routes, group: seq<Traced>, visited: set<RouteKey>)
    decreases level, 0
  {
    NoneBlocked(routes, group, visited) &&
    (level > 0 ==> Clear(level - 1, routes, Onwards(routes, group), visited + Keys(Plain(group))))
  }

  /** The updates of a batch do not block one another, at any hop. */
  predicate Clear(level: nat, routes: Routes, ts: seq<Traced>, visited: set<RouteKey>)
    decreases level, 1
  {
    forall g | g in Elements(GroupNames(Plain(ts))) :: GroupClear(level, routes, TracedMembers(ts, g), visited)
  }

  // ---------------------------------------------------------------- one group

  lemma PlainLast(before: seq<Traced>, t: Traced)
    ensures Plain(before + [t]) == Plain(before) + [t.u]
  {
    assert (before + [t])[..|before|] == before;
  }

  lemma {:induction false} PlainSize(ts: seq<Traced>)
    ensures |Plain(ts)| == |ts|
  {
    if ts != [] {
      PlainSize(ts[..|ts| - 1]);
    }
  }

  lemma {:induction false} PlainMembers(ts: seq<Traced>, g: Group)
    ensures Plain(TracedMembers(ts, g)) == Members(Plain(ts), g)
  {
    if ts != [] {
      var before, t := ts[..|ts| - 1], ts[|ts| - 1];
      PlainMembers(before, g);
      assert Plain(ts)[..|Plain(ts)| - 1] == Plain(before);
      PlainLast(TracedMembers(before, g), t);
    }
  }

  lemma {:induction false} PlainMade(routes: Routes, group: seq<Traced>, visited: set<RouteKey>)
    ensures Plain(Made(routes, group, visited)) == Forwards(routes, Plain(group), visited)
  {
    if group != [] {
      var before, t := group[..|group| - 1], group[|group| - 1];
      PlainMade(routes, before, visited);
      assert Plain(group)[..|Plain(group)| - 1] == Plain(before);
      if t.u.key in routes {
        PlainLast(Made(routes, before, visited), Onward(routes, t));
      }
    }
  }

  lemma {:induction false} PlainHas(ts: seq<Traced>, t: Traced)
    requires t in ts
    ensures t.u in Plain(ts) && t.u.key in Keys(Plain(ts))
  {
    var before, last := ts[..|ts| - 1], ts[|ts| - 1];
    if t != last {
      PlainHas(before, t);
    }
    assert last.u in Plain(ts);
  }

  lemma {:induction false} MadeComesFrom(routes: Routes, group: seq<Traced>, visited: set<RouteKey>, m: Traced)
    returns (t: Traced)
    requires m in Made(routes, group, visited)
    ensures t in group && t.u.key in routes && m == Onward(routes, t)
  {
    var before, last := group[..|group| - 1], group[|group| - 1];
    if m in Made(routes, before, visited) {
      t := MadeComesFrom(routes, before, visited, m);
    } else {
      t := last;
    }
  }

  lemma MadeOwnWithin(routes: Routes, group: seq<Traced>, visited: set<RouteKey>)
    requires OwnWithin(group, visited)
    ensures OwnWithin(Made(routes, group, visited), visited + Keys(Plain(group)))
  {
    forall m | m in Made(routes, group, visited)
      ensures m.own <= visited + Keys(Plain(group))
    {
      var t := MadeComesFrom(routes, group, visited, m);
      PlainHas(group, t);
    }
  }

  lemma ChainsLast(routes: Routes, ts: seq<Traced>, t: Traced)
    ensures Chains(routes, ts + [t]) == Chains(routes, ts) + Chain(routes, t.u, t.own)
  {
    assert (ts + [t])[..|ts|] == ts;
  }

  /** The chains of a group are its updates and the chains of their hops. */
  lemma {:induction false} ChainsSplit(routes: Routes, group: seq<Traced>)
    ensures multiset(Chains(routes, group)) ==
            multiset(Plain(group)) + multiset(Chains(routes, Onwards(routes, group)))
  {
    if group != [] {
      var before, t := group[..|group| - 1], group[|group| - 1];
      ChainsSplit(routes, before);
      var onwards := Onwards(routes, before);
      var rest := if Goes(routes, t.u, t.own) then Chain(routes, Hop(routes, t.u), t.own + {t.u.key}) else [];
      if Goes(routes, t.u, t.own) {
        ChainsLast(routes, onwards, Onward(routes, t));
      }
      assert Chain(routes, t.u, t.own) == [t.u] + rest;
      assert Chains(routes, Onwards(routes, group)) == Chains(routes, onwards) + rest;
      MoveFirst(Chains(routes, before), Plain(before), Chains(routes, onwards), t.u, rest);
    }
  }

  lemma MoveFirst(chains: seq<Update>, us: seq<Update>, rests: seq<Update>, u: Update, rest: seq<Update>)
    requires multiset(chains) == multiset(us) + multiset(rests)
    ensures multiset(chains + ([u] + rest)) == multiset(us + [u]) + multiset(rests + rest)
  {
  }

  /** The group makes some of those hops, and all of them if and only if none is blocked. */
  lemma {:induction false} MadeAreSome(routes: Routes, group: seq<Traced>, visited: set<RouteKey>)
    requires OwnWithin(group, visited)
    ensures NoneBlocked(routes, group, visited) ==> Made(routes, group, visited) == Onwards(routes, group)
    ensures multiset(Chains(routes, Made(routes, group, visited))) <= multiset(Chains(routes, Onwards(routes, group)))
    ensures multiset(Chains(routes, Made(routes, group, visited))) == multiset(Chains(routes, Onwards(routes, group)))
            <==> NoneBlocked(routes, group, visited)
  {
    if group != [] {
      var before, t := group[..|group| - 1], group[|group| - 1];
      assert group == before + [t];
      MadeAreSome(routes, before, visited);
      MadeStep(routes, before, t, visited);
      var made, onwards := Made(routes, before, visited), Onwards(routes, before);
      if Goes(routes, t.u, t.own) {
        var next := Onward(routes, t);
        ChainsLast(routes, onwards, next);
        if Free(routes, t.u, visited + Keys(Plain(group))) {
          ChainsLast(routes, made, next);
          AddToBoth(Chains(routes, made), Chains(routes, onwards), Chain(routes, next.u, next.own));
        } else {
          AddToOne(Chains(routes, made), Chains(routes, onwards), Chain(routes, next.u, next.own));
        }
      }
    }
  }

  lemma AddToBoth(a: seq<Update>, b: seq<Update>, c: seq<Update>)
    ensures multiset(a) <= multiset(b) ==> multiset(a + c) <= multiset(b + c)
    ensures multiset(a + c) == multiset(b + c) <==> multiset(a) == multiset(b)
  {
    Cancel(multiset(a), multiset(b), multiset(c));
  }

  lemma Cancel(a: multiset<Update>, b: multiset<Update>, c: multiset<Update>)
    ensures a + c == b + c <==> a == b
  {
    if a + c == b + c {
      forall u
        ensures a[u] == b[u]
      {
        assert (a + c)[u] == (b + c)[u];
      }
    }
  }

  lemma AddToOne(a: seq<Update>, b: seq<Update>, c: seq<Update>)
    requires multiset(a) <= multiset(b) && c != []
    ensures multiset(a) <= multiset(b + c) && multiset(a) != multiset(b + c)
  {
    var u := c[0];
    assert multiset(b + c)[u] == multiset(b)[u] + multiset(c)[u] && multiset(c)[u] > 0;
  }

  lemma {:induction false} MadeStep(routes: Routes, before: seq<Traced>, t: Traced, visited: set<RouteKey>)
    requires t.own <= visited
    ensures var group, goes := before + [t], Goes(routes, t.u, t.own);
            var free := Free(routes, t.u, visited + Keys(Plain(group)));
            && (free ==> goes)
            && (NoneBlocked(routes, group, visited) <==> NoneBlocked(routes, before, visited) && (goes ==> free))
            && Onwards(routes, group) == (if goes then Onwards(routes, before) + [Onward(routes, t)] else Onwards(routes, before))
            && Made(routes, group, visited) ==
               (if free then Made(routes, before, visited) + [Onward(routes, t)] else Made(routes, before, visited))
  {
    assert (before + [t])[..|before|] == before;
    PlainLast(before, t);
    KeysAppend(Plain(before), t.u);
  }

  // ---------------------------------------------------------------- a whole batch

  /** The chains, group by group. */
  function Gathered(routes: Routes, ts: seq<Traced>, order: seq<Group>): seq<Update> {
    if order == [] then []
    else Gathered(routes, ts, order[..|order| - 1]) + Chains(routes, TracedMembers(ts, order[|order| - 1]))
  }

  /** The writes of an update where it belongs, nothing elsewhere. */
  function Share(routes: Routes, t: Traced, here: bool): multiset<Update> {
    if here then multiset(Chain(routes, t.u, t.own)) else multiset{}
  }

  lemma {:induction false} GatheredOneMore(routes: Routes, ts: seq<Traced>, t: Traced, order: seq<Group>)
    requires NoRepeats(order)
    ensures multiset(Gathered(routes, ts + [t], order)) ==
            multiset(Gathered(routes, ts, order)) + Share(routes, t, GroupOf(t.u) in order)
    decreases |order|
  {
    if order != [] {
      var before, g := order[..|order| - 1], order[|order| - 1];
      GatheredOneMore(routes, ts, t, before);
      MembersOneMore(routes, ts, t, g);
      GatheredLast(routes, ts, order);
      GatheredLast(routes, ts + [t], order);
      LastOrBefore(order, GroupOf(t.u));
      AddShares(routes, t, multiset(Gathered(routes, ts, before)), multiset(Chains(routes, TracedMembers(ts, g))),
                GroupOf(t.u) in before, GroupOf(t.u) == g);
    }
  }

  lemma LastOrBefore(order: seq<Group>, g: Group)
    requires NoRepeats(order) && order != []
    ensures var before, last := order[..|order| - 1], order[|order| - 1];
            (g in order <==> g in before || g == last) && !(g in before && g == last)
  {
    assert order == order[..|order| - 1] + [order[|order| - 1]];
  }

  lemma AddShares(routes: Routes, t: Traced, a: multiset<Update>, b: multiset<Update>, x: bool, y: bool)
    requires !(x && y)
    ensures (a + Share(routes, t, x)) + (b + Share(routes, t, y)) == (a + b) + Share(routes, t, x || y)
  {
  }

  lemma {:induction false} MembersOneMore(routes: Routes, ts: seq<Traced>, t: Traced, g: Group)
    ensures multiset(Chains(routes, TracedMembers(ts + [t], g))) ==
            multiset(Chains(routes, TracedMembers(ts, g))) + Share(routes, t, GroupOf(t.u) == g)
  {
    assert (ts + [t])[..|ts|] == ts;
    ChainsLast(routes, TracedMembers(ts, g), t);
  }

  lemma GatheredLast(routes: Routes, ts: seq<Traced>, order: seq<Group>)
    requires order != []
    ensures multiset(Gathered(routes, ts, order)) ==
            multiset(Gathered(routes, ts, order[..|order| - 1])) +
            multiset(Chains(routes, TracedMembers(ts, order[|order| - 1])))
  {
  }

  lemma {:induction false} GatheredIsAll(routes: Routes, ts: seq<Traced>, order: seq<Group>)
    requires IsGrouping(Plain(ts), order)
    ensures multiset(Gathered(routes, ts, order)) == multiset(Chains(routes, ts))
    decreases |ts|
  {
    if ts == [] {
      GatheredNone(routes, order);
    } else {
      var before, t := ts[..|ts| - 1], ts[|ts| - 1];
      assert ts == before + [t];
      PlainLast(before, t);
      assert t.u in Plain(ts) && forall u | u in Plain(before) :: u in Plain(ts);
      GatheredIsAll(routes, before, order);
      GatheredOneMore(routes, before, t, order);
    }
  }

  lemma {:induction false} GatheredNone(routes: Routes, order: seq<Group>)
    ensures Gathered(routes, [], order) == []
    decreases |order|
  {
    if order != [] {
      GatheredNone(routes, order[..|order| - 1]);
    }
  }

  lemma {:induction false} TracedMembersAre(ts: seq<Traced>, g: Group, t: Traced)
    ensures t in TracedMembers(ts, g) <==> t in ts && GroupOf(t.u) == g
  {
    if ts != [] {
      TracedMembersAre(ts[..|ts| - 1], g, t);
      assert ts == ts[..|ts| - 1] + [ts[|ts| - 1]];
    }
  }

  lemma TracedMembersWithin(ts: seq<Traced>, g: Group, visited: set<RouteKey>)
    requires OwnWithin(ts, visited)
    ensures OwnWithin(TracedMembers(ts, g), visited)
  {
    forall t | t in TracedMembers(ts, g)
      ensures t.own <= visited
    {
      TracedMembersAre(ts, g, t);
    }
  }

  /** The writes are some of the chains', and all of them if and only if the condition holds. */
  predicate Compares(writes: seq<Update>, chains: seq<Update>, clear: bool) {
    && multiset(writes) <= multiset(chains)
    && (multiset(writes) == multiset(chains) <==> clear)
  }

  lemma ComparesSum(a: seq<Update>, b: seq<Update>, p: bool, c: seq<Update>, d: seq<Update>, q: bool)
    requires Compares(a, b, p) && Compares(c, d, q)
    ensures Compares(a + c, b + d, p && q)
  {
    if multiset(a + c) == multiset(b + d) {
      forall u
        ensures multiset(a)[u] == multiset(b)[u] && multiset(c)[u] == multiset(d)[u]
      {
        assert multiset(a + c)[u] == multiset(a)[u] + multiset(c)[u];
        assert multiset(b + d)[u] == multiset(b)[u] + multiset(d)[u];
      }
    }
  }

  predicate GroupCompared(level: nat, routes: Routes, group: seq<Traced>, visited: set<RouteKey>) {
    && Within(level, Plain(group))
    && Compares(OneGroup(level, routes, Plain(group), visited).log, Chains(routes, group),
                GroupClear(level, routes, group, visited))
  }

  predicate BatchCompared(level: nat, routes: Routes, ts: seq<Traced>, visited: set<RouteKey>) {
    && Within(level, Plain(ts))
    && Compares(Batch(level, routes, Plain(ts), visited).log, Chains(routes, ts), Clear(level, routes, ts, visited))
  }

  lemma {:induction false} GroupCompares(level: nat, routes: Routes, group: seq<Traced>, visited: set<RouteKey>)
    requires Within(level, Plain(group)) && OwnWithin(group, visited)
    ensures GroupCompared(level, routes, group, visited)
    decreases level, 0, 0
  {
    if level == 0 {
      GroupAtLimit(routes, group, visited);
    } else {
      MadeReady(level, routes, group, visited);
      BatchCompares(level - 1, routes, Made(routes, group, visited), visited + Keys(Plain(group)));
      GroupFromHops(level, routes, group, visited);
    }
  }

  lemma {:induction false} GroupFromHops(level: nat, routes: Routes, group: seq<Traced>, visited: set<RouteKey>)
    requires level > 0 && Within(level, Plain(group)) && OwnWithin(group, visited)
    requires BatchCompared(level - 1, routes, Made(routes, group, visited), visited + Keys(Plain(group)))
    ensures GroupCompared(level, routes, group, visited)
  {
    var made, seen := Made(routes, group, visited), visited + Keys(Plain(group));
    var sub, clear := Batch(level - 1, routes, Plain(made), seen).log, Clear(level - 1, routes, made, seen);
    var free, onwards := NoneBlocked(routes, group, visited), Chains(routes, Onwards(routes, group));
    var log, here := OneGroup(level, routes, Plain(group), visited).log, GroupClear(level, routes, group, visited);
    assert log == Plain(group) + sub by {
      MadeWithin(level, routes, group, visited);
    }
    assert here <==> free && clear by {
      ClearHere(level, routes, group, visited);
    }
    assert Compares(Chains(routes, made), onwards, free) by {
      MadeAreSome(routes, group, visited);
    }
    assert multiset(Chains(routes, group)) == multiset(Plain(group)) + multiset(onwards) by {
      ChainsSplit(routes, group);
    }
    GroupSum(Plain(group), sub, Chains(routes, made), onwards, Chains(routes, group), clear, free);
  }

  lemma {:induction false} GroupAtLimit(routes: Routes, group: seq<Traced>, visited: set<RouteKey>)
    requires Within(0, Plain(group))
    ensures GroupCompared(0, routes, group, visited)
  {
    NoHops(routes, group);
    ChainsSplit(routes, group);
    ForwardsWithin(0, routes, Plain(group), visited);
  }

  lemma {:induction false} MadeReady(level: nat, routes: Routes, group: seq<Traced>, visited: set<RouteKey>)
    requires level > 0 && Within(level, Plain(group)) && OwnWithin(group, visited)
    ensures var made := Made(routes, group, visited);
            Within(level - 1, Plain(made)) && OwnWithin(made, visited + Keys(Plain(group)))
  {
    ForwardsWithin(level, routes, Plain(group), visited);
    PlainMade(routes, group, visited);
    MadeOwnWithin(routes, group, visited);
  }

  lemma {:induction false} MadeWithin(level: nat, routes: Routes, group: seq<Traced>, visited: set<RouteKey>)
    requires level > 0 && Within(level, Plain(group)) && OwnWithin(group, visited)
    ensures var made, seen := Made(routes, group, visited), visited + Keys(Plain(group));
            && Within(level - 1, Plain(made))
            && OneGroup(level, routes, Plain(group), visited).log ==
               Plain(group) + Batch(level - 1, routes, Plain(made), seen).log
  {
    ForwardsWithin(level, routes, Plain(group), visited);
    PlainMade(routes, group, visited);
  }

  lemma {:induction false} ClearHere(level: nat, routes: Routes, group: seq<Traced>, visited: set<RouteKey>)
    requires level > 0 && OwnWithin(group, visited)
    ensures GroupClear(level, routes, group, visited) <==>
            && NoneBlocked(routes, group, visited)
            && Clear(level - 1, routes, Made(routes, group, visited), visited + Keys(Plain(group)))
  {
    MadeAreSome(routes, group, visited);
  }

  lemma {:induction false} NoHops(routes: Routes, group: seq<Traced>)
    requires Within(0, Plain(group))
    ensures Onwards(routes, group) == [] && forall visited :: NoneBlocked(routes, group, visited)
  {
    if group != [] {
      var before, t := group[..|group| - 1], group[|group| - 1];
      assert t.u in Plain(group) && forall u | u in Plain(before) :: u in Plain(group);
      NoHops(routes, before);
    }
  }

  lemma GroupSum(us: seq<Update>, sub: seq<Update>, made: seq<Update>, onwards: seq<Update>, chains: seq<Update>,
                 clear: bool, free: bool)
    requires Compares(sub, made, clear) && Compares(made, onwards, free)
    requires multiset(chains) == multiset(us) + multiset(onwards)
    ensures Compares(us + sub, chains, free && clear)
  {
    Cancel(multiset(sub), multiset(onwards), multiset(us));
    assert multiset(us + sub) == multiset(sub) + multiset(us);
    assert multiset(chains) == multiset(onwards) + multiset(us);
  }

  ghost predicate AllClear(level: nat, routes: Routes, ts: seq<Traced>, visited: set<RouteKey>, order: seq<Group>) {
    forall g | g in order :: GroupClear(level, routes, TracedMembers(ts, g), visited)
  }

  lemma {:induction false} InOrderCompares(level: nat, routes: Routes, ts: seq<Traced>, visited: set<RouteKey>,
                                           order: seq<Group>)
    requires Within(level, Plain(ts)) && OwnWithin(ts, visited)
    ensures Compares(InOrder(level, routes, Plain(ts), visited, order).log, Gathered(routes, ts, order),
                     AllClear(level, routes, ts, visited, order))
    decreases level, 1, |order|
  {
    if order != [] {
      var before, g := order[..|order| - 1], order[|order| - 1];
      assert order == before + [g];
      var group := TracedMembers(ts, g);
      PlainMembers(ts, g);
      MembersWithin(level, Plain(ts), g);
      TracedMembersWithin(ts, g, visited);
      InOrderCompares(level, routes, ts, visited, before);
      GroupCompares(level, routes, group, visited);
      ComparesSum(InOrder(level, routes, Plain(ts), visited, before).log, Gathered(routes, ts, before),
                  AllClear(level, routes, ts, visited, before),
                  OneGroup(level, routes, Plain(group), visited).log, Chains(routes, group),
                  GroupClear(level, routes, group, visited));
    }
  }

  lemma {:induction false} BatchCompares(level: nat, routes: Routes, ts: seq<Traced>, visited: set<RouteKey>)
    requires Within(level, Plain(ts)) && OwnWithin(ts, visited)
    ensures BatchCompared(level, routes, ts, visited)
    decreases level, 2, 0
  {
    var order := Distinct(GroupNames(Plain(ts)));
    InOrderCompares(level, routes, ts, visited, order);
    AppearanceIsGrouping(Plain(ts));
    GatheredIsAll(routes, ts, order);
    ClearInOrder(level, routes, ts, visited);
  }

  lemma {:induction false} ClearInOrder(level: nat, routes: Routes, ts: seq<Traced>, visited: set<RouteKey>)
    ensures AllClear(level, routes, ts, visited, Distinct(GroupNames(Plain(ts)))) <==> Clear(level, routes, ts, visited)
  {
    var names := GroupNames(Plain(ts));
    DistinctKeepsMembers(names);
    assert Elements(Distinct(names)) == Elements(names);
    assert forall g | g in Distinct(names) :: g in Elements(Distinct(names));
  }

  lemma {:induction false} PlainUntraced(us: seq<Update>)
    ensures Plain(Untraced(us)) == us && OwnWithin(Untraced(us), {})
  {
    if us != [] {
      PlainUntraced(us[..|us| - 1]);
      PlainLast(Untraced(us[..|us| - 1]), Traced(us[|us| - 1], {}));
    }
  }

  /**
   A batch makes only writes that its updates would make on their own, and makes all of them if and only if the updates
   do not block one another: at the first hop by an earlier update of the group, at later hops by any update of the
   group or an earlier hop beside it.
   */
  lemma {:induction false} BatchIsChains(routes: Routes, us: seq<Update>)
    ensures var writes, chains := Batch(MAX_DEPTH, routes, us, {}).log, Chains(routes, Untraced(us));
            && multiset(writes) <= multiset(chains)
            && (multiset(writes) == multiset(chains) <==> Clear(MAX_DEPTH, routes, Untraced(us), {}))
  {
    PlainUntraced(us);
    BatchCompares(MAX_DEPTH, routes, Untraced(us), {});
  }

  // ---------------------------------------------------------------- updates that never meet

  function Touched(routes: Routes, t: Traced): set<RouteKey> {
    Keys(Chain(routes, t.u, t.own))
  }

  lemma TouchedIs(routes: Routes, t: Traced)
    ensures t.u.key in Touched(routes, t)
    ensures Goes(routes, t.u, t.own) ==>
            && Touched(routes, Onward(routes, t)) <= Touched(routes, t)
            && routes[t.u.key].key in Touched(routes, t)
  {
    var chain := Chain(routes, t.u, t.own);
    assert chain[0] in chain;
    if Goes(routes, t.u, t.own) {
      var rest := Chain(routes, Hop(routes, t.u), t.own + {t.u.key});
      assert rest[0] in rest && forall v | v in rest :: v in chain;
    }
  }

  /** Updates of one group never touch the same point. */
  predicate Apart(routes: Routes, ts: seq<Traced>) {
    ts == [] ||
    (var before, t := ts[..|ts| - 1], ts[|ts| - 1];
     && Apart(routes, before)
     && forall v | v in before && GroupOf(v.u) == GroupOf(t.u) :: Touched(routes, v) !! Touched(routes, t))
  }

  /** No update touches a point visited by others. */
  predicate Unvisited(routes: Routes, ts: seq<Traced>, visited: set<RouteKey>) {
    forall t | t in ts :: Touched(routes, t) !! visited - t.own
  }

  predicate OneGroupOnly(ts: seq<Traced>, g: Group) {
    forall t | t in ts :: GroupOf(t.u) == g
  }

  lemma {:induction false} KeysOfPlain(ts: seq<Traced>, k: RouteKey) returns (t: Traced)
    requires k in Keys(Plain(ts))
    ensures t in ts && t.u.key == k
  {
    var before, last := ts[..|ts| - 1], ts[|ts| - 1];
    if last.u.key == k {
      t := last;
    } else {
      KeysAppend(Plain(before), last.u);
      t := KeysOfPlain(before, k);
    }
  }

  /** The last member touches no point of the others. */
  lemma {:induction false} LastApart(routes: Routes, before: seq<Traced>, t: Traced, g: Group)
    requires OneGroupOnly(before + [t], g) && Apart(routes, before + [t])
    ensures Touched(routes, t) !! Keys(Plain(before))
  {
    assert (before + [t])[..|before|] == before;
    assert forall v | v in before :: v in before + [t];
    assert t in before + [t];
    forall k | k in Keys(Plain(before))
      ensures k !in Touched(routes, t)
    {
      var v := KeysOfPlain(before, k);
      TouchedIs(routes, v);
    }
  }

  lemma {:induction false} ApartNotBlocked(routes: Routes, group: seq<Traced>, visited: set<RouteKey>, g: Group)
    requires OneGroupOnly(group, g) && Apart(routes, group) && Unvisited(routes, group, visited)
    ensures NoneBlocked(routes, group, visited)
  {
    if group != [] {
      var before, t := group[..|group| - 1], group[|group| - 1];
      assert group == before + [t];
      ApartNotBlocked(routes, before, visited, g);
      LastApart(routes, before, t, g);
      TouchedIs(routes, t);
      KeysAppend(Plain(before), t.u);
    }
  }

  lemma {:induction false} ApartEach(routes: Routes, group: seq<Traced>, g: Group, t: Traced)
    requires OneGroupOnly(group, g) && Apart(routes, group) && t in group
    ensures Touched(routes, t) !! Keys(Plain(group)) - {t.u.key}
  {
    var before, last := group[..|group| - 1], group[|group| - 1];
    assert group == before + [last];
    KeysAppend(Plain(before), last.u);
    if t in before {
      ApartEach(routes, before, g, t);
      TouchedIs(routes, last);
      assert GroupOf(t.u) == GroupOf(last.u) == g;
    } else {
      LastApart(routes, before, last, g);
    }
  }

  lemma {:induction false} OnwardComesFrom(routes: Routes, group: seq<Traced>, o: Traced) returns (t: Traced)
    requires o in Onwards(routes, group)
    ensures t in group && Goes(routes, t.u, t.own) && o == Onward(routes, t)
  {
    var before, last := group[..|group| - 1], group[|group| - 1];
    if o in Onwards(routes, before) {
      t := OnwardComesFrom(routes, before, o);
    } else {
      t := last;
    }
  }

  lemma {:induction false} OnwardsApart(routes: Routes, group: seq<Traced>, g: Group)
    requires OneGroupOnly(group, g) && Apart(routes, group)
    ensures Apart(routes, Onwards(routes, group))
  {
    if group != [] {
      var before, t := group[..|group| - 1], group[|group| - 1];
      assert group == before + [t];
      OnwardsApart(routes, before, g);
      var onwards := Onwards(routes, before);
      if Goes(routes, t.u, t.own) {
        assert (onwards + [Onward(routes, t)])[..|onwards|] == onwards;
        TouchedIs(routes, t);
        forall o | o in onwards
          ensures Touched(routes, o) !! Touched(routes, Onward(routes, t))
        {
          var v := OnwardComesFrom(routes, before, o);
          TouchedIs(routes, v);
          assert GroupOf(v.u) == GroupOf(t.u) == g;
        }
      }
    }
  }

  lemma {:induction false} OnwardsUnvisited(routes: Routes, group: seq<Traced>, visited: set<RouteKey>, g: Group)
    requires OneGroupOnly(group, g) && Apart(routes, group) && Unvisited(routes, group, visited)
    ensures Unvisited(routes, Onwards(routes, group), visited + Keys(Plain(group)))
  {
    forall o | o in Onwards(routes, group)
      ensures Touched(routes, o) !! visited + Keys(Plain(group)) - o.own
    {
      var t := OnwardComesFrom(routes, group, o);
      TouchedIs(routes, t);
      ApartEach(routes, group, g, t);
    }
  }

  lemma {:induction false} MembersApart(routes: Routes, ts: seq<Traced>, g: Group)
    requires Apart(routes, ts)
    ensures Apart(routes, TracedMembers(ts, g)) && OneGroupOnly(TracedMembers(ts, g), g)
  {
    if ts != [] {
      var before, t := ts[..|ts| - 1], ts[|ts| - 1];
      MembersApart(routes, before, g);
      var members := TracedMembers(before, g);
      assert (members + [t])[..|members|] == members;
      forall v | v in members
        ensures v in before
      {
        TracedMembersAre(before, g, v);
      }
    }
  }

  /** Updates of one group that never touch a common point do not block one another. */
  lemma {:induction false} ApartIsClear(level: nat, routes: Routes, ts: seq<Traced>, visited: set<RouteKey>)
    requires Apart(routes, ts) && Unvisited(routes, ts, visited)
    ensures Clear(level, routes, ts, visited)
    decreases level
  {
    forall g | g in Elements(GroupNames(Plain(ts)))
      ensures GroupClear(level, routes, TracedMembers(ts, g), visited)
    {
      var group := TracedMembers(ts, g);
      MembersApart(routes, ts, g);
      forall t | t in group
        ensures Touched(routes, t) !! visited - t.own
      {
        TracedMembersAre(ts, g, t);
      }
      ApartNotBlocked(routes, group, visited, g);
      if level > 0 {
        OnwardsApart(routes, group, g);
        OnwardsUnvisited(routes, group, visited, g);
        ApartIsClear(level - 1, routes, Onwards(routes, group), visited + Keys(Plain(group)));
      }
    }
  }

  // ---------------------------------------------------------------- single updates

  lemma {:induction false} OneTraced(t: Traced)
    ensures Plain([t]) == [t.u] && TracedMembers([t], GroupOf(t.u)) == [t]
  {
    var one: seq<Traced> := [t];
    assert one[..|one| - 1] == [];
  }

  lemma OneGroupName(u: Update)
    ensures Elements(GroupNames([u])) == {GroupOf(u)}
  {
    assert GroupNames([u]) == [GroupOf(u)];
  }

  lemma OneKey(u: Update)
    ensures Keys([u]) == {u.key}
  {
    assert [] + [u] == [u];
    KeysAppend([], u);
  }

  lemma {:induction false} SingleIsClear(level: nat, routes: Routes, t: Traced)
    ensures Clear(level, routes, [t], t.own)
    decreases level
  {
    OneTraced(t);
    OneGroupName(t.u);
    OneKey(t.u);
    var one: seq<Traced> := [t];
    assert [] + [t] == one;
    MadeStep(routes, [], t, t.own);
    if level > 0 {
      if Goes(routes, t.u, t.own) {
        assert [] + [Onward(routes, t)] == [Onward(routes, t)];
        SingleIsClear(level - 1, routes, Onward(routes, t));
      } else {
        NothingIsClear(level - 1, routes, t.own + Keys(Plain(one)));
      }
    }
    assert GroupClear(level, routes, one, t.own);
  }

  lemma NothingIsClear(level: nat, routes: Routes, visited: set<RouteKey>)
    ensures Clear(level, routes, [], visited)
  {
    assert GroupNames(Plain([])) == [];
  }

  /** A single update: its chain, and one refusal exactly when the chain stops at a point seen before. */
  lemma {:induction false} SingleUpdate(routes: Routes, u: Update)
    ensures var r, chain := Batch(MAX_DEPTH, routes, [u], {}), Chain(routes, u, {});
            && multiset(r.log) == multiset(chain)
            && r.forwards == |chain| - 1
            && r.cycles == if Routed(routes, chain[|chain| - 1]) then 1 else 0
  {
    var r, chain := Batch(MAX_DEPTH, routes, [u], {}), Chain(routes, u, {});
    SingleLog(routes, u);
    BatchConserves(MAX_DEPTH, routes, [u], {});
    SameCounts(routes, 1, r, chain);
    ChainCount(routes, u, {});
  }

  lemma {:induction false} SingleLog(routes: Routes, u: Update)
    ensures multiset(Batch(MAX_DEPTH, routes, [u], {}).log) == multiset(Chain(routes, u, {}))
  {
    var t := Traced(u, {});
    assert [u][..0] == [];
    assert Untraced([u]) == [t];
    BatchIsChains(routes, [u]);
    SingleIsClear(MAX_DEPTH, routes, t);
    ChainsLast(routes, [], t);
    assert [] + [t] == [t];
  }

  lemma WithoutMultiset(us: seq<Update>, j: nat)
    requires j < |us|
    ensures multiset(us) == multiset(Without(us, j)) + multiset{us[j]}
  {
    assert us == us[..j] + ([us[j]] + us[j + 1..]);
  }

  lemma WithoutSame(a: seq<Update>, i: nat, b: seq<Update>, j: nat)
    requires multiset(a) == multiset(b) && i < |a| && j < |b| && a[i] == b[j]
    ensures multiset(Without(a, i)) == multiset(Without(b, j))
  {
    WithoutMultiset(a, i);
    WithoutMultiset(b, j);
    var x, y := multiset(Without(a, i)), multiset(Without(b, j));
    forall u
      ensures x[u] == y[u]
    {
      assert (x + multiset{a[i]})[u] == (y + multiset{a[i]})[u];
    }
  }

  lemma {:induction false} SameCounts(routes: Routes, given: nat, r: Outcome, writes: seq<Update>)
    requires Balanced(routes, given, r) && multiset(r.log) == multiset(writes)
    ensures |writes| == given + r.forwards && CountRouted(routes, writes) == r.forwards + r.cycles
  {
    assert |multiset(r.log)| == |r.log| && |multiset(writes)| == |writes|;
    CountOfSame(routes, r.log, writes);
  }

  lemma {:induction false} CountTakeOut(routes: Routes, us: seq<Update>, j: nat)
    requires j < |us|
    ensures CountRouted(routes, us) == CountRouted(routes, Without(us, j)) + if Routed(routes, us[j]) then 1 else 0
  {
    assert us == us[..j] + ([us[j]] + us[j + 1..]);
    CountAppend(routes, us[..j], [us[j]] + us[j + 1..]);
    CountAppend(routes, [us[j]], us[j + 1..]);
    CountAppend(routes, us[..j], us[j + 1..]);
    assert [us[j]][..0] == [];
  }

  lemma {:induction false} CountOfSame(routes: Routes, a: seq<Update>, b: seq<Update>)
    requires multiset(a) == multiset(b)
    ensures CountRouted(routes, a) == CountRouted(routes, b)
    decreases |a|
  {
    assert |multiset(a)| == |a| && |multiset(b)| == |b|;
    if a != [] {
      var n := |a| - 1;
      assert a[n] in multiset(b);
      var j :| 0 <= j < |b| && b[j] == a[n];
      WithoutSame(a, n, b, j);
      CountOfSame(routes, Without(a, n), Without(b, j));
      CountTakeOut(routes, a, n);
      CountTakeOut(routes, b, j);
    }
  }

  lemma {:induction false} ChainCount(routes: Routes, u: Update, visited: set<RouteKey>)
    ensures var chain := Chain(routes, u, visited);
            CountRouted(routes, chain) == |chain| - 1 + if Routed(routes, chain[|chain| - 1]) then 1 else 0
    decreases MAX_DEPTH - u.depth
  {
    assert [u][..0] == [];
    if Goes(routes, u, visited) {
      var rest := Chain(routes, Hop(routes, u), visited + {u.key});
      ChainCount(routes, Hop(routes, u), visited + {u.key});
      CountAppend(routes, [u], rest);
    }
  }

  // ---------------------------------------------------------------- refusals without a cycle

  lemma PairGroups(a: Update, b: Update)
    requires GroupOf(a) == GroupOf(b)
    ensures Distinct(GroupNames([a, b])) == [GroupOf(a)] && Members([a, b], GroupOf(a)) == [a, b]
  {
    var g, us := GroupOf(a), [a, b];
    assert us[..1] == [a] && [a][..0] == [];
    var one: seq<Group> := [g];
    assert GroupNames(us) == one + [g] && (one + [g])[..1] == one && one[..0] == [];
    assert Distinct(one) == one;
    assert Members(us[..1], g) == [a];
  }

  lemma {:induction false} PairBatch(routes: Routes, a: Update, b: Update)
    requires GroupOf(a) == GroupOf(b)
    ensures Batch(MAX_DEPTH, routes, [a, b], {}) == OneGroup(MAX_DEPTH, routes, [a, b], {})
  {
    PairGroups(a, b);
    OneGroupBatch(MAX_DEPTH, routes, [a, b], {}, GroupOf(a));
  }

  lemma {:induction false} OneGroupBatch(level: nat, routes: Routes, us: seq<Update>, visited: set<RouteKey>, g: Group)
    requires Within(level, us) && Distinct(GroupNames(us)) == [g] && Members(us, g) == us
    ensures Batch(level, routes, us, visited) == OneGroup(level, routes, us, visited)
  {
    var order: seq<Group> := [g];
    assert order[..|order| - 1] == [];
    var one := OneGroup(level, routes, us, visited);
    assert InOrder(level, routes, us, visited, []) == Outcome([], 0, 0);
    assert InOrder(level, routes, us, visited, order) == Plus(Outcome([], 0, 0), one);
    assert [] + one.log == one.log;
  }

  /**
   The route from `a` to `b` is no cycle, since `b` is routed nowhere. Still `a` is not forwarded when `b` is updated
   before it in the same batch, and it is when `b` comes after it.
   */
  lemma {:induction false} RefusalWithoutCycle(routes: Routes, a: Update, b: Update)
    requires Routed(routes, a) && routes[a.key].key == b.key && b.key != a.key && b.key !in routes
    requires GroupOf(a) == GroupOf(b)
    ensures Batch(MAX_DEPTH, routes, [b, a], {}).cycles == 1 && Batch(MAX_DEPTH, routes, [b, a], {}).forwards == 0
    ensures Chain(routes, a, {}) == [a, Hop(routes, a)] && Chain(routes, b, {}) == [b]
    ensures Forwards(routes, [a, b], {}) == [Hop(routes, a)] && Refused(routes, [a, b], {}) == 0
  {
    PairBatch(routes, b, a);
    PairForwards(routes, a, b);
    assert [a, Hop(routes, a)] == [a] + [Hop(routes, a)];
    EmptyBatch(MAX_DEPTH, routes, [b, a], {});
  }

  lemma {:induction false} PairForwards(routes: Routes, a: Update, b: Update)
    requires Routed(routes, a) && routes[a.key].key == b.key && b.key != a.key && b.key !in routes
    ensures Forwards(routes, [b, a], {}) == [] && Refused(routes, [b, a], {}) == 1
    ensures Forwards(routes, [a, b], {}) == [Hop(routes, a)] && Refused(routes, [a, b], {}) == 0
  {
    assert [b, a][..1] == [b] && [a, b][..1] == [a];
    OneForwards(routes, a);
    OneForwards(routes, b);
    assert b in [b, a] && b.key in Keys([b, a]);
  }

  lemma {:induction false} OneForwards(routes: Routes, u: Update)
    requires u.key in routes ==> routes[u.key].key != u.key
    ensures Forwards(routes, [u], {}) == if Routed(routes, u) then [Hop(routes, u)] else []
    ensures Refused(routes, [u], {}) == 0
  {
    var one: seq<Update> := [u];
    assert one[..|one| - 1] == [] && Keys(one) == {u.key};
    assert Forwards(routes, [], {}) == [] && Refused(routes, [], {}) == 0;
  }

  /**
   Routes lead from `a` over a point `b` to `c`, which is routed nowhere. The second hop of `a` is refused when `c` is
   updated in the group of `a`, even after it.
   */
  lemma {:induction false} SecondHopRefused(routes: Routes, a: Update, c: Update)
    requires a.depth == 0 && a.key in routes && routes[a.key].key in routes && c.key !in routes
    requires routes[routes[a.key].key].key == c.key && routes[a.key].key != a.key && a.key != c.key
    requires GroupOf(a) == GroupOf(c)
    ensures Chain(routes, a, {}) == [a, Hop(routes, a), Hop(routes, Hop(routes, a))]
    ensures Batch(MAX_DEPTH, routes, [a, c], {}) == Outcome([a, c] + [Hop(routes, a)], 1, 1)
  {
    var b := Hop(routes, a);
    assert Chain(routes, Hop(routes, b), {} + {a.key} + {b.key}) == [Hop(routes, b)];
    assert Chain(routes, b, {} + {a.key}) == [b] + [Hop(routes, b)];
    assert [a] + ([b] + [Hop(routes, b)]) == [a, b, Hop(routes, b)];
    PairBatch(routes, a, c);
    SecondHopGroup(routes, a, c);
  }

  lemma {:induction false} SecondHopGroup(routes: Routes, a: Update, c: Update)
    requires a.depth == 0 && a.key in routes && routes[a.key].key in routes && c.key !in routes
    requires routes[routes[a.key].key].key == c.key && routes[a.key].key != a.key
    ensures OneGroup(MAX_DEPTH, routes, [a, c], {}) == Outcome([a, c] + [Hop(routes, a)], 1, 1)
  {
    FirstHopOnly(routes, a, c);
    assert c in [a, c] && c.key in {} + Keys([a, c]);
    RefusedAlone(routes, Hop(routes, a), {} + Keys([a, c]));
  }

  lemma {:induction false} FirstHopOnly(routes: Routes, a: Update, c: Update)
    requires Routed(routes, a) && routes[a.key].key !in {a.key} && c.key !in routes
    ensures Forwards(routes, [a, c], {}) == [Hop(routes, a)] && Refused(routes, [a, c], {}) == 0
  {
    assert [a, c][..1] == [a];
    OneForwards(routes, a);
  }

  lemma {:induction false} RefusedAlone(routes: Routes, u: Update, seen: set<RouteKey>)
    requires Routed(routes, u) && routes[u.key].key in seen && Within(1, [u])
    ensures Batch(1, routes, [u], seen) == Outcome([u], 0, 1)
  {
    var one: seq<Update> := [u];
    assert one[..|one| - 1] == [];
    assert Forwards(routes, [], seen) == [] && Refused(routes, [], seen) == 0;
    assert Forwards(routes, one, seen) == [] && Refused(routes, one, seen) == 1;
    var names: seq<Group> := [GroupOf(u)];
    assert GroupNames(one) == names && names[..0] == [] && Distinct(names) == names;
    assert Members(one, GroupOf(u)) == one;
    OneGroupBatch(1, routes, one, seen, GroupOf(u));
    EmptyBatch(1, routes, one, seen);
  }

  // ---------------------------------------------------------------- one forward

  lemma {:induction false} WrittenFirst(level: nat, routes: Routes, u: Update, visited: set<RouteKey>, log: seq<Update>)
    requires Possible(level, routes, [u], visited, log)
    ensures log != [] && log[0] == u
  {
    var one: seq<Update> := [u];
    var order :| IsOrderOf(one, order) && PossibleInOrder(level, routes, one, visited, order, log);
    OneGroupName(u);
    NoRepeatsBySize(order);
    assert |order| == 1 && order[0] in Elements(order);
    var n :| 0 <= n <= |log|
      && PossibleInOrder(level, routes, one, visited, order[..|order| - 1], log[..n])
      && PossibleGroup(level, routes, Members(one, order[|order| - 1]), visited, log[n..]);
    assert one[..0] == [] && Members(one, GroupOf(u)) == one;
    assert log[n..][0] == log[n];
  }

  /** An update whose target is routed nowhere is written, and then the target, with the value its route makes of it. */
  method ForwardOne(routes: Routes, instances: Instances, u: Update) returns (r: Outcome, writes: seq<InstanceWrite>)
    requires u.depth == 0 && u.key in routes && routes[u.key].key != u.key && routes[u.key].key !in routes
    ensures var t := routes[u.key];
            r == Outcome([u, Update(t.key, t.scale * u.value + t.offset, None, 1)], 1, 0)
    ensures writes == InstanceWrites(instances, r.log)
  {
    r, writes := WriteBatch(MAX_DEPTH, routes, instances, [u], {});
    OneForwarded(routes, u, r);
  }

  lemma OneForwarded(routes: Routes, u: Update, r: Outcome)
    requires u.depth == 0 && u.key in routes && routes[u.key].key != u.key && routes[u.key].key !in routes
    requires Same(r, Batch(MAX_DEPTH, routes, [u], {})) && Possible(MAX_DEPTH, routes, [u], {}, r.log)
    ensures var t := routes[u.key];
            r == Outcome([u, Update(t.key, t.scale * u.value + t.offset, None, 1)], 1, 0)
  {
    var t := routes[u.key];
    var w := Update(t.key, t.scale * u.value + t.offset, None, 1);
    ChainOfTwo(routes, u, w);
    SingleUpdate(routes, u);
    WrittenFirst(MAX_DEPTH, routes, u, {}, r.log);
    TwoWrites(r.log, u, w);
  }

  lemma {:induction false} ChainOfTwo(routes: Routes, u: Update, w: Update)
    requires u.depth == 0 && u.key in routes && routes[u.key].key != u.key && routes[u.key].key !in routes
    requires w == Update(routes[u.key].key, routes[u.key].scale * u.value + routes[u.key].offset, None, 1)
    ensures Chain(routes, u, {}) == [u, w]
  {
    assert Hop(routes, u) == w && !Goes(routes, w, {} + {u.key}) && Goes(routes, u, {});
    assert Chain(routes, u, {}) == [u] + Chain(routes, w, {} + {u.key}) == [u] + [w];
  }

  lemma TwoWrites(log: seq<Update>, u: Update, w: Update)
    requires log != [] && log[0] == u && multiset(log) == multiset([u, w])
    ensures log == [u, w]
  {
    assert |log| == |multiset(log)| == 2;
    assert log == [u] + [log[1]];
    assert multiset{log[1]} == multiset(log) - multiset{u} == multiset{w};
    assert log[1] in multiset{w};
  }
}
