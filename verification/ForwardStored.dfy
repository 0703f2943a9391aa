/**
 Which value a point holds after a batch of `libs/voltage-routing/src/batch.rs`: the last write to it, which can depend
 on the order in which hash maps hand out the groups.
 */
module ForwardStored {
  import opened Basics
  import opened Routing
  import opened ForwardCascade

  /** The last write to the point. */
  function Last(log: seq<Update>, k: RouteKey): Option<Update> {
    if log == [] then None
    else if log[|log| - 1].key == k then Some(log[|log| - 1])
    else Last(log[..|log| - 1], k)
  }

  function AsSet(w: Option<Update>): set<Update> {
    if w.Some? then {w.value} else {}
  }

  lemma {:induction false} LastOfSum(a: seq<Update>, b: seq<Update>, k: RouteKey)
    ensures Last(a + b, k) == if Last(b, k).Some? then Last(b, k) else Last(a, k)
    decreases |b|
  {
    if b == [] {
      assert a + b == a;
    } else {
      LastOfSum(a, b[..|b| - 1], k);
      assert (a + b)[..|a + b| - 1] == a + b[..|b| - 1];
    }
  }

  // ---------------------------------------------------------------- the candidates

  /** The writes that can be the last ones to a point: per group those of its forwards, or else its own. */
  ghost function Finals(level: nat, routes: Routes, us: seq<Update>, visited: set<RouteKey>, k: RouteKey): set<Update>
    decreases level, 1
  {
    set g, w | g in Elements(GroupNames(us)) && w in GroupFinals(level, routes, Members(us, g), visited, k) :: w
  }

  ghost function GroupFinals(level: nat, routes: Routes, group: seq<Update>, visited: set<RouteKey>, k: RouteKey)
    : set<Update>
    decreases level, 0
  {
    var later :=
      if level == 0 then {} else Finals(level - 1, routes, Forwards(routes, group, visited), visited + Keys(group), k);
    if later != {} then later else AsSet(Last(group, k))
  }

  // ---------------------------------------------------------------- nothing else is stored

  /** The last write, if any, is a candidate; without one there is no candidate. */
  ghost predicate Explains(candidates: set<Update>, last: Option<Update>) {
    if last.Some? then last.value in candidates else candidates == {}
  }

  lemma {:induction false} GroupExplained(level: nat, routes: Routes, group: seq<Update>, visited: set<RouteKey>,
                                          log: seq<Update>, k: RouteKey)
    requires PossibleGroup(level, routes, group, visited, log)
    ensures Explains(GroupFinals(level, routes, group, visited, k), Last(log, k))
    decreases level, 0, 0
  {
    if level > 0 {
      var sub := log[|group|..];
      assert log == group + sub;
      LastOfSum(group, sub, k);
      BatchExplained(level - 1, routes, Forwards(routes, group, visited), visited + Keys(group), sub, k);
    }
  }

  ghost predicate OrderExplains(level: nat, routes: Routes, us: seq<Update>, visited: set<RouteKey>, order: seq<Group>,
                                k: RouteKey, last: Option<Update>) {
    if last.Some? then exists g :: g in order && last.value in GroupFinals(level, routes, Members(us, g), visited, k)
    else forall g | g in order :: GroupFinals(level, routes, Members(us, g), visited, k) == {}
  }

  lemma {:induction false} ExplainOneMore(level: nat, routes: Routes, us: seq<Update>, visited: set<RouteKey>,
                                          before: seq<Group>, g: Group, k: RouteKey, a: Option<Update>, b: Option<Update>)
    requires OrderExplains(level, routes, us, visited, before, k, a)
    requires Explains(GroupFinals(level, routes, Members(us, g), visited, k), b)
    ensures OrderExplains(level, routes, us, visited, before + [g], k, if b.Some? then b else a)
  {
    assert g in before + [g] && forall h | h in before :: h in before + [g];
  }

  lemma {:induction false} CutAtLast(level: nat, routes: Routes, us: seq<Update>, visited: set<RouteKey>,
                                     order: seq<Group>, log: seq<Update>) returns (a: seq<Update>, b: seq<Update>)
    requires order != [] && PossibleInOrder(level, routes, us, visited, order, log)
    ensures log == a + b && PossibleInOrder(level, routes, us, visited, order[..|order| - 1], a)
    ensures PossibleGroup(level, routes, Members(us, order[|order| - 1]), visited, b)
  {
    var n :| 0 <= n <= |log| && PossibleInOrder(level, routes, us, visited, order[..|order| - 1], log[..n])
             && PossibleGroup(level, routes, Members(us, order[|order| - 1]), visited, log[n..]);
    a, b := log[..n], log[n..];
  }

  lemma {:induction false} InOrderExplained(level: nat, routes: Routes, us: seq<Update>, visited: set<RouteKey>,
                                            order: seq<Group>, log: seq<Update>, k: RouteKey)
    requires PossibleInOrder(level, routes, us, visited, order, log)
    ensures OrderExplains(level, routes, us, visited, order, k, Last(log, k))
    decreases level, 1, |order|
  {
    if order != [] {
      var before, g := order[..|order| - 1], order[|order| - 1];
      var a, b := CutAtLast(level, routes, us, visited, order, log);
      LastOfSum(a, b, k);
      InOrderExplained(level, routes, us, visited, before, a, k);
      GroupExplained(level, routes, Members(us, g), visited, b, k);
      ExplainOneMore(level, routes, us, visited, before, g, k, Last(a, k), Last(b, k));
      assert order == before + [g];
    }
  }

  lemma {:induction false} BatchExplained(level: nat, routes: Routes, us: seq<Update>, visited: set<RouteKey>,
                                          log: seq<Update>, k: RouteKey)
    requires Possible(level, routes, us, visited, log)
    ensures Explains(Finals(level, routes, us, visited, k), Last(log, k))
    decreases level, 2, 0
  {
    var order :| IsOrderOf(us, order) && PossibleInOrder(level, routes, us, visited, order, log);
    InOrderExplained(level, routes, us, visited, order, log, k);
    AllGroupsExplain(level, routes, us, visited, order, k, Last(log, k));
  }

  lemma {:induction false} AllGroupsExplain(level: nat, routes: Routes, us: seq<Update>, visited: set<RouteKey>,
                                            order: seq<Group>, k: RouteKey, last: Option<Update>)
    requires IsOrderOf(us, order) && OrderExplains(level, routes, us, visited, order, k, last)
    ensures Explains(Finals(level, routes, us, visited, k), last)
  {
    assert forall g :: g in order <==> g in Elements(order);
  }

  // ---------------------------------------------------------------- every candidate can be stored

  /** The specification's own order is possible. */
  lemma {:induction false} BatchIsPossible(level: nat, routes: Routes, us: seq<Update>, visited: set<RouteKey>)
    returns (log: seq<Update>)
    ensures Possible(level, routes, us, visited, log)
    decreases level, 2, 0
  {
    var names := GroupNames(us);
    DistinctKeepsMembers(names);
    assert Elements(Distinct(names)) == Elements(names);
    log := SomeInOrder(level, routes, us, visited, Distinct(names));
    assert IsOrderOf(us, Distinct(names));
  }

  lemma {:induction false} SomeInOrder(level: nat, routes: Routes, us: seq<Update>, visited: set<RouteKey>,
                                       order: seq<Group>) returns (log: seq<Update>)
    ensures PossibleInOrder(level, routes, us, visited, order, log)
    decreases level, 1, |order|
  {
    if order == [] {
      log := [];
    } else {
      var before, g := order[..|order| - 1], order[|order| - 1];
      var a := SomeInOrder(level, routes, us, visited, before);
      var b := SomeGroup(level, routes, Members(us, g), visited);
      PossibleSum(level, routes, us, visited, before, g, a, b);
      assert order == before + [g];
      log := a + b;
    }
  }

  lemma {:induction false} SomeGroup(level: nat, routes: Routes, group: seq<Update>, visited: set<RouteKey>)
    returns (log: seq<Update>)
    ensures PossibleGroup(level, routes, group, visited, log)
    decreases level, 0, 0
  {
    if level == 0 {
      log := group;
    } else {
      var sub := BatchIsPossible(level - 1, routes, Forwards(routes, group, visited), visited + Keys(group));
      PossibleWith(level, routes, group, visited, sub);
      log := group + sub;
    }
  }

  lemma {:induction false} GroupReaches(level: nat, routes: Routes, group: seq<Update>, visited: set<RouteKey>,
                                        k: RouteKey, w: Update) returns (log: seq<Update>)
    requires w in GroupFinals(level, routes, group, visited, k)
    ensures PossibleGroup(level, routes, group, visited, log) && Last(log, k) == Some(w)
    decreases level, 0
  {
    if level == 0 {
      log := group;
    } else {
      var fs, seen := Forwards(routes, group, visited), visited + Keys(group);
      var sub;
      if Finals(level - 1, routes, fs, seen, k) != {} {
        sub := BatchReaches(level - 1, routes, fs, seen, k, w);
      } else {
        sub := BatchIsPossible(level - 1, routes, fs, seen);
        BatchExplained(level - 1, routes, fs, seen, sub, k);
      }
      PossibleWith(level, routes, group, visited, sub);
      LastOfSum(group, sub, k);
      log := group + sub;
    }
  }

  /** Every candidate is the last write in some order: its group comes last. */
  lemma {:induction false} BatchReaches(level: nat, routes: Routes, us: seq<Update>, visited: set<RouteKey>,
                                        k: RouteKey, w: Update) returns (log: seq<Update>)
    requires w in Finals(level, routes, us, visited, k)
    ensures Possible(level, routes, us, visited, log) && Last(log, k) == Some(w)
    decreases level, 1
  {
    var g :| g in Elements(GroupNames(us)) && w in GroupFinals(level, routes, Members(us, g), visited, k);
    var before := OthersFirst(us, g);
    var a := SomeInOrder(level, routes, us, visited, before);
    var b := GroupReaches(level, routes, Members(us, g), visited, k, w);
    PossibleSum(level, routes, us, visited, before, g, a, b);
    LastOfSum(a, b, k);
    log := a + b;
    assert IsOrderOf(us, before + [g]);
  }

  /** The other groups, in some order. */
  lemma OthersFirst(us: seq<Update>, g: Group) returns (order: seq<Group>)
    requires g in Elements(GroupNames(us))
    ensures IsOrderOf(us, order + [g])
  {
    order := SomeOrder(Elements(GroupNames(us)) - {g});
    ElementsAppend(order, g);
    assert forall i | 0 <= i < |order| :: order[i] in Elements(order);
  }

  lemma {:induction false} SomeOrder(groups: set<Group>) returns (order: seq<Group>)
    ensures NoRepeats(order) && Elements(order) == groups
  {
    if groups == {} {
      order := [];
    } else {
      var g :| g in groups;
      var rest := SomeOrder(groups - {g});
      ElementsAppend(rest, g);
      assert forall i | 0 <= i < |rest| :: rest[i] in Elements(rest);
      order := rest + [g];
    }
  }

  // ---------------------------------------------------------------- when the order matters

  /** The values a point can hold after a batch are exactly those of its candidates. */
  lemma {:induction false} StoredIsCandidate(routes: Routes, us: seq<Update>, k: RouteKey, w: Update)
    ensures w in Finals(MAX_DEPTH, routes, us, {}, k) <==>
            exists log :: Possible(MAX_DEPTH, routes, us, {}, log) && Last(log, k) == Some(w)
  {
    if w in Finals(MAX_DEPTH, routes, us, {}, k) {
      var log := BatchReaches(MAX_DEPTH, routes, us, {}, k, w);
    }
    if log :| Possible(MAX_DEPTH, routes, us, {}, log) && Last(log, k) == Some(w) {
      BatchExplained(MAX_DEPTH, routes, us, {}, log, k);
    }
  }

  function Stored(log: seq<Update>, k: RouteKey): Option<real> {
    if Last(log, k).None? then None else Some(Last(log, k).value.value)
  }

  ghost predicate OneOutcome(routes: Routes, us: seq<Update>, k: RouteKey) {
    forall a, b | Possible(MAX_DEPTH, routes, us, {}, a) && Possible(MAX_DEPTH, routes, us, {}, b) ::
      Stored(a, k) == Stored(b, k)
  }

  ghost predicate OneValue(writes: set<Update>) {
    forall v, w | v in writes && w in writes :: v.value == w.value
  }

  /** The value stored in a point is the same in every order if and only if its candidates carry one value. */
  lemma {:induction false} StoredValueIsDetermined(routes: Routes, us: seq<Update>, k: RouteKey)
    ensures OneOutcome(routes, us, k) <==> OneValue(Finals(MAX_DEPTH, routes, us, {}, k))
  {
    if OneOutcome(routes, us, k) {
      OutcomeGivesValue(routes, us, k);
    }
    if OneValue(Finals(MAX_DEPTH, routes, us, {}, k)) {
      ValueGivesOutcome(routes, us, k);
    }
  }

  lemma {:induction false} OutcomeGivesValue(routes: Routes, us: seq<Update>, k: RouteKey)
    requires OneOutcome(routes, us, k)
    ensures OneValue(Finals(MAX_DEPTH, routes, us, {}, k))
  {
    var finals := Finals(MAX_DEPTH, routes, us, {}, k);
    forall v, w | v in finals && w in finals
      ensures v.value == w.value
    {
      var a := BatchReaches(MAX_DEPTH, routes, us, {}, k, v);
      var b := BatchReaches(MAX_DEPTH, routes, us, {}, k, w);
      assert Stored(a, k) == Stored(b, k);
    }
  }

  lemma {:induction false} ValueGivesOutcome(routes: Routes, us: seq<Update>, k: RouteKey)
    requires OneValue(Finals(MAX_DEPTH, routes, us, {}, k))
    ensures OneOutcome(routes, us, k)
  {
    forall a, b | Possible(MAX_DEPTH, routes, us, {}, a) && Possible(MAX_DEPTH, routes, us, {}, b)
      ensures Stored(a, k) == Stored(b, k)
    {
      BatchExplained(MAX_DEPTH, routes, us, {}, a, k);
      BatchExplained(MAX_DEPTH, routes, us, {}, b, k);
    }
  }

  // ---------------------------------------------------------------- the writes themselves

  lemma {:induction false} GroupWrites(level: nat, routes: Routes, group: seq<Update>, visited: set<RouteKey>,
                                       log: seq<Update>)
    requires Within(level, group) && PossibleGroup(level, routes, group, visited, log)
    ensures multiset(log) == multiset(OneGroup(level, routes, group, visited).log)
    decreases level, 0, 0
  {
    ForwardsWithin(level, routes, group, visited);
    if level > 0 {
      var sub := log[|group|..];
      assert log == group + sub;
      PossibleWrites(level - 1, routes, Forwards(routes, group, visited), visited + Keys(group), sub);
    }
  }

  lemma {:induction false} InOrderWrites(level: nat, routes: Routes, us: seq<Update>, visited: set<RouteKey>,
                                         order: seq<Group>, log: seq<Update>)
    requires Within(level, us) && PossibleInOrder(level, routes, us, visited, order, log)
    ensures multiset(log) == multiset(InOrder(level, routes, us, visited, order).log)
    decreases level, 1, |order|
  {
    if order != [] {
      var before, g := order[..|order| - 1], order[|order| - 1];
      var a, b := CutAtLast(level, routes, us, visited, order, log);
      MembersWithin(level, us, g);
      InOrderWrites(level, routes, us, visited, before, a);
      GroupWrites(level, routes, Members(us, g), visited, b);
    }
  }

  /** In every order, at every level, a batch makes the same writes. */
  lemma {:induction false} PossibleWrites(level: nat, routes: Routes, us: seq<Update>, visited: set<RouteKey>,
                                          log: seq<Update>)
    requires Within(level, us) && Possible(level, routes, us, visited, log)
    ensures multiset(log) == multiset(Batch(level, routes, us, visited).log)
    decreases level, 2, 0
  {
    var order :| IsOrderOf(us, order) && PossibleInOrder(level, routes, us, visited, order, log);
    var names := GroupNames(us);
    InOrderWrites(level, routes, us, visited, order, log);
    DistinctKeepsMembers(names);
    assert Elements(Distinct(names)) == Elements(names);
    OrderDoesNotMatter(level, routes, us, visited, order, Distinct(names));
  }

  // ---------------------------------------------------------------- an input

  lemma {:induction false} AloneIsFinal(level: nat, routes: Routes, u: Update, visited: set<RouteKey>)
    requires u.key !in routes
    ensures u in Finals(level, routes, [u], visited, u.key)
  {
    var one: seq<Update> := [u];
    assert one[..|one| - 1] == [];
    assert Forwards(routes, [], visited) == [] && Members([], GroupOf(u)) == [];
    assert Forwards(routes, one, visited) == [] && Members(one, GroupOf(u)) == [] + one;
    assert [] + one == one;
    assert GroupNames([]) == [] && GroupNames(one)[0] == GroupOf(u);
    assert Elements(GroupNames([])) == {};
    assert u in GroupFinals(level, routes, one, visited, u.key);
  }

  lemma {:induction false} HopIsFinal(routes: Routes, u: Update)
    requires u.depth == 0 && u.key in routes && routes[u.key].key !in routes
    ensures Hop(routes, u) in GroupFinals(MAX_DEPTH, routes, [u], {}, routes[u.key].key)
  {
    var one: seq<Update> := [u];
    assert one[..|one| - 1] == [] && Keys(one) == {u.key};
    assert Forwards(routes, [], {}) == [];
    assert Forwards(routes, one, {}) == [Hop(routes, u)];
    AloneIsFinal(MAX_DEPTH - 1, routes, Hop(routes, u), {} + Keys(one));
  }

  /** Two groups that forward different values to one point: the hash order decides which one it holds. */
  lemma {:induction false} OrderDecides(routes: Routes, a: Update, b: Update)
    requires a.depth == 0 && b.depth == 0 && a.key in routes && b.key in routes && GroupOf(a) != GroupOf(b)
    requires routes[a.key].key == routes[b.key].key && routes[a.key].key !in routes
    requires Hop(routes, a).value != Hop(routes, b).value
    ensures !OneOutcome(routes, [a, b], routes[a.key].key)
  {
    var us, k := [a, b], routes[a.key].key;
    assert us[..1] == [a] && [a][..0] == [];
    assert Members([a], GroupOf(a)) == [a] && Members([a], GroupOf(b)) == [];
    assert Members(us, GroupOf(a)) == [a] && Members(us, GroupOf(b)) == [b];
    assert GroupNames(us)[0] == GroupOf(a) && GroupNames(us)[1] == GroupOf(b);
    HopIsFinal(routes, a);
    HopIsFinal(routes, b);
    assert Hop(routes, a) in Finals(MAX_DEPTH, routes, us, {}, k);
    assert Hop(routes, b) in Finals(MAX_DEPTH, routes, us, {}, k);
    StoredValueIsDetermined(routes, us, k);
  }
}
