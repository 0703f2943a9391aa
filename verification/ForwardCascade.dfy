/**
 Channel-to-channel forwarding of `libs/voltage-routing/src/batch.rs`: a batch of point updates is written group by
 group, and each group forwards its routed updates as a new batch, with cycle detection and a depth limit.
 */
module ForwardCascade {
  import opened Basics
  import opened Routing

  const MAX_DEPTH := 2

  datatype Update = Update(key: RouteKey, value: real, raw: Option<real>, depth: nat)

  type Routes = map<RouteKey, C2CTarget>

  type Group = (U32, PointType)

  function GroupOf(u: Update): Group {
    (u.key.id, u.key.kind)
  }

  predicate Routed(routes: Routes, u: Update) {
    u.depth < MAX_DEPTH && u.key in routes
  }

  /** The forwarded update: transformed value, no raw value, one level deeper. */
  function Hop(routes: Routes, u: Update): Update
    requires u.key in routes
  {
    var t := routes[u.key];
    Update(t.key, t.scale * u.value + t.offset, None, u.depth + 1)
  }

  function Keys(us: seq<Update>): set<RouteKey> {
    set u | u in us :: u.key
  }

  lemma KeysAppend(us: seq<Update>, u: Update)
    ensures Keys(us + [u]) == Keys(us) + {u.key}
  {
    assert u in us + [u];
    assert forall v | v in us :: v in us + [u];
  }

  // ---------------------------------------------------------------- one batch

  /** The forwards of a group: refused when the target is visited or among the group's keys so far. */
  function Forwards(routes: Routes, group: seq<Update>, visited: set<RouteKey>): seq<Update> {
    if group == [] then []
    else
      var before, u := Forwards(routes, group[..|group| - 1], visited), group[|group| - 1];
      if Routed(routes, u) && routes[u.key].key !in visited + Keys(group) then before + [Hop(routes, u)] else before
  }

  function Refused(routes: Routes, group: seq<Update>, visited: set<RouteKey>): nat {
    if group == [] then 0
    else
      var before, u := Refused(routes, group[..|group| - 1], visited), group[|group| - 1];
      if Routed(routes, u) && routes[u.key].key in visited + Keys(group) then before + 1 else before
  }

  function Members(us: seq<Update>, g: Group): seq<Update> {
    if us == [] then []
    else
      var before, u := Members(us[..|us| - 1], g), us[|us| - 1];
      if GroupOf(u) == g then before + [u] else before
  }

  function GroupNames(us: seq<Update>): seq<Group> {
    seq(|us|, i requires 0 <= i < |us| => GroupOf(us[i]))
  }

  /** Each update is at most `level` hops away from the depth limit. */
  predicate Within(level: nat, us: seq<Update>) {
    forall u | u in us :: u.depth + level >= MAX_DEPTH
  }

  /** A group holds the updates of one channel and point type. */
  lemma {:induction false} MembersAre(us: seq<Update>, g: Group, u: Update)
    ensures u in Members(us, g) <==> u in us && u.key.id == g.0 && u.key.kind == g.1
  {
    if us != [] {
      MembersAre(us[..|us| - 1], g, u);
      assert us == us[..|us| - 1] + [us[|us| - 1]];
    }
  }

  lemma MembersWithin(level: nat, us: seq<Update>, g: Group)
    requires Within(level, us)
    ensures Within(level, Members(us, g))
  {
    forall u | u in Members(us, g)
      ensures u in us
    {
      MembersAre(us, g, u);
    }
  }

  /** Each forward is the hop of a routed member to a key outside the visited ones. */
  lemma {:induction false} ForwardComesFrom(routes: Routes, group: seq<Update>, visited: set<RouteKey>, f: Update)
    returns (u: Update)
    requires f in Forwards(routes, group, visited)
    ensures u in group && Routed(routes, u) && f == Hop(routes, u) && f.key !in visited && f.key != u.key
  {
    var before, last := group[..|group| - 1], group[|group| - 1];
    assert group == before + [last];
    if f in Forwards(routes, before, visited) {
      u := ForwardComesFrom(routes, before, visited, f);
    } else {
      u := last;
      assert u.key in Keys(group);
    }
  }

  lemma ForwardsWithin(level: nat, routes: Routes, group: seq<Update>, visited: set<RouteKey>)
    requires Within(level, group)
    ensures level == 0 ==> Forwards(routes, group, visited) == []
    ensures level > 0 ==> Within(level - 1, Forwards(routes, group, visited))
  {
    var fs := Forwards(routes, group, visited);
    if level == 0 && fs != [] {
      var u := ForwardComesFrom(routes, group, visited, fs[0]);
    } else if level > 0 {
      forall f | f in fs
        ensures f.depth + (level - 1) >= MAX_DEPTH
      {
        var u := ForwardComesFrom(routes, group, visited, f);
      }
    }
  }

  /** Every channel write, the number of forwards and the number of refusals. */
  datatype Outcome = Outcome(log: seq<Update>, forwards: nat, cycles: nat)

  function Plus(a: Outcome, b: Outcome): Outcome {
    Outcome(a.log + b.log, a.forwards + b.forwards, a.cycles + b.cycles)
  }

  /** A batch, its groups taken in order of appearance. */
  function Batch(level: nat, routes: Routes, us: seq<Update>, visited: set<RouteKey>): Outcome
    requires Within(level, us)
    decreases level, 2, 0
  {
    InOrder(level, routes, us, visited, Distinct(GroupNames(us)))
  }

  function InOrder(level: nat, routes: Routes, us: seq<Update>, visited: set<RouteKey>, order: seq<Group>): Outcome
    requires Within(level, us)
    decreases level, 1, |order|
  {
    if order == [] then Outcome([], 0, 0)
    else
      var g := order[|order| - 1];
      MembersWithin(level, us, g);
      Plus(InOrder(level, routes, us, visited, order[..|order| - 1]), OneGroup(level, routes, Members(us, g), visited))
  }

  function OneGroup(level: nat, routes: Routes, group: seq<Update>, visited: set<RouteKey>): Outcome
    requires Within(level, group)
    decreases level, 0, 0
  {
    var fs, refused := Forwards(routes, group, visited), Refused(routes, group, visited);
    ForwardsWithin(level, routes, group, visited);
    if level == 0 then Outcome(group, 0, refused)
    else
      var sub := Batch(level - 1, routes, fs, visited + Keys(group));
      Outcome(group + sub.log, |fs| + sub.forwards, refused + sub.cycles)
  }

  // ---------------------------------------------------------------- hash order

  /** The same writes and counts, the writes in any order. */
  predicate Same(a: Outcome, b: Outcome) {
    multiset(a.log) == multiset(b.log) && a.forwards == b.forwards && a.cycles == b.cycles
  }

  lemma PlusSame(a: Outcome, b: Outcome, c: Outcome, d: Outcome)
    requires Same(a, b) && Same(c, d)
    ensures Same(Plus(a, c), Plus(b, d)) && Same(Plus(a, c), Plus(d, b))
  {
  }

  function Without<T>(xs: seq<T>, j: nat): seq<T>
    requires j < |xs|
  {
    xs[..j] + xs[j + 1..]
  }

  predicate Covers(part: map<Group, Outcome>, order: seq<Group>) {
    forall i | 0 <= i < |order| :: order[i] in part
  }

  /** The sum of what each group contributes. */
  function Total(part: map<Group, Outcome>, order: seq<Group>): Outcome
    requires Covers(part, order)
  {
    if order == [] then Outcome([], 0, 0)
    else Plus(Total(part, order[..|order| - 1]), part[order[|order| - 1]])
  }

  lemma TotalLast(part: map<Group, Outcome>, order: seq<Group>, g: Group)
    requires Covers(part, order) && g in part
    ensures Covers(part, order + [g]) && Total(part, order + [g]) == Plus(Total(part, order), part[g])
  {
    assert (order + [g])[..|order|] == order;
  }

  lemma {:induction false} TakeOut(part: map<Group, Outcome>, order: seq<Group>, j: nat)
    requires Covers(part, order) && j < |order|
    ensures Covers(part, Without(order, j))
    ensures Same(Total(part, order), Plus(Total(part, Without(order, j)), part[order[j]]))
    decreases |order|
  {
    var n := |order| - 1;
    var before, last := order[..n], order[n];
    assert order == before + [last];
    TotalLast(part, before, last);
    if j < n {
      TakeOut(part, before, j);
      TotalLast(part, Without(before, j), last);
      assert Without(order, j) == Without(before, j) + [last];
      SwapLast(Total(part, before), Total(part, Without(before, j)), part[order[j]], part[last]);
    } else {
      assert Without(order, j) == before;
    }
  }

  lemma SwapLast(whole: Outcome, rest: Outcome, x: Outcome, y: Outcome)
    requires Same(whole, Plus(rest, x))
    ensures Same(Plus(whole, y), Plus(Plus(rest, y), x))
  {
  }

  lemma WithoutOne<T>(xs: seq<T>, j: nat)
    requires j < |xs| && NoRepeats(xs)
    ensures NoRepeats(Without(xs, j)) && Elements(Without(xs, j)) == Elements(xs) - {xs[j]}
  {
    var ys := Without(xs, j);
    assert forall i | 0 <= i < |ys| :: ys[i] == xs[if i < j then i else i + 1];
    forall x | x in Elements(xs) && x != xs[j]
      ensures x in ys
    {
      var i :| 0 <= i < |xs| && xs[i] == x;
      assert ys[if i < j then i else i - 1] == x;
    }
  }

  lemma {:induction false} AnyOrder(part: map<Group, Outcome>, a: seq<Group>, b: seq<Group>)
    requires NoRepeats(a) && NoRepeats(b) && Elements(a) == Elements(b)
    requires Covers(part, a) && Covers(part, b)
    ensures Same(Total(part, a), Total(part, b))
    decreases |a|
  {
    if a == [] {
      ElementsEmpty(b);
    } else {
      var n := |a| - 1;
      assert a[n] in Elements(b);
      var j :| 0 <= j < |b| && b[j] == a[n];
      WithoutOne(a, n);
      WithoutOne(b, j);
      assert Without(a, n) == a[..n];
      AnyOrder(part, a[..n], Without(b, j));
      TakeOut(part, b, j);
      PlusSame(Total(part, a[..n]), Total(part, Without(b, j)), part[a[n]], part[a[n]]);
    }
  }

  function Part(level: nat, routes: Routes, us: seq<Update>, visited: set<RouteKey>, g: Group): Outcome
    requires Within(level, us)
  {
    MembersWithin(level, us, g);
    OneGroup(level, routes, Members(us, g), visited)
  }

  lemma {:induction false} InOrderIsTotal(level: nat, routes: Routes, us: seq<Update>, visited: set<RouteKey>,
                                          order: seq<Group>, part: map<Group, Outcome>)
    requires Within(level, us)
    requires Covers(part, order)
    requires forall i | 0 <= i < |order| :: part[order[i]] == Part(level, routes, us, visited, order[i])
    ensures InOrder(level, routes, us, visited, order) == Total(part, order)
    decreases |order|
  {
    if order != [] {
      InOrderIsTotal(level, routes, us, visited, order[..|order| - 1], part);
    }
  }

  /** Groups do not disturb one another: any order of the groups gives the same writes and counts. */
  lemma {:induction false} OrderDoesNotMatter(level: nat, routes: Routes, us: seq<Update>, visited: set<RouteKey>,
                                              a: seq<Group>, b: seq<Group>)
    requires Within(level, us) && NoRepeats(a) && NoRepeats(b) && Elements(a) == Elements(b)
    ensures Same(InOrder(level, routes, us, visited, a), InOrder(level, routes, us, visited, b))
  {
    var part := map g | g in Elements(a) :: Part(level, routes, us, visited, g);
    assert forall i | 0 <= i < |a| :: a[i] in Elements(a);
    assert forall i | 0 <= i < |b| :: b[i] in Elements(b);
    InOrderIsTotal(level, routes, us, visited, a, part);
    InOrderIsTotal(level, routes, us, visited, b, part);
    AnyOrder(part, a, b);
  }

  // ---------------------------------------------------------------- groups partition a batch

  /** The updates, group by group. */
  function Regrouped(us: seq<Update>, order: seq<Group>): seq<Update> {
    if order == [] then [] else Regrouped(us, order[..|order| - 1]) + Members(us, order[|order| - 1])
  }

  lemma {:induction false} MembersCount(us: seq<Update>, g: Group, u: Update)
    ensures multiset(Members(us, g))[u] == if GroupOf(u) == g then multiset(us)[u] else 0
  {
    if us != [] {
      MembersCount(us[..|us| - 1], g, u);
      assert us == us[..|us| - 1] + [us[|us| - 1]];
    }
  }

  lemma {:induction false} RegroupedCount(us: seq<Update>, order: seq<Group>, u: Update)
    requires NoRepeats(order)
    ensures multiset(Regrouped(us, order))[u] == if GroupOf(u) in order then multiset(us)[u] else 0
  {
    if order != [] {
      var before, g := order[..|order| - 1], order[|order| - 1];
      RegroupedCount(us, before, u);
      MembersCount(us, g, u);
      assert order == before + [g];
    }
  }

  predicate IsGrouping(us: seq<Update>, order: seq<Group>) {
    NoRepeats(order) && forall u | u in us :: GroupOf(u) in order
  }

  lemma RegroupedSame(us: seq<Update>, order: seq<Group>)
    requires IsGrouping(us, order)
    ensures multiset(Regrouped(us, order)) == multiset(us)
    ensures |Regrouped(us, order)| == |us|
  {
    forall u
      ensures multiset(Regrouped(us, order))[u] == multiset(us)[u]
    {
      RegroupedCount(us, order, u);
      assert u in us <==> u in multiset(us);
    }
    assert |multiset(us)| == |us|;
    assert |multiset(Regrouped(us, order))| == |Regrouped(us, order)|;
  }

  lemma AppearanceIsGrouping(us: seq<Update>)
    ensures IsGrouping(us, Distinct(GroupNames(us)))
  {
    DistinctKeepsMembers(GroupNames(us));
    forall u | u in us
      ensures GroupOf(u) in GroupNames(us)
    {
      var i :| 0 <= i < |us| && us[i] == u;
      assert GroupNames(us)[i] == GroupOf(u);
    }
  }

  // ---------------------------------------------------------------- every order the hash maps may give

  /** A sequence of writes that a batch makes for some order of its groups, and of the groups of its forwards. */
  ghost predicate Possible(level: nat, routes: Routes, us: seq<Update>, visited: set<RouteKey>, log: seq<Update>)
    decreases level, 2, 0
  {
    exists order :: IsOrderOf(us, order) && PossibleInOrder(level, routes, us, visited, order, log)
  }

  ghost predicate IsOrderOf(us: seq<Update>, order: seq<Group>) {
    NoRepeats(order) && Elements(order) == Elements(GroupNames(us))
  }

  ghost predicate PossibleInOrder(level: nat, routes: Routes, us: seq<Update>, visited: set<RouteKey>,
                                  order: seq<Group>, log: seq<Update>)
    decreases level, 1, |order|
  {
    if order == [] then log == []
    else
      exists n | 0 <= n <= |log| ::
        && PossibleInOrder(level, routes, us, visited, order[..|order| - 1], log[..n])
        && PossibleGroup(level, routes, Members(us, order[|order| - 1]), visited, log[n..])
  }

  ghost predicate PossibleGroup(level: nat, routes: Routes, group: seq<Update>, visited: set<RouteKey>, log: seq<Update>)
    decreases level, 0, 0
  {
    if level == 0 then log == group
    else
      group <= log &&
      Possible(level - 1, routes, Forwards(routes, group, visited), visited + Keys(group), log[|group|..])
  }

  lemma PossibleSum(level: nat, routes: Routes, us: seq<Update>, visited: set<RouteKey>, order: seq<Group>, g: Group,
                    a: seq<Update>, b: seq<Update>)
    requires PossibleInOrder(level, routes, us, visited, order, a)
    requires PossibleGroup(level, routes, Members(us, g), visited, b)
    ensures PossibleInOrder(level, routes, us, visited, order + [g], a + b)
  {
    var more, log, n := order + [g], a + b, |a|;
    assert more[..|more| - 1] == order && log[..n] == a && log[n..] == b;
  }

  lemma PossibleWith(level: nat, routes: Routes, group: seq<Update>, visited: set<RouteKey>, sub: seq<Update>)
    requires level > 0
    requires Possible(level - 1, routes, Forwards(routes, group, visited), visited + Keys(group), sub)
    ensures PossibleGroup(level, routes, group, visited, group + sub)
  {
    assert (group + sub)[|group|..] == sub;
  }

  lemma PossibleNothing(level: nat, routes: Routes, visited: set<RouteKey>)
    ensures Possible(level, routes, [], visited, [])
  {
    var order: seq<Group> := [];
    assert GroupNames([]) == [];
    assert IsOrderOf([], order) && PossibleInOrder(level, routes, [], visited, order, []);
  }

  lemma PossibleAlone(level: nat, routes: Routes, group: seq<Update>, visited: set<RouteKey>)
    requires Forwards(routes, group, visited) == []
    ensures PossibleGroup(level, routes, group, visited, group)
  {
    if level > 0 {
      PossibleNothing(level - 1, routes, visited + Keys(group));
      PossibleWith(level, routes, group, visited, []);
      assert group + [] == group;
    }
  }

  // ---------------------------------------------------------------- the source

  type Instances = map<RouteKey, C2MTarget>

  datatype InstanceWrite = InstanceWrite(target: C2MTarget, value: real)

  /** The instance points that a list of channel writes also sets. */
  function InstanceWrites(instances: Instances, us: seq<Update>): seq<InstanceWrite> {
    if us == [] then []
    else
      var before, u := InstanceWrites(instances, us[..|us| - 1]), us[|us| - 1];
      if u.key in instances then before + [InstanceWrite(instances[u.key], u.value)] else before
  }

  lemma {:induction false} InstanceWritesAppend(instances: Instances, a: seq<Update>, b: seq<Update>)
    ensures InstanceWrites(instances, a + b) == InstanceWrites(instances, a) + InstanceWrites(instances, b)
    decreases |b|
  {
    if b == [] {
      assert a + b == a;
    } else {
      InstanceWritesAppend(instances, a, b[..|b| - 1]);
      assert (a + b)[..|a + b| - 1] == a + b[..|b| - 1];
    }
  }

  /** How many of the updates have an instance point. */
  function CountMapped(instances: Instances, us: seq<Update>): nat {
    if us == [] then 0
    else CountMapped(instances, us[..|us| - 1]) + if us[|us| - 1].key in instances then 1 else 0
  }

  /** The instance writes are those of the updates that have an instance point, at the position their number gives. */
  lemma {:induction false} InstanceWriteAt(instances: Instances, us: seq<Update>, i: nat)
    requires i < |us|
    ensures |InstanceWrites(instances, us)| == CountMapped(instances, us)
    ensures us[i].key in instances ==>
              var n, writes := CountMapped(instances, us[..i]), InstanceWrites(instances, us);
              && n < |writes| && writes[n].target == instances[us[i].key] && writes[n].value == us[i].value
    decreases |us|
  {
    var before := us[..|us| - 1];
    if i < |before| {
      InstanceWriteAt(instances, before, i);
      assert before[..i] == us[..i];
    } else if before != [] {
      InstanceWriteAt(instances, before, 0);
    }
  }

  /** Collects the updates of each group. */
  method GroupUpdates(us: seq<Update>) returns (grouped: map<Group, seq<Update>>)
    ensures grouped.Keys == Elements(GroupNames(us))
    ensures forall g | g in grouped :: grouped[g] == Members(us, g)
  {
    grouped := map[];
    for i := 0 to |us|
      invariant grouped.Keys == Elements(GroupNames(us[..i]))
      invariant forall g | g in grouped :: grouped[g] == Members(us[..i], g)
    {
      var u := us[i];
      assert us[..i + 1][..i] == us[..i] && us[..i + 1] == us[..i] + [u];
      var g := GroupOf(u);
      assert GroupNames(us[..i + 1]) == GroupNames(us[..i]) + [g];
      ElementsAppend(GroupNames(us[..i]), g);
      if g !in grouped {
        NoMembers(us[..i], g);
      }
      var members := if g in grouped then grouped[g] else [];
      grouped := grouped[g := members + [u]];
    }
    assert us[..|us|] == us;
  }

  lemma {:induction false} NoMembers(us: seq<Update>, g: Group)
    requires g !in Elements(GroupNames(us))
    ensures Members(us, g) == []
  {
    if us != [] {
      var before, u := us[..|us| - 1], us[|us| - 1];
      assert GroupNames(us) == GroupNames(before) + [GroupOf(u)];
      ElementsAppend(GroupNames(before), GroupOf(u));
      NoMembers(before, g);
    }
  }

  /** The loop over one group: instance writes, forwards and refusals. */
  method ScanGroup(routes: Routes, instances: Instances, group: seq<Update>, visited: set<RouteKey>)
    returns (forwards: seq<Update>, refused: nat, writes: seq<InstanceWrite>, groupVisited: set<RouteKey>)
    ensures forwards == Forwards(routes, group, visited) && refused == Refused(routes, group, visited)
    ensures writes == InstanceWrites(instances, group) && groupVisited == visited + Keys(group)
  {
    forwards, refused, writes, groupVisited := [], 0, [], visited;
    for i := 0 to |group|
      invariant forwards == Forwards(routes, group[..i], visited) && refused == Refused(routes, group[..i], visited)
      invariant writes == InstanceWrites(instances, group[..i]) && groupVisited == visited + Keys(group[..i])
    {
      var u := group[i];
      assert group[..i + 1][..i] == group[..i] && group[..i + 1] == group[..i] + [u];
      KeysAppend(group[..i], u);
      groupVisited := groupVisited + {u.key};
      if u.key in instances {
        writes := writes + [InstanceWrite(instances[u.key], u.value)];
      }
      if u.depth < MAX_DEPTH && u.key in routes {
        if routes[u.key].key in groupVisited {
          refused := refused + 1;
        } else {
          forwards := forwards + [Hop(routes, u)];
        }
      }
    }
    assert group[..|group|] == group;
  }

  method WriteGroup(ghost level: nat, routes: Routes, instances: Instances, group: seq<Update>, visited: set<RouteKey>)
    returns (r: Outcome, writes: seq<InstanceWrite>)
    requires Within(level, group)
    ensures Same(r, OneGroup(level, routes, group, visited)) && writes == InstanceWrites(instances, r.log)
    ensures PossibleGroup(level, routes, group, visited, r.log)
    decreases level, 0
  {
    var forwards, refused, own, groupVisited := ScanGroup(routes, instances, group, visited);
    r, writes := Outcome(group, |forwards|, refused), own;
    ForwardsWithin(level, routes, group, visited);
    if forwards != [] {
      var sub, subWrites := WriteBatch(level - 1, routes, instances, forwards, groupVisited);
      InstanceWritesAppend(instances, group, sub.log);
      WithSub(level, routes, group, visited, sub);
      PossibleWith(level, routes, group, visited, sub.log);
      writes := writes + subWrites;
      r := Outcome(group + sub.log, |forwards| + sub.forwards, refused + sub.cycles);
    } else {
      EmptyBatch(level, routes, group, visited);
      PossibleAlone(level, routes, group, visited);
    }
  }

  lemma WithSub(level: nat, routes: Routes, group: seq<Update>, visited: set<RouteKey>, sub: Outcome)
    requires Within(level, group) && level > 0 && Within(level - 1, Forwards(routes, group, visited))
    requires Same(sub, Batch(level - 1, routes, Forwards(routes, group, visited), visited + Keys(group)))
    ensures Same(Outcome(group + sub.log, |Forwards(routes, group, visited)| + sub.forwards,
                         Refused(routes, group, visited) + sub.cycles),
                 OneGroup(level, routes, group, visited))
  {
  }

  lemma EmptyBatch(level: nat, routes: Routes, group: seq<Update>, visited: set<RouteKey>)
    requires Within(level, group) && Forwards(routes, group, visited) == []
    ensures OneGroup(level, routes, group, visited) == Outcome(group, 0, Refused(routes, group, visited))
  {
    if level > 0 {
      assert GroupNames([]) == [];
      assert Batch(level - 1, routes, [], visited + Keys(group)) == Outcome([], 0, 0);
      assert group + [] == group;
    }
  }

  method AddGroup(ghost level: nat, routes: Routes, instances: Instances, ghost us: seq<Update>, visited: set<RouteKey>,
                  ghost order: seq<Group>, ghost g: Group, group: seq<Update>, r: Outcome, writes: seq<InstanceWrite>)
    returns (r': Outcome, writes': seq<InstanceWrite>)
    requires Within(level, us) && group == Members(us, g)
    requires Same(r, InOrder(level, routes, us, visited, order)) && writes == InstanceWrites(instances, r.log)
    requires PossibleInOrder(level, routes, us, visited, order, r.log)
    ensures PossibleInOrder(level, routes, us, visited, order + [g], r'.log)
    ensures Same(r', InOrder(level, routes, us, visited, order + [g])) && writes' == InstanceWrites(instances, r'.log)
    decreases level, 1
  {
    MembersWithin(level, us, g);
    var one, own := WriteGroup(level, routes, instances, group, visited);
    InstanceWritesAppend(instances, r.log, one.log);
    NextGroup(level, routes, us, visited, order, g, r, one);
    PossibleSum(level, routes, us, visited, order, g, r.log, one.log);
    r', writes' := Plus(r, one), writes + own;
  }

  /** Groups are taken in whatever order the hash map gives them. */
  method WriteBatch(ghost level: nat, routes: Routes, instances: Instances, us: seq<Update>, visited: set<RouteKey>)
    returns (r: Outcome, writes: seq<InstanceWrite>)
    requires Within(level, us)
    ensures Same(r, Batch(level, routes, us, visited)) && writes == InstanceWrites(instances, r.log)
    ensures Possible(level, routes, us, visited, r.log)
    ensures forall w | w in r.log :: HasCause(routes, us, w)
    decreases level, 2
  {
    var grouped := GroupUpdates(us);
    var rest := grouped.Keys;
    ghost var order: seq<Group> := [];
    r, writes := Outcome([], 0, 0), [];
    while rest != {}
      invariant rest <= grouped.Keys && NoRepeats(order) && Elements(order) == grouped.Keys - rest
      invariant Same(r, InOrder(level, routes, us, visited, order)) && writes == InstanceWrites(instances, r.log)
      invariant PossibleInOrder(level, routes, us, visited, order, r.log)
    {
      var g :| g in rest;
      rest := rest - {g};
      ElementsAppend(order, g);
      assert g !in Elements(order);
      r, writes := AddGroup(level, routes, instances, us, visited, order, g, grouped[g], r, writes);
      order := order + [g];
    }
    AllGroups(level, routes, us, visited, order, r);
    BatchCaused(level, routes, us, visited, r);
  }

  lemma AllGroups(level: nat, routes: Routes, us: seq<Update>, visited: set<RouteKey>, order: seq<Group>,
                  r: Outcome)
    requires Within(level, us) && Same(r, InOrder(level, routes, us, visited, order))
    requires NoRepeats(order) && Elements(order) == Elements(GroupNames(us))
    ensures Same(r, Batch(level, routes, us, visited))
  {
    DistinctKeepsMembers(GroupNames(us));
    assert Elements(Distinct(GroupNames(us))) == Elements(GroupNames(us));
    OrderDoesNotMatter(level, routes, us, visited, order, Distinct(GroupNames(us)));
  }

  lemma NextGroup(level: nat, routes: Routes, us: seq<Update>, visited: set<RouteKey>, order: seq<Group>, g: Group,
                  r: Outcome, one: Outcome)
    requires Within(level, us) && Same(r, InOrder(level, routes, us, visited, order))
    requires Same(one, Part(level, routes, us, visited, g))
    ensures Same(Plus(r, one), InOrder(level, routes, us, visited, order + [g]))
  {
    assert (order + [g])[..|order|] == order;
    PlusSame(r, InOrder(level, routes, us, visited, order), one, Part(level, routes, us, visited, g));
  }

  // ---------------------------------------------------------------- conservation

  function CountRouted(routes: Routes, us: seq<Update>): nat {
    if us == [] then 0
    else CountRouted(routes, us[..|us| - 1]) + if Routed(routes, us[|us| - 1]) then 1 else 0
  }

  lemma {:induction false} CountAppend(routes: Routes, a: seq<Update>, b: seq<Update>)
    ensures CountRouted(routes, a + b) == CountRouted(routes, a) + CountRouted(routes, b)
    decreases |b|
  {
    if b == [] {
      assert a + b == a;
    } else {
      CountAppend(routes, a, b[..|b| - 1]);
      assert (a + b)[..|a + b| - 1] == a + b[..|b| - 1];
    }
  }

  lemma {:induction false} GroupCounts(routes: Routes, group: seq<Update>, visited: set<RouteKey>)
    ensures |Forwards(routes, group, visited)| + Refused(routes, group, visited) == CountRouted(routes, group)
  {
    if group != [] {
      GroupCounts(routes, group[..|group| - 1], visited);
    }
  }

  /** Writes are the given updates and the forwards; every routed write was forwarded or refused. */
  predicate Balanced(routes: Routes, given: nat, r: Outcome) {
    |r.log| == given + r.forwards && CountRouted(routes, r.log) == r.forwards + r.cycles
  }

  lemma {:induction false} BatchConserves(level: nat, routes: Routes, us: seq<Update>, visited: set<RouteKey>)
    requires Within(level, us)
    ensures Balanced(routes, |us|, Batch(level, routes, us, visited))
    decreases level, 2, 0
  {
    var order := Distinct(GroupNames(us));
    AppearanceIsGrouping(us);
    RegroupedSame(us, order);
    InOrderConserves(level, routes, us, visited, order);
  }

  lemma {:induction false} InOrderConserves(level: nat, routes: Routes, us: seq<Update>, visited: set<RouteKey>,
                                            order: seq<Group>)
    requires Within(level, us)
    ensures Balanced(routes, |Regrouped(us, order)|, InOrder(level, routes, us, visited, order))
    decreases level, 1, |order|
  {
    if order != [] {
      var before, g := order[..|order| - 1], order[|order| - 1];
      MembersWithin(level, us, g);
      InOrderConserves(level, routes, us, visited, before);
      GroupConserves(level, routes, Members(us, g), visited);
      CountAppend(routes, InOrder(level, routes, us, visited, before).log,
                  OneGroup(level, routes, Members(us, g), visited).log);
    }
  }

  lemma {:induction false} GroupConserves(level: nat, routes: Routes, group: seq<Update>, visited: set<RouteKey>)
    requires Within(level, group)
    ensures Balanced(routes, |group|, OneGroup(level, routes, group, visited))
    decreases level, 0, 0
  {
    ForwardsWithin(level, routes, group, visited);
    GroupCounts(routes, group, visited);
    if level > 0 {
      var fs, seen := Forwards(routes, group, visited), visited + Keys(group);
      BatchConserves(level - 1, routes, fs, seen);
      CountAppend(routes, group, Batch(level - 1, routes, fs, seen).log);
    }
  }

  // ---------------------------------------------------------------- every write has an origin

  /** The update can be forwarded `n` times within the depth limit. */
  predicate Follows(routes: Routes, u: Update, n: nat)
    decreases n
  {
    n == 0 || (Routed(routes, u) && Follows(routes, Hop(routes, u), n - 1))
  }

  function HopN(routes: Routes, u: Update, n: nat): Update
    requires Follows(routes, u, n)
    decreases n
  {
    if n == 0 then u else HopN(routes, Hop(routes, u), n - 1)
  }

  /** The keys the update passes, its own first. */
  function Path(routes: Routes, u: Update, n: nat): seq<RouteKey>
    requires Follows(routes, u, n)
    decreases n
  {
    if n == 0 then [u.key] else [u.key] + Path(routes, Hop(routes, u), n - 1)
  }

  lemma {:induction false} HopNDepth(routes: Routes, u: Update, n: nat)
    requires Follows(routes, u, n)
    ensures HopN(routes, u, n).depth == u.depth + n && (n > 0 ==> u.depth + n <= MAX_DEPTH)
    decreases n
  {
    if n > 0 {
      HopNDepth(routes, Hop(routes, u), n - 1);
    }
  }

  /** `w` is `u` after `n` hops, through pairwise different points none of which was visited. */
  predicate Derives(routes: Routes, visited: set<RouteKey>, u: Update, n: nat, w: Update) {
    && Follows(routes, u, n) && w == HopN(routes, u, n)
    && NoRepeats(Path(routes, u, n))
    && forall k | k in Path(routes, u, n)[1..] :: k !in visited
  }

  lemma DerivesFirst(routes: Routes, visited: set<RouteKey>, group: seq<Update>, u: Update, n: nat, w: Update)
    requires u in group && Routed(routes, u)
    requires Derives(routes, visited + Keys(group), Hop(routes, u), n, w)
    requires Hop(routes, u).key !in visited && Hop(routes, u).key != u.key
    ensures Derives(routes, visited, u, n + 1, w)
  {
    var tail := Path(routes, Hop(routes, u), n);
    assert u.key in Keys(group);
    assert tail == [tail[0]] + tail[1..] && tail[0] == Hop(routes, u).key;
    assert Path(routes, u, n + 1) == [u.key] + tail;
    assert u.key !in tail;
    assert ([u.key] + tail)[1..] == tail;
  }

  lemma OneHopEarlier(routes: Routes, visited: set<RouteKey>, group: seq<Update>, f: Update, n: nat, w: Update)
    returns (u: Update)
    requires f in Forwards(routes, group, visited) && Derives(routes, visited + Keys(group), f, n, w)
    ensures u in group && Derives(routes, visited, u, n + 1, w)
  {
    u := ForwardComesFrom(routes, group, visited, f);
    DerivesFirst(routes, visited, group, u, n, w);
  }

  lemma DerivesItself(routes: Routes, visited: set<RouteKey>, u: Update)
    ensures Derives(routes, visited, u, 0, u)
  {
  }

  ghost predicate HasOrigin(routes: Routes, visited: set<RouteKey>, us: seq<Update>, w: Update) {
    exists u, n :: u in us && Derives(routes, visited, u, n, w)
  }

  ghost predicate AllDerived(routes: Routes, visited: set<RouteKey>, us: seq<Update>, log: seq<Update>) {
    forall w | w in log :: HasOrigin(routes, visited, us, w)
  }

  lemma DerivedAppend(routes: Routes, visited: set<RouteKey>, us: seq<Update>, a: seq<Update>, b: seq<Update>)
    requires AllDerived(routes, visited, us, a) && AllDerived(routes, visited, us, b)
    ensures AllDerived(routes, visited, us, a + b)
  {
  }

  lemma DerivedWiden(routes: Routes, visited: set<RouteKey>, some: seq<Update>, us: seq<Update>, log: seq<Update>)
    requires AllDerived(routes, visited, some, log) && forall u | u in some :: u in us
    ensures AllDerived(routes, visited, us, log)
  {
    forall w | w in log
      ensures HasOrigin(routes, visited, us, w)
    {
      assert HasOrigin(routes, visited, some, w);
      var u, n :| u in some && Derives(routes, visited, u, n, w);
      assert u in us;
    }
  }

  lemma DerivedGroup(routes: Routes, visited: set<RouteKey>, group: seq<Update>)
    ensures AllDerived(routes, visited, group, group)
  {
    forall w | w in group
      ensures HasOrigin(routes, visited, group, w)
    {
      DerivesItself(routes, visited, w);
    }
  }

  lemma DerivedForwards(routes: Routes, visited: set<RouteKey>, group: seq<Update>, log: seq<Update>)
    requires AllDerived(routes, visited + Keys(group), Forwards(routes, group, visited), log)
    ensures AllDerived(routes, visited, group, log)
  {
    forall w | w in log
      ensures HasOrigin(routes, visited, group, w)
    {
      var fs := Forwards(routes, group, visited);
      assert HasOrigin(routes, visited + Keys(group), fs, w);
      var f, n :| f in fs && Derives(routes, visited + Keys(group), f, n, w);
      var u := OneHopEarlier(routes, visited, group, f, n, w);
    }
  }

  lemma {:induction false} BatchDerived(level: nat, routes: Routes, us: seq<Update>, visited: set<RouteKey>)
    requires Within(level, us)
    ensures AllDerived(routes, visited, us, Batch(level, routes, us, visited).log)
    decreases level, 2, 0
  {
    InOrderDerived(level, routes, us, visited, Distinct(GroupNames(us)));
  }

  lemma {:induction false} InOrderDerived(level: nat, routes: Routes, us: seq<Update>, visited: set<RouteKey>,
                                          order: seq<Group>)
    requires Within(level, us)
    ensures AllDerived(routes, visited, us, InOrder(level, routes, us, visited, order).log)
    decreases level, 1, |order|
  {
    if order != [] {
      var before, g := order[..|order| - 1], order[|order| - 1];
      MembersWithin(level, us, g);
      InOrderDerived(level, routes, us, visited, before);
      var one := OneGroup(level, routes, Members(us, g), visited);
      GroupDerived(level, routes, Members(us, g), visited);
      forall u | u in Members(us, g)
        ensures u in us
      {
        MembersAre(us, g, u);
      }
      DerivedWiden(routes, visited, Members(us, g), us, one.log);
      DerivedAppend(routes, visited, us, InOrder(level, routes, us, visited, before).log, one.log);
    }
  }

  lemma {:induction false} GroupDerived(level: nat, routes: Routes, group: seq<Update>, visited: set<RouteKey>)
    requires Within(level, group)
    ensures AllDerived(routes, visited, group, OneGroup(level, routes, group, visited).log)
    decreases level, 0, 0
  {
    ForwardsWithin(level, routes, group, visited);
    DerivedGroup(routes, visited, group);
    if level > 0 {
      var fs, seen := Forwards(routes, group, visited), visited + Keys(group);
      BatchDerived(level - 1, routes, fs, seen);
      DerivedForwards(routes, visited, group, Batch(level - 1, routes, fs, seen).log);
      DerivedAppend(routes, visited, group, group, Batch(level - 1, routes, fs, seen).log);
    }
  }

  // ---------------------------------------------------------------- what a write carries

  /** Each point but the last is routed to the next one. */
  predicate Linked(routes: Routes, path: seq<RouteKey>) {
    path != [] &&
    forall i | 0 <= i < |path| - 1 :: path[i] in routes && routes[path[i]].key == path[i + 1]
  }

  /** The product of the scales along the path. */
  function Gain(routes: Routes, path: seq<RouteKey>): real
    requires Linked(routes, path)
  {
    if |path| == 1 then 1.0 else routes[path[|path| - 2]].scale * Gain(routes, path[..|path| - 1])
  }

  /** The offsets along the path, each scaled by the routes after it. */
  function Shift(routes: Routes, path: seq<RouteKey>): real
    requires Linked(routes, path)
  {
    if |path| == 1 then 0.0
    else
      var t := routes[path[|path| - 2]];
      t.scale * Shift(routes, path[..|path| - 1]) + t.offset
  }

  /** `w` is what the routes along `path`, which passes no point twice, make of `u`; only `u` itself keeps a raw value. */
  predicate Carries(routes: Routes, path: seq<RouteKey>, u: Update, w: Update) {
    && Linked(routes, path) && NoRepeats(path)
    && path[0] == u.key && path[|path| - 1] == w.key
    && w.value == Gain(routes, path) * u.value + Shift(routes, path)
    && w.depth == u.depth + |path| - 1
    && w.raw == if |path| == 1 then u.raw else None
  }

  lemma Regroup(g: real, s: real, o: real, h: real, v: real)
    ensures g * (s * v + o) + h == g * s * v + (g * o + h)
  {
    assert g * (s * v + o) == g * (s * v) + g * o;
    assert g * (s * v) == g * s * v;
  }

  lemma {:induction false} FirstRoute(routes: Routes, k: RouteKey, rest: seq<RouteKey>)
    requires Linked(routes, rest) && k in routes && routes[k].key == rest[0]
    ensures Linked(routes, [k] + rest)
    ensures Gain(routes, [k] + rest) == Gain(routes, rest) * routes[k].scale
    ensures Shift(routes, [k] + rest) == Gain(routes, rest) * routes[k].offset + Shift(routes, rest)
    decreases |rest|
  {
    var path := [k] + rest;
    if |rest| == 1 {
      assert path[..|path| - 1] == [k];
    } else {
      var before, t := rest[..|rest| - 1], routes[rest[|rest| - 2]];
      assert path[..|path| - 1] == [k] + before && path[|path| - 2] == rest[|rest| - 2];
      FirstRoute(routes, k, before);
      Regroup(t.scale, Gain(routes, before), Shift(routes, before), t.offset, routes[k].offset);
    }
  }

  lemma {:induction false} HopsCarry(routes: Routes, u: Update, n: nat)
    requires Follows(routes, u, n)
    ensures var path, w := Path(routes, u, n), HopN(routes, u, n);
            && Linked(routes, path) && |path| == n + 1 && path[0] == u.key && path[n] == w.key
            && w.value == Gain(routes, path) * u.value + Shift(routes, path)
            && w.raw == if n == 0 then u.raw else None
    decreases n
  {
    if n > 0 {
      var next := Hop(routes, u);
      var t, rest := routes[u.key], Path(routes, next, n - 1);
      HopsCarry(routes, next, n - 1);
      FirstRoute(routes, u.key, rest);
      Regroup(Gain(routes, rest), t.scale, t.offset, Shift(routes, rest), u.value);
    }
  }

  ghost predicate HasCause(routes: Routes, us: seq<Update>, w: Update) {
    exists u, path :: u in us && Carries(routes, path, u, w)
  }

  lemma BatchCaused(level: nat, routes: Routes, us: seq<Update>, visited: set<RouteKey>, r: Outcome)
    requires Within(level, us) && Same(r, Batch(level, routes, us, visited))
    ensures forall w | w in r.log :: HasCause(routes, us, w)
  {
    BatchDerived(level, routes, us, visited);
    forall w | w in r.log
      ensures HasCause(routes, us, w)
    {
      assert w in multiset(r.log);
      assert HasOrigin(routes, visited, us, w);
      var u, n :| u in us && Derives(routes, visited, u, n, w);
      HopNDepth(routes, u, n);
      HopsCarry(routes, u, n);
      assert Carries(routes, Path(routes, u, n), u, w);
    }
  }

  /**
   Every write is an update of the batch after at most the permitted number of hops, with the value that the scales and
   offsets along its path give.
   */
  lemma WritesHaveOrigins(routes: Routes, us: seq<Update>, w: Update) returns (u: Update, n: nat)
    requires w in Batch(MAX_DEPTH, routes, us, {}).log
    ensures u in us && Derives(routes, {}, u, n, w) && Carries(routes, Path(routes, u, n), u, w)
    ensures w.depth == u.depth + n && (n > 0 ==> w.depth <= 2)
  {
    BatchDerived(MAX_DEPTH, routes, us, {});
    assert HasOrigin(routes, {}, us, w);
    u, n :| u in us && Derives(routes, {}, u, n, w);
    HopNDepth(routes, u, n);
    HopsCarry(routes, u, n);
  }
}
