/**
 The product catalogue of `libs/voltage-model/src/product_lib.rs`: validation of the product list and the
 override of built-in products by external ones.
 */
module ProductLibrary {
  import opened Basics

  datatype ConnectionRule = ConnectionRule(products: seq<string>, min: nat, max: Option<nat>)

  /** Points are given by their ids; a product without topology has no connections at all. */
  datatype Product = Product(name: string, kind: string, topology: Option<seq<ConnectionRule>>,
                             properties: seq<nat>, measurements: seq<nat>, actions: seq<nat>)

  datatype Error =
    | EmptyName
    | EmptyType(name: string)
    | DuplicateName(name: string)
    | DuplicateMeasurementIds(name: string)
    | DuplicatePropertyIds(name: string)
    | DuplicateActionIds(name: string)
    | EmptyGroup(name: string)
    | MinAboveMax(name: string, min: nat, max: nat)
    | SelfConnection(name: string)
    | RepeatedTarget(name: string, target: string)
    | UnknownTarget(name: string, target: string)
    | NotReciprocal(name: string, target: string)
    | FileError(message: string)

  // ---------------------------------------------------------------- what a valid catalogue is

  function Names(products: seq<Product>): seq<string> {
    seq(|products|, i requires 0 <= i < |products| => products[i].name)
  }

  function TargetsOf(rules: seq<ConnectionRule>): seq<string> {
    if rules == [] then [] else TargetsOf(rules[..|rules| - 1]) + rules[|rules| - 1].products
  }

  /** All connection targets of a product, over all its rules. */
  function Targets(p: Product): seq<string> {
    if p.topology.None? then [] else TargetsOf(p.topology.value)
  }

  predicate Identified(p: Product) {
    && p.name != "" && p.kind != ""
    && NoRepeats(p.measurements) && NoRepeats(p.properties) && NoRepeats(p.actions)
  }

  predicate WellIdentified(products: seq<Product>) {
    NoRepeats(Names(products)) && forall p | p in products :: Identified(p)
  }

  predicate GroupOk(rule: ConnectionRule) {
    rule.products != [] && (rule.max.Some? ==> rule.min <= rule.max.value)
  }

  /** `p` and the product called `target` are two products that name each other. */
  predicate Linked(products: seq<Product>, p: Product, target: string) {
    && target != p.name
    && exists q :: q in products && q.name == target && p.name in Targets(q)
  }

  predicate RulesOk(products: seq<Product>, p: Product, rules: seq<ConnectionRule>) {
    && (forall rule | rule in rules :: GroupOk(rule))
    && NoRepeats(TargetsOf(rules))
    && forall t | t in TargetsOf(rules) :: Linked(products, p, t)
  }

  predicate Connected(products: seq<Product>, p: Product) {
    p.topology.Some? ==> RulesOk(products, p, p.topology.value)
  }

  predicate WellConnected(products: seq<Product>) {
    forall p | p in products :: Connected(products, p)
  }

  predicate Accepted(products: seq<Product>) {
    WellIdentified(products) && WellConnected(products)
  }

  /** The error describes a defect that the product really has. */
  predicate Faulty(products: seq<Product>, p: Product, e: Error) {
    match e
    case EmptyName => p.name == ""
    case EmptyType(name) => p.name == name && p.kind == ""
    case DuplicateName(name) =>
      p.name == name && exists i, j | 0 <= i < j < |products| :: products[i].name == products[j].name == name
    case DuplicateMeasurementIds(name) => p.name == name && !NoRepeats(p.measurements)
    case DuplicatePropertyIds(name) => p.name == name && !NoRepeats(p.properties)
    case DuplicateActionIds(name) => p.name == name && !NoRepeats(p.actions)
    case EmptyGroup(name) =>
      p.name == name && p.topology.Some? && exists rule :: rule in p.topology.value && rule.products == []
    case MinAboveMax(name, min, max) =>
      && p.name == name && p.topology.Some? && min > max
      && exists rule :: rule in p.topology.value && rule.min == min && rule.max == Some(max)
    case SelfConnection(name) => p.name == name && name in Targets(p)
    case RepeatedTarget(name, target) =>
      && p.name == name
      && exists i, j | 0 <= i < j < |Targets(p)| :: Targets(p)[i] == Targets(p)[j] == target
    case UnknownTarget(name, target) =>
      p.name == name && target in Targets(p) && target !in Names(products)
    case NotReciprocal(name, target) =>
      && p.name == name && target in Targets(p)
      && exists q :: q in products && q.name == target && name !in Targets(q)
    case FileError(message) => false
  }

  predicate IdentityError(e: Error) {
    e.EmptyName? || e.EmptyType? || e.DuplicateName? || e.DuplicateMeasurementIds? || e.DuplicatePropertyIds?
    || e.DuplicateActionIds?
  }

  // ---------------------------------------------------------------- looking products up

  /** The last product of each name. */
  function ByName(products: seq<Product>): map<string, Product> {
    if products == [] then map[]
    else
      var last := products[|products| - 1];
      ByName(products[..|products| - 1])[last.name := last]
  }

  lemma {:induction false} ByNameFinds(products: seq<Product>)
    ensures forall t | t in ByName(products) :: ByName(products)[t] in products && ByName(products)[t].name == t
    ensures forall p | p in products :: p.name in ByName(products)
  {
    if products != [] {
      ByNameFinds(products[..|products| - 1]);
      assert products == products[..|products| - 1] + [products[|products| - 1]];
    }
  }

  lemma NameIdentifies(products: seq<Product>, p: Product, q: Product)
    requires NoRepeats(Names(products)) && p in products && q in products && p.name == q.name
    ensures p == q
  {
    var i :| 0 <= i < |products| && products[i] == p;
    var j :| 0 <= j < |products| && products[j] == q;
    assert Names(products)[i] == Names(products)[j];
  }

  /** With unique names the lookup by name is the link relation. */
  lemma LookupLinks(products: seq<Product>, p: Product, target: string)
    requires NoRepeats(Names(products))
    ensures Linked(products, p, target) <==>
            && target != p.name && target in ByName(products)
            && p.name in Targets(ByName(products)[target])
  {
    var byName := ByName(products);
    ByNameFinds(products);
    if Linked(products, p, target) {
      var q :| q in products && q.name == target && p.name in Targets(q);
      NameIdentifies(products, q, byName[target]);
    }
  }

  // ---------------------------------------------------------------- validation

  /** The first pass, over names, types and point ids. */
  method ValidateIdentity(products: seq<Product>) returns (error: Option<Error>)
    ensures error.None? <==> WellIdentified(products)
    ensures error.Some? ==> IdentityError(error.value) && exists p :: p in products && Faulty(products, p, error.value)
  {
    var names := {};
    for i := 0 to |products|
      invariant names == Elements(Names(products[..i])) && WellIdentified(products[..i])
    {
      var p := products[i];
      assert p in products;
      FirstPassStep(products, i);
      PrefixIdentified(products, i + 1);
      if p.name == "" {
        return Some(EmptyName);
      }
      if p.kind == "" {
        return Some(EmptyType(p.name));
      }
      if p.name in names {
        EarlierName(products, i);
        return Some(DuplicateName(p.name));
      }
      names := names + {p.name};
      NoRepeatsBySize(p.measurements);
      if |Elements(p.measurements)| != |p.measurements| {
        return Some(DuplicateMeasurementIds(p.name));
      }
      NoRepeatsBySize(p.properties);
      if |Elements(p.properties)| != |p.properties| {
        return Some(DuplicatePropertyIds(p.name));
      }
      NoRepeatsBySize(p.actions);
      if |Elements(p.actions)| != |p.actions| {
        return Some(DuplicateActionIds(p.name));
      }
    }
    assert products[..|products|] == products;
    return None;
  }

  lemma FirstPassStep(products: seq<Product>, i: nat)
    requires i < |products|
    ensures Names(products[..i + 1]) == Names(products[..i]) + [products[i].name]
    ensures Elements(Names(products[..i + 1])) == Elements(Names(products[..i])) + {products[i].name}
    ensures WellIdentified(products[..i + 1]) <==>
            WellIdentified(products[..i]) && Identified(products[i]) && products[i].name !in Names(products[..i])
  {
    var before, p := products[..i], products[i];
    assert products[..i + 1] == before + [p];
    assert Names(products[..i + 1]) == Names(before) + [p.name];
    RepeatsOneMore(Names(before), p.name);
  }

  lemma PrefixIdentified(products: seq<Product>, n: nat)
    requires n <= |products|
    ensures WellIdentified(products) ==> WellIdentified(products[..n])
  {
    assert forall k | 0 <= k < n :: Names(products[..n])[k] == Names(products)[k];
    assert forall k | 0 <= k < n :: products[..n][k] in products;
  }

  lemma RepeatsOneMore<T>(xs: seq<T>, x: T)
    ensures NoRepeats(xs + [x]) <==> NoRepeats(xs) && x !in xs
  {
    if NoRepeats(xs + [x]) {
      assert forall i | 0 <= i < |xs| :: xs[i] == (xs + [x])[i] != (xs + [x])[|xs|];
      assert forall i, j | 0 <= i < j < |xs| :: xs[i] == (xs + [x])[i] != (xs + [x])[j] == xs[j];
    }
  }

  lemma EarlierName(products: seq<Product>, i: nat)
    requires i < |products| && products[i].name in Names(products[..i])
    ensures Faulty(products, products[i], DuplicateName(products[i].name))
  {
    var k :| 0 <= k < i && Names(products[..i])[k] == products[i].name;
    assert products[k].name == products[i].name;
  }

  /** The targets of one rule, `seen` being those of the earlier rules of the same product. */
  method ValidateTargets(products: seq<Product>, byName: map<string, Product>, p: Product, rule: ConnectionRule,
                         ghost seen: seq<string>, targets: set<string>)
    returns (error: Option<Error>, next: set<string>)
    requires NoRepeats(Names(products)) && byName == ByName(products)
    requires NoRepeats(seen) && targets == Elements(seen)
    requires seen + rule.products <= Targets(p)
    ensures error.None? <==>
            NoRepeats(seen + rule.products) && forall t | t in rule.products :: Linked(products, p, t)
    ensures error.None? ==> next == Elements(seen + rule.products)
    ensures error.Some? ==> !IdentityError(error.value) && Faulty(products, p, error.value)
  {
    next := targets;
    assert seen + rule.products[..0] == seen;
    for i := 0 to |rule.products|
      invariant NoRepeats(seen + rule.products[..i]) && next == Elements(seen + rule.products[..i])
      invariant forall t | t in rule.products[..i] :: Linked(products, p, t)
    {
      var target := rule.products[i];
      TargetStep(seen, rule.products, i, Targets(p));
      LookupLinks(products, p, target);
      if target == p.name {
        return Some(SelfConnection(p.name)), next;
      }
      if target in next {
        return Some(RepeatedTarget(p.name, target)), next;
      }
      next := next + {target};
      ByNameFinds(products);
      if target !in byName {
        return Some(UnknownTarget(p.name, target)), next;
      }
      if p.name !in Targets(byName[target]) {
        return Some(NotReciprocal(p.name, target)), next;
      }
    }
    assert rule.products[..|rule.products|] == rule.products;
    return None, next;
  }

  lemma TargetStep(seen: seq<string>, group: seq<string>, i: nat, all: seq<string>)
    requires i < |group| && seen + group <= all
    ensures group[..i + 1] == group[..i] + [group[i]] && group[i] in all
    ensures Elements(seen + group[..i + 1]) == Elements(seen + group[..i]) + {group[i]}
    ensures NoRepeats(seen + group[..i + 1]) <==> NoRepeats(seen + group[..i]) && group[i] !in seen + group[..i]
    ensures NoRepeats(seen + group) ==> NoRepeats(seen + group[..i + 1])
    ensures group[i] in seen + group[..i] ==>
            exists a, b | 0 <= a < b < |all| :: all[a] == all[b] == group[i]
  {
    var before := seen + group[..i];
    assert seen + group[..i + 1] == before + [group[i]];
    RepeatsOneMore(before, group[i]);
    assert all[|before|] == (seen + group)[|before|] == group[i];
    assert forall k | 0 <= k < |before| :: before[k] == (seen + group)[k] == all[k];
    if NoRepeats(seen + group) {
      assert forall k | 0 <= k <= |before| :: (before + [group[i]])[k] == (seen + group)[k];
    }
  }

  /** The second pass for one product; one without topology passes. */
  method ValidateTopology(products: seq<Product>, byName: map<string, Product>, p: Product)
    returns (error: Option<Error>)
    requires NoRepeats(Names(products)) && byName == ByName(products)
    ensures error.None? <==> Connected(products, p)
    ensures error.Some? ==> !IdentityError(error.value) && Faulty(products, p, error.value)
  {
    if p.topology.None? {
      return None;
    }
    var rules := p.topology.value;
    var targets: set<string> := {};
    for i := 0 to |rules|
      invariant RulesOk(products, p, rules[..i]) && targets == Elements(TargetsOf(rules[..i]))
    {
      var rule := rules[i];
      TargetsStep(rules, i);
      RulesStep(products, p, rules, i);
      RulesPrefix(products, p, rules, i + 1);
      TargetsPrefix(rules, i + 1);
      if rule.products == [] {
        return Some(EmptyGroup(p.name));
      }
      if rule.max.Some? && rule.min > rule.max.value {
        return Some(MinAboveMax(p.name, rule.min, rule.max.value));
      }
      error, targets := ValidateTargets(products, byName, p, rule, TargetsOf(rules[..i]), targets);
      if error.Some? {
        return;
      }
    }
    assert rules[..|rules|] == rules;
    return None;
  }

  lemma TargetsStep(rules: seq<ConnectionRule>, i: nat)
    requires i < |rules|
    ensures TargetsOf(rules[..i + 1]) == TargetsOf(rules[..i]) + rules[i].products
    ensures rules[i] in rules
  {
    assert rules[..i + 1][..i] == rules[..i];
  }

  lemma RulesStep(products: seq<Product>, p: Product, rules: seq<ConnectionRule>, i: nat)
    requires i < |rules|
    ensures RulesOk(products, p, rules[..i + 1]) <==>
            && RulesOk(products, p, rules[..i]) && GroupOk(rules[i])
            && NoRepeats(TargetsOf(rules[..i + 1]))
            && forall t | t in rules[i].products :: Linked(products, p, t)
  {
    var before, group := TargetsOf(rules[..i]), rules[i].products;
    TargetsStep(rules, i);
    assert rules[..i + 1] == rules[..i] + [rules[i]];
    assert forall k | 0 <= k < |before| :: (before + group)[k] == before[k];
  }

  lemma RulesPrefix(products: seq<Product>, p: Product, rules: seq<ConnectionRule>, n: nat)
    requires n <= |rules|
    ensures RulesOk(products, p, rules) ==> RulesOk(products, p, rules[..n])
  {
    TargetsPrefix(rules, n);
    var some, all := TargetsOf(rules[..n]), TargetsOf(rules);
    assert forall k | 0 <= k < |some| :: some[k] == all[k];
    assert forall k | 0 <= k < n :: rules[..n][k] in rules;
  }

  lemma {:induction false} TargetsPrefix(rules: seq<ConnectionRule>, n: nat)
    requires n <= |rules|
    ensures TargetsOf(rules[..n]) <= TargetsOf(rules)
  {
    if n == |rules| {
      assert rules[..n] == rules;
    } else {
      var before := rules[..|rules| - 1];
      assert before[..n] == rules[..n];
      TargetsPrefix(before, n);
    }
  }

  /** Accepts exactly the well-identified, well-connected catalogues; every error is a real defect. */
  method Validate(products: seq<Product>) returns (error: Option<Error>)
    ensures error.None? <==> Accepted(products)
    ensures error.Some? ==> exists p :: p in products && Faulty(products, p, error.value)
    ensures error.Some? ==> (IdentityError(error.value) <==> !WellIdentified(products))
  {
    error := ValidateIdentity(products);
    if error.Some? {
      return;
    }
    var byName := ByName(products);
    for i := 0 to |products|
      invariant forall p | p in products[..i] :: Connected(products, p)
    {
      error := ValidateTopology(products, byName, products[i]);
      if error.Some? {
        return;
      }
    }
    return None;
  }

  /** Every reported defect is a reason to reject. */
  lemma FaultyIsRejected(products: seq<Product>, p: Product, e: Error)
    requires p in products && Faulty(products, p, e)
    ensures !Accepted(products)
  {
    match e
    case DuplicateName(name) =>
      var i, j :| 0 <= i < j < |products| && products[i].name == products[j].name;
      assert Names(products)[i] == Names(products)[j];
    case EmptyGroup(name) =>
      var rule :| rule in p.topology.value && rule.products == [];
      assert !GroupOk(rule);
    case MinAboveMax(name, min, max) =>
      var rule :| rule in p.topology.value && rule.min == min && rule.max == Some(max);
      assert !GroupOk(rule);
    case SelfConnection(name) => assert !Linked(products, p, name);
    case UnknownTarget(name, target) => LinkedIsKnown(products, p, target);
    case NotReciprocal(name, target) =>
      var q :| q in products && q.name == target && name !in Targets(q);
      LinkedIsMutual(products, p, q);
    case _ =>
  }

  lemma LinkedIsKnown(products: seq<Product>, p: Product, target: string)
    ensures Linked(products, p, target) ==> target in Names(products)
  {
    if Linked(products, p, target) {
      var q :| q in products && q.name == target;
      var k :| 0 <= k < |products| && products[k] == q;
      assert Names(products)[k] == target;
    }
  }

  lemma LinkedIsMutual(products: seq<Product>, p: Product, q: Product)
    requires q in products
    ensures NoRepeats(Names(products)) && Linked(products, p, q.name) ==> p.name in Targets(q)
  {
    if NoRepeats(Names(products)) && Linked(products, p, q.name) {
      var r :| r in products && r.name == q.name && p.name in Targets(r);
      NameIdentifies(products, q, r);
    }
  }

  /** Connections of an accepted catalogue: symmetric, irreflexive and between known products. */
  lemma ConnectionsAreUndirected(products: seq<Product>, p: Product, q: Product)
    requires Accepted(products) && p in products && q in products
    ensures q.name in Targets(p) <==> p.name in Targets(q)
    ensures p.name !in Targets(p)
    ensures forall t | t in Targets(p) :: t in Names(products)
    ensures |Elements(Targets(p))| == |Targets(p)|
  {
    assert Connected(products, p) && Connected(products, q);
    LinkedIsMutual(products, p, q);
    LinkedIsMutual(products, q, p);
    assert !Linked(products, p, p.name);
    NoRepeatsBySize(Targets(p));
    forall t | t in Targets(p)
      ensures t in Names(products)
    {
      LinkedIsKnown(products, p, t);
    }
  }

  // ---------------------------------------------------------------- external overrides

  /** One directory entry: not a JSON file, an entry that cannot be read or parsed, or a product. */
  datatype Entry = Other | Broken(message: string) | External(product: Product)

  predicate NoneBroken(entries: seq<Entry>) {
    forall entry | entry in entries :: !entry.Broken?
  }

  function Externals(entries: seq<Entry>): seq<Product> {
    if entries == [] then []
    else
      var last := entries[|entries| - 1];
      Externals(entries[..|entries| - 1]) + if last.External? then [last.product] else []
  }

  method Position(products: seq<Product>, name: string) returns (k: nat)
    ensures k <= |products| && (k < |products| ==> products[k].name == name)
    ensures forall i | 0 <= i < k :: products[i].name != name
  {
    k := 0;
    while k < |products| && products[k].name != name
      invariant k <= |products| && forall i | 0 <= i < k :: products[i].name != name
    {
      k := k + 1;
    }
  }

  /** What overriding one product at position `k` (or appending it) does to names and lookups. */
  lemma OverrideOne(products: seq<Product>, k: nat, p: Product)
    requires NoRepeats(Names(products)) && k <= |products|
    requires k < |products| ==> products[k].name == p.name
    requires k == |products| ==> p.name !in Names(products)
    ensures var next := if k < |products| then products[k := p] else products + [p];
            && ByName(next) == ByName(products)[p.name := p]
            && Names(next) == if p.name in Names(products) then Names(products) else Names(products) + [p.name]
  {
    if k < |products| {
      assert Names(products)[k] == p.name;
      assert Names(products[k := p]) == Names(products);
      ReplaceInMap(products, k, p);
    } else {
      assert (products + [p])[..|products|] == products;
    }
  }

  lemma {:induction false} ReplaceInMap(products: seq<Product>, k: nat, p: Product)
    requires NoRepeats(Names(products)) && k < |products| && products[k].name == p.name
    ensures ByName(products[k := p]) == ByName(products)[p.name := p]
  {
    var n := |products| - 1;
    var before, last := products[..n], products[n];
    if k == n {
      assert products[k := p][..n] == before;
    } else {
      assert products[k := p][..n] == before[k := p];
      assert forall i | 0 <= i < n :: Names(before)[i] == Names(products)[i];
      assert Names(products)[k] != Names(products)[n];
      ReplaceInMap(before, k, p);
    }
  }

  lemma ByNameAppend(products: seq<Product>, p: Product)
    ensures ByName(products + [p]) == ByName(products)[p.name := p]
  {
    assert (products + [p])[..|products|] == products;
  }

  // ---------------------------------------------------------------- loading

  /** The catalogue lists the names of `all` once, in order, each with its last definition. */
  predicate Merges(products: seq<Product>, all: seq<Product>) {
    && NoRepeats(Names(products))
    && ByName(products) == ByName(all)
    && Names(products) == Distinct(Names(all))
  }

  lemma {:induction false} MergeIsUnique(a: seq<Product>, b: seq<Product>, all: seq<Product>)
    requires Merges(a, all) && Merges(b, all)
    ensures a == b
  {
    assert |a| == |Names(a)| == |Names(b)| == |b|;
    forall i | 0 <= i < |a|
      ensures a[i] == b[i]
    {
      assert a[i].name == Names(a)[i] == Names(b)[i] == b[i].name;
      ByNameFinds(a);
      ByNameFinds(b);
      NameIdentifies(a, a[i], ByName(a)[a[i].name]);
      NameIdentifies(b, b[i], ByName(b)[b[i].name]);
    }
  }

  method Override(products: seq<Product>, p: Product, ghost all: seq<Product>) returns (next: seq<Product>)
    requires Merges(products, all)
    ensures Merges(next, all + [p])
  {
    var k := Position(products, p.name);
    if k < |products| {
      next := products[k := p];
    } else {
      next := products + [p];
    }
    assert forall i | 0 <= i < |products| :: products[i].name == Names(products)[i];
    OverrideMerges(products, k, p, all);
  }

  lemma OverrideMerges(products: seq<Product>, k: nat, p: Product, all: seq<Product>)
    requires Merges(products, all) && k <= |products|
    requires k < |products| ==> products[k].name == p.name
    requires k == |products| ==> p.name !in Names(products)
    ensures Merges(if k < |products| then products[k := p] else products + [p], all + [p])
  {
    OverrideOne(products, k, p);
    ByNameAppend(all, p);
    NamesAppend(all, p);
    RepeatsOneMore(Names(products), p.name);
  }

  lemma NamesAppend(all: seq<Product>, p: Product)
    ensures Distinct(Names(all + [p])) ==
            var before := Distinct(Names(all)); if p.name in before then before else before + [p.name]
  {
    assert Names(all + [p])[..|all|] == Names(all);
  }

  lemma ExternalsStep(builtin: seq<Product>, entries: seq<Entry>, i: nat)
    requires i < |entries|
    ensures builtin + Externals(entries[..i + 1]) ==
            var all := builtin + Externals(entries[..i]);
            if entries[i].External? then all + [entries[i].product] else all
  {
    assert entries[..i + 1][..i] == entries[..i];
    assert Externals(entries[..i]) + [] == Externals(entries[..i]);
  }

  lemma NoneBrokenStep(entries: seq<Entry>, i: nat)
    requires i < |entries|
    ensures NoneBroken(entries[..i + 1]) <==> NoneBroken(entries[..i]) && !entries[i].Broken?
  {
    assert entries[..i + 1] == entries[..i] + [entries[i]];
  }

  method MergeExternal(builtin: seq<Product>, entries: seq<Entry>) returns (r: Result<seq<Product>, Error>)
    requires NoRepeats(Names(builtin))
    ensures r.Ok? ==> Merges(r.value, builtin + Externals(entries)) && NoneBroken(entries)
    ensures r.Err? ==>
              exists i | 0 <= i < |entries| ::
                r.error.FileError? && entries[i] == Broken(r.error.message) && NoneBroken(entries[..i])
  {
    var products := builtin;
    DistinctUnchanged(Names(builtin));
    assert builtin + Externals(entries[..0]) == builtin;
    for i := 0 to |entries|
      invariant Merges(products, builtin + Externals(entries[..i]))
      invariant NoneBroken(entries[..i])
    {
      var entry := entries[i];
      ExternalsStep(builtin, entries, i);
      NoneBrokenStep(entries, i);
      if entry.Broken? {
        assert entries[i] == Broken(entry.message) && NoneBroken(entries[..i]);
        return Err(FileError(entry.message));
      }
      if entry.External? {
        ghost var all := builtin + Externals(entries[..i]);
        products := Override(products, entry.product, all);
      }
    }
    assert entries[..|entries|] == entries;
    return Ok(products);
  }

  /** The `i`-th entry is the last external product of its name. */
  predicate LastOfName(entries: seq<Entry>, i: nat) {
    && i < |entries| && entries[i].External?
    && forall j | i < j < |entries| && entries[j].External? :: entries[j].product.name != entries[i].product.name
  }

  predicate Overridden(entries: seq<Entry>, name: string) {
    exists i | 0 <= i < |entries| :: entries[i].External? && entries[i].product.name == name
  }

  /** By directory entry: the last external product of a name is in, a built-in one only if no external has its name. */
  predicate Overlays(builtin: seq<Product>, entries: seq<Entry>, products: seq<Product>) {
    && (forall i | 0 <= i < |entries| && LastOfName(entries, i) :: entries[i].product in products)
    && (forall p | p in builtin && !Overridden(entries, p.name) :: p in products)
    && (forall p | p in products ::
          || (p in builtin && !Overridden(entries, p.name))
          || exists i | 0 <= i < |entries| :: LastOfName(entries, i) && entries[i].product == p)
  }

  lemma {:induction false} LastExternalIsFound(builtin: seq<Product>, entries: seq<Entry>, i: nat)
    requires LastOfName(entries, i)
    ensures var all, p := ByName(builtin + Externals(entries)), entries[i].product;
            p.name in all && all[p.name] == p
    decreases |entries|
  {
    var n := |entries| - 1;
    var before := entries[..n];
    ExternalsStep(builtin, entries, n);
    assert entries[..n + 1] == entries;
    if entries[n].External? {
      ByNameAppend(builtin + Externals(before), entries[n].product);
    }
    if i < n {
      LastExternalIsFound(builtin, before, i);
    }
  }

  lemma {:induction false} BuiltinIsFound(builtin: seq<Product>, entries: seq<Entry>, p: Product)
    requires NoRepeats(Names(builtin)) && p in builtin && !Overridden(entries, p.name)
    ensures var all := ByName(builtin + Externals(entries));
            p.name in all && all[p.name] == p
    decreases |entries|
  {
    if entries == [] {
      assert builtin + Externals(entries) == builtin;
      ByNameFinds(builtin);
      NameIdentifies(builtin, p, ByName(builtin)[p.name]);
    } else {
      var n := |entries| - 1;
      var before := entries[..n];
      ExternalsStep(builtin, entries, n);
      assert entries[..n + 1] == entries;
      assert forall i | 0 <= i < n :: before[i] == entries[i];
      if entries[n].External? {
        ByNameAppend(builtin + Externals(before), entries[n].product);
      }
      BuiltinIsFound(builtin, before, p);
    }
  }

  lemma {:induction false} LastExternalExists(entries: seq<Entry>, name: string) returns (i: nat)
    requires Overridden(entries, name)
    ensures LastOfName(entries, i) && entries[i].product.name == name
    decreases |entries|
  {
    var n := |entries| - 1;
    if entries[n].External? && entries[n].product.name == name {
      i := n;
    } else {
      var before := entries[..n];
      assert Overridden(before, name) by {
        var k :| 0 <= k < |entries| && entries[k].External? && entries[k].product.name == name;
        assert before[k] == entries[k];
      }
      i := LastExternalExists(before, name);
      assert forall j | 0 <= j < n :: before[j] == entries[j];
    }
  }

  lemma {:induction false} ComesFromSomewhere(builtin: seq<Product>, entries: seq<Entry>, p: Product)
    requires p in builtin + Externals(entries)
    ensures p in builtin || Overridden(entries, p.name)
    decreases |entries|
  {
    if entries != [] && p !in builtin {
      var n := |entries| - 1;
      ExternalsStep(builtin, entries, n);
      assert entries[..n + 1] == entries;
      if entries[n] == External(p) {
      } else {
        ComesFromSomewhere(builtin, entries[..n], p);
        var i :| 0 <= i < n && entries[..n][i].External? && entries[..n][i].product.name == p.name;
        assert entries[i] == entries[..n][i];
      }
    }
  }

  lemma {:induction false} MergesOverlays(builtin: seq<Product>, entries: seq<Entry>, products: seq<Product>)
    requires NoRepeats(Names(builtin)) && Merges(products, builtin + Externals(entries))
    ensures Overlays(builtin, entries, products)
  {
    var all := builtin + Externals(entries);
    ByNameFinds(products);
    ByNameFinds(all);
    forall i | 0 <= i < |entries| && LastOfName(entries, i)
      ensures entries[i].product in products
    {
      LastExternalIsFound(builtin, entries, i);
    }
    forall p | p in builtin && !Overridden(entries, p.name)
      ensures p in products
    {
      BuiltinIsFound(builtin, entries, p);
    }
    forall p | p in products
      ensures || (p in builtin && !Overridden(entries, p.name))
              || exists i | 0 <= i < |entries| :: LastOfName(entries, i) && entries[i].product == p
    {
      NameIdentifies(products, p, ByName(products)[p.name]);
      if Overridden(entries, p.name) {
        var i := LastExternalExists(entries, p.name);
        LastExternalIsFound(builtin, entries, i);
      } else {
        assert p in all;
        ComesFromSomewhere(builtin, entries, p);
      }
    }
  }

  /** A loaded catalogue is accepted and is the built-in one with the external products laid over it. */
  method Load(builtin: seq<Product>, entries: seq<Entry>) returns (r: Result<seq<Product>, Error>)
    requires Accepted(builtin)
    ensures r.Ok? ==> Accepted(r.value) && Merges(r.value, builtin + Externals(entries))
    ensures r.Ok? ==> Overlays(builtin, entries, r.value)
    ensures !NoneBroken(entries) <==> r.Err? && r.error.FileError?
    ensures !NoneBroken(entries) ==>
              exists i | 0 <= i < |entries| :: entries[i] == Broken(r.error.message) && NoneBroken(entries[..i])
    ensures r.Err? && !r.error.FileError? ==>
            forall c | Merges(c, builtin + Externals(entries)) :: !Accepted(c)
  {
    r := MergeExternal(builtin, entries);
    if r.Ok? {
      MergesOverlays(builtin, entries, r.value);
      var error := Validate(r.value);
      if error.Some? {
        NotAFileError(r.value, error.value);
        forall c | Merges(c, builtin + Externals(entries))
          ensures c == r.value
        {
          MergeIsUnique(c, r.value, builtin + Externals(entries));
        }
        r := Err(error.value);
      }
    }
  }

  lemma NotAFileError(products: seq<Product>, e: Error)
    requires exists p :: p in products && Faulty(products, p, e)
    ensures !e.FileError?
  {
  }
}
