/**
 What the split of `apps/src/utils/ruleHistoryDisplay.ts` means for the shown tree: under which row each step is
 shown. Parents and ancestors are read off the shown depths alone.
 */
module ExecutionParents {
  import opened Basics
  import opened ExecutionTree

  type Rows = seq<(Step, nat)>

  /** The last of the first `n` rows that is less deep, or -1. */
  function LastAbove(rows: Rows, depth: nat, n: nat): (p: int)
    requires n <= |rows|
    ensures -1 <= p < n
    ensures p >= 0 ==> rows[p].1 < depth
    ensures forall j | p < j < n :: rows[j].1 >= depth
  {
    if n == 0 then -1 else if rows[n - 1].1 < depth then n - 1 else LastAbove(rows, depth, n - 1)
  }

  /** The row that a row is shown under, or -1. */
  function Parent(rows: Rows, i: nat): (p: int)
    requires i < |rows|
    ensures -1 <= p < i
  {
    LastAbove(rows, rows[i].1, i)
  }

  /** The nearest proper ancestor that fans out, or -1. */
  function NearestFanOut(rows: Rows, i: nat): (k: int)
    requires i < |rows|
    ensures -1 <= k < i
    ensures k >= 0 ==> IsFanOutParent(rows[k].0)
  {
    var p := Parent(rows, i);
    if p < 0 || IsFanOutParent(rows[p].0) then p else NearestFanOut(rows, p)
  }

  /** The kind of a node is that of its step only if the node has none; what is terminal or of kind `end` ends a branch. */
  lemma StepRoles(s: Step)
    ensures IsBranchEnd(s) <==> s.terminal || s.nodeKind == End || (s.nodeKind == Absent && s.stepType == End)
    ensures IsFanOutParent(s) <==>
            || s.nodeKind in {Switch, FunctionSwitch, Start}
            || (s.nodeKind == Absent && s.stepType in {Switch, FunctionSwitch, Start})
  {
  }

  // ---------------------------------------------------------------- the open path as row numbers

  /** Numbers of steps. */
  predicate Among(steps: seq<Step>, open: seq<nat>) {
    forall p | 0 <= p < |open| :: open[p] < |steps|
  }

  function Picked(steps: seq<Step>, open: seq<nat>): (path: seq<Step>)
    requires Among(steps, open)
    ensures |path| == |open| && forall p | 0 <= p < |open| :: path[p] == steps[open[p]]
  {
    seq(|open|, p requires 0 <= p < |open| => steps[open[p]])
  }

  /** Up to the last fan-out parent, else all. */
  function Cut(steps: seq<Step>, open: seq<nat>): (m: nat)
    requires Among(steps, open)
    ensures m <= |open|
  {
    var k := LastFanOut(Picked(steps, open));
    if k >= 0 then k + 1 else |open|
  }

  /** The rows have the depths of the open paths. */
  predicate Measures(opens: seq<seq<nat>>, rows: Rows) {
    |opens| == |rows| && forall i | 0 <= i < |rows| :: rows[i].1 == |opens[i]|
  }

  /**
   Each open step lies as deep as its place on the path, everything since lies deeper, and the steps before it on the path
   were open when it came.
   */
  predicate Nested(opens: seq<seq<nat>>, open: seq<nat>) {
    && (forall p | 0 <= p < |open| :: open[p] < |opens| && opens[open[p]] == open[..p])
    && (forall p, r | 0 <= p < |open| && open[p] < r < |opens| :: |opens[r]| > p)
  }

  lemma {:induction false} NestedOneMore(opens: seq<seq<nat>>, open: seq<nat>, m: nat)
    requires Nested(opens, open) && m <= |open|
    ensures Nested(opens + [open], open + [|opens|])
    ensures Nested(opens + [open], open[..m])
  {
    var more := open + [|opens|];
    assert more[..|open|] == open && forall p | 0 <= p < |open| :: more[..p] == open[..p];
    assert forall p | 0 <= p < m :: open[..m][..p] == open[..p];
  }

  /** The open path after the next step. */
  function NextOpen(steps: seq<Step>, open: seq<nat>, i: nat): (next: seq<nat>)
    requires i < |steps| && Among(steps, open)
    ensures Among(steps, next)
  {
    if IsBranchEnd(steps[i]) then open[..Cut(steps, open)] else open + [i]
  }

  /** The `i`-th of the open paths is the one before step `i`. */
  predicate OpenBefore(steps: seq<Step>, opens: seq<seq<nat>>, i: nat)
    requires i < |opens| <= |steps| + 1
  {
    && Among(steps, opens[i]) && Current(steps[..i]) == Picked(steps, opens[i])
    && Nested(opens[..i], opens[i])
    && (i > 0 ==> Among(steps, opens[i - 1]) && opens[i] == NextOpen(steps, opens[i - 1], i - 1))
  }

  lemma {:induction false} StillBefore(steps: seq<Step>, opens: seq<seq<nat>>, open: seq<nat>, i: nat)
    requires i < |opens| <= |steps| && OpenBefore(steps, opens, i)
    ensures OpenBefore(steps, opens + [open], i)
  {
    assert (opens + [open])[..i] == opens[..i];
  }

  lemma {:induction false} CurrentNext(steps: seq<Step>, open: seq<nat>, i: nat)
    requires i < |steps| && Among(steps, open) && Current(steps[..i]) == Picked(steps, open)
    ensures Current(steps[..i + 1]) == Picked(steps, NextOpen(steps, open, i))
  {
    assert steps[..i + 1][..i] == steps[..i];
  }

  lemma {:induction false} NextIsNested(steps: seq<Step>, opens: seq<seq<nat>>, open: seq<nat>, i: nat)
    requires i == |opens| < |steps| && Nested(opens, open) && Among(steps, open)
    ensures Nested(opens + [open], NextOpen(steps, open, i))
  {
    NestedOneMore(opens, open, Cut(steps, open));
  }

  lemma SplitLast(opens: seq<seq<nat>>, next: seq<nat>, n: nat)
    requires |opens| == n + 1
    ensures (opens + [next])[..n + 1] == opens == opens[..n] + [opens[n]]
    ensures (opens + [next])[n] == opens[n] && (opens + [next])[n + 1] == next
  {
  }

  lemma {:induction false} BeforeNext(steps: seq<Step>, opens: seq<seq<nat>>, n: nat)
    requires |opens| == n + 1 <= |steps| && OpenBefore(steps, opens, n)
    ensures OpenBefore(steps, opens + [NextOpen(steps, opens[n], n)], n + 1)
  {
    var open := opens[n];
    CurrentNext(steps, open, n);
    NextIsNested(steps, opens[..n], open, n);
    SplitLast(opens, NextOpen(steps, open, n), n);
  }

  lemma {:induction false} OpensUpTo(steps: seq<Step>, n: nat) returns (opens: seq<seq<nat>>)
    requires n <= |steps|
    ensures |opens| == n + 1 && opens[0] == [] && forall i | 0 <= i <= n :: OpenBefore(steps, opens, i)
  {
    opens := [[]];
    assert steps[..0] == [];
    if n > 0 {
      var before := OpensUpTo(steps, n - 1);
      assert OpenBefore(steps, before, n - 1);
      opens := before + [NextOpen(steps, before[n - 1], n - 1)];
      BeforeNext(steps, before, n - 1);
      forall i | 0 <= i < n
        ensures OpenBefore(steps, opens, i)
      {
        StillBefore(steps, before, opens[n], i);
      }
    }
  }

  lemma {:induction false} ParentIsLastOpen(opens: seq<seq<nat>>, rows: Rows, i: nat)
    requires Measures(opens, rows) && i < |rows| && Nested(opens[..i], opens[i])
    ensures Parent(rows, i) == if opens[i] == [] then -1 else opens[i][|opens[i]| - 1]
  {
    var open, p := opens[i], Parent(rows, i);
    if open != [] {
      var last := open[|open| - 1];
      assert opens[last] == opens[..i][last] == open[..|open| - 1];
      assert forall r | last < r < i :: |opens[..i][r]| > |open| - 1;
    }
  }

  predicate AllNested(opens: seq<seq<nat>>) {
    forall i | 0 <= i < |opens| :: Nested(opens[..i], opens[i])
  }

  lemma {:induction false} ParentOfOpen(opens: seq<seq<nat>>, rows: Rows, i: nat, p: nat)
    requires Measures(opens, rows) && AllNested(opens) && i < |rows| && p < |opens[i]|
    ensures opens[i][p] < i
    ensures Parent(rows, opens[i][p]) == if p == 0 then -1 else opens[i][p - 1]
  {
    var open := opens[i];
    assert Nested(opens[..i], open);
    assert opens[open[p]] == opens[..i][open[p]] == open[..p];
    ParentIsLastOpen(opens, rows, open[p]);
  }

  /** The row, or its nearest proper ancestor, that fans out. */
  function FanOutAt(rows: Rows, i: nat): int
    requires i < |rows|
  {
    if IsFanOutParent(rows[i].0) then i else NearestFanOut(rows, i)
  }

  /** The path of the open steps before row `i`. */
  predicate IsPathTo(opens: seq<seq<nat>>, rows: Rows, i: nat, path: seq<Step>) {
    && i < |opens| == |rows| && |opens[i]| == |path|
    && forall q | 0 <= q < |path| :: opens[i][q] < i && path[q] == rows[opens[i][q]].0
  }

  /** `k` is the last fan-out parent among the first `n`, or -1. */
  predicate LastFan(path: seq<Step>, n: nat, k: int) {
    && -1 <= k < n <= |path|
    && (k >= 0 ==> IsFanOutParent(path[k]))
    && forall q | k < q < n :: !IsFanOutParent(path[q])
  }

  /** Walking up from the last of the first `n` open steps finds the last fan-out parent among them. */
  lemma {:induction false} WalkUp(opens: seq<seq<nat>>, rows: Rows, i: nat, path: seq<Step>, n: nat, k: int)
    requires Measures(opens, rows) && AllNested(opens) && IsPathTo(opens, rows, i, path)
    requires n > 0 && LastFan(path, n, k)
    ensures FanOutAt(rows, opens[i][n - 1]) == if k >= 0 then opens[i][k] else -1
    decreases n
  {
    ParentOfOpen(opens, rows, i, n - 1);
    if n > 1 && k < n - 1 {
      NearestIsAbove(rows, opens[i][n - 1], opens[i][n - 2]);
      WalkUp(opens, rows, i, path, n - 1, k);
    }
  }

  lemma NearestIsAbove(rows: Rows, i: nat, p: int)
    requires i < |rows| && p == Parent(rows, i)
    ensures NearestFanOut(rows, i) == if p < 0 then -1 else FanOutAt(rows, p)
  {
  }

  lemma {:induction false} NearestIsLastFanOut(opens: seq<seq<nat>>, rows: Rows, i: nat, path: seq<Step>, k: int)
    requires Measures(opens, rows) && AllNested(opens) && IsPathTo(opens, rows, i, path) && LastFan(path, |path|, k)
    ensures NearestFanOut(rows, i) == if k >= 0 then opens[i][k] else -1
  {
    assert Nested(opens[..i], opens[i]);
    ParentIsLastOpen(opens, rows, i);
    NearestIsAbove(rows, i, Parent(rows, i));
    if path != [] {
      WalkUp(opens, rows, i, path, |path|, k);
    }
  }

  // ---------------------------------------------------------------- the parent of every row

  /** The next row comes under this one, or after a branch end under its nearest fan-out ancestor, else beside it. */
  predicate NextIsPlaced(rows: Rows, i: nat)
    requires i + 1 < |rows|
  {
    var p := Parent(rows, i + 1);
    && p == (if !IsBranchEnd(rows[i].0) then i
             else if NearestFanOut(rows, i) >= 0 then NearestFanOut(rows, i)
             else Parent(rows, i))
    && rows[i + 1].1 == if p < 0 then 0 else rows[p].1 + 1
  }

  /** The open paths before each of the steps. */
  predicate OpensFor(steps: seq<Step>, opens: seq<seq<nat>>) {
    |opens| == |steps| && forall i | 0 <= i < |steps| :: OpenBefore(steps, opens, i)
  }

  lemma {:induction false} OpensMeasure(steps: seq<Step>, opens: seq<seq<nat>>)
    requires OpensFor(steps, opens)
    ensures Measures(opens, Indented(steps)) && AllNested(opens)
  {
    forall i | 0 <= i < |steps|
      ensures Indented(steps)[i].1 == |opens[i]| && Nested(opens[..i], opens[i])
    {
      assert OpenBefore(steps, opens, i);
    }
  }

  lemma {:induction false} Placed(opens: seq<seq<nat>>, rows: Rows, i: nat, path: seq<Step>, k: int)
    requires Measures(opens, rows) && AllNested(opens) && i + 1 < |rows| && IsPathTo(opens, rows, i, path)
    requires LastFan(path, |path|, k)
    requires opens[i + 1] == if !IsBranchEnd(rows[i].0) then opens[i] + [i] else if k >= 0 then opens[i][..k + 1] else opens[i]
    ensures NextIsPlaced(rows, i)
  {
    assert Nested(opens[..i], opens[i]) && Nested(opens[..i + 1], opens[i + 1]);
    ParentIsLastOpen(opens, rows, i + 1);
    ParentIsLastOpen(opens, rows, i);
    NearestIsLastFanOut(opens, rows, i, path, k);
    DepthOfParent(opens, rows, i + 1);
  }

  lemma {:induction false} DepthOfParent(opens: seq<seq<nat>>, rows: Rows, i: nat)
    requires Measures(opens, rows) && i < |rows| && Nested(opens[..i], opens[i])
    ensures var p := Parent(rows, i);
            rows[i].1 == if p < 0 then 0 else rows[p].1 + 1
  {
    ParentIsLastOpen(opens, rows, i);
    var open := opens[i];
    if open != [] {
      var last := open[|open| - 1];
      assert opens[last] == opens[..i][last] == open[..|open| - 1];
    }
  }

  lemma {:induction false} CutIs(steps: seq<Step>, open: seq<nat>, path: seq<Step>, k: int)
    requires Among(steps, open) && path == Picked(steps, open) && k == LastFanOut(path)
    ensures LastFan(path, |path|, k)
    ensures open[..Cut(steps, open)] == if k >= 0 then open[..k + 1] else open
  {
  }

  lemma {:induction false} PickedIsPath(steps: seq<Step>, opens: seq<seq<nat>>, rows: Rows, i: nat)
    requires i < |opens| == |rows| == |steps| && Nested(opens[..i], opens[i]) && Among(steps, opens[i])
    requires forall j | 0 <= j < |steps| :: rows[j].0 == steps[j]
    ensures IsPathTo(opens, rows, i, Picked(steps, opens[i]))
  {
  }

  lemma {:induction false} PlacedBy(steps: seq<Step>, opens: seq<seq<nat>>, rows: Rows, i: nat)
    requires Measures(opens, rows) && AllNested(opens) && |opens| == |steps| && i + 1 < |steps|
    requires OpenBefore(steps, opens, i) && OpenBefore(steps, opens, i + 1)
    requires forall j | 0 <= j < |steps| :: rows[j].0 == steps[j]
    ensures NextIsPlaced(rows, i)
  {
    var path := Picked(steps, opens[i]);
    var k := LastFanOut(path);
    PickedIsPath(steps, opens, rows, i);
    CutIs(steps, opens[i], path, k);
    Placed(opens, rows, i, path, k);
  }

  lemma {:induction false} PlacedInSteps(steps: seq<Step>, i: nat)
    requires i + 1 < |steps|
    ensures NextIsPlaced(Indented(steps), i) && Indented(steps)[0].1 == 0
  {
    var opens := OpensUpTo(steps, |steps| - 1);
    OpensMeasure(steps, opens);
    PlacedBy(steps, opens, Indented(steps), i);
  }

  /**
   When every step has a row of its own, the first row is a root, and every next row is placed by the one before it.
   With the steps this fixes all depths.
   */
  lemma {:induction false} ParentOfNext(steps: seq<Step>, i: nat)
    requires i + 1 < |steps| && |Flatten(Build(steps), 0)| == |steps|
    ensures var rows := Shown(Flatten(Build(steps), 0));
            && |rows| == |steps| && (forall j | 0 <= j < |steps| :: rows[j].0 == steps[j])
            && rows[0].1 == 0 && NextIsPlaced(rows, i)
  {
    FlattenRestoresSteps(steps);
    PlacedInSteps(steps, i);
  }

  // ---------------------------------------------------------------- siblings

  predicate AtLeast(rows: seq<Row>, depth: nat) {
    forall i | 0 <= i < |rows| :: rows[i].depth >= depth
  }

  lemma {:induction false} FlattenParts(nodes: seq<Tree>, index: nat, depth: nat)
    requires index < |nodes|
    ensures FlattenFrom(nodes, index, depth) ==
            [Row(nodes[index], depth, index, |nodes|)] + FlattenFrom(nodes[index].children, 0, depth + 1)
            + FlattenFrom(nodes, index + 1, depth)
  {
  }

  lemma {:induction false} DeeperOrEqual(nodes: seq<Tree>, index: nat, depth: nat)
    requires index <= |nodes|
    ensures AtLeast(FlattenFrom(nodes, index, depth), depth)
    decreases nodes, |nodes| - index
  {
    if index < |nodes| {
      FlattenParts(nodes, index, depth);
      DeeperOrEqual(nodes[index].children, 0, depth + 1);
      DeeperOrEqual(nodes, index + 1, depth);
    }
  }

  /** The row is that of the `branchIndex`-th of `siblingCount` nodes: roots, or the children of the row it is under. */
  predicate PlacedAmong(rows: seq<Row>, i: nat, roots: seq<Tree>, depth: nat, parent: int)
    requires i < |rows|
  {
    && -1 <= parent < i
    && (if parent < 0 then rows[i].depth == depth
        else rows[i].depth == rows[parent].depth + 1 && forall k | parent < k < i :: rows[k].depth >= rows[i].depth)
    && var siblings := if parent < 0 then roots else rows[parent].node.children;
       rows[i].branchIndex < |siblings| == rows[i].siblingCount && siblings[rows[i].branchIndex] == rows[i].node
  }

  lemma {:induction false} RowsKnowSiblings(nodes: seq<Tree>, index: nat, depth: nat, rows: seq<Row>, i: nat)
    returns (parent: int)
    requires index <= |nodes| && rows == FlattenFrom(nodes, index, depth) && i < |rows|
    ensures PlacedAmong(rows, i, nodes, depth, parent)
    decreases nodes, |nodes| - index
  {
    SomeNodeLeft(nodes, index, depth);
    FlattenParts(nodes, index, depth);
    var head, sub, rest := Row(nodes[index], depth, index, |nodes|), FlattenFrom(nodes[index].children, 0, depth + 1),
                           FlattenFrom(nodes, index + 1, depth);
    if i == 0 {
      AtHead(head, sub, rest, nodes);
      parent := -1;
    } else if i <= |sub| {
      var p := RowsKnowSiblings(nodes[index].children, 0, depth + 1, sub, i - 1);
      DeeperOrEqual(nodes[index].children, 0, depth + 1);
      InSub(head, sub, rest, nodes, depth, i - 1, p);
      parent := p + 1;
    } else {
      var p := RowsKnowSiblings(nodes, index + 1, depth, rest, i - 1 - |sub|);
      InRest(head, sub, rest, nodes, depth, i - 1 - |sub|, p);
      parent := if p < 0 then -1 else p + 1 + |sub|;
    }
  }

  lemma SomeNodeLeft(nodes: seq<Tree>, index: nat, depth: nat)
    requires index <= |nodes| && FlattenFrom(nodes, index, depth) != []
    ensures index < |nodes|
  {
  }

  lemma AtHead(head: Row, sub: seq<Row>, rest: seq<Row>, nodes: seq<Tree>)
    requires head.branchIndex < |nodes| == head.siblingCount && nodes[head.branchIndex] == head.node
    ensures PlacedAmong([head] + sub + rest, 0, nodes, head.depth, -1)
  {
  }

  lemma InSub(head: Row, sub: seq<Row>, rest: seq<Row>, nodes: seq<Tree>, depth: nat, i: nat, p: int)
    requires i < |sub| && head.depth == depth && PlacedAmong(sub, i, head.node.children, depth + 1, p)
    requires AtLeast(sub, depth + 1)
    ensures PlacedAmong([head] + sub + rest, i + 1, nodes, depth, p + 1)
  {
    var rows := [head] + sub + rest;
    assert rows[0] == head && forall k | 0 < k <= |sub| :: rows[k] == sub[k - 1];
  }

  lemma InRest(head: Row, sub: seq<Row>, rest: seq<Row>, nodes: seq<Tree>, depth: nat, i: nat, p: int)
    requires i < |rest| && PlacedAmong(rest, i, nodes, depth, p)
    ensures PlacedAmong([head] + sub + rest, i + 1 + |sub|, nodes, depth, if p < 0 then -1 else p + 1 + |sub|)
  {
    var rows, n := [head] + sub + rest, 1 + |sub|;
    assert forall k | n <= k < |rows| :: rows[k] == rest[k - n];
  }

  /** Every row tells how many siblings its node has and which of them it is. */
  lemma FlattenedRowsKnowSiblings(nodes: seq<Tree>, i: nat) returns (parent: int)
    requires i < |Flatten(nodes, 0)|
    ensures PlacedAmong(Flatten(nodes, 0), i, nodes, 0, parent)
  {
    parent := RowsKnowSiblings(nodes, 0, 0, Flatten(nodes, 0), i);
  }

  // ---------------------------------------------------------------- steps with the same ids

  /** The step stored at the end of a path of ids, if the tree has that path. */
  function StepAt(forest: seq<Tree>, ids: seq<string>): Option<Step>
    requires ids != []
    decreases |ids|
  {
    var k := Find(forest, ids[0]);
    if k == |forest| then None
    else if |ids| == 1 then Some(forest[k].step)
    else StepAt(forest[k].children, ids[1..])
  }

  lemma {:induction false} InsertSets(forest: seq<Tree>, path: seq<Step>, ids: seq<string>)
    requires ids != []
    ensures StepAt(Insert(forest, path), ids) ==
            if ids <= Ids(path) then Some(path[|ids| - 1]) else StepAt(forest, ids)
    decreases |path|
  {
    if path != [] {
      var k := Find(forest, path[0].nodeId);
      FindAfterInsert(forest, path, ids[0]);
      assert Ids(path)[1..] == Ids(path[1..]);
      assert ids <= Ids(path) <==> ids[0] == path[0].nodeId && ids[1..] <= Ids(path[1..]);
      if ids[0] == path[0].nodeId && |ids| > 1 {
        InsertSets(if k == |forest| then [] else forest[k].children, path[1..], ids[1..]);
      }
    }
  }

  /** Of several steps with the same ids on their paths the tree keeps the one on the last path. */
  lemma {:induction false} LastPathWins(paths: seq<seq<Step>>, ids: seq<string>, n: nat)
    requires ids != [] && n < |paths| && ids <= Ids(paths[n])
    requires forall k | n < k < |paths| :: !(ids <= Ids(paths[k]))
    ensures StepAt(Merge(paths), ids) == Some(paths[n][|ids| - 1])
    decreases |paths|
  {
    var before, last := paths[..|paths| - 1], paths[|paths| - 1];
    InsertSets(Merge(before), last, ids);
    if n < |before| {
      LastPathWins(before, ids, n);
    }
  }
}
