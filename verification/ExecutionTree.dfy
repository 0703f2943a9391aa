/**
 Execution-tree reconstruction of `apps/src/utils/ruleHistoryDisplay.ts`: a flat depth-first list of
 steps is split into branch paths, the paths are merged into a trie keyed by node id, and the trie is
 flattened again for display.
 */
module ExecutionTree {
  import opened Basics

  /** Node kinds the splitting distinguishes; `Absent` is a missing or empty (falsy) text. */
  datatype NodeKind = Absent | Start | Switch | FunctionSwitch | End | Other(name: string)

  datatype Step = Step(nodeId: string, caption: string, nodeKind: NodeKind, stepType: NodeKind, terminal: bool)

  datatype Tree = Node(step: Step, children: seq<Tree>)

  datatype Row = Row(node: Tree, depth: nat, branchIndex: nat, siblingCount: nat)

  function Kind(s: Step): NodeKind {
    if s.nodeKind != Absent then s.nodeKind else s.stepType
  }

  predicate IsBranchEnd(s: Step) {
    s.terminal || Kind(s) == End
  }

  predicate IsFanOutParent(s: Step) {
    Kind(s) == Switch || Kind(s) == FunctionSwitch || Kind(s) == Start
  }

  // ---------------------------------------------------------------- splitting

  /** The index of the nearest fan-out parent, or -1. */
  function LastFanOut(path: seq<Step>): (k: int)
    ensures -1 <= k < |path|
    ensures k >= 0 ==> IsFanOutParent(path[k])
    ensures forall i | k < i < |path| :: !IsFanOutParent(path[i])
  {
    if path == [] then -1
    else if IsFanOutParent(path[|path| - 1]) then |path| - 1
    else LastFanOut(path[..|path| - 1])
  }

  /** The part of a path kept after its leaf was popped: up to the nearest fan-out parent, else all. */
  function Keep(path: seq<Step>): seq<Step> {
    if LastFanOut(path) >= 0 then path[..LastFanOut(path) + 1] else path
  }

  /** The open path after the given steps: each new step is a child of its last element. */
  function Current(steps: seq<Step>): seq<Step> {
    if steps == [] then []
    else
      var before, s := Current(steps[..|steps| - 1]), steps[|steps| - 1];
      if IsBranchEnd(s) then Keep(before) else before + [s]
  }

  /** The paths closed by a branch end. */
  function Closed(steps: seq<Step>): seq<seq<Step>> {
    if steps == [] then []
    else
      var before, s := steps[..|steps| - 1], steps[|steps| - 1];
      if IsBranchEnd(s) then Closed(before) + [Current(before) + [s]] else Closed(before)
  }

  function SplitPaths(steps: seq<Step>): seq<seq<Step>> {
    if Current(steps) == [] then Closed(steps) else Closed(steps) + [Current(steps)]
  }

  /** The loop that walks back to the nearest fan-out parent. */
  method FindFanOut(path: seq<Step>) returns (keepUntil: int)
    ensures keepUntil == LastFanOut(path)
  {
    keepUntil := -1;
    var i := |path| - 1;
    while i >= 0
      invariant -1 <= i < |path| && keepUntil == -1
      invariant forall j | i < j < |path| :: !IsFanOutParent(path[j])
    {
      if IsFanOutParent(path[i]) {
        keepUntil := i;
        break;
      }
      i := i - 1;
    }
  }

  method SplitExecutionPaths(steps: seq<Step>) returns (paths: seq<seq<Step>>)
    ensures paths == SplitPaths(steps)
  {
    paths := [];
    var current: seq<Step> := [];
    for n := 0 to |steps|
      invariant current == Current(steps[..n]) && paths == Closed(steps[..n])
    {
      assert steps[..n + 1][..n] == steps[..n];
      ghost var before := current;
      current := current + [steps[n]];
      if IsBranchEnd(steps[n]) {
        paths := paths + [current];
        current := current[..|current| - 1];
        var keepUntil := FindFanOut(current);
        if keepUntil >= 0 {
          current := current[..keepUntil + 1];
        }
      }
    }
    assert steps[..|steps|] == steps;
    if current != [] {
      paths := paths + [current];
    }
  }

  // ---------------------------------------------------------------- merging

  /** The index of the first node with this id, or the number of nodes. */
  function Find(forest: seq<Tree>, id: string): (k: nat)
    ensures k <= |forest|
    ensures k < |forest| ==> forest[k].step.nodeId == id
    ensures forall i | 0 <= i < k :: forest[i].step.nodeId != id
  {
    if forest == [] || forest[0].step.nodeId == id then 0 else 1 + Find(forest[1..], id)
  }

  /** Walks down a path, reusing or creating a child at every step and refreshing reused steps. */
  function Insert(forest: seq<Tree>, path: seq<Step>): seq<Tree>
    decreases |path|
  {
    if path == [] then forest
    else
      var k := Find(forest, path[0].nodeId);
      if k == |forest| then forest + [Node(path[0], Insert([], path[1..]))]
      else forest[k := Node(path[0], Insert(forest[k].children, path[1..]))]
  }

  function Merge(paths: seq<seq<Step>>): seq<Tree> {
    if paths == [] then [] else Insert(Merge(paths[..|paths| - 1]), paths[|paths| - 1])
  }

  method MergePathsToTree(paths: seq<seq<Step>>) returns (roots: seq<Tree>)
    ensures roots == Merge(paths)
  {
    roots := [];
    for n := 0 to |paths|
      invariant roots == Merge(paths[..n])
    {
      assert paths[..n + 1][..n] == paths[..n];
      roots := Insert(roots, paths[n]);
    }
    assert paths[..|paths|] == paths;
  }

  function Build(steps: seq<Step>): seq<Tree> {
    Merge(SplitPaths(steps))
  }

  method BuildExecutionTree(steps: seq<Step>) returns (roots: seq<Tree>)
    ensures roots == Build(steps)
  {
    var paths := SplitExecutionPaths(steps);
    roots := MergePathsToTree(paths);
  }

  // ---------------------------------------------------------------- flattening

  function FlattenFrom(nodes: seq<Tree>, index: nat, depth: nat): seq<Row>
    requires index <= |nodes|
    decreases nodes, |nodes| - index
  {
    if index == |nodes| then []
    else
      [Row(nodes[index], depth, index, |nodes|)]
      + FlattenFrom(nodes[index].children, 0, depth + 1)
      + FlattenFrom(nodes, index + 1, depth)
  }

  function Flatten(nodes: seq<Tree>, depth: nat): seq<Row> {
    FlattenFrom(nodes, 0, depth)
  }

  /** What a reader of the rows sees: each step with its indentation. */
  function Shown(rows: seq<Row>): seq<(Step, nat)> {
    seq(|rows|, i requires 0 <= i < |rows| => (rows[i].node.step, rows[i].depth))
  }

  function Preorder(nodes: seq<Tree>, depth: nat): seq<(Step, nat)> {
    if nodes == [] then []
    else [(nodes[0].step, depth)] + Preorder(nodes[0].children, depth + 1) + Preorder(nodes[1..], depth)
  }

  lemma {:induction false} FlattenIsPreorder(nodes: seq<Tree>, index: nat, depth: nat)
    requires index <= |nodes|
    ensures Shown(FlattenFrom(nodes, index, depth)) == Preorder(nodes[index..], depth)
    decreases nodes, |nodes| - index
  {
    if index < |nodes| {
      var node := nodes[index];
      FlattenIsPreorder(node.children, 0, depth + 1);
      FlattenIsPreorder(nodes, index + 1, depth);
      assert node.children[0..] == node.children;
      assert nodes[index..][0] == node && nodes[index..][1..] == nodes[index + 1..];
    }
  }

  lemma {:induction false} PreorderAppend(a: seq<Tree>, b: seq<Tree>, depth: nat)
    ensures Preorder(a + b, depth) == Preorder(a, depth) + Preorder(b, depth)
  {
    if a == [] {
      assert a + b == b;
    } else {
      PreorderAppend(a[1..], b, depth);
      assert (a + b)[0] == a[0] && (a + b)[1..] == a[1..] + b;
      PreorderHead(a, depth);
      PreorderHead(a + b, depth);
      Associative(Own(a[0], depth), Preorder(a[1..], depth), Preorder(b, depth));
    }
  }

  /** What one node shows: itself and its descendants. */
  function Own(t: Tree, depth: nat): seq<(Step, nat)> {
    [(t.step, depth)] + Preorder(t.children, depth + 1)
  }

  lemma PreorderHead(nodes: seq<Tree>, depth: nat)
    requires nodes != []
    ensures Preorder(nodes, depth) == Own(nodes[0], depth) + Preorder(nodes[1..], depth)
  {
  }

  function Size(nodes: seq<Tree>): nat {
    |Preorder(nodes, 0)|
  }

  lemma {:induction false} SizeAtAnyDepth(nodes: seq<Tree>, d: nat, e: nat)
    ensures |Preorder(nodes, d)| == |Preorder(nodes, e)|
  {
    if nodes != [] {
      SizeAtAnyDepth(nodes[0].children, d + 1, e + 1);
      SizeAtAnyDepth(nodes[1..], d, e);
    }
  }

  // ---------------------------------------------------------------- root paths of the trie

  function Ids(path: seq<Step>): seq<string> {
    seq(|path|, i requires 0 <= i < |path| => path[i].nodeId)
  }

  predicate HasPath(forest: seq<Tree>, ids: seq<string>)
    decreases |ids|
  {
    ids == [] ||
    var k := Find(forest, ids[0]);
    k < |forest| && HasPath(forest[k].children, ids[1..])
  }

  lemma {:induction false} InsertPaths(forest: seq<Tree>, path: seq<Step>, ids: seq<string>)
    ensures HasPath(Insert(forest, path), ids) <==> HasPath(forest, ids) || ids <= Ids(path)
    decreases |path|
  {
    if path != [] && ids != [] {
      var k := Find(forest, path[0].nodeId);
      var after := Insert(forest, path);
      assert Ids(path)[0] == path[0].nodeId && Ids(path)[1..] == Ids(path[1..]);
      assert ids <= Ids(path) <==> ids[0] == path[0].nodeId && ids[1..] <= Ids(path[1..]);
      FindAfterInsert(forest, path, ids[0]);
      if ids[0] == path[0].nodeId {
        InsertPaths(if k == |forest| then [] else forest[k].children, path[1..], ids[1..]);
        assert !HasPath([], ids[1..]) || ids[1..] == [];
      }
    }
  }

  lemma FindAfterInsert(forest: seq<Tree>, path: seq<Step>, id: string)
    requires path != []
    ensures var before, after := Find(forest, id), Find(Insert(forest, path), id);
            && (before < |forest| || id == path[0].nodeId ==> after == before)
            && (before == |forest| && id != path[0].nodeId ==> after == |Insert(forest, path)|)
  {
    var result := Insert(forest, path);
    var before, after := Find(forest, id), Find(result, id);
    assert forall i | 0 <= i < |forest| :: result[i].step.nodeId == forest[i].step.nodeId;
    if id == path[0].nodeId || before < |forest| {
      assert result[before].step.nodeId == id;
      assert after < |forest| ==> forest[after].step.nodeId == id;
    }
  }

  /** Inserting a prefix first, or again afterwards, makes no difference. */
  lemma {:induction false} InsertPrefix(forest: seq<Tree>, prefix: seq<Step>, path: seq<Step>)
    requires prefix <= path
    ensures Insert(Insert(forest, prefix), path) == Insert(forest, path)
    ensures Insert(Insert(forest, path), prefix) == Insert(forest, path)
    decreases |prefix|
  {
    if prefix != [] {
      var k := Find(forest, path[0].nodeId);
      FindAfterInsert(forest, path, path[0].nodeId);
      FindAfterInsert(forest, prefix, path[0].nodeId);
      InsertPrefix(if k == |forest| then [] else forest[k].children, prefix[1..], path[1..]);
    }
  }

  // ---------------------------------------------------------------- one more step

  lemma CurrentOneMore(steps: seq<Step>, s: Step)
    ensures Current(steps + [s]) <= Current(steps) + [s]
    ensures IsBranchEnd(s) ==> Current(steps + [s]) <= Current(steps)
    ensures !IsBranchEnd(s) ==> Current(steps + [s]) == Current(steps) + [s]
  {
    assert (steps + [s])[..|steps|] == steps;
  }

  lemma MergeAppend(paths: seq<seq<Step>>, path: seq<Step>)
    ensures Merge(paths + [path]) == Insert(Merge(paths), path)
  {
    assert (paths + [path])[..|paths|] == paths;
  }

  lemma BuildIsInsertCurrent(steps: seq<Step>)
    ensures Build(steps) == Insert(Merge(Closed(steps)), Current(steps))
  {
    if Current(steps) != [] {
      MergeAppend(Closed(steps), Current(steps));
    }
  }

  /** Every new step changes the tree by one walk down the open path and the step. */
  lemma BuildOneMore(steps: seq<Step>, s: Step)
    ensures Build(steps + [s]) == Insert(Build(steps), Current(steps) + [s])
  {
    var more, closed, open := steps + [s], Merge(Closed(steps)), Current(steps);
    assert more[..|steps|] == steps;
    BuildIsInsertCurrent(steps);
    BuildIsInsertCurrent(more);
    InsertPrefix(closed, open, open + [s]);
    CurrentOneMore(steps, s);
    if IsBranchEnd(s) {
      MergeAppend(Closed(steps), open + [s]);
      InsertPrefix(closed, Current(more), open + [s]);
    }
  }

  lemma CurrentIsPath(steps: seq<Step>, ids: seq<string>)
    requires ids <= Ids(Current(steps))
    ensures HasPath(Build(steps), ids)
  {
    BuildIsInsertCurrent(steps);
    InsertPaths(Merge(Closed(steps)), Current(steps), ids);
  }

  // ---------------------------------------------------------------- which nodes the tree has

  /** The id path of the i-th step: the ids of its ancestors and its own. */
  function IdPath(steps: seq<Step>, i: nat): seq<string>
    requires i < |steps|
  {
    Ids(Current(steps[..i]) + [steps[i]])
  }

  function IdPaths(steps: seq<Step>): set<seq<string>> {
    set i | 0 <= i < |steps| :: IdPath(steps, i)
  }

  lemma IdPathStable(steps: seq<Step>, s: Step, i: nat)
    requires i < |steps|
    ensures IdPath(steps + [s], i) == IdPath(steps, i)
  {
    assert (steps + [s])[..i] == steps[..i];
  }

  lemma IdsAppend(path: seq<Step>, s: Step)
    ensures Ids(path + [s]) == Ids(path) + [s.nodeId]
  {
  }

  lemma IdPathNew(steps: seq<Step>, s: Step)
    ensures IdPath(steps + [s], |steps|) == Ids(Current(steps)) + [s.nodeId]
  {
    assert (steps + [s])[..|steps|] == steps;
    IdsAppend(Current(steps), s);
  }

  lemma IdPathsOneMore(steps: seq<Step>, s: Step)
    ensures IdPaths(steps + [s]) == IdPaths(steps) + {Ids(Current(steps)) + [s.nodeId]}
  {
    var more := steps + [s];
    IdPathNew(steps, s);
    forall i | 0 <= i < |steps|
      ensures IdPath(more, i) == IdPath(steps, i) && IdPath(steps, i) in IdPaths(more)
    {
      IdPathStable(steps, s, i);
    }
  }

  /** The root paths of the tree are exactly the id paths of the steps. */
  lemma {:induction false} TreePathsAreIdPaths(steps: seq<Step>, ids: seq<string>)
    ensures HasPath(Build(steps), ids) <==> ids == [] || ids in IdPaths(steps)
    decreases |steps|
  {
    if steps != [] {
      var before, s := steps[..|steps| - 1], steps[|steps| - 1];
      assert steps == before + [s];
      TreePathsAreIdPaths(before, ids);
      IdPathsOneMore(before, s);
      PathsOneMore(before, s, ids);
    }
  }

  /** One more step adds its own path and no other. */
  lemma {:induction false} PathsOneMore(steps: seq<Step>, s: Step, ids: seq<string>)
    ensures HasPath(Build(steps + [s]), ids) <==>
            HasPath(Build(steps), ids) || ids == Ids(Current(steps)) + [s.nodeId]
  {
    var open := Current(steps);
    BuildOneMore(steps, s);
    InsertPaths(Build(steps), open + [s], ids);
    IdsAppend(open, s);
    if ids <= Ids(open) {
      CurrentIsPath(steps, ids);
    }
    PrefixOneMore(ids, Ids(open), s.nodeId);
  }

  lemma PrefixOneMore<T>(xs: seq<T>, ys: seq<T>, y: T)
    ensures xs <= ys + [y] <==> xs <= ys || xs == ys + [y]
  {
  }

  lemma {:induction false} SizeBelow(forest: seq<Tree>, path: seq<Step>, k: nat)
    requires path != [] && k == Find(forest, path[0].nodeId) < |forest|
    ensures Size(Insert(forest, path)) ==
            Size(forest) - Size(forest[k].children) + Size(Insert(forest[k].children, path[1..]))
  {
    var now := Node(path[0], Insert(forest[k].children, path[1..]));
    assert Insert(forest, path) == forest[k := now];
    SizeReplace(forest, k, now);
  }

  lemma {:induction false} SizeReplace(forest: seq<Tree>, k: nat, now: Tree)
    requires k < |forest|
    ensures Size(forest[k := now]) == Size(forest) - Size(forest[k].children) + Size(now.children)
  {
    var left, was, right := forest[..k], forest[k], forest[k + 1..];
    assert forest == left + [was] + right;
    assert forest[k := now] == left + [now] + right;
    SizeSplit(left, was, right);
    SizeSplit(left, now, right);
  }

  /** Below an existing path, inserting one more step adds a node exactly when it is new there. */
  lemma {:induction false} InsertSize(forest: seq<Tree>, open: seq<Step>, s: Step)
    requires HasPath(forest, Ids(open))
    ensures Size(Insert(forest, open + [s])) ==
            Size(forest) + if HasPath(forest, Ids(open) + [s.nodeId]) then 0 else 1
    decreases |open|
  {
    var path, ids := open + [s], Ids(open) + [s.nodeId];
    var k := Find(forest, path[0].nodeId);
    if k == |forest| {
      assert open == [] && path[1..] == [];
      PreorderAppend(forest, [Node(s, [])], 0);
    } else {
      SizeBelow(forest, path, k);
      if open != [] {
        assert Ids(open)[1..] == Ids(open[1..]) && ids[1..] == Ids(open[1..]) + [s.nodeId];
        assert path[1..] == open[1..] + [s];
        InsertSize(forest[k].children, open[1..], s);
      } else {
        assert path[1..] == [] && ids[1..] == [];
      }
    }
  }

  lemma SizeSplit(left: seq<Tree>, t: Tree, right: seq<Tree>)
    ensures Size(left + [t] + right) == Size(left) + 1 + Size(t.children) + Size(right)
  {
    PreorderAppend(left + [t], right, 0);
    PreorderAppend(left, [t], 0);
    SizeAtAnyDepth(t.children, 1, 0);
    assert [t][1..] == [];
  }

  lemma {:induction false} SizeOneMore(steps: seq<Step>, s: Step)
    ensures Size(Build(steps + [s])) ==
            Size(Build(steps)) + if Ids(Current(steps)) + [s.nodeId] in IdPaths(steps) then 0 else 1
  {
    BuildOneMore(steps, s);
    CurrentIsPath(steps, Ids(Current(steps)));
    InsertSize(Build(steps), Current(steps), s);
    TreePathsAreIdPaths(steps, Ids(Current(steps)) + [s.nodeId]);
  }

  /** The tree has one node per distinct id path, so never more nodes than steps. */
  lemma {:induction false} SizeIsDistinctPaths(steps: seq<Step>)
    ensures Size(Build(steps)) == |IdPaths(steps)| <= |steps|
    decreases |steps|
  {
    if steps == [] {
      assert IdPaths(steps) == {};
    } else {
      var before, s := steps[..|steps| - 1], steps[|steps| - 1];
      assert steps == before + [s];
      SizeIsDistinctPaths(before);
      IdPathsOneMore(before, s);
      SizeOneMore(before, s);
      AddElement(IdPaths(before), Ids(Current(before)) + [s.nodeId]);
    }
  }

  lemma AddElement<T>(s: set<T>, x: T)
    ensures |s + {x}| == |s| + if x in s then 0 else 1
  {
    if x in s {
      assert s + {x} == s;
    }
  }

  /** After a branch end the trailing open path only repeats a prefix and adds no node. */
  lemma {:induction false} TrailingPrefixAddsNothing(steps: seq<Step>, s: Step)
    requires IsBranchEnd(s)
    ensures Build(steps + [s]) == Merge(Closed(steps + [s]))
  {
    var more, open := steps + [s], Current(steps);
    assert more[..|steps|] == steps;
    BuildIsInsertCurrent(more);
    MergeAppend(Closed(steps), open + [s]);
    CurrentOneMore(steps, s);
    InsertPrefix(Merge(Closed(steps)), Current(more), open + [s]);
  }

  // ---------------------------------------------------------------- the order of the nodes

  /** The path runs along the last child at every level, holding exactly these steps. */
  predicate Spine(forest: seq<Tree>, path: seq<Step>)
    decreases |path|
  {
    path == [] ||
    (&& forest != []
     && forest[|forest| - 1].step == path[0]
     && Find(forest, path[0].nodeId) == |forest| - 1
     && Spine(forest[|forest| - 1].children, path[1..]))
  }

  lemma {:induction false} SpinePrefix(forest: seq<Tree>, path: seq<Step>, prefix: seq<Step>)
    requires Spine(forest, path) && prefix <= path
    ensures Spine(forest, prefix)
    decreases |prefix|
  {
    if prefix != [] {
      SpinePrefix(forest[|forest| - 1].children, path[1..], prefix[1..]);
    }
  }

  lemma {:induction false} InsertExtendsSpine(forest: seq<Tree>, open: seq<Step>, s: Step)
    requires Spine(forest, open) && !HasPath(forest, Ids(open) + [s.nodeId])
    ensures Spine(Insert(forest, open + [s]), open + [s])
    decreases |open|
  {
    var path, ids := open + [s], Ids(open) + [s.nodeId];
    FindAfterInsert(forest, path, path[0].nodeId);
    if open == [] {
      assert path[1..] == [] && ids[1..] == [];
    } else {
      assert ids[1..] == Ids(open[1..]) + [s.nodeId] && path[1..] == open[1..] + [s];
      InsertExtendsSpine(forest[|forest| - 1].children, open[1..], s);
    }
  }

  /** A new step below the spine comes last in preorder. */
  lemma {:induction false} InsertAtSpine(forest: seq<Tree>, open: seq<Step>, s: Step, depth: nat)
    requires Spine(forest, open) && !HasPath(forest, Ids(open) + [s.nodeId])
    ensures Preorder(Insert(forest, open + [s]), depth) == Preorder(forest, depth) + [(s, depth + |open|)]
    decreases |open|
  {
    var path, ids := open + [s], Ids(open) + [s.nodeId];
    if open == [] {
      assert path[1..] == [] && ids[1..] == [];
      PreorderAppend(forest, [Node(s, [])], depth);
      PreorderOne(Node(s, []), depth);
    } else {
      var last := forest[|forest| - 1];
      assert ids[1..] == Ids(open[1..]) + [s.nodeId] && path[1..] == open[1..] + [s];
      InsertAtSpine(last.children, open[1..], s, depth + 1);
      ReplaceLast(forest, Node(path[0], Insert(last.children, path[1..])), (s, depth + |open|), depth);
    }
  }

  /** If the last tree gains one entry at its end, so does the forest. */
  lemma {:induction false} ReplaceLast(forest: seq<Tree>, now: Tree, entry: (Step, nat), depth: nat)
    requires forest != [] && now.step == forest[|forest| - 1].step
    requires Preorder(now.children, depth + 1) == Preorder(forest[|forest| - 1].children, depth + 1) + [entry]
    ensures Preorder(forest[|forest| - 1 := now], depth) == Preorder(forest, depth) + [entry]
  {
    var last := |forest| - 1;
    assert forest == forest[..last] + [forest[last]] && forest[last := now] == forest[..last] + [now];
    PreorderAppend(forest[..last], [forest[last]], depth);
    PreorderAppend(forest[..last], [now], depth);
    PreorderOne(forest[last], depth);
    PreorderOne(now, depth);
  }

  lemma PreorderOne(t: Tree, depth: nat)
    ensures Preorder([t], depth) == [(t.step, depth)] + Preorder(t.children, depth + 1)
  {
    assert [t][1..] == [];
  }

  /** No two steps have the same chain of ids. */
  predicate DistinctIdPaths(steps: seq<Step>) {
    forall i, j | 0 <= i < j < |steps| :: IdPath(steps, i) != IdPath(steps, j)
  }

  /** Each step with the length of the open path it was appended to. */
  function Indented(steps: seq<Step>): seq<(Step, nat)> {
    seq(|steps|, i requires 0 <= i < |steps| => (steps[i], |Current(steps[..i])|))
  }

  lemma {:induction false} DistinctPathsKeepOrder(steps: seq<Step>)
    requires DistinctIdPaths(steps)
    ensures Preorder(Build(steps), 0) == Indented(steps)
    ensures Spine(Build(steps), Current(steps))
    decreases |steps|
  {
    if steps != [] {
      var before, s := steps[..|steps| - 1], steps[|steps| - 1];
      assert steps == before + [s];
      DistinctOneLess(before, s);
      DistinctPathsKeepOrder(before);
      NewPathIsNew(before, s);
      NewStepComesLast(before, s);
      NewStepExtendsSpine(before, s);
    }
  }

  /** The step's own chain of ids is not yet in the tree. */
  predicate IsNew(steps: seq<Step>, s: Step) {
    !HasPath(Build(steps), Ids(Current(steps)) + [s.nodeId])
  }

  lemma NewPathIsNew(steps: seq<Step>, s: Step)
    requires Ids(Current(steps)) + [s.nodeId] !in IdPaths(steps)
    ensures IsNew(steps, s)
  {
    TreePathsAreIdPaths(steps, Ids(Current(steps)) + [s.nodeId]);
  }

  lemma {:induction false} NewStepComesLast(steps: seq<Step>, s: Step)
    requires IsNew(steps, s) && Spine(Build(steps), Current(steps)) && Preorder(Build(steps), 0) == Indented(steps)
    ensures Preorder(Build(steps + [s]), 0) == Indented(steps + [s])
  {
    BuildOneMore(steps, s);
    LastInPreorder(Build(steps), Current(steps), s);
    IndentedOneMore(steps, s);
  }

  lemma {:induction false} LastInPreorder(forest: seq<Tree>, open: seq<Step>, s: Step)
    requires Spine(forest, open) && !HasPath(forest, Ids(open) + [s.nodeId])
    ensures Preorder(Insert(forest, open + [s]), 0) == Preorder(forest, 0) + [(s, |open|)]
  {
    InsertAtSpine(forest, open, s, 0);
  }

  lemma {:induction false} NewStepExtendsSpine(steps: seq<Step>, s: Step)
    requires IsNew(steps, s) && Spine(Build(steps), Current(steps))
    ensures Spine(Build(steps + [s]), Current(steps + [s]))
  {
    BuildOneMore(steps, s);
    InsertExtendsSpine(Build(steps), Current(steps), s);
    CurrentOneMore(steps, s);
    SpinePrefix(Build(steps + [s]), Current(steps) + [s], Current(steps + [s]));
  }

  lemma DistinctOneLess(steps: seq<Step>, s: Step)
    requires DistinctIdPaths(steps + [s])
    ensures DistinctIdPaths(steps) && Ids(Current(steps)) + [s.nodeId] !in IdPaths(steps)
  {
    var more := steps + [s];
    IdPathNew(steps, s);
    forall i | 0 <= i < |steps|
      ensures IdPath(more, i) == IdPath(steps, i) && IdPath(more, |steps|) != IdPath(steps, i)
    {
      IdPathStable(steps, s, i);
    }
    forall i, j | 0 <= i < j < |steps|
      ensures IdPath(steps, i) != IdPath(steps, j)
    {
      assert IdPath(more, i) != IdPath(more, j);
    }
  }

  lemma IndentedOneMore(steps: seq<Step>, s: Step)
    ensures Indented(steps + [s]) == Indented(steps) + [(s, |Current(steps)|)]
  {
    assert (steps + [s])[..|steps|] == steps;
    assert forall i | 0 <= i < |steps| :: (steps + [s])[..i] == steps[..i];
  }

  lemma {:induction false} RepeatedPathLosesNode(steps: seq<Step>, i: nat, j: nat)
    requires i < j < |steps| && IdPath(steps, i) == IdPath(steps, j)
    ensures Size(Build(steps)) < |steps|
    decreases |steps|
  {
    var before, s := steps[..|steps| - 1], steps[|steps| - 1];
    assert steps == before + [s];
    IdPathsOneMore(before, s);
    SizeIsDistinctPaths(before);
    SizeIsDistinctPaths(steps);
    IdPathStable(before, s, i);
    if j == |before| {
      IdPathNew(before, s);
      assert IdPath(steps, j) in IdPaths(before);
    } else {
      IdPathStable(before, s, j);
      RepeatedPathLosesNode(before, i, j);
    }
  }

  /**
   The display shows exactly the input steps, in order and indented under their parents, if and only if
   no two steps have the same id path.
   */
  lemma FlattenRestoresSteps(steps: seq<Step>)
    ensures Shown(Flatten(Build(steps), 0)) == Indented(steps) <==> DistinctIdPaths(steps)
    ensures |Flatten(Build(steps), 0)| == |steps| <==> DistinctIdPaths(steps)
  {
    var forest := Build(steps);
    FlattenIsPreorder(forest, 0, 0);
    assert forest[0..] == forest;
    if DistinctIdPaths(steps) {
      DistinctPathsKeepOrder(steps);
    } else {
      var i, j :| 0 <= i < j < |steps| && IdPath(steps, i) == IdPath(steps, j);
      RepeatedPathLosesNode(steps, i, j);
    }
  }

  /** Two branches of one fan-out that end in the same node: one of the two steps is not shown. */
  lemma SameLeafTwice(root: Step, a: Step, b: Step)
    requires IsFanOutParent(root) && !IsBranchEnd(root) && IsBranchEnd(a) && a.nodeId == b.nodeId
    ensures !DistinctIdPaths([root, a, b]) && |Flatten(Build([root, a, b]), 0)| < 3
  {
    var steps := [root, a, b];
    assert steps[..1] == [root] && steps[..2] == [root] + [a] && [root][..0] == [];
    CurrentOneMore([], root);
    assert [] + [root] == [root] && Current([root]) == [root];
    assert ([root] + [a])[..1] == [root] && LastFanOut([root]) == 0 && Keep([root]) == [root];
    assert Current(steps[..2]) == [root];
    assert IdPath(steps, 1) == IdPath(steps, 2);
    FlattenRestoresSteps(steps);
    FlattenIsPreorder(Build(steps), 0, 0);
    SizeIsDistinctPaths(steps);
    RepeatedPathLosesNode(steps, 1, 2);
    assert Build(steps)[0..] == Build(steps);
  }

  /** Pairwise distinct node ids are enough. */
  lemma DistinctIdsRestoreSteps(steps: seq<Step>)
    requires forall i, j | 0 <= i < j < |steps| :: steps[i].nodeId != steps[j].nodeId
    ensures Shown(Flatten(Build(steps), 0)) == Indented(steps)
  {
    forall i, j | 0 <= i < j < |steps|
      ensures IdPath(steps, i) != IdPath(steps, j)
    {
      var p, q := IdPath(steps, i), IdPath(steps, j);
      assert p[|p| - 1] == steps[i].nodeId && q[|q| - 1] == steps[j].nodeId;
    }
    FlattenRestoresSteps(steps);
  }

  /** Every split path is a root path of the tree. */
  lemma SplitPathsAreRootPaths(steps: seq<Step>, n: nat)
    requires n < |SplitPaths(steps)|
    ensures HasPath(Build(steps), Ids(SplitPaths(steps)[n]))
  {
    MergeHasPath(SplitPaths(steps), n);
  }

  lemma {:induction false} MergeHasPath(paths: seq<seq<Step>>, n: nat)
    requires n < |paths|
    ensures HasPath(Merge(paths), Ids(paths[n]))
  {
    var before := paths[..|paths| - 1];
    InsertPaths(Merge(before), paths[|paths| - 1], Ids(paths[n]));
    if n < |before| {
      MergeHasPath(before, n);
    }
  }
}
