/** The tree-ensemble reranker: the load-time validator of index-linked trees and the scorer. */
module TreeEnsemble {
  import opened Wrappers
  import opened Floats

  /** A node as deserialized; `default_left` is carried but never read. */
  datatype RawNode = RawNode(splitFeature: Option<u16>, threshold: Option<F32>, defaultLeft: bool,
                             left: Option<u32>, right: Option<u32>, leafValue: Option<F32>)

  datatype Node =
    | Leaf(value: F32)
    | Split(feature: nat, threshold: F32, left: nat, right: nat)

  datatype Limits = Limits(maxNodesPerTree: nat, maxDepth: nat)

  /** `compile_node`: a node is a finite leaf or a complete split with a known feature, a finite
      threshold and children inside the array. */
  function CompileNode(node: RawNode, nodeCount: nat, featureCount: nat): Result<Node> {
    match (node.leafValue, node.splitFeature, node.threshold, node.left, node.right)
    case (Some(value), None, None, None, None) =>
      if IsFinite(value) then Ok(Leaf(value)) else Err
    case (None, Some(feature), Some(threshold), Some(left), Some(right)) =>
      if feature >= featureCount || !IsFinite(threshold) || left >= nodeCount || right >= nodeCount then Err
      else Ok(Split(feature, threshold, left, right))
    case _ => Err
  }

  ghost predicate ChildrenInRange(nodes: seq<Node>) {
    forall i :: 0 <= i < |nodes| && nodes[i].Split? ==> nodes[i].left < |nodes| && nodes[i].right < |nodes|
  }

  ghost predicate FeaturesInRange(nodes: seq<Node>, featureCount: nat) {
    forall i :: 0 <= i < |nodes| && nodes[i].Split? ==> nodes[i].feature < featureCount
  }

  ghost predicate CompilesTo(raw: seq<RawNode>, featureCount: nat, nodes: seq<Node>) {
    |nodes| == |raw| && forall i :: 0 <= i < |raw| ==> CompileNode(raw[i], |raw|, featureCount) == Ok(nodes[i])
  }

  // ----- The graph -----

  ghost predicate Edge(nodes: seq<Node>, i: nat, j: nat) {
    i < |nodes| && nodes[i].Split? && (j == nodes[i].left || j == nodes[i].right)
  }

  ghost predicate IsPath(nodes: seq<Node>, p: seq<nat>) {
    (forall k :: 0 <= k < |p| ==> p[k] < |nodes|) && forall k :: 0 <= k < |p| - 1 ==> Edge(nodes, p[k], p[k + 1])
  }

  ghost predicate PathFrom(nodes: seq<Node>, i: nat, p: seq<nat>) {
    p != [] && p[0] == i && IsPath(nodes, p)
  }

  ghost predicate NoRepeat(p: seq<nat>) {
    forall i, j :: 0 <= i < j < |p| ==> p[i] != p[j]
  }

  ghost predicate Reaches(nodes: seq<Node>, i: nat, j: nat) {
    exists p :: PathFrom(nodes, i, p) && p[|p| - 1] == j
  }

  /** The declarative meaning of an accepted tree: from node 0 no path comes back to a node it
      has passed, none has more than `maxDepth` nodes, and every node is reached. */
  ghost predicate IsBoundedTree(nodes: seq<Node>, maxDepth: nat) {
    && (forall p :: PathFrom(nodes, 0, p) ==> NoRepeat(p))
    && (forall p :: PathFrom(nodes, 0, p) ==> |p| <= maxDepth)
    && forall j :: 0 <= j < |nodes| ==> Reaches(nodes, 0, j)
  }

  // ----- The depth-first search -----

  /** What the search decides at node `i` when `p` is the path from the root to its parent:
      `p` is exactly the set of nodes on the stack and `|p| + 1` the depth. */
  ghost predicate Accepts(nodes: seq<Node>, maxDepth: nat, p: seq<nat>, i: nat)
    requires ChildrenInRange(nodes) && i < |nodes|
    decreases maxDepth + 1 - |p|
  {
    && |p| + 1 <= maxDepth
    && i !in p
    && (nodes[i].Split? ==> (
          && Accepts(nodes, maxDepth, p + [i], nodes[i].left)
          && Accepts(nodes, maxDepth, p + [i], nodes[i].right)))
  }

  lemma {:induction false} AcceptsBoundsPaths(nodes: seq<Node>, maxDepth: nat, p: seq<nat>, i: nat, q: seq<nat>)
    requires ChildrenInRange(nodes) && i < |nodes| && Accepts(nodes, maxDepth, p, i)
    requires PathFrom(nodes, i, q) && NoRepeat(p)
    ensures |p| + |q| <= maxDepth && NoRepeat(p + q)
    decreases |q|
  {
    if |q| == 1 {
      assert q == [i];
    } else {
      assert Edge(nodes, q[0], q[1]);
      assert forall k :: 0 <= k < |q| - 2 ==> q[1..][k] == q[k + 1] && Edge(nodes, q[k + 1], q[k + 2]);
      AcceptsBoundsPaths(nodes, maxDepth, p + [i], q[1], q[1..]);
      assert p + q == p + [i] + q[1..];
    }
  }

  lemma {:induction false} BoundedPathsAccepted(nodes: seq<Node>, maxDepth: nat, p: seq<nat>, i: nat)
    requires ChildrenInRange(nodes) && i < |nodes| && |p| <= maxDepth
    requires forall q :: PathFrom(nodes, i, q) ==> |p| + |q| <= maxDepth && NoRepeat(p + q)
    ensures Accepts(nodes, maxDepth, p, i)
    decreases maxDepth + 1 - |p|
  {
    assert PathFrom(nodes, i, [i]);
    assert forall k :: 0 <= k < |p| ==> (p + [i])[k] == p[k] && (p + [i])[k] != (p + [i])[|p|];
    if nodes[i].Split? {
      ChildPaths(nodes, maxDepth, p, i, nodes[i].left);
      BoundedPathsAccepted(nodes, maxDepth, p + [i], nodes[i].left);
      ChildPaths(nodes, maxDepth, p, i, nodes[i].right);
      BoundedPathsAccepted(nodes, maxDepth, p + [i], nodes[i].right);
    }
  }

  lemma ChildPaths(nodes: seq<Node>, maxDepth: nat, p: seq<nat>, i: nat, j: nat)
    requires i < |nodes| && Edge(nodes, i, j)
    requires forall q :: PathFrom(nodes, i, q) ==> |p| + |q| <= maxDepth && NoRepeat(p + q)
    ensures forall q :: PathFrom(nodes, j, q) ==> |p + [i]| + |q| <= maxDepth && NoRepeat(p + [i] + q)
  {
    forall q | PathFrom(nodes, j, q) ensures |p + [i]| + |q| <= maxDepth && NoRepeat(p + [i] + q) {
      assert PathFrom(nodes, i, [i] + q);
      assert p + [i] + q == p + ([i] + q);
    }
  }

  /** The search from the root accepts exactly when every root path is short and repeat-free. */
  lemma AcceptsIsExact(nodes: seq<Node>, maxDepth: nat)
    requires ChildrenInRange(nodes) && nodes != []
    ensures Accepts(nodes, maxDepth, [], 0) <==>
      forall p :: PathFrom(nodes, 0, p) ==> |p| <= maxDepth && NoRepeat(p)
  {
    if Accepts(nodes, maxDepth, [], 0) {
      forall p | PathFrom(nodes, 0, p) ensures |p| <= maxDepth && NoRepeat(p) {
        AcceptsBoundsPaths(nodes, maxDepth, [], 0, p);
        assert [] + p == p;
      }
    }
    if forall p :: PathFrom(nodes, 0, p) ==> |p| <= maxDepth && NoRepeat(p) {
      forall q | PathFrom(nodes, 0, q) ensures NoRepeat([] + q) { assert [] + q == q; }
      BoundedPathsAccepted(nodes, maxDepth, [], 0);
    }
  }

  ghost predicate ReachedFrom(nodes: seq<Node>, i: nat, was: seq<bool>, now: seq<bool>) {
    |was| == |now| == |nodes| && forall k :: 0 <= k < |nodes| ==> (now[k] <==> was[k] || Reaches(nodes, i, k))
  }

  /** A node reaches itself and what its children reach, nothing else. */
  lemma ReachesSplit(nodes: seq<Node>, i: nat, k: nat)
    requires i < |nodes| && ChildrenInRange(nodes)
    ensures Reaches(nodes, i, k) <==>
      k == i || (nodes[i].Split? && (Reaches(nodes, nodes[i].left, k) || Reaches(nodes, nodes[i].right, k)))
  {
    assert PathFrom(nodes, i, [i]);
    if Reaches(nodes, i, k) && k != i {
      var p :| PathFrom(nodes, i, p) && p[|p| - 1] == k;
      assert Edge(nodes, p[0], p[1]);
      assert forall m :: 0 <= m < |p| - 2 ==> p[1..][m] == p[m + 1] && Edge(nodes, p[m + 1], p[m + 2]);
      assert PathFrom(nodes, p[1], p[1..]) && p[1..][|p| - 2] == k;
    }
    if nodes[i].Split? {
      StepBack(nodes, i, nodes[i].left, k);
      StepBack(nodes, i, nodes[i].right, k);
    }
  }

  lemma StepBack(nodes: seq<Node>, i: nat, j: nat, k: nat)
    requires Edge(nodes, i, j)
    ensures Reaches(nodes, j, k) ==> Reaches(nodes, i, k)
  {
    if Reaches(nodes, j, k) {
      var p :| PathFrom(nodes, j, p) && p[|p| - 1] == k;
      assert PathFrom(nodes, i, [i] + p) && ([i] + p)[|p|] == k;
    }
  }

  /** `validate_reachable_tree`. The ghost `p` is the path that led here: exactly the nodes the
      `stack` array marks. On success the stack is as it was and `visited` has gained exactly
      the nodes reachable from `i`. */
  method ValidateReachableTree(nodes: seq<Node>, i: nat, depth: nat, maxDepth: nat,
                               visited: array<bool>, stack: array<bool>, ghost p: seq<nat>) returns (ok: bool)
    requires ChildrenInRange(nodes) && i < |nodes|
    requires visited != stack && visited.Length == stack.Length == |nodes|
    requires depth == |p| + 1 <= maxDepth + 1
    requires forall k :: 0 <= k < |nodes| ==> (stack[k] <==> k in p)
    modifies visited, stack
    ensures ok <==> Accepts(nodes, maxDepth, p, i)
    ensures ok ==> stack[..] == old(stack[..])
    ensures ok ==> ReachedFrom(nodes, i, old(visited[..]), visited[..])
    decreases maxDepth + 1 - depth
  {
    if depth > maxDepth {
      return false;
    }
    if stack[i] {
      return false;
    }
    stack[i] := true;
    visited[i] := true;
    if nodes[i].Split? {
      ok := ValidateReachableTree(nodes, nodes[i].left, depth + 1, maxDepth, visited, stack, p + [i]);
      if !ok {
        return false;
      }
      assert forall k :: 0 <= k < |nodes| ==> stack[k] == stack[..][k];
      ok := ValidateReachableTree(nodes, nodes[i].right, depth + 1, maxDepth, visited, stack, p + [i]);
      if !ok {
        return false;
      }
    }
    stack[i] := false;
    forall k | 0 <= k < |nodes| ensures visited[k] <==> old(visited[..])[k] || Reaches(nodes, i, k) {
      ReachesSplit(nodes, i, k);
    }
    return true;
  }

  /** `compile_tree`: accepts a node array exactly when it is non-empty, within the size limit,
      well-formed node by node, and a bounded acyclic graph reached from node 0. */
  method CompileTree(raw: seq<RawNode>, featureCount: nat, limits: Limits) returns (r: Result<seq<Node>>)
    ensures r.Ok? <==> (
      && 0 < |raw| <= limits.maxNodesPerTree
      && exists nodes :: CompilesTo(raw, featureCount, nodes) && IsBoundedTree(nodes, limits.maxDepth))
    ensures r.Ok? ==> CompilesTo(raw, featureCount, r.value) && IsBoundedTree(r.value, limits.maxDepth)
    ensures r.Ok? ==> ChildrenInRange(r.value) && FeaturesInRange(r.value, featureCount)
  {
    if |raw| == 0 || |raw| > limits.maxNodesPerTree {
      return Err;
    }
    var nodes: seq<Node> := [];
    for n := 0 to |raw|
      invariant |nodes| == n
      invariant forall i :: 0 <= i < n ==> CompileNode(raw[i], |raw|, featureCount) == Ok(nodes[i])
    {
      var node := CompileNode(raw[n], |raw|, featureCount);
      if node.Err? {
        return Err;
      }
      nodes := nodes + [node.value];
    }
    CompiledInRange(raw, featureCount, nodes);
    var visited := new bool[|nodes|](_ => false);
    var stack := new bool[|nodes|](_ => false);
    ghost var blank := visited[..];
    var ok := ValidateReachableTree(nodes, 0, 1, limits.maxDepth, visited, stack, []);
    AcceptsIsExact(nodes, limits.maxDepth);
    if !ok {
      return Err;
    }
    for n := 0 to |nodes|
      invariant forall k :: 0 <= k < n ==> Reaches(nodes, 0, k)
    {
      assert visited[n] == visited[..][n] && !blank[n];
      if !visited[n] {
        return Err;
      }
    }
    return Ok(nodes);
  }

  /** Compilation is unambiguous and leaves every index in range. */
  lemma CompiledInRange(raw: seq<RawNode>, featureCount: nat, nodes: seq<Node>)
    requires CompilesTo(raw, featureCount, nodes)
    ensures ChildrenInRange(nodes) && FeaturesInRange(nodes, featureCount)
    ensures forall other :: CompilesTo(raw, featureCount, other) ==> other == nodes
  {
    forall other | CompilesTo(raw, featureCount, other) ensures other == nodes {
      forall i | 0 <= i < |raw| ensures other[i] == nodes[i] {
        assert Ok(other[i]) == CompileNode(raw[i], |raw|, featureCount) == Ok(nodes[i]);
      }
    }
  }

  // ----- Cycles and depth -----

  /** A repeated node on a root path yields root paths of every length. */
  lemma {:induction false} CyclePumps(nodes: seq<Node>, p: seq<nat>, i: nat, j: nat, n: nat) returns (q: seq<nat>)
    requires i < j < |p| && PathFrom(nodes, p[0], p) && p[i] == p[j]
    ensures PathFrom(nodes, p[0], q) && |q| >= n && q[|q| - 1] == p[j]
  {
    if n == 0 {
      q := p[..j + 1];
    } else {
      var r := CyclePumps(nodes, p, i, j, n - 1);
      var loop := p[i + 1..j + 1];
      q := r + loop;
      assert Edge(nodes, p[i], p[i + 1]);
      forall k | 0 <= k < |q| - 1 ensures Edge(nodes, q[k], q[k + 1]) {
        if k >= |r| {
          var m := k - |r| + i + 1;
          assert q[k] == p[m] && q[k + 1] == p[m + 1] && Edge(nodes, p[m], p[m + 1]);
        }
      }
    }
  }

  /** So the depth limit alone already rules out cycles: the stack check of the search decides
      no input, it only reports the cycle as such. */
  lemma DepthLimitRulesOutCycles(nodes: seq<Node>, maxDepth: nat)
    requires forall p :: PathFrom(nodes, 0, p) ==> |p| <= maxDepth
    ensures forall p :: PathFrom(nodes, 0, p) ==> NoRepeat(p)
  {
    forall p, i, j | PathFrom(nodes, 0, p) && 0 <= i < j < |p| ensures p[i] != p[j] {
      if p[i] == p[j] {
        var q := CyclePumps(nodes, p, i, j, maxDepth + 1);
        assert false;
      }
    }
  }

  // ----- Scoring -----

  /** The tree the node array denotes; a shared child is unrolled once for every parent. */
  datatype Tree =
    | Tip(value: F32)
    | Fork(feature: nat, threshold: F32, left: Tree, right: Tree)

  ghost function Unroll(nodes: seq<Node>, maxDepth: nat, p: seq<nat>, i: nat): Tree
    requires ChildrenInRange(nodes) && i < |nodes| && Accepts(nodes, maxDepth, p, i)
    decreases maxDepth + 1 - |p|
  {
    match nodes[i]
    case Leaf(value) => Tip(value)
    case Split(feature, threshold, left, right) =>
      Fork(feature, threshold, Unroll(nodes, maxDepth, p + [i], left), Unroll(nodes, maxDepth, p + [i], right))
  }

  ghost predicate ReadsWithin(t: Tree, featureCount: nat) {
    t.Fork? ==> t.feature < featureCount && ReadsWithin(t.left, featureCount) && ReadsWithin(t.right, featureCount)
  }

  /** The value of the leaf the comparisons select; an error as soon as a compared feature is
      not finite. */
  ghost function Evaluate(t: Tree, features: seq<F32>): Result<F32>
    requires ReadsWithin(t, |features|)
  {
    match t
    case Tip(value) => Ok(value)
    case Fork(feature, threshold, left, right) =>
      if !IsFinite(features[feature]) then Err
      else if Less(features[feature], threshold) then Evaluate(left, features)
      else Evaluate(right, features)
  }

  ghost predicate AllFinite(features: seq<F32>) {
    forall i :: 0 <= i < |features| ==> IsFinite(features[i])
  }

  lemma FiniteVectorsEvaluate(t: Tree, features: seq<F32>)
    requires ReadsWithin(t, |features|) && AllFinite(features)
    ensures Evaluate(t, features).Ok?
  {
  }

  lemma {:induction false} UnrollReadsWithin(nodes: seq<Node>, maxDepth: nat, p: seq<nat>, i: nat, featureCount: nat)
    requires ChildrenInRange(nodes) && FeaturesInRange(nodes, featureCount)
    requires i < |nodes| && Accepts(nodes, maxDepth, p, i)
    ensures ReadsWithin(Unroll(nodes, maxDepth, p, i), featureCount)
    decreases maxDepth + 1 - |p|
  {
    if nodes[i].Split? {
      UnrollReadsWithin(nodes, maxDepth, p + [i], nodes[i].left, featureCount);
      UnrollReadsWithin(nodes, maxDepth, p + [i], nodes[i].right, featureCount);
    }
  }

  /** A repeat-free list of node indices is no longer than the array. */
  lemma {:induction false} Pigeonhole(p: seq<nat>, n: nat)
    requires NoRepeat(p) && forall k :: 0 <= k < |p| ==> p[k] < n
    ensures |p| <= n
  {
    assert p != [] ==> 0 <= p[0] < n;
    if p != [] {
      if k :| 0 <= k < |p| && p[k] == n - 1 {
        var q := p[..k] + p[k + 1..];
        assert NoRepeat(q);
        Pigeonhole(q, n - 1);
      } else {
        Pigeonhole(p, n - 1);
      }
    }
  }

  /** What `CompileTree` guarantees of the arrays it returns. */
  ghost predicate IsCompiledTree(nodes: seq<Node>, maxDepth: nat, featureCount: nat) {
    nodes != [] && ChildrenInRange(nodes) && FeaturesInRange(nodes, featureCount) && IsBoundedTree(nodes, maxDepth)
  }

  ghost function Denotation(nodes: seq<Node>, maxDepth: nat, featureCount: nat): (t: Tree)
    requires IsCompiledTree(nodes, maxDepth, featureCount)
    ensures ReadsWithin(t, featureCount)
  {
    AcceptsIsExact(nodes, maxDepth);
    UnrollReadsWithin(nodes, maxDepth, [], 0, featureCount);
    Unroll(nodes, maxDepth, [], 0)
  }

  /** `score_tree`: the bounded walk computes the recursive meaning of the tree; in particular
      its final "did not reach a leaf" error is never taken. */
  method ScoreTree(nodes: seq<Node>, features: seq<F32>, ghost maxDepth: nat) returns (r: Result<F32>)
    requires IsCompiledTree(nodes, maxDepth, |features|)
    ensures r == Evaluate(Denotation(nodes, maxDepth, |features|), features)
    ensures AllFinite(features) ==> r.Ok?
  {
    var i: nat := 0;
    ghost var p: seq<nat> := [];
    ghost var tree := Denotation(nodes, maxDepth, |features|);
    AcceptsIsExact(nodes, maxDepth);
    if AllFinite(features) {
      FiniteVectorsEvaluate(tree, features);
    }
    for visit := 0 to |nodes| + 1
      invariant i < |nodes| && |p| == visit && NoRepeat(p)
      invariant forall k :: 0 <= k < |p| ==> p[k] < |nodes|
      invariant Accepts(nodes, maxDepth, p, i)
      invariant ReadsWithin(Unroll(nodes, maxDepth, p, i), |features|)
      invariant Evaluate(Unroll(nodes, maxDepth, p, i), features) == Evaluate(tree, features)
    {
      match nodes[i]
      case Leaf(value) => return Ok(value);
      case Split(feature, threshold, left, right) =>
        var value := features[feature];
        if !IsFinite(value) {
          return Err;
        }
        p := p + [i];
        i := if Less(value, threshold) then left else right;
    }
    Pigeonhole(p, |nodes|);
    assert false;
  }

  /** A loaded ensemble. */
  datatype Model = Model(baseScore: F32, learningRate: F32, featureCount: nat, maxDepth: nat, trees: seq<seq<Node>>)

  ghost predicate IsModel(m: Model) {
    forall t :: 0 <= t < |m.trees| ==> IsCompiledTree(m.trees[t], m.maxDepth, m.featureCount)
  }

  /** The leaf a finite vector selects in tree `t`. */
  ghost function LeafValue(m: Model, t: nat, features: seq<F32>): F32
    requires IsModel(m) && t < |m.trees| && |features| == m.featureCount && AllFinite(features)
  {
    var tree := Denotation(m.trees[t], m.maxDepth, m.featureCount);
    FiniteVectorsEvaluate(tree, features);
    Evaluate(tree, features).value
  }

  /** Base score plus the scaled leaf of each of the first `n` trees, added in tree order. */
  ghost function Boosted(fp: FloatOps, m: Model, features: seq<F32>, n: nat): F32
    requires IsModel(m) && n <= |m.trees| && |features| == m.featureCount && AllFinite(features)
  {
    if n == 0 then m.baseScore
    else fp.add(Boosted(fp, m, features, n - 1), fp.mul(m.learningRate, LeafValue(m, n - 1, features)))
  }

  /** `score_features`: fails only on a vector of the wrong length, a non-finite feature or a
      non-finite sum, never inside a tree. */
  method ScoreFeatures(fp: FloatOps, m: Model, features: seq<F32>) returns (r: Result<F32>)
    requires IsModel(m)
    ensures r.Ok? <==> (
      && |features| == m.featureCount && AllFinite(features)
      && IsFinite(Boosted(fp, m, features, |m.trees|)))
    ensures r.Ok? ==> r.value == Boosted(fp, m, features, |m.trees|)
  {
    if |features| != m.featureCount {
      return Err;
    }
    for n := 0 to |features|
      invariant forall i :: 0 <= i < n ==> IsFinite(features[i])
    {
      if !IsFinite(features[n]) {
        return Err;
      }
    }
    var score := m.baseScore;
    for t := 0 to |m.trees|
      invariant score == Boosted(fp, m, features, t)
    {
      var leaf := ScoreTree(m.trees[t], features, m.maxDepth);
      score := fp.add(score, fp.mul(m.learningRate, leaf.value));
    }
    return if IsFinite(score) then Ok(score) else Err;
  }
}
