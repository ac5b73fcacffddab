/** Near-duplicate questions (src/ragbench/benchmark/validation.py): a union-find over positions that links
    roots in whatever order the pairs come, and the groups read off it. Similarity is any relation. */
module DuplicateGroups {

  // ----- the reference: connected components

  predicate Related(similar: (nat, nat) -> bool, i: nat, j: nat) {
    (i < j && similar(i, j)) || (j < i && similar(j, i))
  }

  predicate IsPath(n: nat, similar: (nat, nat) -> bool, path: seq<nat>) {
    path != [] && path[0] < n && (|path| == 1 || (Related(similar, path[0], path[1]) && IsPath(n, similar, path[1..])))
  }

  ghost predicate Connected(n: nat, similar: (nat, nat) -> bool, i: nat, j: nat) {
    exists path :: IsPath(n, similar, path) && path[0] == i && path[|path| - 1] == j
  }

  lemma {:induction false} JoinPaths(n: nat, similar: (nat, nat) -> bool, p: seq<nat>, q: seq<nat>)
    requires IsPath(n, similar, p) && IsPath(n, similar, q) && p[|p| - 1] == q[0]
    ensures IsPath(n, similar, p + q[1..]) && (p + q[1..])[|p + q[1..]| - 1] == q[|q| - 1]
  {
    if |p| == 1 {
      assert p + q[1..] == q;
    } else {
      JoinPaths(n, similar, p[1..], q);
      assert (p + q[1..])[1..] == p[1..] + q[1..];
    }
  }

  function Backwards(p: seq<nat>): (q: seq<nat>)
    ensures |q| == |p|
    ensures p != [] ==> q[0] == p[|p| - 1] && q[|q| - 1] == p[0]
  {
    if p == [] then [] else Backwards(p[1..]) + [p[0]]
  }

  lemma {:induction false} BackwardsIsPath(n: nat, similar: (nat, nat) -> bool, p: seq<nat>)
    requires IsPath(n, similar, p)
    ensures IsPath(n, similar, Backwards(p))
  {
    if |p| > 1 {
      BackwardsIsPath(n, similar, p[1..]);
      var step := [p[1], p[0]];
      assert step[1..] == [p[0]];
      assert IsPath(n, similar, [p[0]]) && IsPath(n, similar, step);
      JoinPaths(n, similar, Backwards(p[1..]), step);
    }
  }

  lemma ConnectedSelf(n: nat, similar: (nat, nat) -> bool, i: nat)
    requires i < n
    ensures Connected(n, similar, i, i)
  {
    assert IsPath(n, similar, [i]);
  }

  lemma ConnectedBack(n: nat, similar: (nat, nat) -> bool, i: nat, j: nat)
    requires Connected(n, similar, i, j)
    ensures Connected(n, similar, j, i)
  {
    var p :| IsPath(n, similar, p) && p[0] == i && p[|p| - 1] == j;
    BackwardsIsPath(n, similar, p);
  }

  lemma ConnectedOn(n: nat, similar: (nat, nat) -> bool, i: nat, j: nat, k: nat)
    requires Connected(n, similar, i, j) && Connected(n, similar, j, k)
    ensures Connected(n, similar, i, k)
  {
    var p :| IsPath(n, similar, p) && p[0] == i && p[|p| - 1] == j;
    var q :| IsPath(n, similar, q) && q[0] == j && q[|q| - 1] == k;
    JoinPaths(n, similar, p, q);
  }

  lemma ConnectedPair(n: nat, similar: (nat, nat) -> bool, i: nat, j: nat)
    requires i < n && j < n && Related(similar, i, j)
    ensures Connected(n, similar, i, j)
  {
    var p := [i, j];
    assert p[1..] == [j] && IsPath(n, similar, [j]) && IsPath(n, similar, p);
  }

  // ----- the forest

  /** Links point inside, keep the root and strictly lower the height; roots link to themselves. */
  ghost predicate IsForest(parent: seq<nat>, root: seq<nat>, height: seq<nat>) {
    && |root| == |parent| && |height| == |parent|
    && (forall x {:trigger root[x]} :: 0 <= x < |parent| ==> root[x] < |parent| && root[root[x]] == root[x])
    && (forall x {:trigger parent[x]} :: 0 <= x < |parent| ==> LinkOk(parent[x], x, root, height))
  }

  ghost predicate LinkOk(p: nat, x: nat, root: seq<nat>, height: seq<nat>)
    requires x < |root| == |height|
  {
    p < |root| && root[p] == root[x] && (p == x <==> root[x] == x) && (p != x ==> height[p] < height[x])
  }

  /** Path halving: a position may link to its grandparent. */
  lemma HalveKeeps(parent: seq<nat>, root: seq<nat>, height: seq<nat>, x: nat)
    requires IsForest(parent, root, height) && x < |parent| && parent[x] != x
    ensures parent[parent[x]] < |parent| && IsForest(parent[x := parent[parent[x]]], root, height)
    ensures height[parent[parent[x]]] < height[x] && root[parent[parent[x]]] == root[x]
  {
    var p := parent[x];
    assert LinkOk(p, x, root, height) && LinkOk(parent[p], p, root, height);
    var halved := parent[x := parent[p]];
    forall y | 0 <= y < |halved| ensures LinkOk(halved[y], y, root, height) {
      assert LinkOk(parent[y], y, root, height);
    }
  }

  /** Heights after root `from` was linked to root `to`: everything under `from` rises above `to`. */
  ghost function Raised(root: seq<nat>, height: seq<nat>, to: nat, from: nat): (raised: seq<nat>)
    requires |root| == |height| && to < |height|
    ensures |raised| == |height|
    ensures forall x :: 0 <= x < |height| ==>
      raised[x] == if root[x] == from then height[x] + height[to] + 1 else height[x]
  {
    seq(|height|, x requires 0 <= x < |height| => if root[x] == from then height[x] + height[to] + 1 else height[x])
  }

  lemma LinkKeeps(parent: seq<nat>, root: seq<nat>, height: seq<nat>, to: nat, from: nat)
    requires IsForest(parent, root, height) && to < |parent| && from < |parent| && to != from
    requires root[to] == to && root[from] == from
    ensures IsForest(parent[from := to], Merged(root, to, from), Raised(root, height, to, from))
  {
    var linked, merged, raised := parent[from := to], Merged(root, to, from), Raised(root, height, to, from);
    forall y | 0 <= y < |linked| ensures LinkOk(linked[y], y, merged, raised) {
      assert LinkOk(parent[y], y, root, height);
    }
  }

  /** `parent` with path halving. Linking has no order, so acyclicity is witnessed by `height`, which
      strictly falls along every link; `root` is the end of each position's chain. */
  class IndexForest {
    var parent: seq<nat>
    ghost var root: seq<nat>
    ghost var height: seq<nat>

    ghost predicate Valid()
      reads this
    {
      IsForest(parent, root, height)
    }

    constructor (n: nat)
      ensures Valid() && |parent| == n && forall x :: 0 <= x < n ==> root[x] == x
    {
      parent := seq(n, i => i);
      root := seq(n, i => i);
      height := seq(n, i => 0);
    }

    method Find(index: nat) returns (r: nat)
      requires Valid() && index < |parent|
      modifies this`parent
      ensures Valid() && |parent| == |old(parent)| && r == root[index] && parent[r] == r
    {
      var x: nat := index;
      while parent[x] != x
        invariant x < |parent| == |old(parent)| && Valid() && root[x] == root[index]
        decreases height[x]
      {
        HalveKeeps(parent, root, height, x);
        parent := parent[x := parent[parent[x]]];
        x := parent[x];
      }
      assert LinkOk(parent[x], x, root, height);
      r := x;
    }

    method Union(left: nat, right: nat)
      requires Valid() && left < |parent| && right < |parent|
      modifies this
      ensures Valid() && |parent| == |old(parent)|
      ensures root == Merged(old(root), old(root)[left], old(root)[right])
    {
      var leftRoot := Find(left);
      var rightRoot := Find(right);
      if leftRoot != rightRoot {
        LinkKeeps(parent, root, height, leftRoot, rightRoot);
        parent := parent[rightRoot := leftRoot];
        height := Raised(root, height, leftRoot, rightRoot);
        root := Merged(root, leftRoot, rightRoot);
      }
    }
  }

  /** Everything rooted at `from` is now rooted at `to`. */
  ghost function Merged(root: seq<nat>, to: nat, from: nat): (merged: seq<nat>)
    ensures |merged| == |root| && forall x :: 0 <= x < |root| ==> merged[x] == if root[x] == from then to else root[x]
  {
    seq(|root|, x requires 0 <= x < |root| => if root[x] == from then to else root[x])
  }

  // ----- classes are components

  ghost predicate RootsConnected(n: nat, similar: (nat, nat) -> bool, root: seq<nat>) {
    |root| == n && forall x :: 0 <= x < n ==> root[x] < n && Connected(n, similar, x, root[x])
  }

  lemma MergeConnected(n: nat, similar: (nat, nat) -> bool, root: seq<nat>, left: nat, right: nat)
    requires RootsConnected(n, similar, root) && left < n && right < n && Related(similar, left, right)
    ensures RootsConnected(n, similar, Merged(root, root[left], root[right]))
  {
    forall x | 0 <= x < n && root[x] == root[right] ensures Connected(n, similar, x, root[left]) {
      ConnectedBack(n, similar, right, root[right]);
      ConnectedOn(n, similar, x, root[right], right);
      ConnectedPair(n, similar, right, left);
      ConnectedOn(n, similar, x, right, left);
      ConnectedOn(n, similar, x, left, root[left]);
    }
  }

  /** Pairs the loops have compared: all with a smaller left, and those with this left before `right`. */
  predicate Compared(left: nat, right: nat, i: nat, j: nat) {
    i < j && (i < left || (i == left && j < right))
  }

  ghost predicate PairsMerged(similar: (nat, nat) -> bool, root: seq<nat>, left: nat, right: nat) {
    forall i, j :: 0 <= i < |root| && 0 <= j < |root| && Compared(left, right, i, j) && similar(i, j) ==>
      root[i] == root[j]
  }

  lemma {:induction false} PathsMerged(n: nat, similar: (nat, nat) -> bool, root: seq<nat>, p: seq<nat>)
    requires |root| == n && PairsMerged(similar, root, n, 0) && IsPath(n, similar, p)
    ensures p[|p| - 1] < n && root[p[0]] == root[p[|p| - 1]]
  {
    if |p| > 1 {
      PathsMerged(n, similar, root, p[1..]);
      var i, j := p[0], p[1];
      assert Compared(n, 0, i, j) || Compared(n, 0, j, i);
    }
  }

  /** `root` names the connected component of each position. */
  ghost predicate IsComponentMap(n: nat, similar: (nat, nat) -> bool, root: seq<nat>) {
    |root| == n && forall i, j :: 0 <= i < n && 0 <= j < n ==> (root[i] == root[j] <==> Connected(n, similar, i, j))
  }

  lemma MergedIsComponentMap(n: nat, similar: (nat, nat) -> bool, root: seq<nat>)
    requires RootsConnected(n, similar, root) && PairsMerged(similar, root, n, 0)
    ensures IsComponentMap(n, similar, root)
  {
    forall i, j | 0 <= i < n && 0 <= j < n ensures root[i] == root[j] <==> Connected(n, similar, i, j) {
      if root[i] == root[j] {
        ConnectedBack(n, similar, j, root[j]);
        ConnectedOn(n, similar, i, root[i], j);
      }
      if Connected(n, similar, i, j) {
        var p :| IsPath(n, similar, p) && p[0] == i && p[|p| - 1] == j;
        PathsMerged(n, similar, root, p);
      }
    }
  }

  /** What the loops keep: roots are connected to their positions, and compared similar pairs share one. */
  ghost predicate Progress(n: nat, similar: (nat, nat) -> bool, root: seq<nat>, left: nat, right: nat) {
    RootsConnected(n, similar, root) && PairsMerged(similar, root, left, right)
  }

  lemma ProgressStart(n: nat, similar: (nat, nat) -> bool, root: seq<nat>)
    requires |root| == n && forall x :: 0 <= x < n ==> root[x] == x
    ensures Progress(n, similar, root, 0, 0)
  {
    forall x | 0 <= x < n ensures Connected(n, similar, x, root[x]) {
      ConnectedSelf(n, similar, x);
    }
  }

  lemma ProgressPair(n: nat, similar: (nat, nat) -> bool, root: seq<nat>, left: nat, right: nat)
    requires left < right < n && Progress(n, similar, root, left, right)
    ensures similar(left, right) ==> Progress(n, similar, Merged(root, root[left], root[right]), left, right + 1)
    ensures !similar(left, right) ==> Progress(n, similar, root, left, right + 1)
  {
    if similar(left, right) {
      MergeConnected(n, similar, root, left, right);
    }
  }

  lemma ProgressRow(n: nat, similar: (nat, nat) -> bool, root: seq<nat>, left: nat)
    ensures Progress(n, similar, root, left, n) ==> Progress(n, similar, root, left + 1, 0)
    ensures Progress(n, similar, root, left, 0) ==> Progress(n, similar, root, left, left + 1)
  {
  }

  method BuildForest(n: nat, similar: (nat, nat) -> bool) returns (forest: IndexForest)
    ensures fresh(forest) && forest.Valid() && IsComponentMap(n, similar, forest.root)
  {
    forest := new IndexForest(n);
    ProgressStart(n, similar, forest.root);
    for left := 0 to n
      invariant fresh(forest) && forest.Valid() && Progress(n, similar, forest.root, left, 0)
    {
      ProgressRow(n, similar, forest.root, left);
      for right := left + 1 to n
        invariant fresh(forest) && forest.Valid() && Progress(n, similar, forest.root, left, right)
      {
        ProgressPair(n, similar, forest.root, left, right);
        if similar(left, right) {
          forest.Union(left, right);
        }
      }
      ProgressRow(n, similar, forest.root, left);
    }
    MergedIsComponentMap(n, similar, forest.root);
  }

  // ----- groups and rejected identifiers

  /** The positions below `n` in class `r`, in order. */
  function Members(root: seq<nat>, r: nat, n: nat): (found: seq<nat>)
    requires n <= |root|
    ensures forall i :: i in found <==> 0 <= i < n && root[i] == r
    ensures forall k, l :: 0 <= k < l < |found| ==> found[k] < found[l]
  {
    if n == 0 then []
    else
      var before := Members(root, r, n - 1);
      assert forall k | 0 <= k < |before| :: before[k] in before;
      if root[n - 1] == r then before + [n - 1] else before
  }

  function IdsAt(ids: seq<string>, at: seq<nat>): (found: seq<string>)
    requires forall k :: 0 <= k < |at| ==> at[k] < |ids|
    ensures |found| == |at| && forall k :: 0 <= k < |at| ==> found[k] == ids[at[k]]
  {
    seq(|at|, k requires 0 <= k < |at| => ids[at[k]])
  }

  /** The classes of more than one position with a root below `r`, by root. */
  function GroupsBelow(root: seq<nat>, ids: seq<string>, r: nat): seq<seq<string>>
    requires |ids| == |root|
  {
    if r == 0 then []
    else
      var members := Members(root, r - 1, |root|);
      assert forall k | 0 <= k < |members| :: members[k] in members;
      GroupsBelow(root, ids, r - 1) + if |members| > 1 then [IdsAt(ids, members)] else []
  }

  /** A position is not the first of its component. */
  ghost predicate Repeats(n: nat, similar: (nat, nat) -> bool, i: nat) {
    exists j: nat :: j < i && Connected(n, similar, j, i)
  }

  /** The positions of each class so far, keyed by root. */
  ghost predicate GroupedBy(root: seq<nat>, grouped: map<nat, seq<nat>>, n: nat)
    requires n <= |root|
  {
    forall r: nat :: if r in grouped then grouped[r] == Members(root, r, n) != [] else Members(root, r, n) == []
  }

  method GroupIndexes(forest: IndexForest) returns (grouped: map<nat, seq<nat>>)
    requires forest.Valid()
    modifies forest`parent
    ensures forest.Valid() && GroupedBy(forest.root, grouped, |forest.root|)
  {
    ghost var root := forest.root;
    grouped := map[];
    for index := 0 to |forest.parent|
      invariant forest.Valid() && |forest.parent| == |root| && forest.root == root && GroupedBy(root, grouped, index)
    {
      var r := forest.Find(index);
      GroupedNext(root, grouped, index);
      grouped := grouped[r := (if r in grouped then grouped[r] else []) + [index]];
    }
  }

  lemma GroupedNext(root: seq<nat>, grouped: map<nat, seq<nat>>, index: nat)
    requires index < |root| && GroupedBy(root, grouped, index)
    ensures var r := root[index];
      GroupedBy(root, grouped[r := (if r in grouped then grouped[r] else []) + [index]], index + 1)
  {
  }

  /** The components of more than one question, as identifiers in order. */
  ghost predicate AreGroups(ids: seq<string>, similar: (nat, nat) -> bool, groups: seq<seq<string>>) {
    exists root :: IsComponentMap(|ids|, similar, root) && groups == GroupsBelow(root, ids, |ids|)
  }

  method FindDuplicates(ids: seq<string>, similar: (nat, nat) -> bool)
    returns (groups: seq<seq<string>>, rejected: set<string>)
    ensures AreGroups(ids, similar, groups)
    ensures forall id :: id in rejected <==> exists i :: 0 <= i < |ids| && ids[i] == id && Repeats(|ids|, similar, i)
  {
    var n := |ids|;
    var forest := BuildForest(n, similar);
    var grouped := GroupIndexes(forest);
    ghost var root := forest.root;
    assert forall i | 0 <= i < n :: root[i] < n;
    groups, rejected := ReadGroups(ids, similar, root, grouped);
  }

  method ReadGroups(ids: seq<string>, ghost similar: (nat, nat) -> bool, ghost root: seq<nat>,
                    grouped: map<nat, seq<nat>>)
    returns (groups: seq<seq<string>>, rejected: set<string>)
    requires IsComponentMap(|ids|, similar, root) && GroupedBy(root, grouped, |root|)
    requires forall i :: 0 <= i < |ids| ==> root[i] < |ids|
    ensures groups == GroupsBelow(root, ids, |ids|)
    ensures forall id :: id in rejected <==> exists i :: 0 <= i < |ids| && ids[i] == id && Repeats(|ids|, similar, i)
  {
    groups, rejected := [], {};
    for r := 0 to |ids|
      invariant groups == GroupsBelow(root, ids, r)
      invariant forall id :: id in rejected <==> RepeatedBelow(ids, similar, root, r, id)
    {
      RepeatedNext(ids, similar, root, r);
      if r in grouped && |grouped[r]| > 1 {
        var members := grouped[r];
        assert forall k | 0 <= k < |members| :: members[k] in members;
        groups := groups + [IdsAt(ids, members)];
        rejected := rejected + LaterIds(ids, members);
      }
    }
    assert forall id :: RepeatedBelow(ids, similar, root, |ids|, id) <==>
      exists i :: 0 <= i < |ids| && ids[i] == id && Repeats(|ids|, similar, i);
  }

  ghost predicate RepeatedBelow(ids: seq<string>, similar: (nat, nat) -> bool, root: seq<nat>, r: nat, id: string)
    requires |root| == |ids|
  {
    exists i :: 0 <= i < |ids| && root[i] < r && ids[i] == id && Repeats(|ids|, similar, i)
  }

  lemma RepeatedNext(ids: seq<string>, similar: (nat, nat) -> bool, root: seq<nat>, r: nat)
    requires IsComponentMap(|ids|, similar, root) && r < |ids|
    ensures forall id :: RepeatedBelow(ids, similar, root, r + 1, id) <==>
      (RepeatedBelow(ids, similar, root, r, id) || id in LaterIds(ids, Members(root, r, |ids|)))
  {
    var members := Members(root, r, |ids|);
    ClassRepeats(ids, similar, root, r);
    forall id | RepeatedBelow(ids, similar, root, r + 1, id)
      ensures RepeatedBelow(ids, similar, root, r, id) || id in LaterIds(ids, members)
    {
      var i :| 0 <= i < |ids| && root[i] < r + 1 && ids[i] == id && Repeats(|ids|, similar, i);
      if root[i] == r {
        var k :| 1 <= k < |members| && members[k] == i;
      }
    }
    forall id | id in LaterIds(ids, members) ensures RepeatedBelow(ids, similar, root, r + 1, id) {
      var k :| 1 <= k < |members| && members[k] < |ids| && ids[members[k]] == id;
      var i := members[k];
      assert members[k] in members && root[i] == r && Repeats(|ids|, similar, i);
    }
  }

  /** The identifiers at all but the first of these positions. */
  function LaterIds(ids: seq<string>, members: seq<nat>): set<string> {
    set k | 1 <= k < |members| && members[k] < |ids| :: ids[members[k]]
  }

  /** In one class, the repeats are all members but the first. */
  lemma ClassRepeats(ids: seq<string>, similar: (nat, nat) -> bool, root: seq<nat>, r: nat)
    requires IsComponentMap(|ids|, similar, root) && r < |ids|
    ensures forall i :: 0 <= i < |ids| && root[i] == r ==>
      (Repeats(|ids|, similar, i) <==>
        exists k :: 1 <= k < |Members(root, r, |ids|)| && Members(root, r, |ids|)[k] == i)
  {
    var n, members := |ids|, Members(root, r, |ids|);
    forall i | 0 <= i < n && root[i] == r
      ensures Repeats(n, similar, i) <==> exists k :: 1 <= k < |members| && members[k] == i
    {
      assert i in members;
      var at :| 0 <= at < |members| && members[at] == i;
      if Repeats(n, similar, i) {
        var j: nat :| j < i && Connected(n, similar, j, i);
        assert root[j] == r && j in members;
        assert at != 0;
      }
      if at > 0 {
        assert members[0] in members && members[0] < i && Connected(n, similar, members[0], i);
      }
    }
  }
}
