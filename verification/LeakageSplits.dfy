/** Development, validation and test splits without leakage (src/ragbench/benchmark/splits.py): a union-find
    that always links to the smaller identifier, and the least-loaded allocation of its classes. Items are
    taken in identifier order and identifiers compared by their place in it; the generator's draws are arbitrary. */
module LeakageSplits {
  import opened Results
  import opened Sorting
  import D = DuplicateGroups

  datatype Token = Document(id: nat) | Family(id: nat) | Paraphrase(id: nat)

  datatype Item = Item(id: nat, documents: seq<nat>, family: nat, paraphrase: nat)

  datatype SplitError = TooFewItems | DuplicateIds | CannotPopulate

  function Tokens(item: Item): seq<Token> {
    seq(|item.documents|, k requires 0 <= k < |item.documents| => Document(item.documents[k]))
    + [Family(item.family), Paraphrase(item.paraphrase)]
  }

  // ----- the reference: leakage components

  predicate ShareToken(a: Item, b: Item) {
    exists t :: t in Tokens(a) && t in Tokens(b)
  }

  lemma TokensExact(item: Item)
    ensures forall d :: Document(d) in Tokens(item) <==> d in item.documents
    ensures forall f :: Family(f) in Tokens(item) <==> f == item.family
    ensures forall p :: Paraphrase(p) in Tokens(item) <==> p == item.paraphrase
  {
    var n := |item.documents|;
    forall d | d in item.documents ensures Document(d) in Tokens(item) {
      var k :| 0 <= k < n && item.documents[k] == d;
      assert Tokens(item)[k] == Document(d);
    }
    assert Tokens(item)[n] == Family(item.family) && Tokens(item)[n + 1] == Paraphrase(item.paraphrase);
  }

  /** Sharing a token is sharing a document, the family or the paraphrase group. */
  lemma ShareTokenIff(a: Item, b: Item)
    ensures ShareToken(a, b) <==>
      || a.family == b.family || a.paraphrase == b.paraphrase
      || exists d :: d in a.documents && d in b.documents
  {
    TokensExact(a);
    TokensExact(b);
    if t :| t in Tokens(a) && t in Tokens(b) {
      match t
      case Document(d) => assert d in a.documents && d in b.documents;
      case Family(_) =>
      case Paraphrase(_) =>
    }
    if a.family == b.family {
      assert Family(a.family) in Tokens(a) && Family(a.family) in Tokens(b);
    }
    if a.paraphrase == b.paraphrase {
      assert Paraphrase(a.paraphrase) in Tokens(a) && Paraphrase(a.paraphrase) in Tokens(b);
    }
    if d :| d in a.documents && d in b.documents {
      assert Document(d) in Tokens(a) && Document(d) in Tokens(b);
    }
  }

  function Leaks(items: seq<Item>): (nat, nat) -> bool {
    (x: nat, y: nat) => x < |items| && y < |items| && ShareToken(items[x], items[y])
  }

  /** A chain of items leads from `x` to `y`, each sharing a document, family or paraphrase group with the next. */
  ghost predicate Linked(items: seq<Item>, x: nat, y: nat) {
    D.Connected(|items|, Leaks(items), x, y)
  }

  ghost predicate LeadsComponent(items: seq<Item>, x: nat) {
    forall y :: 0 <= y < |items| && Linked(items, x, y) ==> x <= y
  }

  /** The first member of every component. */
  ghost function Representatives(items: seq<Item>): set<nat> {
    set x | 0 <= x < |items| && LeadsComponent(items, x)
  }

  ghost function ComponentOf(items: seq<Item>, x: nat): set<nat> {
    set y | 0 <= y < |items| && Linked(items, x, y)
  }

  // ----- the forest

  /** Links only lead to smaller places, so each place is its own height. */
  ghost function Places(n: nat): (places: seq<nat>)
    ensures |places| == n && forall x :: 0 <= x < n ==> places[x] == x
  {
    seq(n, x => x)
  }

  function Min(x: nat, y: nat): nat { if x < y then x else y }
  function Max(x: nat, y: nat): nat { if x < y then y else x }

  lemma LinkDown(parent: seq<nat>, root: seq<nat>, to: nat, from: nat)
    requires D.IsForest(parent, root, Places(|parent|)) && to < from < |parent|
    requires root[to] == to && root[from] == from
    ensures D.IsForest(parent[from := to], D.Merged(root, to, from), Places(|parent|))
  {
    var linked, merged, places := parent[from := to], D.Merged(root, to, from), Places(|parent|);
    forall y | 0 <= y < |linked| ensures D.LinkOk(linked[y], y, merged, places) {
      assert D.LinkOk(parent[y], y, root, places);
    }
  }

  class LeakageForest {
    var parent: seq<nat>
    ghost var root: seq<nat>

    ghost predicate Valid()
      reads this
    {
      D.IsForest(parent, root, Places(|parent|)) && forall x :: 0 <= x < |root| ==> root[x] <= x
    }

    constructor (n: nat)
      ensures Valid() && |parent| == n && forall x :: 0 <= x < n ==> root[x] == x
    {
      parent := seq(n, x => x);
      root := seq(n, x => x);
    }

    method Find(id: nat) returns (r: nat)
      requires Valid() && id < |parent|
      modifies this`parent
      ensures Valid() && |parent| == |old(parent)| && r == root[id] && parent[r] == r
    {
      var x: nat := id;
      while parent[x] != x
        invariant x < |parent| == |old(parent)| && Valid() && root[x] == root[id]
        decreases x
      {
        D.HalveKeeps(parent, root, Places(|parent|), x);
        parent := parent[x := parent[parent[x]]];
        x := parent[x];
      }
      assert D.LinkOk(parent[x], x, root, Places(|parent|));
      r := x;
    }

    /** The class keeps the smaller root. */
    method Union(left: nat, right: nat)
      requires Valid() && left < |parent| && right < |parent|
      modifies this
      ensures Valid() && |parent| == |old(parent)|
      ensures root == D.Merged(old(root), Min(old(root)[left], old(root)[right]),
        Max(old(root)[left], old(root)[right]))
    {
      var leftRoot := Find(left);
      var rightRoot := Find(right);
      var to, from := Min(leftRoot, rightRoot), Max(leftRoot, rightRoot);
      if leftRoot != rightRoot {
        LinkDown(parent, root, to, from);
        parent := parent[from := to];
      }
      root := D.Merged(root, to, from);
    }
  }

  // ----- classes are leakage components

  /** The index holds token `t` under an item that has it. */
  predicate IndexedRight(items: seq<Item>, indexes: map<Token, nat>, t: Token) {
    t in indexes && indexes[t] < |items| && t in Tokens(items[indexes[t]])
  }

  /** The index holds token `t` of item `x` under an item of the same class. */
  ghost predicate Filed(items: seq<Item>, root: seq<nat>, indexes: map<Token, nat>, x: nat, t: Token)
    requires |root| == |items|
  {
    x < |root| && IndexedRight(items, indexes, t) && root[indexes[t]] == root[x]
  }

  /** What the loops keep, after all tokens of the items before `x` and the first `n` of `x`. */
  ghost predicate Progress(items: seq<Item>, root: seq<nat>, indexes: map<Token, nat>, x: nat, n: nat) {
    && D.RootsConnected(|items|, Leaks(items), root)
    && (forall t :: t in indexes ==> IndexedRight(items, indexes, t))
    && (forall y, t :: 0 <= y < x && y < |items| && t in Tokens(items[y]) ==> Filed(items, root, indexes, y, t))
    && (x < |items| ==> forall k :: 0 <= k < n && k < |Tokens(items[x])| ==>
      Filed(items, root, indexes, x, Tokens(items[x])[k]))
  }

  /** The index after `setdefault`. */
  function Filing(indexes: map<Token, nat>, t: Token, x: nat): map<Token, nat> {
    if t in indexes then indexes else indexes[t := x]
  }

  lemma MergeLinked(items: seq<Item>, root: seq<nat>, left: nat, right: nat)
    requires D.RootsConnected(|items|, Leaks(items), root) && left < |items| && right < |items|
    requires ShareToken(items[left], items[right])
    ensures D.RootsConnected(|items|, Leaks(items),
      D.Merged(root, Min(root[left], root[right]), Max(root[left], root[right])))
  {
    assert ShareToken(items[right], items[left]);
    if left == right {
      assert D.Merged(root, root[left], root[right]) == root;
    } else if root[left] < root[right] {
      D.MergeConnected(|items|, Leaks(items), root, left, right);
    } else {
      D.MergeConnected(|items|, Leaks(items), root, right, left);
    }
  }

  lemma FiledStays(items: seq<Item>, root: seq<nat>, to: nat, from: nat, indexes: map<Token, nat>,
                   t: Token, x: nat, y: nat, u: Token)
    requires |root| == |items| && Filed(items, root, indexes, y, u)
    ensures Filed(items, D.Merged(root, to, from), Filing(indexes, t, x), y, u)
  {
  }

  lemma FilingRight(items: seq<Item>, indexes: map<Token, nat>, t: Token, x: nat)
    requires (forall u :: u in indexes ==> IndexedRight(items, indexes, u)) && x < |items| && t in Tokens(items[x])
    ensures forall u :: u in Filing(indexes, t, x) ==> IndexedRight(items, Filing(indexes, t, x), u)
    ensures t in Filing(indexes, t, x)
  {
  }

  lemma TokenKeeps(items: seq<Item>, root: seq<nat>, indexes: map<Token, nat>, x: nat, k: nat)
    requires x < |items| && k < |Tokens(items[x])| && Progress(items, root, indexes, x, k)
    ensures var t := Tokens(items[x])[k]; var filing := Filing(indexes, t, x);
      && t in filing && filing[t] < |root| == |items|
      && var l, r := root[filing[t]], root[x]; Progress(items, D.Merged(root, Min(l, r), Max(l, r)), filing, x, k + 1)
  {
    var t := Tokens(items[x])[k];
    var filing := Filing(indexes, t, x);
    FilingRight(items, indexes, t, x);
    assert IndexedRight(items, filing, t);
    assert ShareToken(items[filing[t]], items[x]);
    MergeLinked(items, root, filing[t], x);
    FiledNext(items, root, indexes, x, k, Min(root[filing[t]], root[x]), Max(root[filing[t]], root[x]));
  }

  lemma FiledNext(items: seq<Item>, root: seq<nat>, indexes: map<Token, nat>, x: nat, k: nat, to: nat, from: nat)
    requires x < |items| && k < |Tokens(items[x])| && Progress(items, root, indexes, x, k)
    requires var filing := Filing(indexes, Tokens(items[x])[k], x); filing[Tokens(items[x])[k]] < |root| == |items|
    requires var other := root[Filing(indexes, Tokens(items[x])[k], x)[Tokens(items[x])[k]]];
      to == Min(other, root[x]) && from == Max(other, root[x])
    ensures var filing, merged := Filing(indexes, Tokens(items[x])[k], x), D.Merged(root, to, from);
      && (forall y, u :: 0 <= y < x && u in Tokens(items[y]) ==> Filed(items, merged, filing, y, u))
      && (forall j :: 0 <= j < k + 1 ==> Filed(items, merged, filing, x, Tokens(items[x])[j]))
  {
    var t := Tokens(items[x])[k];
    var filing, merged := Filing(indexes, t, x), D.Merged(root, to, from);
    forall y, u | 0 <= y < x && u in Tokens(items[y]) ensures Filed(items, merged, filing, y, u) {
      FiledStays(items, root, to, from, indexes, t, x, y, u);
    }
    forall j | 0 <= j < k + 1 ensures Filed(items, merged, filing, x, Tokens(items[x])[j]) {
      if j < k {
        FiledStays(items, root, to, from, indexes, t, x, x, Tokens(items[x])[j]);
      } else {
        FilingRight(items, indexes, t, x);
      }
    }
  }

  lemma ItemDone(items: seq<Item>, root: seq<nat>, indexes: map<Token, nat>, x: nat)
    requires x < |items| && Progress(items, root, indexes, x, |Tokens(items[x])|)
    ensures Progress(items, root, indexes, x + 1, 0)
  {
    forall t | t in Tokens(items[x]) ensures Filed(items, root, indexes, x, t) {
      var k :| 0 <= k < |Tokens(items[x])| && Tokens(items[x])[k] == t;
    }
  }

  lemma AllFiled(items: seq<Item>, root: seq<nat>, indexes: map<Token, nat>)
    requires Progress(items, root, indexes, |items|, 0)
    ensures D.IsComponentMap(|items|, Leaks(items), root)
  {
    forall i, j | 0 <= i < |root| && 0 <= j < |root| && D.Compared(|items|, 0, i, j) && Leaks(items)(i, j)
      ensures root[i] == root[j]
    {
      var t :| t in Tokens(items[i]) && t in Tokens(items[j]);
      assert Filed(items, root, indexes, i, t) && Filed(items, root, indexes, j, t);
    }
    D.MergedIsComponentMap(|items|, Leaks(items), root);
  }

  method LinkItems(items: seq<Item>) returns (forest: LeakageForest)
    ensures fresh(forest) && forest.Valid() && D.IsComponentMap(|items|, Leaks(items), forest.root)
  {
    forest := new LeakageForest(|items|);
    forall x | 0 <= x < |items| ensures D.Connected(|items|, Leaks(items), x, x) {
      D.ConnectedSelf(|items|, Leaks(items), x);
    }
    var indexes: map<Token, nat> := map[];
    for x := 0 to |items|
      invariant fresh(forest) && forest.Valid() && Progress(items, forest.root, indexes, x, 0)
    {
      var tokens := Tokens(items[x]);
      for k := 0 to |tokens|
        invariant fresh(forest) && forest.Valid() && Progress(items, forest.root, indexes, x, k)
      {
        TokenKeeps(items, forest.root, indexes, x, k);
        indexes := Filing(indexes, tokens[k], x);
        forest.Union(indexes[tokens[k]], x);
      }
      ItemDone(items, forest.root, indexes, x);
    }
    AllFiled(items, forest.root, indexes);
  }

  // ----- shuffling

  /** `random.shuffle`: each place from the last down swaps with a drawn place not after it. */
  method Shuffle<T>(s: seq<T>, draw: nat -> nat) returns (shuffled: seq<T>)
    ensures multiset(shuffled) == multiset(s)
  {
    shuffled := s;
    if s != [] {
      for i := |s| downto 1
        invariant |shuffled| == |s| && multiset(shuffled) == multiset(s)
      {
        var j := draw(i) % (i + 1);
        shuffled := shuffled[i := shuffled[j]][j := shuffled[i]];
      }
    }
  }

  // ----- components as groups

  /** `group` is a whole class, in order. */
  ghost predicate IsClass(root: seq<nat>, group: seq<nat>) {
    group != [] && group[0] < |root| && group == D.Members(root, root[group[0]], |root|)
  }

  /** Each class of `root` is one of the groups, once. */
  ghost predicate IsGrouping(root: seq<nat>, groups: seq<seq<nat>>) {
    && (forall g :: g in groups ==> IsClass(root, g))
    && (forall x :: 0 <= x < |root| ==> D.Members(root, root[x], |root|) in groups)
    && Distinct(groups)
  }

  lemma RearrangedGrouping(root: seq<nat>, groups: seq<seq<nat>>, other: seq<seq<nat>>)
    requires IsGrouping(root, groups) && multiset(other) == multiset(groups)
    ensures IsGrouping(root, other)
  {
    RearrangedDistinct(groups, other);
    forall g ensures g in groups <==> g in other {
      SameMembers(groups, other, g);
    }
  }

  function InKeyOrder(keys: seq<nat>, components: map<nat, seq<nat>>): (groups: seq<seq<nat>>)
    requires forall k :: 0 <= k < |keys| ==> keys[k] in components
    ensures |groups| == |keys| && forall k :: 0 <= k < |keys| ==> groups[k] == components[keys[k]]
  {
    seq(|keys|, k requires 0 <= k < |keys| => components[keys[k]])
  }

  /** The dictionary's keys, in insertion order. */
  ghost predicate AreKeys(keys: seq<nat>, components: map<nat, seq<nat>>) {
    Distinct(keys) && (forall r :: r in components ==> r in keys) && forall k :: 0 <= k < |keys| ==>
      keys[k] in components
  }

  method GroupByRoot(forest: LeakageForest) returns (groups: seq<seq<nat>>)
    requires forest.Valid()
    modifies forest`parent
    ensures forest.Valid() && IsGrouping(forest.root, groups)
  {
    var keys: seq<nat>, components: map<nat, seq<nat>> := [], map[];
    ghost var root := forest.root;
    for x := 0 to |forest.parent|
      invariant forest.Valid() && |forest.parent| == |root| && forest.root == root
      invariant D.GroupedBy(root, components, x)
      invariant AreKeys(keys, components)
    {
      var r := forest.Find(x);
      keys, components := Appended(keys, components, r, x, root);
    }
    groups := InKeyOrder(keys, components);
    KeyedGroups(root, keys, components);
  }

  /** `components[r].append(x)` on a `defaultdict`. */
  method Appended(keys: seq<nat>, components: map<nat, seq<nat>>, r: nat, x: nat, ghost root: seq<nat>)
    returns (newKeys: seq<nat>, appended: map<nat, seq<nat>>)
    requires x < |root| && r == root[x] && AreKeys(keys, components) && D.GroupedBy(root, components, x)
    ensures AreKeys(newKeys, appended) && D.GroupedBy(root, appended, x + 1)
  {
    newKeys := if r in components then keys else keys + [r];
    appended := components[r := (if r in components then components[r] else []) + [x]];
  }

  lemma KeyedGroups(root: seq<nat>, keys: seq<nat>, components: map<nat, seq<nat>>)
    requires D.GroupedBy(root, components, |root|) && AreKeys(keys, components)
    ensures IsGrouping(root, InKeyOrder(keys, components))
  {
    var groups := InKeyOrder(keys, components);
    forall k | 0 <= k < |groups|
      ensures groups[k] == D.Members(root, keys[k], |root|) && IsClass(root, groups[k]) && root[groups[k][0]] == keys[k]
    {
      assert groups[k][0] in groups[k];
    }
    forall x | 0 <= x < |root| ensures D.Members(root, root[x], |root|) in groups {
      assert x in D.Members(root, root[x], |root|);
      assert root[x] in keys;
      var k :| 0 <= k < |keys| && keys[k] == root[x];
      assert groups[k] in groups;
    }
  }

  // ----- least-loaded allocation

  function Fewest(loads: seq<seq<nat>>): nat
    requires |loads| == 3
  {
    Min(|loads[0]|, Min(|loads[1]|, |loads[2]|))
  }

  /** The splits that hold fewest items. */
  function Eligible(loads: seq<seq<nat>>): (eligible: seq<nat>)
    requires |loads| == 3
    ensures eligible != []
    ensures forall k :: 0 <= k < |eligible| ==> eligible[k] < 3 && |loads[eligible[k]]| == Fewest(loads)
  {
    (if |loads[0]| == Fewest(loads) then [0] else [])
    + (if |loads[1]| == Fewest(loads) then [1] else [])
    + (if |loads[2]| == Fewest(loads) then [2] else [])
  }

  /** `random.choice` among the least loaded. */
  function Choice(loads: seq<seq<nat>>, drawn: nat): (s: nat)
    requires |loads| == 3
    ensures s < 3 && |loads[s]| == Fewest(loads) && forall t :: 0 <= t < 3 ==> |loads[s]| <= |loads[t]|
  {
    Eligible(loads)[drawn % |Eligible(loads)|]
  }

  /** The three splits after the first `n` groups were placed. */
  function Loads(groups: seq<seq<nat>>, draw: nat -> nat, n: nat): (loads: seq<seq<nat>>)
    requires n <= |groups|
    ensures |loads| == 3
  {
    if n == 0 then [[], [], []]
    else
      var loads := Loads(groups, draw, n - 1);
      var s := Choice(loads, draw(n - 1));
      loads[s := loads[s] + groups[n - 1]]
  }

  /** The split group `j` is placed in. */
  function SlotOf(groups: seq<seq<nat>>, draw: nat -> nat, j: nat): (s: nat)
    requires j < |groups|
    ensures s < 3
  {
    Choice(Loads(groups, draw, j), draw(j))
  }

  method Allocate(groups: seq<seq<nat>>, draw: nat -> nat) returns (allocations: seq<seq<nat>>)
    ensures allocations == Loads(groups, draw, |groups|)
  {
    allocations := [[], [], []];
    for j := 0 to |groups|
      invariant allocations == Loads(groups, draw, j)
    {
      var chosen := Choice(allocations, draw(j));
      allocations := allocations[chosen := allocations[chosen] + groups[j]];
    }
  }

  /** The splits chosen for the first `n` groups. */
  ghost function Slots(groups: seq<seq<nat>>, draw: nat -> nat, n: nat): (slots: seq<nat>)
    requires n <= |groups|
    ensures |slots| == n && forall j :: 0 <= j < n ==> slots[j] < 3
  {
    if n == 0 then [] else Slots(groups, draw, n - 1) + [SlotOf(groups, draw, n - 1)]
  }

  /** The members of the groups whose slot is `s`. */
  ghost function Gathered(groups: seq<seq<nat>>, slots: seq<nat>, s: nat): seq<nat>
    requires |slots| <= |groups|
  {
    if slots == [] then []
    else
      var n := |slots| - 1;
      Gathered(groups, slots[..n], s) + if slots[n] == s then groups[n] else []
  }

  lemma GatheredNext(groups: seq<seq<nat>>, slots: seq<nat>, slot: nat, s: nat)
    requires |slots| < |groups|
    ensures Gathered(groups, slots + [slot], s) == Gathered(groups, slots, s) +
      if slot == s then groups[|slots|] else []
  {
    assert (slots + [slot])[..|slots|] == slots;
  }

  lemma {:induction false} LoadsGathered(groups: seq<seq<nat>>, draw: nat -> nat, n: nat, s: nat)
    requires n <= |groups| && s < 3
    ensures Loads(groups, draw, n)[s] == Gathered(groups, Slots(groups, draw, n), s)
  {
    if n > 0 {
      LoadsGathered(groups, draw, n - 1, s);
      LoadNext(groups, draw, n - 1, s);
      GatheredNext(groups, Slots(groups, draw, n - 1), SlotOf(groups, draw, n - 1), s);
    }
  }

  /** A split holds exactly the groups placed in it. */
  lemma {:induction false} GatheredMembers(groups: seq<seq<nat>>, slots: seq<nat>, s: nat, x: nat)
    requires |slots| <= |groups|
    ensures x in Gathered(groups, slots, s) <==> exists j :: 0 <= j < |slots| && slots[j] == s && x in groups[j]
  {
    if slots != [] {
      GatheredMembers(groups, slots[..|slots| - 1], s, x);
    }
  }

  ghost predicate Descending(groups: seq<seq<nat>>) {
    forall i, j :: 0 <= i < j < |groups| ==> |groups[i]| >= |groups[j]|
  }

  lemma LoadNext(groups: seq<seq<nat>>, draw: nat -> nat, n: nat, s: nat)
    requires n < |groups| && s < 3
    ensures Loads(groups, draw, n + 1)[s] ==
      Loads(groups, draw, n)[s] + if SlotOf(groups, draw, n) == s then groups[n] else []
  {
  }

  lemma PlacingBalances(loads: seq<seq<nat>>, drawn: nat, group: seq<nat>, s: nat, t: nat, bound: nat)
    requires |loads| == 3 && s < 3 && t < 3
    requires if s == Choice(loads, drawn) then |group| <= bound else |loads[s]| <= |loads[t]| + bound
    ensures var chosen := Choice(loads, drawn); var after := loads[chosen := loads[chosen] + group];
      |after[s]| <= |after[t]| + bound
  {
  }

  /** A difference within `bound` stays so while groups no larger than that are placed. */
  lemma {:induction false} StaysBalanced(groups: seq<seq<nat>>, draw: nat -> nat, m: nat, n: nat, s: nat, t: nat,
                                         bound: nat)
    requires m <= n <= |groups| && s < 3 && t < 3 && forall k :: m <= k < n ==> |groups[k]| <= bound
    requires |Loads(groups, draw, m)[s]| <= |Loads(groups, draw, m)[t]| + bound
    ensures |Loads(groups, draw, n)[s]| <= |Loads(groups, draw, n)[t]| + bound
  {
    if m < n {
      StaysBalanced(groups, draw, m, n - 1, s, t, bound);
      PlacingBalances(Loads(groups, draw, n - 1), draw(n - 1), groups[n - 1], s, t, bound);
    }
  }

  /** Since groups come largest first, no split exceeds another by more than any group it holds. */
  lemma Balanced(groups: seq<seq<nat>>, draw: nat -> nat, n: nat, j: nat, t: nat)
    requires j < n <= |groups| && t < 3 && Descending(groups)
    ensures |Loads(groups, draw, n)[SlotOf(groups, draw, j)]| <= |Loads(groups, draw, n)[t]| + |groups[j]|
  {
    var s := SlotOf(groups, draw, j);
    PlacingBalances(Loads(groups, draw, j), draw(j), groups[j], s, t, |groups[j]|);
    StaysBalanced(groups, draw, j + 1, n, s, t, |groups[j]|);
  }

  function Used(loads: seq<seq<nat>>): nat
    requires |loads| == 3
  {
    (if loads[0] == [] then 0 else 1) + (if loads[1] == [] then 0 else 1) + (if loads[2] == [] then 0 else 1)
  }

  /** Every group opens another split until all three are in use. */
  lemma {:induction false} SplitsUsed(groups: seq<seq<nat>>, draw: nat -> nat, n: nat)
    requires n <= |groups| && forall j :: 0 <= j < |groups| ==> groups[j] != []
    ensures Used(Loads(groups, draw, n)) == Min(n, 3)
  {
    if n > 0 {
      SplitsUsed(groups, draw, n - 1);
      var before, s := Loads(groups, draw, n - 1), SlotOf(groups, draw, n - 1);
      assert before[s] == [] <==> Used(before) < 3;
    }
  }

  /** Nothing is placed twice. */
  lemma {:induction false} GatheredDistinct(root: seq<nat>, groups: seq<seq<nat>>, slots: seq<nat>, s: nat)
    requires IsGrouping(root, groups) && |slots| <= |groups|
    ensures Distinct(Gathered(groups, slots, s))
  {
    if slots != [] {
      var n := |slots| - 1;
      GatheredDistinct(root, groups, slots[..n], s);
      var before, last := Gathered(groups, slots[..n], s), groups[n];
      assert IsClass(root, last);
      forall x | x in last ensures x !in before {
        GatheredMembers(groups, slots[..n], s, x);
        forall j | 0 <= j < n ensures x !in groups[j] {
          assert groups[j] in groups && groups[j] != last;
        }
      }
      DistinctConcat(before, last);
    }
  }

  // ----- the splits

  lemma {:induction false} SlotIndex(groups: seq<seq<nat>>, draw: nat -> nat, n: nat, j: nat)
    requires j < n <= |groups|
    ensures Slots(groups, draw, n)[j] == SlotOf(groups, draw, j)
  {
    var before := Slots(groups, draw, n - 1);
    if j < n - 1 {
      SlotIndex(groups, draw, n - 1, j);
      assert Slots(groups, draw, n)[j] == before[j];
    }
  }

  /** Place `x` is in exactly one split: the one the group with its class was placed in. */
  lemma InSlot(root: seq<nat>, groups: seq<seq<nat>>, draw: nat -> nat, x: nat, j: nat)
    requires IsGrouping(root, groups) && x < |root| && j < |groups| && x in groups[j]
    ensures forall s :: 0 <= s < 3 ==> (x in Loads(groups, draw, |groups|)[s] <==> s == SlotOf(groups, draw, j))
  {
    var slots := Slots(groups, draw, |groups|);
    SlotIndex(groups, draw, |groups|, j);
    forall s | 0 <= s < 3 ensures x in Loads(groups, draw, |groups|)[s] <==> s == slots[j] {
      LoadsGathered(groups, draw, |groups|, s);
      GatheredMembers(groups, slots, s, x);
      forall i | 0 <= i < |groups| && x in groups[i] ensures i == j {
        OneClass(root, groups, x, i, j);
      }
    }
  }

  lemma GroupOf(root: seq<nat>, groups: seq<seq<nat>>, x: nat) returns (j: nat)
    requires IsGrouping(root, groups) && x < |root|
    ensures j < |groups| && groups[j] == D.Members(root, root[x], |root|) && x in groups[j]
  {
    assert D.Members(root, root[x], |root|) in groups;
    j :| 0 <= j < |groups| && groups[j] == D.Members(root, root[x], |root|);
  }

  lemma WhereIs(root: seq<nat>, groups: seq<seq<nat>>, draw: nat -> nat, x: nat) returns (j: nat)
    requires IsGrouping(root, groups) && x < |root|
    ensures j < |groups| && groups[j] == D.Members(root, root[x], |root|)
    ensures forall s :: 0 <= s < 3 ==> (x in Loads(groups, draw, |groups|)[s] <==> s == SlotOf(groups, draw, j))
  {
    j := GroupOf(root, groups, x);
    InSlot(root, groups, draw, x, j);
  }

  lemma OneClass(root: seq<nat>, groups: seq<seq<nat>>, x: nat, i: nat, j: nat)
    requires IsGrouping(root, groups) && i < |groups| && j < |groups| && x in groups[i] && x in groups[j]
    ensures i == j
  {
    assert groups[i] in groups && groups[j] in groups;
    assert IsClass(root, groups[i]) && IsClass(root, groups[j]);
    assert groups[i] == groups[j];
  }

  lemma HeadLeads(items: seq<Item>, root: seq<nat>, group: seq<nat>)
    requires D.IsComponentMap(|items|, Leaks(items), root) && IsClass(root, group)
    ensures group[0] in Representatives(items)
  {
    forall y | 0 <= y < |items| && Linked(items, group[0], y) ensures group[0] <= y {
      assert root[y] == root[group[0]];
      assert y in group;
    }
  }

  lemma LeaderIsHead(items: seq<Item>, root: seq<nat>, x: nat)
    requires D.IsComponentMap(|items|, Leaks(items), root) && x in Representatives(items)
    ensures var members := D.Members(root, root[x], |root|); members != [] && members[0] == x
  {
    var members := D.Members(root, root[x], |root|);
    assert x in members && members[0] in members;
    assert Linked(items, x, members[0]);
  }

  ghost function Heads(groups: seq<seq<nat>>): (heads: seq<nat>)
    requires forall j :: 0 <= j < |groups| ==> groups[j] != []
    ensures |heads| == |groups| && forall j :: 0 <= j < |groups| ==> heads[j] == groups[j][0]
  {
    seq(|groups|, j requires 0 <= j < |groups| => groups[j][0])
  }

  lemma GroupsAreClasses(root: seq<nat>, groups: seq<seq<nat>>)
    requires IsGrouping(root, groups)
    ensures forall j :: 0 <= j < |groups| ==> groups[j] != [] && IsClass(root, groups[j])
  {
    assert forall j | 0 <= j < |groups| :: groups[j] in groups;
  }

  lemma HeadsDistinct(root: seq<nat>, groups: seq<seq<nat>>)
    requires IsGrouping(root, groups) && forall j :: 0 <= j < |groups| ==> groups[j] != []
    ensures Distinct(Heads(groups))
  {
    forall i, j | 0 <= i < j < |groups| ensures Heads(groups)[i] != Heads(groups)[j] {
      assert IsClass(root, groups[i]) && IsClass(root, groups[j]);
    }
  }

  lemma HeadsExact(items: seq<Item>, root: seq<nat>, groups: seq<seq<nat>>, x: nat)
    requires D.IsComponentMap(|items|, Leaks(items), root) && IsGrouping(root, groups)
    requires forall j :: 0 <= j < |groups| ==> groups[j] != []
    ensures x in Heads(groups) <==> x in Representatives(items)
  {
    if x in Heads(groups) {
      var j :| 0 <= j < |groups| && Heads(groups)[j] == x;
      HeadLeads(items, root, groups[j]);
    }
    if x in Representatives(items) {
      LeaderIsHead(items, root, x);
      var members := D.Members(root, root[x], |root|);
      assert members in groups;
      var j :| 0 <= j < |groups| && groups[j] == members;
      assert Heads(groups)[j] == x;
    }
  }

  lemma SameSize<T>(s: seq<T>, members: set<T>)
    requires Distinct(s) && forall x :: x in s <==> x in members
    ensures |s| == |members|
  {
    MemberCount(s);
    assert AsSet(s) == members;
  }

  /** There are as many groups as leakage components. */
  lemma GroupCount(items: seq<Item>, root: seq<nat>, groups: seq<seq<nat>>)
    requires D.IsComponentMap(|items|, Leaks(items), root) && IsGrouping(root, groups)
    ensures |groups| == |Representatives(items)|
  {
    GroupsAreClasses(root, groups);
    HeadsDistinct(root, groups);
    forall x: nat ensures x in Heads(groups) <==> x in Representatives(items) {
      HeadsExact(items, root, groups, x);
    }
    SameSize(Heads(groups), Representatives(items));
  }

  // ----- what the splits satisfy

  ghost predicate Increasing(s: seq<nat>) {
    forall i, j :: 0 <= i < j < |s| ==> s[i] < s[j]
  }

  ghost predicate InSome(places: seq<seq<nat>>, x: nat) {
    exists s :: 0 <= s < |places| && x in places[s]
  }

  /** Every place is in exactly one of the three. */
  ghost predicate Partition(n: nat, places: seq<seq<nat>>) {
    && |places| == 3
    && (forall s, x :: 0 <= s < 3 && x in places[s] ==> x < n)
    && (forall x: nat :: x < n ==> InSome(places, x))
    && (forall s, t, x :: 0 <= s < 3 && 0 <= t < 3 && x in places[s] && x in places[t] ==> s == t)
  }

  /** Linked items are in the same split. */
  ghost predicate LeakFree(items: seq<Item>, places: seq<seq<nat>>) {
    forall x, y: nat, s :: 0 <= s < |places| && x in places[s] && y < |items| && Linked(items, x, y) ==> y in places[s]
  }

  /** No split exceeds another by more than any component it holds. */
  ghost predicate Even(items: seq<Item>, places: seq<seq<nat>>) {
    forall x, s, t :: 0 <= s < |places| && 0 <= t < |places| && x in places[s] ==>
      |places[s]| <= |places[t]| + |ComponentOf(items, x)|
  }

  lemma ClassSize(items: seq<Item>, root: seq<nat>, x: nat)
    requires D.IsComponentMap(|items|, Leaks(items), root) && x < |items|
    ensures |D.Members(root, root[x], |root|)| == |ComponentOf(items, x)|
  {
    var members := D.Members(root, root[x], |root|);
    forall y: nat ensures y in ComponentOf(items, x) <==> y in members {
      if y < |items| {
        assert root[x] == root[y] <==> Linked(items, x, y);
      }
    }
    SameSize(members, ComponentOf(items, x));
  }

  lemma PlacedInside(root: seq<nat>, groups: seq<seq<nat>>, draw: nat -> nat, s: nat, x: nat)
    requires IsGrouping(root, groups) && s < 3 && x in Loads(groups, draw, |groups|)[s]
    ensures x < |root|
  {
    var slots := Slots(groups, draw, |groups|);
    LoadsGathered(groups, draw, |groups|, s);
    GatheredMembers(groups, slots, s, x);
    var j :| 0 <= j < |slots| && slots[j] == s && x in groups[j];
    assert groups[j] in groups && IsClass(root, groups[j]);
  }

  lemma LoadsPartition(root: seq<nat>, groups: seq<seq<nat>>, draw: nat -> nat)
    requires IsGrouping(root, groups)
    ensures Partition(|root|, Loads(groups, draw, |groups|))
  {
    var loads := Loads(groups, draw, |groups|);
    forall s, x | 0 <= s < 3 && x in loads[s] ensures x < |root| {
      PlacedInside(root, groups, draw, s, x);
    }
    forall x: nat | x < |root| ensures InSome(loads, x) {
      var j := WhereIs(root, groups, draw, x);
      assert x in loads[SlotOf(groups, draw, j)];
    }
    forall s, t, x | 0 <= s < 3 && 0 <= t < 3 && x in loads[s] && x in loads[t] ensures s == t {
      var j := WhereIs(root, groups, draw, x);
    }
  }

  lemma PlacedTogether(root: seq<nat>, groups: seq<seq<nat>>, draw: nat -> nat, s: nat, x: nat, y: nat)
    requires IsGrouping(root, groups) && s < 3 && x < |root| && y < |root| && root[x] == root[y]
    requires x in Loads(groups, draw, |groups|)[s]
    ensures y in Loads(groups, draw, |groups|)[s]
  {
    var j := GroupOf(root, groups, x);
    assert y in groups[j];
    InSlot(root, groups, draw, x, j);
    InSlot(root, groups, draw, y, j);
  }

  lemma LoadsLeakFree(items: seq<Item>, root: seq<nat>, groups: seq<seq<nat>>, draw: nat -> nat)
    requires D.IsComponentMap(|items|, Leaks(items), root) && IsGrouping(root, groups)
    ensures LeakFree(items, Loads(groups, draw, |groups|))
  {
    var loads := Loads(groups, draw, |groups|);
    forall x, y: nat, s | 0 <= s < 3 && x in loads[s] && y < |items| && Linked(items, x, y) ensures y in loads[s] {
      PlacedInside(root, groups, draw, s, x);
      PlacedTogether(root, groups, draw, s, x, y);
    }
  }

  lemma LoadsEven(items: seq<Item>, root: seq<nat>, groups: seq<seq<nat>>, draw: nat -> nat)
    requires D.IsComponentMap(|items|, Leaks(items), root) && IsGrouping(root, groups) && Descending(groups)
    ensures Even(items, Loads(groups, draw, |groups|))
  {
    var loads := Loads(groups, draw, |groups|);
    forall x, s, t | 0 <= s < 3 && 0 <= t < 3 && x in loads[s]
      ensures |loads[s]| <= |loads[t]| + |ComponentOf(items, x)|
    {
      PlacedInside(root, groups, draw, s, x);
      var j := WhereIs(root, groups, draw, x);
      Balanced(groups, draw, |groups|, j, t);
      ClassSize(items, root, x);
    }
  }

  /** The same places, in order. */
  ghost predicate SortedLoads(loads: seq<seq<nat>>, places: seq<seq<nat>>) {
    |places| == |loads| && forall s :: 0 <= s < |loads| ==> multiset(places[s]) == multiset(loads[s])
  }

  lemma SortedKeeps(items: seq<Item>, loads: seq<seq<nat>>, places: seq<seq<nat>>)
    requires SortedLoads(loads, places) && Partition(|items|, loads) && LeakFree(items, loads) && Even(items, loads)
    ensures Partition(|items|, places) && LeakFree(items, places) && Even(items, places)
  {
    forall s, x: nat | 0 <= s < 3 ensures x in places[s] <==> x in loads[s] {
      SameMembers(loads[s], places[s], x);
    }
    forall s | 0 <= s < 3 ensures |places[s]| == |loads[s]| {
      assert |multiset(places[s])| == |places[s]| && |multiset(loads[s])| == |loads[s]|;
    }
    forall x: nat | x < |items| ensures InSome(places, x) {
      assert InSome(loads, x);
      var s :| 0 <= s < 3 && x in loads[s];
      assert x in places[s];
    }
  }

  // ----- the whole construction

  function IdOf(item: Item): int { item.id }
  function Fewness(group: seq<nat>): int { -|group| }
  function Itself(x: nat): int { x }

  function IdList(items: seq<Item>): (ids: seq<nat>)
    ensures |ids| == |items| && forall i :: 0 <= i < |items| ==> ids[i] == items[i].id
  {
    seq(|items|, i requires 0 <= i < |items| => items[i].id)
  }

  ghost predicate DistinctIds(items: seq<Item>) {
    Distinct(IdList(items))
  }

  ghost predicate InIdOrder(items: seq<Item>) {
    forall i, j :: 0 <= i < j < |items| ==> items[i].id < items[j].id
  }

  lemma SortedInIdOrder(items: seq<Item>)
    requires DistinctIds(items)
    ensures InIdOrder(SortBy(items, IdOf)) && |SortBy(items, IdOf)| == |items|
  {
    var sorted := SortBy(items, IdOf);
    SortBySorts(items, IdOf);
    assert forall i, j | 0 <= i < j < |items| :: IdList(items)[i] != IdList(items)[j];
    RearrangedDistinct(items, sorted);
    assert |multiset(sorted)| == |sorted| && |multiset(items)| == |items|;
    forall i, j | 0 <= i < j < |sorted| ensures sorted[i].id < sorted[j].id {
      SameMembers(items, sorted, sorted[i]);
      SameMembers(items, sorted, sorted[j]);
      assert IdOf(sorted[i]) <= IdOf(sorted[j]);
    }
  }

  lemma SortedGroups(root: seq<nat>, groups: seq<seq<nat>>, shuffled: seq<seq<nat>>)
    requires IsGrouping(root, groups) && multiset(shuffled) == multiset(groups)
    ensures IsGrouping(root, SortBy(shuffled, Fewness)) && Descending(SortBy(shuffled, Fewness))
    ensures |SortBy(shuffled, Fewness)| == |groups|
  {
    var sorted := SortBy(shuffled, Fewness);
    SortBySorts(shuffled, Fewness);
    RearrangedGrouping(root, groups, sorted);
    assert |multiset(sorted)| == |sorted| && |multiset(groups)| == |groups|;
    forall i, j | 0 <= i < j < |sorted| ensures |sorted[i]| >= |sorted[j]| {
      assert Fewness(sorted[i]) <= Fewness(sorted[j]);
    }
  }

  lemma AscendingDistinct(places: seq<nat>)
    requires Ascending(places, Itself) && Distinct(places)
    ensures Increasing(places)
  {
    forall i, j | 0 <= i < j < |places| ensures places[i] < places[j] {
      assert Itself(places[i]) <= Itself(places[j]);
    }
  }

  lemma SortedPlaces(load: seq<nat>)
    requires Distinct(load)
    ensures Increasing(SortBy(load, Itself)) && multiset(SortBy(load, Itself)) == multiset(load)
  {
    SortBySorts(load, Itself);
    RearrangedDistinct(load, SortBy(load, Itself));
    AscendingDistinct(SortBy(load, Itself));
  }

  /** The groups in the order they are placed: shuffled, then largest first. */
  method ArrangedGroups(items: seq<Item>, shuffling: nat -> nat) returns (groups: seq<seq<nat>>, ghost root: seq<nat>)
    ensures D.IsComponentMap(|items|, Leaks(items), root)
    ensures IsGrouping(root, groups) && Descending(groups)
  {
    var forest := LinkItems(items);
    root := forest.root;
    var classes := GroupByRoot(forest);
    var shuffled := Shuffle(classes, shuffling);
    SortedGroups(root, classes, shuffled);
    groups := SortBy(shuffled, Fewness);
  }

  /** No document, family or paraphrase group occurs in two splits. */
  lemma TokensApart(order: seq<Item>, places: seq<seq<nat>>, s: nat, t: nat, x: nat, y: nat)
    requires AreSplits(order, places) && s < 3 && t < 3 && x in places[s] && y in places[t]
    requires x < |order| && y < |order|
    requires order[x].family == order[y].family || order[x].paraphrase == order[y].paraphrase
      || exists d :: d in order[x].documents && d in order[y].documents
    ensures s == t
  {
    ShareTokenIff(order[x], order[y]);
    if x != y {
      assert ShareToken(order[y], order[x]);
      D.ConnectedPair(|order|, Leaks(order), x, y);
      assert Linked(order, x, y) && y in places[s];
    }
    assert y in places[s];
  }

  function Ids(items: seq<Item>, places: seq<nat>): (ids: seq<nat>)
    ensures |ids| == |places| && forall k :: 0 <= k < |places| && places[k] < |items| ==> ids[k] == items[places[k]].id
  {
    seq(|places|, k requires 0 <= k < |places| => if places[k] < |items| then items[places[k]].id else 0)
  }

  /** Three non-empty splits of the items, given as places in identifier order. */
  ghost predicate AreSplits(order: seq<Item>, places: seq<seq<nat>>) {
    && Partition(|order|, places) && LeakFree(order, places) && Even(order, places)
    && (forall s :: 0 <= s < 3 ==> places[s] != [] && Increasing(places[s]))
  }

  method PlaceComponents(order: seq<Item>, shuffling: nat -> nat, choices: nat -> nat)
    returns (r: Result<seq<seq<nat>>, SplitError>)
    ensures r.Err? <==> |Representatives(order)| < 3
    ensures if r.Ok? then AreSplits(order, r.value) else r.error == CannotPopulate
  {
    ghost var root;
    var groups;
    groups, root := ArrangedGroups(order, shuffling);
    GroupCount(order, root, groups);
    var allocations := Allocate(groups, choices);
    LoadsHold(order, root, groups, choices);
    if allocations[0] == [] || allocations[1] == [] || allocations[2] == [] {
      return Err(CannotPopulate);
    }
    var sorted := [SortBy(allocations[0], Itself), SortBy(allocations[1], Itself), SortBy(allocations[2], Itself)];
    SortedPlacesHold(order, allocations, sorted);
    return Ok(sorted);
  }

  /** Assigns whole leakage components to three splits. */
  method BuildSplits(items: seq<Item>, versionGiven: bool, shuffling: nat -> nat, choices: nat -> nat)
    returns (result: Result<seq<seq<nat>>, SplitError>, ghost places: seq<seq<nat>>)
    ensures result == Err(TooFewItems) <==> !versionGiven || |items| < 3
    ensures result == Err(DuplicateIds) <==> versionGiven && |items| >= 3 && !DistinctIds(items)
    ensures result == Err(CannotPopulate) <==>
      versionGiven && |items| >= 3 && DistinctIds(items) && |Representatives(SortBy(items, IdOf))| < 3
    ensures result.Ok? ==> var order := SortBy(items, IdOf);
      && InIdOrder(order) && AreSplits(order, places)
      && |result.value| == 3 && (forall s :: 0 <= s < 3 ==> result.value[s] == Ids(order, places[s]))
  {
    places := [];
    if !versionGiven || |items| < 3 {
      return Err(TooFewItems), places;
    }
    MemberCount(IdList(items));
    if |AsSet(IdList(items))| != |items| {
      return Err(DuplicateIds), places;
    }
    SortedInIdOrder(items);
    var order := SortBy(items, IdOf);
    var placed := PlaceComponents(order, shuffling, choices);
    if placed.Err? {
      return Err(CannotPopulate), places;
    }
    places := placed.value;
    result := Ok([Ids(order, placed.value[0]), Ids(order, placed.value[1]), Ids(order, placed.value[2])]);
  }

  lemma LoadsHold(items: seq<Item>, root: seq<nat>, groups: seq<seq<nat>>, draw: nat -> nat)
    requires D.IsComponentMap(|items|, Leaks(items), root) && IsGrouping(root, groups) && Descending(groups)
    ensures var loads := Loads(groups, draw, |groups|);
      && Partition(|items|, loads) && LeakFree(items, loads) && Even(items, loads)
      && (forall s :: 0 <= s < 3 ==> Distinct(loads[s]))
      && (|groups| < 3 <==> loads[0] == [] || loads[1] == [] || loads[2] == [])
  {
    GroupsAreClasses(root, groups);
    LoadsPartition(root, groups, draw);
    LoadsLeakFree(items, root, groups, draw);
    LoadsEven(items, root, groups, draw);
    SplitsUsed(groups, draw, |groups|);
    forall s | 0 <= s < 3 ensures Distinct(Loads(groups, draw, |groups|)[s]) {
      LoadsGathered(groups, draw, |groups|, s);
      GatheredDistinct(root, groups, Slots(groups, draw, |groups|), s);
    }
  }

  lemma SortedPlacesHold(items: seq<Item>, loads: seq<seq<nat>>, places: seq<seq<nat>>)
    requires Partition(|items|, loads) && LeakFree(items, loads) && Even(items, loads)
    requires forall s :: 0 <= s < 3 ==> Distinct(loads[s]) && loads[s] != []
    requires |places| == 3 && forall s :: 0 <= s < 3 ==> places[s] == SortBy(loads[s], Itself)
    ensures AreSplits(items, places)
  {
    forall s | 0 <= s < 3
      ensures multiset(places[s]) == multiset(loads[s]) && Increasing(places[s]) && places[s] != []
    {
      SortedPlaces(loads[s]);
      SameMembers(loads[s], places[s], loads[s][0]);
    }
    SortedKeeps(items, loads, places);
  }
}
