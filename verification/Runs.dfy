/**
 Whole runs of the rank-balanced tree: any sequence of insertions and removals,
 started from the empty tree, against a plain map from keys to nodes.
 */
module Runs {
  import opened RankTrees
  import opened SortedTrees
  import opened Bounds

  datatype Op<T> = Add(e: Entry<T>) | Del(x: T)

  // ---------- The reference ----------

  /** A node is put into the tree while it is out of it, and taken out while it is in. */
  predicate Allowed<T(==)>(m: map<int, T>, op: Op<T>) {
    match op
    case Add(e) => e.x !in Held(m)
    case Del(x) => x in Held(m)
  }

  /** The nodes a map holds. */
  function Held<T(==)>(m: map<int, T>): set<T> { set k | k in m :: m[k] }

  function Update<T(==)>(m: map<int, T>, op: Op<T>): map<int, T> {
    match op
    case Add(e) => if e.k in m then m else m[e.k := e.x]
    case Del(x) => map k | k in m && m[k] != x :: m[k]
  }

  function Contents<T(==)>(ops: seq<Op<T>>): map<int, T> {
    if ops == [] then map[] else Update(Contents(ops[..|ops| - 1]), ops[|ops| - 1])
  }

  predicate Legal<T(==)>(ops: seq<Op<T>>) {
    ops == [] || (Legal(ops[..|ops| - 1]) && Allowed(Contents(ops[..|ops| - 1]), ops[|ops| - 1]))
  }

  predicate Injective<T(==)>(m: map<int, T>) {
    forall j, k :: j in m && k in m && m[j] == m[k] ==> j == k
  }

  predicate Pairs<T(==)>(s: seq<Entry<T>>, m: map<int, T>) {
    && (forall e :: e in s ==> e.k in m && m[e.k] == e.x)
    && (forall k :: k in m ==> Entry(m[k], k) in s)
  }

  /** s holds exactly the map's pairs, in the order of their keys. */
  predicate Lists<T(==)>(s: seq<Entry<T>>, m: map<int, T>) { Sorted(s) && |s| == |m| && Pairs(s, m) }

  // ---------- The tree ----------

  predicate Good<T(==)>(t: Tree<T>) { Balanced(t) && Ordered(t) && Distinct(InOrder(t)) }

  predicate Enabled<T(==)>(t: Tree<T>, op: Op<T>) { Balanced(t) && (op.Del? ==> Has(t, op.x)) }

  /** The tree after one operation, and the iterations of the rebalancing loop that promote or demote and go on. */
  function Do<T(==)>(t: Tree<T>, op: Op<T>): (Tree<T>, nat) {
    if !Enabled(t, op) then (t, 0)
    else if op.Add? then (Insert(t, op.e), InsertWork(t, op.e))
    else (Remove(t, op.x), RemoveWork(t, op.x))
  }

  /** The tree and the total work after a run. */
  function Play<T(==)>(ops: seq<Op<T>>): (Tree<T>, nat) {
    if ops == [] then (Nil, 0)
    else
      var (t, w) := Play(ops[..|ops| - 1]);
      var (u, n) := Do(t, ops[|ops| - 1]);
      (u, w + n)
  }

  /** A run that goes on by one operation. */
  lemma PlaySnoc<T>(init: seq<Op<T>>, op: Op<T>)
    ensures var (ops, m, (t, w)) := (init + [op], Contents(init), Play(init));
      && (Legal(ops) <==> Legal(init) && Allowed(m, op)) && Contents(ops) == Update(m, op)
      && Play(ops) == (Do(t, op).0, w + Do(t, op).1)
  {
    assert (init + [op])[..|init|] == init;
  }

  /**
   After every legal run: a valid search tree that lists what the map holds, after at most three units of work an
   operation.
   */
  lemma {:induction false} RunCorrect<T>(ops: seq<Op<T>>)
    requires Legal(ops)
    ensures Good(Play(ops).0) && Lists(InOrder(Play(ops).0), Contents(ops)) && Injective(Contents(ops))
    ensures Play(ops).1 + Phi(Play(ops).0) <= 3 * |ops|
    decreases |ops|
  {
    if ops != [] {
      var (init, op) := (ops[..|ops| - 1], ops[|ops| - 1]);
      RunCorrect(init);
      StepCorrect(Play(init).0, Contents(init), op);
    }
  }

  // ---------- One step ----------

  lemma {:induction false} HasInOrder<T>(t: Tree<T>, x: T)
    ensures Has(t, x) <==> Mentions(InOrder(t), x)
  {
    if t.Bin? {
      HasInOrder(t.l, x);
      HasInOrder(t.r, x);
      var (a, b, s) := (InOrder(t.l), InOrder(t.r), InOrder(t));
      assert forall i :: 0 <= i < |a| ==> s[i] == a[i];
      assert s[|a|] == t.e;
      assert forall i :: 0 <= i < |b| ==> s[|a| + 1 + i] == b[i];
    }
  }

  lemma {:induction false} InsertSortedMembers<T>(s: seq<Entry<T>>, e: Entry<T>)
    requires Sorted(s)
    ensures e.k in Keys(s) ==> InsertSorted(s, e) == s
    ensures e.k !in Keys(s) ==> |InsertSorted(s, e)| == |s| + 1
    ensures e.k !in Keys(s) ==> forall f :: f in InsertSorted(s, e) <==> f in s || f == e
  {
    if s != [] {
      KeysCons(s[0], s[1..]);
      assert s == [s[0]] + s[1..];
      SortedCons(s[0], s[1..]);
      if s[0].k < e.k {
        InsertSortedMembers(s[1..], e);
      } else if e.k < s[0].k {
        assert forall k :: k in Keys(s) ==> s[0].k <= k;
      }
    }
  }

  lemma {:induction false} WithoutMembers<T>(s: seq<Entry<T>>, x: T)
    ensures forall f :: f in Without(s, x) <==> f in s && f.x != x
  {
    if s != [] {
      WithoutMembers(s[1..], x);
      assert s == [s[0]] + s[1..];
    }
  }

  lemma ListsDistinct<T>(s: seq<Entry<T>>, m: map<int, T>)
    requires Lists(s, m) && Injective(m)
    ensures Distinct(s) && Keys(s) == m.Keys
  {
    forall i, j | 0 <= i < j < |s|
      ensures s[i].x != s[j].x
    {
      assert s[i] in s && s[j] in s;
    }
    forall k | k in m
      ensures k in Keys(s)
    {
      var i :| 0 <= i < |s| && s[i] == Entry(m[k], k);
    }
    forall k | k in Keys(s)
      ensures k in m
    {
      var i :| 0 <= i < |s| && s[i].k == k;
      assert s[i] in s;
    }
  }

  /** What holds the pairs of a map, and one pair more. */
  lemma AddPairs<T>(s: seq<Entry<T>>, m: map<int, T>, e: Entry<T>, r: seq<Entry<T>>)
    requires Pairs(s, m) && Injective(m) && e.x !in Held(m) && e.k !in m
    requires forall f :: f in r <==> f in s || f == e
    ensures Pairs(r, m[e.k := e.x]) && Injective(m[e.k := e.x])
  {
  }

  lemma AddLists<T>(s: seq<Entry<T>>, m: map<int, T>, e: Entry<T>)
    requires Lists(s, m) && Injective(m) && e.x !in Held(m)
    ensures Lists(InsertSorted(s, e), Update(m, Add(e))) && Injective(Update(m, Add(e)))
  {
    ListsDistinct(s, m);
    InsertSortedMembers(s, e);
    InsertSortedSorted(s, e);
    if e.k !in m {
      AddPairs(s, m, e, InsertSorted(s, e));
    }
  }

  lemma DelPairs<T>(s: seq<Entry<T>>, m: map<int, T>, k: int, r: seq<Entry<T>>)
    requires Pairs(s, m) && Injective(m) && k in m
    requires forall f :: f in r <==> f in s && f.x != m[k]
    ensures Pairs(r, m - {k}) && Injective(m - {k}) && Update(m, Del(m[k])) == m - {k}
  {
    var n := Update(m, Del(m[k]));
    assert forall j :: j in n <==> j in m - {k};
  }

  lemma WithoutLength<T>(s: seq<Entry<T>>, e: Entry<T>)
    requires Distinct(s) && e in s
    ensures |Without(s, e.x)| == |s| - 1 && Mentions(s, e.x)
  {
    var i :| 0 <= i < |s| && s[i] == e;
    WithoutIndex(s, i);
  }

  lemma DelAt<T>(s: seq<Entry<T>>, m: map<int, T>, k: int)
    requires Lists(s, m) && Injective(m) && k in m
    ensures Lists(Without(s, m[k]), m - {k}) && Injective(m - {k}) && Update(m, Del(m[k])) == m - {k}
    ensures Mentions(s, m[k])
  {
    ListsDistinct(s, m);
    WithoutMembers(s, m[k]);
    WithoutSorted(s, m[k]);
    DelPairs(s, m, k, Without(s, m[k]));
    WithoutLength(s, Entry(m[k], k));
  }

  lemma DelLists<T>(s: seq<Entry<T>>, m: map<int, T>, x: T)
    requires Lists(s, m) && Injective(m) && x in Held(m)
    ensures Lists(Without(s, x), Update(m, Del(x))) && Injective(Update(m, Del(x)))
    ensures Mentions(s, x)
  {
    var k :| k in m && m[k] == x;
    DelAt(s, m, k);
  }

  lemma StepCorrect<T>(t: Tree<T>, m: map<int, T>, op: Op<T>)
    requires Good(t) && Lists(InOrder(t), m) && Injective(m) && Allowed(m, op)
    ensures Enabled(t, op)
    ensures var (u, n) := (Do(t, op).0, Update(m, op)); Good(u) && Lists(InOrder(u), n) && Injective(n)
    ensures Do(t, op).1 + Phi(Do(t, op).0) <= Phi(t) + 3
  {
    match op
    case Add(e) =>
      AddLists(InOrder(t), m, e);
      InsertedSorted(t, e);
      InsertCost(t, e);
      ListsDistinct(InOrder(Insert(t, e)), Update(m, op));
    case Del(x) =>
      DelLists(InOrder(t), m, x);
      HasInOrder(t, x);
      RemoveCorrect(t, x);
      RemoveCost(t, x);
      ListsDistinct(InOrder(Remove(t, x)), Update(m, op));
  }

  // ---------- Readings ----------

  lemma {:induction false} SizeInOrder<T>(t: Tree<T>)
    ensures Size(t) == |InOrder(t)|
  {
    if t.Bin? {
      SizeInOrder(t.l);
      SizeInOrder(t.r);
    }
  }

  /** At most three promotions or demotions an operation, over any run. */
  lemma TotalWork<T>(ops: seq<Op<T>>)
    requires Legal(ops)
    ensures Play(ops).1 <= 3 * |ops|
  {
    RunCorrect(ops);
  }

  /** The height is at most 2 lg(n + 1). */
  predicate Shallow<T>(t: Tree<T>, n: nat) { Pow2(Height(t)) <= (n + 1) * (n + 1) }

  /** The keys in the tree are the inserted and not removed ones. */
  lemma RunKeys<T>(ops: seq<Op<T>>)
    requires Legal(ops)
    ensures Keys(InOrder(Play(ops).0)) == Contents(ops).Keys
  {
    RunCorrect(ops);
    ListsDistinct(InOrder(Play(ops).0), Contents(ops));
  }

  lemma ListHeight<T>(t: Tree<T>, m: map<int, T>)
    requires Balanced(t) && Lists(InOrder(t), m)
    ensures Shallow(t, |m|)
  {
    SizeInOrder(t);
    HeightBound(t);
  }

  /** The height after any run is at most twice the logarithm of one more than the number of nodes. */
  lemma RunHeight<T>(ops: seq<Op<T>>)
    requires Legal(ops)
    ensures Shallow(Play(ops).0, |Contents(ops)|)
  {
    RunCorrect(ops);
    ListHeight(Play(ops).0, Contents(ops));
  }

  /** The walk of RB_FIND ends on the node the map holds for the key, and on nothing if there is none. */
  lemma RunFinds<T>(ops: seq<Op<T>>, k: int)
    requires Legal(ops)
    ensures var u := Search(Top, Play(ops).0, k).1;
      (k in Contents(ops) <==> u.Bin?) && (u.Bin? ==> Contents(ops)[k] == u.e.x)
  {
    var (t, m) := (Play(ops).0, Contents(ops));
    var (d, u) := Search(Top, t, k);
    RunCorrect(ops);
    ListsDistinct(InOrder(t), m);
    SearchFinds(t, k);
    SearchPlug(Top, t, k);
    if u.Bin? {
      SearchBounds(Top, t, k);
      Around(d, u);
      assert u.e in InOrder(t);
    }
  }

  /** Insertions alone keep an AVL tree, with the rank as its height. */
  lemma {:induction false} InsertOnlyAvl<T>(ops: seq<Op<T>>)
    requires Legal(ops) && forall i :: 0 <= i < |ops| ==> ops[i].Add?
    ensures No22(Play(ops).0) && Avl(Play(ops).0) && Rank(Play(ops).0) == Height(Play(ops).0)
    decreases |ops|
  {
    if ops != [] {
      var (init, op) := (ops[..|ops| - 1], ops[|ops| - 1]);
      InsertOnlyAvl(init);
      RunCorrect(init);
      InsertKeepsAvl(Play(init).0, op.e);
    }
    RunCorrect(ops);
    No22IsAvl(Play(ops).0);
  }
}

/** The same runs on the linked tree. */
module LinkedRuns {
  import opened RankTrees
  import opened SortedTrees
  import opened Links
  import opened RbTrees
  import opened Runs

  function NodeOf(op: Op<TagNode>): TagNode { if op.Add? then op.e.x else op.x }

  function NodesOf(ops: seq<Op<TagNode>>): set<TagNode> { set i | 0 <= i < |ops| :: NodeOf(ops[i]) }

  lemma AddHeld(m: map<int, TagNode>, k: int, x: TagNode)
    requires k !in m
    ensures Held(m[k := x]) == Held(m) + {x}
  {
    var n := m[k := x];
    assert n[k] == x;
    forall j | j in m
      ensures m[j] in Held(n)
    {
      assert n[j] == m[j];
    }
  }

  lemma DelHeld(m: map<int, TagNode>, x: TagNode)
    ensures Held(Update(m, Del(x))) == Held(m) - {x}
  {
    var n := Update(m, Del(x));
    forall j | j in m && m[j] != x
      ensures m[j] in Held(n)
    {
      assert n[j] == m[j];
    }
  }

  method PerformAdd(tree: RbTree, e: Entry<TagNode>, ghost m: map<int, TagNode>) returns (ghost work: nat)
    requires tree.Valid() && tree.nodes == Held(m) && Keys(InOrder(tree.model)) == m.Keys
    requires e.x !in Held(m) && e.k == e.x.tagId
    modifies tree, tree.nodes`left, tree.nodes`right, tree.nodes`parent, tree.nodes`redL, tree.nodes`redR,
             e.x`left, e.x`right, e.x`parent, e.x`redL, e.x`redR
    ensures tree.Valid() && (tree.model, work) == Do(old(tree.model), Add(e))
    ensures tree.nodes == Held(Update(m, Add(e)))
  {
    if e.k !in m {
      AddHeld(m, e.k, e.x);
    }
    var dup;
    dup, work := tree.Insert(e.x);
  }

  method PerformDel(tree: RbTree, x: TagNode, ghost m: map<int, TagNode>) returns (ghost work: nat)
    requires tree.Valid() && tree.nodes == Held(m) && x in Held(m)
    modifies tree, tree.nodes`left, tree.nodes`right, tree.nodes`parent, tree.nodes`redL, tree.nodes`redR
    ensures tree.Valid() && (tree.model, work) == Do(old(tree.model), Del(x))
    ensures tree.nodes == Held(Update(m, Del(x)))
  {
    DelHeld(m, x);
    WithoutSorted(InOrder(tree.model), x);
    var old_;
    old_, work := tree.Remove(x);
  }

  lemma UpdateHeld(m: map<int, TagNode>, op: Op<TagNode>)
    ensures Held(Update(m, op)) <= Held(m) + {NodeOf(op)}
  {
    if op.Add? && op.e.k !in m {
      AddHeld(m, op.e.k, op.e.x);
    } else if op.Del? {
      DelHeld(m, op.x);
    }
  }

  /** One operation of a run. */
  method Perform(tree: RbTree, op: Op<TagNode>, ghost m: map<int, TagNode>) returns (ghost work: nat)
    requires tree.Valid() && tree.nodes == Held(m) && Keys(InOrder(tree.model)) == m.Keys
    requires Allowed(m, op) && (op.Add? ==> op.e.k == op.e.x.tagId)
    modifies tree, tree.nodes`left, tree.nodes`right, tree.nodes`parent, tree.nodes`redL, tree.nodes`redR,
             NodeOf(op)`left, NodeOf(op)`right, NodeOf(op)`parent, NodeOf(op)`redL, NodeOf(op)`redR
    ensures tree.Valid() && (tree.model, work) == Do(old(tree.model), op)
    ensures tree.nodes == Held(Update(m, op)) <= old(tree.nodes) + {NodeOf(op)}
  {
    UpdateHeld(m, op);
    if op.Add? {
      work := PerformAdd(tree, op.e, m);
    } else {
      work := PerformDel(tree, op.x, m);
    }
  }

  /** The state between two operations of a run. */
  ghost predicate Reached(tree: RbTree, ops: seq<Op<TagNode>>, work: nat)
    reads tree, tree.nodes
  {
    tree.Valid() && Legal(ops) && tree.nodes == Held(Contents(ops)) && (tree.model, work) == Play(ops)
  }

  lemma ExtendReady(init: seq<Op<TagNode>>, op: Op<TagNode>)
    requires Legal(init + [op])
    ensures Legal(init) && Allowed(Contents(init), op)
    ensures Keys(InOrder(Play(init).0)) == Contents(init).Keys
    ensures Contents(init + [op]) == Update(Contents(init), op)
    ensures Play(init + [op]) == (Do(Play(init).0, op).0, Play(init).1 + Do(Play(init).0, op).1)
  {
    PlaySnoc(init, op);
    RunKeys(init);
  }

  /** One operation more. */
  method Extend(tree: RbTree, ghost init: seq<Op<TagNode>>, op: Op<TagNode>, ghost ops: seq<Op<TagNode>>,
                ghost work0: nat)
      returns (ghost work: nat)
    requires ops == init + [op] && Reached(tree, init, work0) && Legal(ops) && (op.Add? ==> op.e.k == op.e.x.tagId)
    modifies tree, tree.nodes`left, tree.nodes`right, tree.nodes`parent, tree.nodes`redL, tree.nodes`redR,
             NodeOf(op)`left, NodeOf(op)`right, NodeOf(op)`parent, NodeOf(op)`redL, NodeOf(op)`redR
    ensures Reached(tree, ops, work) && tree.nodes <= old(tree.nodes) + {NodeOf(op)}
  {
    ExtendReady(init, op);
    ghost var m := Contents(init);
    ghost var n := Perform(tree, op, m);
    work := work0 + n;
    assert (tree.model, work) == Play(ops);
  }

  lemma ReplayNodes(ops: seq<Op<TagNode>>)
    requires ops != []
    ensures NodesOf(ops) == NodesOf(ops[..|ops| - 1]) + {NodeOf(ops[|ops| - 1])}
  {
    assert NodeOf(ops[|ops| - 1]) in NodesOf(ops);
    forall x | x in NodesOf(ops)
      ensures x in NodesOf(ops[..|ops| - 1]) + {NodeOf(ops[|ops| - 1])}
    {
      var i :| 0 <= i < |ops| && NodeOf(ops[i]) == x;
      assert i < |ops| - 1 ==> ops[..|ops| - 1][i] == ops[i];
    }
  }

  /** Any run on an empty tree: the final links spell the tree of the pure run, node for node. */
  method Replay(tree: RbTree, ops: seq<Op<TagNode>>) returns (ghost work: nat)
    requires Reached(tree, [], 0) && Legal(ops)
    requires forall i :: 0 <= i < |ops| && ops[i].Add? ==> ops[i].e.k == ops[i].e.x.tagId
    modifies tree, NodesOf(ops)`left, NodesOf(ops)`right, NodesOf(ops)`parent, NodesOf(ops)`redL, NodesOf(ops)`redR
    ensures Reached(tree, ops, work) && tree.nodes <= NodesOf(ops)
  {
    if ops == [] {
      work := 0;
    } else {
      var init, op := ops[..|ops| - 1], ops[|ops| - 1];
      assert init + [op] == ops;
      ReplayNodes(ops);
      work := Replay(tree, init);
      work := Extend(tree, init, op, ops, work);
    }
  }

  /** Stepping to the next node and back, or the other way round, ends where it began, away from the ends. */
  method ThereAndBack(tree: RbTree, x: TagNode) returns (forth: TagNode?, back: TagNode?)
    requires tree.Shape() && x in tree.nodes
    ensures x == LastOf(InOrder(tree.model)) ==> forth == null
    ensures x == FirstOf(InOrder(tree.model)) ==> back == null
    ensures x != LastOf(InOrder(tree.model)) ==> forth == x
    ensures x != FirstOf(InOrder(tree.model)) ==> back == x
  {
    ghost var o := InOrder(tree.model);
    ghost var i := IndexOf(tree.State(), tree.model, x);
    forth := tree.Next(x);
    if forth != null {
      forth := tree.Prev(forth);
    }
    back := tree.Prev(x);
    if back != null {
      back := tree.Next(back);
    }
  }
}
