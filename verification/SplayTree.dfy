/**
 The splay tree of the header as linked nodes: the loop relinks nodes of the tree
 into two side trees that hang off a header node, and assembles them at the end.
 */
module SplayLinks {
  import opened RankTrees
  import opened SortedTrees
  import opened SplaySpec

  class SplayNode {
    var left: SplayNode?
    var right: SplayNode?
    var key: int

    constructor ()
      ensures left == null && right == null
    {
      left, right, key := null, null, 0;
    }

    ghost function Links(): Rec
      reads this
    {
      Rec(left, right, key)
    }
  }

  datatype Rec = Rec(l: SplayNode?, r: SplayNode?, k: int)
  type Heap = map<SplayNode, Rec>

  ghost function Snap(S: set<SplayNode>): (h: Heap)
    reads S
    ensures h.Keys == S
  {
    map x | x in S :: x.Links()
  }

  function RootOf(t: Splay<SplayNode>): SplayNode? { if t.Empty? then null else t.e.x }

  ghost function Nodes(t: Splay<SplayNode>): set<SplayNode> {
    match t
    case Empty => {}
    case Fork(l, e, r) => Nodes(l) + {e.x} + Nodes(r)
  }

  ghost function NodesS(s: Smaller<SplayNode>): set<SplayNode> {
    match s
    case NoSmaller => {}
    case More(prev, a, e) => NodesS(prev) + Nodes(a) + {e.x}
  }

  ghost function NodesG(g: Greater<SplayNode>): set<SplayNode> {
    match g
    case NoGreater => {}
    case Less(prev, e, b) => NodesG(prev) + {e.x} + Nodes(b)
  }

  /** The node whose right link is the open place of s; for an empty side tree, the header. */
  function LastS(s: Smaller<SplayNode>, hdr: SplayNode): SplayNode { if s.NoSmaller? then hdr else s.e.x }

  function LastG(g: Greater<SplayNode>, hdr: SplayNode): SplayNode { if g.NoGreater? then hdr else g.e.x }

  ghost predicate Sub(h: Heap, t: Splay<SplayNode>)
    ensures Sub(h, t) ==> Nodes(t) <= h.Keys
  {
    match t
    case Empty => true
    case Fork(l, e, r) =>
      && e.x in h && h[e.x] == Rec(RootOf(l), RootOf(r), e.k)
      && e.x !in Nodes(l) && e.x !in Nodes(r) && Nodes(l) !! Nodes(r)
      && Sub(h, l) && Sub(h, r)
  }

  /** The chain of right links from the header spells s; the last right link is free. */
  ghost predicate ChainS(h: Heap, s: Smaller<SplayNode>, hdr: SplayNode)
    ensures ChainS(h, s, hdr) ==> NodesS(s) <= h.Keys && hdr !in NodesS(s) && hdr in h
  {
    match s
    case NoSmaller => hdr in h
    case More(prev, a, e) =>
      && e.x in h && h[e.x].l == RootOf(a) && h[e.x].k == e.k && e.x != hdr && hdr !in Nodes(a)
      && e.x !in NodesS(prev) && e.x !in Nodes(a) && Nodes(a) !! NodesS(prev)
      && Sub(h, a) && ChainS(h, prev, hdr) && h[LastS(prev, hdr)].r == e.x
  }

  /** The chain of left links from the header spells g; the last left link is free. */
  ghost predicate ChainG(h: Heap, g: Greater<SplayNode>, hdr: SplayNode)
    ensures ChainG(h, g, hdr) ==> NodesG(g) <= h.Keys && hdr !in NodesG(g) && hdr in h
  {
    match g
    case NoGreater => hdr in h
    case Less(prev, e, b) =>
      && e.x in h && h[e.x].r == RootOf(b) && h[e.x].k == e.k && e.x != hdr && hdr !in Nodes(b)
      && e.x !in NodesG(prev) && e.x !in Nodes(b) && Nodes(b) !! NodesG(prev)
      && Sub(h, b) && ChainG(h, prev, hdr) && h[LastG(prev, hdr)].l == e.x
  }

  ghost predicate Same(g: Heap, h: Heap, S: set<SplayNode>) {
    forall x :: x in S && x in g ==> x in h && h[x] == g[x]
  }

  lemma {:induction false} SubFrame(g: Heap, h: Heap, t: Splay<SplayNode>)
    requires Sub(g, t) && Same(g, h, Nodes(t))
    ensures Sub(h, t)
  {
    match t
    case Empty =>
    case Fork(l, _, r) =>
      SubFrame(g, h, l);
      SubFrame(g, h, r);
  }

  /** The right link of the last node and the left link of the header may differ. */
  lemma {:induction false} ChainSFrame(g: Heap, h: Heap, s: Smaller<SplayNode>, hdr: SplayNode)
    requires ChainS(g, s, hdr) && hdr in h && LastS(s, hdr) in h
    requires Same(g, h, NodesS(s) - {LastS(s, hdr)})
    requires LastS(s, hdr) != hdr ==> h[hdr].r == g[hdr].r
    requires LastS(s, hdr) != hdr ==> h[LastS(s, hdr)] == g[LastS(s, hdr)].(r := h[LastS(s, hdr)].r)
    ensures ChainS(h, s, hdr)
  {
    match s
    case NoSmaller =>
    case More(prev, a, e) =>
      SubFrame(g, h, a);
      ChainSFrame(g, h, prev, hdr);
  }

  lemma {:induction false} ChainGFrame(g: Heap, h: Heap, s: Greater<SplayNode>, hdr: SplayNode)
    requires ChainG(g, s, hdr) && hdr in h && LastG(s, hdr) in h
    requires Same(g, h, NodesG(s) - {LastG(s, hdr)})
    requires LastG(s, hdr) != hdr ==> h[hdr].l == g[hdr].l
    requires LastG(s, hdr) != hdr ==> h[LastG(s, hdr)] == g[LastG(s, hdr)].(l := h[LastG(s, hdr)].l)
    ensures ChainG(h, s, hdr)
  {
    match s
    case NoGreater =>
    case Less(prev, _, b) =>
      SubFrame(g, h, b);
      ChainGFrame(g, h, prev, hdr);
  }

  /** The three trees of the loop share no node, and with the header they are the whole store. */
  ghost predicate Parts(h: Heap, s: Smaller<SplayNode>, t: Splay<SplayNode>, g: Greater<SplayNode>, hdr: SplayNode) {
    ChainS(h, s, hdr) && Sub(h, t) && ChainG(h, g, hdr) && Apart(NodesS(s), Nodes(t), NodesG(g), hdr, h.Keys)
  }

  ghost predicate Apart(a: set<SplayNode>, b: set<SplayNode>, c: set<SplayNode>, hdr: SplayNode, all: set<SplayNode>) {
    a !! b && a !! c && b !! c && hdr !in b && a + b + c + {hdr} == all
  }

  lemma MoveApart(a: set<SplayNode>, b: set<SplayNode>, c: set<SplayNode>, x: SplayNode, l: set<SplayNode>,
                  r: set<SplayNode>,
                  hdr: SplayNode, all: set<SplayNode>)
    requires Apart(a, b, c, hdr, all) && b == l + {x} + r && x !in l && x !in r && l !! r
    ensures Apart(a, l, c + {x} + r, hdr, all) && Apart(a + l + {x}, r, c, hdr, all)
  {
  }

  /** SPLAY_LINKLEFT: the root becomes the last node of the greater side, its left subtree is next. */
  lemma LinkLeftParts(h: Heap, f: Heap, s: Smaller<SplayNode>, t: Splay<SplayNode>, g: Greater<SplayNode>,
                      hdr: SplayNode)
    requires Parts(h, s, t, g, hdr) && t.Fork?
    requires LastG(g, hdr) in h && f == h[LastG(g, hdr) := h[LastG(g, hdr)].(l := t.e.x)]
    ensures Parts(f, s, t.l, Less(g, t.e, t.r), hdr)
  {
    LinkLeftChains(h, f, s, t, g, hdr);
    MoveApart(NodesS(s), Nodes(t), NodesG(g), t.e.x, Nodes(t.l), Nodes(t.r), hdr, h.Keys);
    assert f.Keys == h.Keys;
  }

  lemma LinkLeftChains(h: Heap, f: Heap, s: Smaller<SplayNode>, t: Splay<SplayNode>, g: Greater<SplayNode>,
                       hdr: SplayNode)
    requires Parts(h, s, t, g, hdr) && t.Fork?
    requires LastG(g, hdr) in h && f == h[LastG(g, hdr) := h[LastG(g, hdr)].(l := t.e.x)]
    ensures ChainS(f, s, hdr) && Sub(f, t.l) && ChainG(f, Less(g, t.e, t.r), hdr)
  {
    SubFrame(h, f, t.l);
    SubFrame(h, f, t.r);
    ChainSFrame(h, f, s, hdr);
    ChainGFrame(h, f, g, hdr);
  }

  lemma LinkRightParts(h: Heap, f: Heap, s: Smaller<SplayNode>, t: Splay<SplayNode>, g: Greater<SplayNode>,
                       hdr: SplayNode)
    requires Parts(h, s, t, g, hdr) && t.Fork?
    requires LastS(s, hdr) in h && f == h[LastS(s, hdr) := h[LastS(s, hdr)].(r := t.e.x)]
    ensures Parts(f, More(s, t.l, t.e), t.r, g, hdr)
  {
    LinkRightChains(h, f, s, t, g, hdr);
    MoveApart(NodesS(s), Nodes(t), NodesG(g), t.e.x, Nodes(t.l), Nodes(t.r), hdr, h.Keys);
    assert f.Keys == h.Keys;
  }

  lemma LinkRightChains(h: Heap, f: Heap, s: Smaller<SplayNode>, t: Splay<SplayNode>, g: Greater<SplayNode>,
                        hdr: SplayNode)
    requires Parts(h, s, t, g, hdr) && t.Fork?
    requires LastS(s, hdr) in h && f == h[LastS(s, hdr) := h[LastS(s, hdr)].(r := t.e.x)]
    ensures ChainS(f, More(s, t.l, t.e), hdr) && Sub(f, t.r) && ChainG(f, g, hdr)
  {
    SubFrame(h, f, t.l);
    SubFrame(h, f, t.r);
    ChainSFrame(h, f, s, hdr);
    ChainGFrame(h, f, g, hdr);
  }

  /** A change inside t leaves the two side trees as they are. */
  lemma InnerParts(h: Heap, f: Heap, s: Smaller<SplayNode>, t: Splay<SplayNode>, g: Greater<SplayNode>, hdr: SplayNode,
                   u: Splay<SplayNode>)
    requires Parts(h, s, t, g, hdr) && f.Keys == h.Keys && Same(h, f, h.Keys - Nodes(t))
    requires Sub(f, u) && Nodes(u) == Nodes(t)
    ensures Parts(f, s, u, g, hdr)
  {
    ChainSFrame(h, f, s, hdr);
    ChainGFrame(h, f, g, hdr);
  }

  lemma TurnRightSub(h: Heap, f: Heap, t: Splay<SplayNode>)
    requires Sub(h, t) && t.Fork? && t.l.Fork?
    requires f.Keys == h.Keys && Same(h, f, h.Keys - {t.e.x, t.l.e.x})
    requires f[t.e.x] == h[t.e.x].(l := RootOf(t.l.r)) && f[t.l.e.x] == h[t.l.e.x].(r := t.e.x)
    ensures Sub(f, TurnRight(t)) && Nodes(TurnRight(t)) == Nodes(t)
  {
    assert Sub(h, t.l) && Nodes(t.l) == Nodes(t.l.l) + {t.l.e.x} + Nodes(t.l.r);
    SubFrame(h, f, t.l.l);
    SubFrame(h, f, t.l.r);
    SubFrame(h, f, t.r);
    assert Sub(f, TurnRight(t).r);
  }

  lemma TurnLeftSub(h: Heap, f: Heap, t: Splay<SplayNode>)
    requires Sub(h, t) && t.Fork? && t.r.Fork?
    requires f.Keys == h.Keys && Same(h, f, h.Keys - {t.e.x, t.r.e.x})
    requires f[t.e.x] == h[t.e.x].(r := RootOf(t.r.l)) && f[t.r.e.x] == h[t.r.e.x].(l := t.e.x)
    ensures Sub(f, TurnLeft(t)) && Nodes(TurnLeft(t)) == Nodes(t)
  {
    assert Sub(h, t.r) && Nodes(t.r) == Nodes(t.r.l) + {t.r.e.x} + Nodes(t.r.r);
    SubFrame(h, f, t.r.l);
    SubFrame(h, f, t.r.r);
    SubFrame(h, f, t.l);
    assert Sub(f, TurnLeft(t).l);
  }

  /** SPLAY_ROTATE_RIGHT. */
  lemma RotateRightParts(h: Heap, f: Heap, s: Smaller<SplayNode>, t: Splay<SplayNode>, g: Greater<SplayNode>,
                         hdr: SplayNode)
    requires Parts(h, s, t, g, hdr) && t.Fork? && t.l.Fork?
    requires f.Keys == h.Keys && Same(h, f, h.Keys - {t.e.x, t.l.e.x})
    requires f[t.e.x] == h[t.e.x].(l := RootOf(t.l.r)) && f[t.l.e.x] == h[t.l.e.x].(r := t.e.x)
    ensures Parts(f, s, TurnRight(t), g, hdr)
  {
    TurnRightSub(h, f, t);
    assert t.l.e.x in Nodes(t.l);
    InnerParts(h, f, s, t, g, hdr, TurnRight(t));
  }

  lemma RotateLeftParts(h: Heap, f: Heap, s: Smaller<SplayNode>, t: Splay<SplayNode>, g: Greater<SplayNode>,
                        hdr: SplayNode)
    requires Parts(h, s, t, g, hdr) && t.Fork? && t.r.Fork?
    requires f.Keys == h.Keys && Same(h, f, h.Keys - {t.e.x, t.r.e.x})
    requires f[t.e.x] == h[t.e.x].(r := RootOf(t.r.l)) && f[t.r.e.x] == h[t.r.e.x].(l := t.e.x)
    ensures Parts(f, s, TurnLeft(t), g, hdr)
  {
    TurnLeftSub(h, f, t);
    assert t.r.e.x in Nodes(t.r);
    InnerParts(h, f, s, t, g, hdr, TurnLeft(t));
  }

  lemma {:induction false} CloseSSub(h: Heap, s: Smaller<SplayNode>, m: Splay<SplayNode>, hdr: SplayNode)
    requires ChainS(h, s, hdr) && Sub(h, m) && h[LastS(s, hdr)].r == RootOf(m)
    requires NodesS(s) !! Nodes(m) && hdr !in Nodes(m)
    ensures Sub(h, CloseS(s, m)) && h[hdr].r == RootOf(CloseS(s, m)) && Nodes(CloseS(s, m)) == NodesS(s) + Nodes(m)
    decreases s
  {
    match s
    case NoSmaller =>
    case More(prev, a, e) => CloseSSub(h, prev, Fork(a, e, m), hdr);
  }

  lemma {:induction false} CloseGSub(h: Heap, g: Greater<SplayNode>, m: Splay<SplayNode>, hdr: SplayNode)
    requires ChainG(h, g, hdr) && Sub(h, m) && h[LastG(g, hdr)].l == RootOf(m)
    requires NodesG(g) !! Nodes(m) && hdr !in Nodes(m)
    ensures Sub(h, CloseG(g, m)) && h[hdr].l == RootOf(CloseG(g, m)) && Nodes(CloseG(g, m)) == NodesG(g) + Nodes(m)
    decreases g
  {
    match g
    case NoGreater =>
    case Less(prev, e, b) => CloseGSub(h, prev, Fork(m, e, b), hdr);
  }

  /** The first half of SPLAY_ASSEMBLE: the open places receive the root's subtrees. */
  lemma FillPlaces(h: Heap, f: Heap, s: Smaller<SplayNode>, t: Splay<SplayNode>, g: Greater<SplayNode>, hdr: SplayNode)
    requires Parts(h, s, t, g, hdr) && t.Fork?
    requires f.Keys == h.Keys && Same(h, f, h.Keys - {LastS(s, hdr), LastG(g, hdr)})
    requires f[LastS(s, hdr)] == h[LastS(s, hdr)].(r := RootOf(t.l), l := f[LastS(s, hdr)].l)
    requires f[LastG(g, hdr)] == h[LastG(g, hdr)].(l := RootOf(t.r), r := f[LastG(g, hdr)].r)
    requires LastS(s, hdr) != LastG(g, hdr) ==>
             f[LastS(s, hdr)].l == h[LastS(s, hdr)].l && f[LastG(g, hdr)].r == h[LastG(g, hdr)].r
    ensures Sub(f, CloseS(s, t.l)) && f[hdr].r == RootOf(CloseS(s, t.l)) &&
            Nodes(CloseS(s, t.l)) == NodesS(s) + Nodes(t.l)
    ensures Sub(f, CloseG(g, t.r)) && f[hdr].l == RootOf(CloseG(g, t.r)) &&
            Nodes(CloseG(g, t.r)) == NodesG(g) + Nodes(t.r)
  {
    SubFrame(h, f, t.l);
    SubFrame(h, f, t.r);
    ChainSFrame(h, f, s, hdr);
    ChainGFrame(h, f, g, hdr);
    CloseSSub(f, s, t.l, hdr);
    CloseGSub(f, g, t.r, hdr);
  }

  lemma CloseApart(a: set<SplayNode>, b: set<SplayNode>, c: set<SplayNode>, x: SplayNode, l: set<SplayNode>,
                   r: set<SplayNode>,
                   hdr: SplayNode, all: set<SplayNode>)
    requires Apart(a, b, c, hdr, all) && b == l + {x} + r && x !in l && x !in r && l !! r && hdr !in a && hdr !in c
    ensures x !in a + l && x !in c + r && a + l !! c + r
    ensures (a + l) + {x} + (c + r) == all - {hdr}
  {
  }

  /** The second half: the root receives the two side trees from the header. */
  lemma AssembleParts(h: Heap, f: Heap, p: Heap, s: Smaller<SplayNode>, t: Splay<SplayNode>, g: Greater<SplayNode>,
                      hdr: SplayNode)
    requires Parts(h, s, t, g, hdr) && t.Fork? && hdr in f
    requires Sub(f, CloseS(s, t.l)) && f[hdr].r == RootOf(CloseS(s, t.l)) &&
             Nodes(CloseS(s, t.l)) == NodesS(s) + Nodes(t.l)
    requires Sub(f, CloseG(g, t.r)) && f[hdr].l == RootOf(CloseG(g, t.r)) &&
             Nodes(CloseG(g, t.r)) == NodesG(g) + Nodes(t.r)
    requires f.Keys == h.Keys == p.Keys && Same(f, p, h.Keys - {t.e.x})
    requires p[t.e.x] == Rec(f[hdr].r, f[hdr].l, h[t.e.x].k)
    ensures Sub(p, Assemble(s, t, g)) && Nodes(Assemble(s, t, g)) == h.Keys - {hdr}
  {
    var (a, c, x) := (NodesS(s) + Nodes(t.l), NodesG(g) + Nodes(t.r), t.e.x);
    CloseApart(NodesS(s), Nodes(t), NodesG(g), x, Nodes(t.l), Nodes(t.r), hdr, h.Keys);
    assert forall y :: y in a || y in c ==> y in f && p[y] == f[y];
    SubFrame(f, p, CloseS(s, t.l));
    SubFrame(f, p, CloseG(g, t.r));
  }

  /** A node of the tree is listed under its own key. */
  lemma {:induction false} KeysOfNodes(h: Heap, t: Splay<SplayNode>)
    requires Sub(h, t)
    ensures forall x: SplayNode :: x in Nodes(t) ==> Entry(x, h[x].k) in Listed(t)
  {
    if t.Fork? {
      KeysOfNodes(h, t.l);
      KeysOfNodes(h, t.r);
    }
  }

  /** A node whose key is not listed is not in the tree. */
  lemma NewNode(h: Heap, t: Splay<SplayNode>, x: SplayNode)
    requires Sub(h, t) && x in h && h[x].k !in Keys(Listed(t))
    ensures x !in Nodes(t)
  {
    KeysOfNodes(h, t);
    forall e | e in Listed(t)
      ensures e.k in Keys(Listed(t))
    {
      var i :| 0 <= i < |Listed(t)| && Listed(t)[i] == e;
    }
  }

  /** The splayed tree's root is one of the nodes, under its own key. */
  lemma SplayedRoot(h: Heap, t: Splay<SplayNode>, k: int)
    requires Sub(h, t) && t.Fork? && Listed(SplayAt(t, k)) == Listed(t)
    ensures var e := SplayAt(t, k).e; e.x in Nodes(t) && e.x in h && h[e.x].k == e.k
  {
    var u := SplayAt(t, k);
    assert Listed(u)[|Listed(u.l)|] == u.e;
    assert u.e in Listed(t);
    ListedNodes(h, t);
  }

  lemma {:induction false} ListedNodes(h: Heap, t: Splay<SplayNode>)
    requires Sub(h, t)
    ensures forall e :: e in Listed(t) ==> e.x in Nodes(t) && h[e.x].k == e.k
  {
    if t.Fork? {
      ListedNodes(h, t.l);
      ListedNodes(h, t.r);
    }
  }

  /** Splitting a splayed tree under a new root, below or above the old one. */
  lemma SplitSub(h: Heap, f: Heap, u: Splay<SplayNode>, e: Entry<SplayNode>)
    requires Sub(h, u) && u.Fork? && e.x !in Nodes(u) && e.x in f && u.e.x in f
    requires Same(h, f, Nodes(u) - {u.e.x})
    ensures f[u.e.x] == h[u.e.x].(l := null) && f[e.x] == Rec(h[u.e.x].l, u.e.x, e.k) ==>
              Sub(f, Fork(u.l, e, Fork(Empty, u.e, u.r))) &&
              Nodes(Fork(u.l, e, Fork(Empty, u.e, u.r))) == Nodes(u) + {e.x}
    ensures f[u.e.x] == h[u.e.x].(r := null) && f[e.x] == Rec(u.e.x, h[u.e.x].r, e.k) ==>
              Sub(f, Fork(Fork(u.l, u.e, Empty), e, u.r)) &&
              Nodes(Fork(Fork(u.l, u.e, Empty), e, u.r)) == Nodes(u) + {e.x}
  {
    SubFrame(h, f, u.l);
    SubFrame(h, f, u.r);
    assert Nodes(Fork(Empty, u.e, u.r)) == {u.e.x} + Nodes(u.r);
    assert Nodes(Fork(u.l, u.e, Empty)) == {u.e.x} + Nodes(u.l);
    if f[u.e.x] == h[u.e.x].(l := null) {
      assert Sub(f, Fork(Empty, u.e, u.r));
    }
    if f[u.e.x] == h[u.e.x].(r := null) {
      assert Sub(f, Fork(u.l, u.e, Empty));
    }
  }
}

module SplayTrees {
  import opened RankTrees
  import opened SortedTrees
  import opened SplaySpec
  import opened SplayCost
  import opened SplayLinks

  class SplayTree {
    var root: SplayNode?
    ghost var model: Splay<SplayNode>
    ghost var nodes: set<SplayNode>

    ghost predicate Spells(t: Splay<SplayNode>)
      reads this`root, this`nodes, nodes
    {
      root == RootOf(t) && Sub(Snap(nodes), t) && Nodes(t) == nodes
    }

    ghost predicate Valid()
      reads this`root, this`nodes, this`model, nodes
    {
      Spells(model) && Sorted(Listed(model))
    }

    constructor ()
      ensures Valid() && nodes == {} && model == Empty
    {
      root, model, nodes := null, Empty, {};
    }

    /** SPLAY_ROTATE_RIGHT. */
    method RotateRight(tmp: SplayNode, ghost all: set<SplayNode>, ghost s: Smaller<SplayNode>,
                       ghost t: Splay<SplayNode>,
                       ghost g: Greater<SplayNode>, ghost hdr: SplayNode)
      requires Parts(Snap(all), s, t, g, hdr) && t.Fork? && t.l.Fork? && root == t.e.x && tmp == t.l.e.x
      modifies this`root, all`left, all`right
      ensures Parts(Snap(all), s, TurnRight(t), g, hdr) && root == tmp
    {
      ghost var h := Snap(all);
      assert Sub(h, t.l);
      root.left := tmp.right;
      tmp.right := root;
      root := tmp;
      RotateRightParts(h, Snap(all), s, t, g, hdr);
    }

    /** SPLAY_ROTATE_LEFT. */
    method RotateLeft(tmp: SplayNode, ghost all: set<SplayNode>, ghost s: Smaller<SplayNode>, ghost t: Splay<SplayNode>,
                      ghost g: Greater<SplayNode>, ghost hdr: SplayNode)
      requires Parts(Snap(all), s, t, g, hdr) && t.Fork? && t.r.Fork? && root == t.e.x && tmp == t.r.e.x
      modifies this`root, all`left, all`right
      ensures Parts(Snap(all), s, TurnLeft(t), g, hdr) && root == tmp
    {
      ghost var h := Snap(all);
      assert Sub(h, t.r);
      root.right := tmp.left;
      tmp.left := root;
      root := tmp;
      RotateLeftParts(h, Snap(all), s, t, g, hdr);
    }

    method HangLeft(tmp0: SplayNode) returns (tmp: SplayNode)
      requires root != null && tmp0 != root
      modifies this`root, tmp0`left
      ensures tmp == old(root) && root == old(root.left) && tmp0.Links() == old(tmp0.Links()).(l := tmp)
    {
      tmp0.left := root;
      tmp := root;
      root := root.left;
    }

    /** SPLAY_LINKLEFT. */
    method LinkLeft(tmp0: SplayNode, ghost all: set<SplayNode>, ghost s: Smaller<SplayNode>, ghost t: Splay<SplayNode>,
                    ghost g: Greater<SplayNode>, ghost hdr: SplayNode) returns (tmp: SplayNode)
      requires Parts(Snap(all), s, t, g, hdr) && t.Fork? && root == t.e.x && tmp0 == LastG(g, hdr)
      modifies this`root, all`left
      ensures Parts(Snap(all), s, t.l, Less(g, t.e, t.r), hdr) && root == RootOf(t.l) && tmp == t.e.x
    {
      ghost var h := Snap(all);
      assert t.e.x in h && h[t.e.x].l == RootOf(t.l) && tmp0 in h && tmp0 != root;
      tmp := HangLeft(tmp0);
      LinkLeftParts(h, Snap(all), s, t, g, hdr);
    }

    method HangRight(tmp0: SplayNode) returns (tmp: SplayNode)
      requires root != null && tmp0 != root
      modifies this`root, tmp0`right
      ensures tmp == old(root) && root == old(root.right) && tmp0.Links() == old(tmp0.Links()).(r := tmp)
    {
      tmp0.right := root;
      tmp := root;
      root := root.right;
    }

    /** SPLAY_LINKRIGHT. */
    method LinkRight(tmp0: SplayNode, ghost all: set<SplayNode>, ghost s: Smaller<SplayNode>, ghost t: Splay<SplayNode>,
                     ghost g: Greater<SplayNode>, ghost hdr: SplayNode) returns (tmp: SplayNode)
      requires Parts(Snap(all), s, t, g, hdr) && t.Fork? && root == t.e.x && tmp0 == LastS(s, hdr)
      modifies this`root, all`right
      ensures Parts(Snap(all), More(s, t.l, t.e), t.r, g, hdr) && root == RootOf(t.r) && tmp == t.e.x
    {
      ghost var h := Snap(all);
      assert t.e.x in h && h[t.e.x].r == RootOf(t.r) && tmp0 in h && tmp0 != root;
      tmp := HangRight(tmp0);
      LinkRightParts(h, Snap(all), s, t, g, hdr);
    }

    /** The first two assignments of SPLAY_ASSEMBLE. */
    method FillAt(node: SplayNode, left: SplayNode, right: SplayNode, ghost all: set<SplayNode>,
                  ghost s: Smaller<SplayNode>, ghost t: Splay<SplayNode>,
                  ghost g: Greater<SplayNode>) returns (ghost f: Heap)
      requires Parts(Snap(all), s, t, g, node) && t.Fork? && root == t.e.x && left == LastS(s, node) &&
               right == LastG(g, node)
      modifies all`left, all`right
      ensures f == Snap(all) && root.left == old(root.left) && root.right == old(root.right)
      ensures Sub(f, CloseS(s, t.l)) && f[node].r == RootOf(CloseS(s, t.l)) &&
              Nodes(CloseS(s, t.l)) == NodesS(s) + Nodes(t.l)
      ensures Sub(f, CloseG(g, t.r)) && f[node].l == RootOf(CloseG(g, t.r)) &&
              Nodes(CloseG(g, t.r)) == NodesG(g) + Nodes(t.r)
    {
      ghost var h := Snap(all);
      left.right := root.left;
      right.left := root.right;
      f := Snap(all);
      FillPlaces(h, f, s, t, g, node);
    }

    /** SPLAY_ASSEMBLE. */
    method AssembleAt(node: SplayNode, left: SplayNode, right: SplayNode, ghost all: set<SplayNode>,
                      ghost s: Smaller<SplayNode>, ghost t: Splay<SplayNode>, ghost g: Greater<SplayNode>)
      requires Parts(Snap(all), s, t, g, node) && t.Fork? && root == t.e.x && left == LastS(s, node) &&
               right == LastG(g, node)
      modifies all`left, all`right
      ensures Sub(Snap(all), Assemble(s, t, g)) && Nodes(Assemble(s, t, g)) == all - {node}
    {
      ghost var h := Snap(all);
      ghost var f := FillAt(node, left, right, all, s, t, g);
      root.left := node.right;
      root.right := node.left;
      AssembleParts(h, f, Snap(all), s, t, g, node);
    }

    /** One turn of the loop for a key below the root (lines 228-237). */
    method StepLeft(key: int, right0: SplayNode, ghost all: set<SplayNode>, ghost s: Smaller<SplayNode>,
                    ghost t: Splay<SplayNode>,
                    ghost g: Greater<SplayNode>, ghost hdr: SplayNode)
        returns (stop: bool, right: SplayNode, ghost u: Splay<SplayNode>, ghost f: Greater<SplayNode>)
      requires Parts(Snap(all), s, t, g, hdr) && t.Fork? && root == t.e.x && right0 == LastG(g, hdr) && key < t.e.k
      modifies this`root, all`left, all`right
      ensures Parts(Snap(all), s, u, f, hdr) && u.Fork? && root == u.e.x && right == LastG(f, hdr)
      ensures stop ==> SplayLoop(s, t, g, key) == Assemble(s, u, f)
      ensures (stop, u) == LeftStep(t, key)
      ensures !stop ==> SplayLoop(s, t, g, key) == SplayLoop(s, u, f, key) && Weight(u) < Weight(t)
    {
      right := right0;
      u, f := t, g;
      var tmp := root.left;
      if tmp == null {
        return true, right, u, f;
      }
      assert Sub(Snap(all), t.l);
      if key < tmp.key {
        RotateRight(tmp, all, s, t, g, hdr);
        u := TurnRight(t);
        if root.left == null {
          return true, right, u, f;
        }
      }
      ghost var v := u;
      right := LinkLeft(right, all, s, v, g, hdr);
      u, f := v.l, Less(g, v.e, v.r);
      stop := false;
    }

    /** The mirror image for a key above the root (lines 238-248). */
    method StepRight(key: int, left0: SplayNode, ghost all: set<SplayNode>, ghost s: Smaller<SplayNode>,
                     ghost t: Splay<SplayNode>,
                     ghost g: Greater<SplayNode>, ghost hdr: SplayNode)
        returns (stop: bool, left: SplayNode, ghost f: Smaller<SplayNode>, ghost u: Splay<SplayNode>)
      requires Parts(Snap(all), s, t, g, hdr) && t.Fork? && root == t.e.x && left0 == LastS(s, hdr) && key > t.e.k
      modifies this`root, all`left, all`right
      ensures Parts(Snap(all), f, u, g, hdr) && u.Fork? && root == u.e.x && left == LastS(f, hdr)
      ensures stop ==> SplayLoop(s, t, g, key) == Assemble(f, u, g)
      ensures (stop, u) == RightStep(t, key)
      ensures !stop ==> SplayLoop(s, t, g, key) == SplayLoop(f, u, g, key) && Weight(u) < Weight(t)
    {
      left := left0;
      f, u := s, t;
      var tmp := root.right;
      if tmp == null {
        return true, left, f, u;
      }
      assert Sub(Snap(all), t.r);
      if key > tmp.key {
        RotateLeft(tmp, all, s, t, g, hdr);
        u := TurnLeft(t);
        if root.right == null {
          return true, left, f, u;
        }
      }
      ghost var v := u;
      left := LinkRight(left, all, s, v, g, hdr);
      f, u := More(s, v.l, v.e), v.r;
      stop := false;
    }

    /** The loop of SPLAY (lines 226-249), whose two side trees hang off the header node. */
    method Descend(key: int, node: SplayNode, ghost all: set<SplayNode>, ghost t0: Splay<SplayNode>)
        returns (left: SplayNode, right: SplayNode, ghost s: Smaller<SplayNode>, ghost t: Splay<SplayNode>,
                 ghost g: Greater<SplayNode>,
                 ghost rounds: nat)
      requires Parts(Snap(all), NoSmaller, t0, NoGreater, node) && t0.Fork? && root == t0.e.x
      modifies this`root, all`left, all`right
      ensures Parts(Snap(all), s, t, g, node) && t.Fork? && root == t.e.x && left == LastS(s, node) &&
              right == LastG(g, node)
      ensures Assemble(s, t, g) == SplayAt(t0, key) && rounds == Rounds(t0, key)
    {
      left, right := node, node;
      s, t, g, rounds := NoSmaller, t0, NoGreater, 0;
      var stop := false;
      while !stop
        invariant Parts(Snap(all), s, t, g, node) && t.Fork? && root == t.e.x
        invariant left == LastS(s, node) && right == LastG(g, node)
        invariant !stop ==> SplayLoop(s, t, g, key) == SplayAt(t0, key)
        invariant stop ==> Assemble(s, t, g) == SplayAt(t0, key)
        invariant Rounds(t0, key) == rounds + if stop then 0 else Rounds(t, key)
        decreases !stop, Weight(t)
      {
        if key != root.key {
          RoundsStep(t, key);
        }
        if key < root.key {
          stop, right, t, g := StepLeft(key, right, all, s, t, g, node);
          rounds := rounds + 1;
        } else if key > root.key {
          stop, left, s, t := StepRight(key, left, all, s, t, g, node);
          rounds := rounds + 1;
        } else {
          stop := true;
        }
      }
    }

    /** SPLAY. */
    method Splay(key: int, ghost t0: Splay<SplayNode>) returns (ghost rounds: nat)
      requires Spells(t0) && t0.Fork?
      modifies this`root, nodes`left, nodes`right
      ensures Spells(SplayAt(t0, key)) && rounds == Rounds(t0, key)
    {
      var node := new SplayNode();
      ghost var all := nodes + {node};
      ghost var h := Snap(nodes);
      SubFrame(h, Snap(all), t0);
      var left, right;
      ghost var s, t, g;
      left, right, s, t, g, rounds := Descend(key, node, all, t0);
      AssembleAt(node, left, right, all, s, t, g);
      ghost var f := Snap(all);
      SubFrame(f, Snap(nodes), SplayAt(t0, key));
    }

    /** Lines 181-193: elm goes on top of the splayed tree, which it splits at its own key. */
    method SplitAt(elm: SplayNode, ghost u: Splay<SplayNode>)
      requires Spells(u) && u.Fork? && elm !in nodes && elm.key != u.e.k
      modifies this`root, this`nodes, nodes`left, nodes`right, elm`left, elm`right
      ensures nodes == old(nodes) + {elm}
      ensures var e := Entry(elm, elm.key);
        Spells(if e.k < u.e.k then Fork(u.l, e, Fork(Empty, u.e, u.r)) else Fork(Fork(u.l, u.e, Empty), e, u.r))
    {
      ghost var h := Snap(nodes);
      if elm.key < root.key {
        elm.left := root.left;
        elm.right := root;
        root.left := null;
      } else {
        elm.right := root.right;
        elm.left := root;
        root.right := null;
      }
      root := elm;
      nodes := nodes + {elm};
      SplitSub(h, Snap(nodes), u, Entry(elm, elm.key));
    }

    /** The links' side of SPLAY_INSERT. */
    method InsertLinks(elm: SplayNode, ghost t: Splay<SplayNode>) returns (dup: SplayNode?, ghost rounds: nat)
      requires Spells(t) && (t.Fork? && SplayAt(t, elm.key).e.k != elm.key ==> elm !in nodes)
      modifies this`root, this`nodes, nodes`left, nodes`right, elm`left, elm`right
      ensures Spells(SplayInsert(t, Entry(elm, elm.key))) && rounds == Turns(t, Put(Entry(elm, elm.key)))
      ensures t.Fork? && SplayAt(t, elm.key).e.k == elm.key ==>
              dup == root && dup != null && dup.key == elm.key && nodes == old(nodes)
      ensures t.Empty? || SplayAt(t, elm.key).e.k != elm.key ==>
              dup == null && elm !in old(nodes) && nodes == old(nodes) + {elm}
    {
      dup, rounds := null, 0;
      if root == null {
        elm.left, elm.right := null, null;
        root := elm;
        nodes := {elm};
      } else {
        rounds := Splay(elm.key, t);
        if elm.key == root.key {
          return root, rounds;
        }
        SplitAt(elm, SplayAt(t, elm.key));
      }
    }

    /** SPLAY_INSERT. */
    method Insert(elm: SplayNode) returns (dup: SplayNode?, ghost rounds: nat)
      requires Valid()
      modifies this, nodes`left, nodes`right, elm`left, elm`right
      ensures Valid() && model == Do(old(model), Put(Entry(elm, elm.key)))
      ensures rounds == Turns(old(model), Put(Entry(elm, elm.key)))
      ensures Listed(model) == InsertSorted(old(Listed(model)), Entry(elm, elm.key))
      ensures elm.key in old(Keys(Listed(model))) ==>
              dup != null && dup in nodes && dup.key == elm.key && nodes == old(nodes)
      ensures elm.key !in old(Keys(Listed(model))) ==> dup == null && elm !in old(nodes) && nodes == old(nodes) + {elm}
    {
      ghost var t, e: Entry<SplayNode> := model, Entry(elm, elm.key);
      SplayInsertCorrect(t, e);
      InsertSortedSorted(Listed(t), e);
      if t.Fork? {
        SplayCorrect(t, elm.key);
        if elm in nodes && elm.key !in Keys(Listed(t)) {
          NewNode(Snap(nodes), t, elm);
        }
      }
      model := SplayInsert(t, e);
      dup, rounds := InsertLinks(elm, t);
    }

    /** SPLAY_FIND. */
    method Find(key: int) returns (res: SplayNode?, ghost rounds: nat)
      requires Valid()
      modifies this, nodes`left, nodes`right
      ensures model == Do(old(model), Visit(key)) && rounds == Turns(old(model), Visit(key))
      ensures Valid() && Listed(model) == old(Listed(model)) && nodes == old(nodes)
      ensures res != null <==> key in Keys(Listed(model))
      ensures res != null ==> res in nodes && res.key == key && root == res
    {
      if root == null {
        return null, 0;
      }
      ghost var t := model;
      SplayCorrect(t, key);
      model := SplayAt(t, key);
      rounds := Splay(key, t);
      res := if key == root.key then root else null;
    }

    /** Lines 205-212: the root, whose key is being removed, gives way to its subtrees. */
    method DropRoot(key: int, ghost u: Splay<SplayNode>) returns (ghost rounds: nat)
      requires Spells(u) && u.Fork? && u.e.k == key && (u.l.Fork? ==> SplayAt(u.l, key).r.Empty?)
      modifies this`root, this`nodes, nodes`left, nodes`right
      ensures nodes == old(nodes) - {u.e.x}
      ensures Spells(if u.l.Empty? then u.r else Fork(SplayAt(u.l, key).l, SplayAt(u.l, key).e, u.r))
      ensures rounds == if u.l.Empty? then 0 else Rounds(u.l, key)
    {
      if root.left == null {
        ghost var h := Snap(nodes);
        root := root.right;
        nodes := nodes - {u.e.x};
        SubFrame(h, Snap(nodes), u.r);
        rounds := 0;
      } else {
        rounds := DropInner(key, u);
      }
    }

    /** Lines 208-209: the right part is put aside, and the left part becomes the tree. */
    method PutAside(ghost u: Splay<SplayNode>) returns (tmp: SplayNode?, ghost rest: set<SplayNode>)
      requires Spells(u) && u.Fork? && u.l.Fork?
      modifies this`root, this`nodes
      ensures Spells(u.l) && tmp == RootOf(u.r) && rest == Nodes(u.r) && Sub(Snap(rest), u.r)
      ensures nodes !! rest && nodes + rest == old(nodes) - {u.e.x}
    {
      ghost var h := Snap(nodes);
      rest := nodes - Nodes(u.l) - {u.e.x};
      SubFrame(h, Snap(rest), u.r);
      tmp := root.right;
      root := root.left;
      nodes := nodes - rest - {u.e.x};
      SubFrame(h, Snap(nodes), u.l);
    }

    /** Lines 208-211: the left subtree is splayed by itself, and takes the right one. */
    method DropInner(key: int, ghost u: Splay<SplayNode>) returns (ghost rounds: nat)
      requires Spells(u) && u.Fork? && u.l.Fork? && SplayAt(u.l, key).r.Empty?
      modifies this`root, this`nodes, nodes`left, nodes`right
      ensures nodes == old(nodes) - {u.e.x}
      ensures Spells(Fork(SplayAt(u.l, key).l, SplayAt(u.l, key).e, u.r)) && rounds == Rounds(u.l, key)
    {
      ghost var rest;
      var tmp;
      tmp, rest := PutAside(u);
      rounds := Splay(key, u.l);
      JoinRight(tmp, rest, SplayAt(u.l, key), u.r);
    }

    /** Line 211, after the second splay: the right part is hung on the left part's greatest node. */
    method JoinRight(tmp: SplayNode?, ghost rest: set<SplayNode>, ghost v: Splay<SplayNode>, ghost r: Splay<SplayNode>)
      requires Spells(v) && v.Fork? && v.r.Empty?
      requires rest == Nodes(r) && Sub(Snap(rest), r) && tmp == RootOf(r) && rest !! nodes
      modifies this`nodes, nodes`right
      ensures nodes == old(nodes) + rest && Spells(Fork(v.l, v.e, r))
    {
      ghost var h, g := Snap(nodes), Snap(rest);
      root.right := tmp;
      nodes := nodes + rest;
      SubFrame(h, Snap(nodes), v.l);
      SubFrame(g, Snap(nodes), r);
    }

    /** The links' side of SPLAY_REMOVE on a tree that is not empty. */
    method RemoveLinks(key: int, ghost t: Splay<SplayNode>)
      returns (found: bool, ghost out: SplayNode?, ghost rounds: nat)
      requires Spells(t) && t.Fork? && Sorted(Listed(t))
      modifies this`root, this`nodes, nodes`left, nodes`right
      ensures Spells(SplayRemove(t, key)) && rounds == Turns(t, Cut(key))
      ensures found == (SplayAt(t, key).e.k == key)
      ensures out == if found then SplayAt(t, key).e.x else null
      ensures nodes == if found then old(nodes) - {SplayAt(t, key).e.x} else old(nodes)
    {
      ghost var u := SplayAt(t, key);
      RemoveReady(t, key);
      rounds := Splay(key, t);
      found := key == root.key;
      out := null;
      if found {
        out := root;
        ghost var more := DropRoot(key, u);
        rounds := rounds + more;
      }
    }

    /** SPLAY_REMOVE: elm only carries the key; the node taken out is the tree's own. */
    method Remove(elm: SplayNode) returns (res: SplayNode?, ghost out: SplayNode?, ghost rounds: nat)
      requires Valid()
      modifies this, nodes`left, nodes`right
      ensures Valid() && model == Do(old(model), Cut(elm.key)) && rounds == Turns(old(model), Cut(elm.key))
      ensures Listed(model) == WithoutKey(old(Listed(model)), elm.key)
      ensures elm.key in old(Keys(Listed(model))) ==>
                res == elm && out != null && out in old(nodes) && out.key == elm.key && nodes == old(nodes) - {out}
      ensures elm.key !in old(Keys(Listed(model))) ==> res == null && nodes == old(nodes)
    {
      ghost var t := model;
      SplayRemoveCorrect(t, elm.key);
      WithoutKeySorted(Listed(t), elm.key);
      model := SplayRemove(t, elm.key);
      if root == null {
        return null, null, 0;
      }
      SplayCorrect(t, elm.key);
      SplayedRoot(Snap(nodes), t, elm.key);
      var found;
      found, out, rounds := RemoveLinks(elm.key, t);
      res := if found then elm else null;
    }
  }
}
