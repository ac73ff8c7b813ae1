/**
 The linked nodes of a rank-balanced tree, and the value they spell.

 A Store is a snapshot of the nodes' link fields and of the head.  Split(s, c, t)
 says that the store s holds exactly the tree Plug(c, t): the subtree t under the
 hole of the context c, with every parent link agreeing with its child link.
 */
module Links {
  import opened RankTrees
  import opened Rebalance
  import opened SortedTrees
  import opened Types

  /** struct tag_tree_node (include/tagtree.h:13-27): the tree entry embedded in a tag. */
  class TagNode {
    var left: TagNode?
    var right: TagNode?
    var parent: TagNode?
    var redL: bool
    var redR: bool
    var tagId: int
    var name: seq<byte>
    var cb: bool
    var ty: Type
    var data: array<byte>

    constructor (tagId: int, name: seq<byte>, ty: Type, data: array<byte>)
      ensures this.tagId == tagId && this.name == name && this.ty == ty && this.data == data && !cb
    {
      left, right, parent, redL, redR := null, null, null, false, false;
      this.tagId, this.name, this.ty, this.data, cb := tagId, name, ty, data, false;
    }

    ghost function Links(): Rec
      reads this
    {
      Rec(left, right, parent, redL, redR, tagId)
    }
  }

  datatype Rec = Rec(l: TagNode?, r: TagNode?, p: TagNode?, rl: bool, rr: bool, k: int)
  type Heap = map<TagNode, Rec>
  datatype Store = Store(h: Heap, root: TagNode?)

  ghost function Snap(S: set<TagNode>): (h: Heap)
    reads S
    ensures h.Keys == S
  {
    map x | x in S :: x.Links()
  }

  ghost function Nodes(t: Tree<TagNode>): set<TagNode> {
    match t
    case Nil => {}
    case Bin(l, e, _, _, r) => Nodes(l) + {e.x} + Nodes(r)
  }

  ghost function CtxNodes(c: Ctx<TagNode>): set<TagNode> {
    match c
    case Top => {}
    case InLeft(up, e, _, _, r) => CtxNodes(up) + {e.x} + Nodes(r)
    case InRight(up, l, e, _, _) => CtxNodes(up) + {e.x} + Nodes(l)
  }

  function RootOf(t: Tree<TagNode>): TagNode? { if t.Nil? then null else t.e.x }

  /** The node whose child the hole of c is. */
  function HoleOf(c: Ctx<TagNode>): TagNode? { if c.Top? then null else c.e.x }

  ghost predicate Sub(h: Heap, t: Tree<TagNode>, p: TagNode?)
    ensures Sub(h, t, p) ==> Nodes(t) <= h.Keys
  {
    match t
    case Nil => true
    case Bin(l, e, rl, rr, r) =>
      && e.x in h && h[e.x] == Rec(RootOf(l), RootOf(r), p, rl, rr, e.k)
      && e.x !in Nodes(l) && e.x !in Nodes(r) && Nodes(l) !! Nodes(r)
      && Sub(h, l, e.x) && Sub(h, r, e.x)
  }

  ghost predicate Hangs(h: Heap, c: Ctx<TagNode>, n: TagNode?, root: TagNode?)
    ensures Hangs(h, c, n, root) ==> CtxNodes(c) <= h.Keys
    decreases c
  {
    match c
    case Top => root == n
    case InLeft(up, e, rl, rr, r) =>
      && e.x in h && h[e.x] == Rec(n, RootOf(r), HoleOf(up), rl, rr, e.k)
      && e.x !in CtxNodes(up) && e.x !in Nodes(r) && Nodes(r) !! CtxNodes(up)
      && Sub(h, r, e.x) && Hangs(h, up, e.x, root)
    case InRight(up, l, e, rl, rr) =>
      && e.x in h && h[e.x] == Rec(RootOf(l), n, HoleOf(up), rl, rr, e.k)
      && e.x !in CtxNodes(up) && e.x !in Nodes(l) && Nodes(l) !! CtxNodes(up)
      && Sub(h, l, e.x) && Hangs(h, up, e.x, root)
  }

  ghost predicate Split(s: Store, c: Ctx<TagNode>, t: Tree<TagNode>) {
    && Hangs(s.h, c, RootOf(t), s.root) && Sub(s.h, t, HoleOf(c))
    && Nodes(t) !! CtxNodes(c) && Nodes(t) + CtxNodes(c) == s.h.Keys
  }

  // ---------- Framing and moving the focus ----------

  ghost predicate Same(g: Heap, h: Heap, S: set<TagNode>) {
    forall x :: x in S && x in g ==> x in h && h[x] == g[x]
  }

  lemma {:induction false} SubFrame(g: Heap, h: Heap, t: Tree<TagNode>, p: TagNode?)
    requires Sub(g, t, p) && Same(g, h, Nodes(t))
    ensures Sub(h, t, p)
  {
    match t
    case Nil =>
    case Bin(l, e, _, _, r) =>
      SubFrame(g, h, l, e.x);
      SubFrame(g, h, r, e.x);
  }

  lemma {:induction false} HangsFrame(g: Heap, h: Heap, c: Ctx<TagNode>, n: TagNode?, root: TagNode?)
    requires Hangs(g, c, n, root) && Same(g, h, CtxNodes(c))
    ensures Hangs(h, c, n, root)
    decreases c
  {
    match c
    case Top =>
    case InLeft(up, e, _, _, r) =>
      SubFrame(g, h, r, e.x);
      HangsFrame(g, h, up, e.x, root);
    case InRight(up, l, e, _, _) =>
      SubFrame(g, h, l, e.x);
      HangsFrame(g, h, up, e.x, root);
  }

  /** A subtree moved under another parent, or with its bits changed: only its root's record differs. */
  lemma Reparent(g: Heap, h: Heap, t: Tree<TagNode>, u: Tree<TagNode>, p: TagNode?, q: TagNode?)
    requires Sub(g, t, p) && t.Bin? && u.Bin? && u == Bin(t.l, t.e, u.rl, u.rr, t.r)
    requires Same(g, h, Nodes(t) - {t.e.x})
    requires t.e.x in h && h[t.e.x] == g[t.e.x].(p := q, rl := u.rl, rr := u.rr)
    ensures Sub(h, u, q)
  {
    SubFrame(g, h, t.l, t.e.x);
    SubFrame(g, h, t.r, t.e.x);
  }

  /** What the pointer code reads at the focus. */
  lemma FocusLinks(s: Store, c: Ctx<TagNode>, t: Tree<TagNode>)
    requires Split(s, c, t)
    ensures t.Bin? ==> t.e.x in s.h && s.h[t.e.x] == Rec(RootOf(t.l), RootOf(t.r), HoleOf(c), t.rl, t.rr, t.e.k)
    ensures c.Top? ==> s.root == RootOf(t)
    ensures !c.Top? ==> c.e.x in s.h && s.h[c.e.x].rl == c.rl && s.h[c.e.x].rr == c.rr
    ensures c.InLeft? ==> s.h[c.e.x].l == RootOf(t) && s.h[c.e.x].r == RootOf(c.r)
    ensures c.InRight? ==> s.h[c.e.x].r == RootOf(t) && s.h[c.e.x].l == RootOf(c.l)
    ensures c.InRight? && t.Bin? ==> RootOf(c.l) != t.e.x
  {
  }

  lemma FocusLeft(s: Store, c: Ctx<TagNode>, t: Tree<TagNode>)
    requires t.Bin?
    ensures Split(s, c, t) <==> Split(s, InLeft(c, t.e, t.rl, t.rr, t.r), t.l)
  {
  }

  lemma FocusRight(s: Store, c: Ctx<TagNode>, t: Tree<TagNode>)
    requires t.Bin?
    ensures Split(s, c, t) <==> Split(s, InRight(c, t.l, t.e, t.rl, t.rr), t.r)
  {
  }

  lemma {:induction false} FocusRoot(s: Store, c: Ctx<TagNode>, t: Tree<TagNode>)
    requires Split(s, c, t)
    ensures Split(s, Top, Plug(c, t))
    decreases c
  {
    match c
    case Top =>
    case InLeft(up, e, rl, rr, r) => FocusRoot(s, up, Bin(t, e, rl, rr, r));
    case InRight(up, l, e, rl, rr) => FocusRoot(s, up, Bin(l, e, rl, rr, t));
  }

  // ---------- The macros, as relations between the stores before and after ----------

  function Get(s: Store, x: TagNode?): Rec {
    if x != null && x in s.h then s.h[x] else Rec(null, null, null, false, false, 0)
  }

  /** Nothing but the two bits of x changes. */
  ghost predicate Painted(s: Store, g: Store, x: TagNode, rl: bool, rr: bool) {
    && x in s.h && g.root == s.root && g.h == s.h[x := s.h[x].(rl := rl, rr := rr)]
  }

  /** The link that leads to x, in x's parent or in the head, leads to v. */
  ghost predicate Swapped(s: Store, g: Store, x: TagNode, v: TagNode?) {
    var p := Get(s, x).p;
    if p == null then g.root == v
    else
      && p in s.h && p in g.h && g.root == s.root
      && g.h[p] == (if s.h[p].l == x then s.h[p].(l := v) else s.h[p].(r := v))
  }

  /** x, its right child y, y's left child b and x's parent p are different nodes, and p links to x once. */
  ghost predicate CanTurnLeft(s: Store, x: TagNode) {
    var y, p := Get(s, x).r, Get(s, x).p;
    var b := Get(s, y).l;
    && x in s.h && y != null && y in s.h && y != x
    && b != x && b != y && (b != null ==> b in s.h)
    && p != x && p != y && (p != null ==> p in s.h && p != b && (s.h[p].l == x) != (s.h[p].r == x))
  }

  /** x sinks to the left below its right child y, whose left child b it takes over. */
  ghost predicate TurnedLeft(s: Store, g: Store, x: TagNode) {
    && CanTurnLeft(s, x) && g.h.Keys == s.h.Keys
    && var y, p := s.h[x].r, s.h[x].p;
    && var b := s.h[y].l;
    && g.h[x] == s.h[x].(r := b, p := y)
    && g.h[y] == s.h[y].(l := x, p := p)
    && (b != null ==> g.h[b] == s.h[b].(p := x))
    && Swapped(s, g, x, y)
    && Same(s.h, g.h, s.h.Keys - {x, y, b, p})
  }

  lemma PaintSplit(s: Store, g: Store, c: Ctx<TagNode>, t: Tree<TagNode>, rl: bool, rr: bool)
    requires t.Bin? && Split(s, c, t) && Painted(s, g, t.e.x, rl, rr)
    ensures Split(g, c, Bin(t.l, t.e, rl, rr, t.r))
  {
    Reparent(s.h, g.h, t, Bin(t.l, t.e, rl, rr, t.r), HoleOf(c), HoleOf(c));
    HangsFrame(s.h, g.h, c, t.e.x, s.root);
  }

  lemma SwapHangs(s: Store, g: Store, c: Ctx<TagNode>, x: TagNode, v: TagNode?)
    requires Hangs(s.h, c, x, s.root) && x in s.h && s.h[x].p == HoleOf(c) && x !in CtxNodes(c)
    requires Swapped(s, g, x, v) && Same(s.h, g.h, CtxNodes(c) - {HoleOf(c)})
    ensures Hangs(g.h, c, v, g.root)
  {
    match c
    case Top =>
    case InLeft(up, e, _, _, r) =>
      SubFrame(s.h, g.h, r, e.x);
      HangsFrame(s.h, g.h, up, e.x, s.root);
    case InRight(up, l, e, _, _) =>
      SubFrame(s.h, g.h, l, e.x);
      HangsFrame(s.h, g.h, up, e.x, s.root);
  }

  function LeftTurn<T>(t: Tree<T>): Tree<T>
    requires t.Bin? && t.r.Bin?
  {
    Bin(Bin(t.l, t.e, t.rl, t.rr, t.r.l), t.r.e, t.r.rl, t.r.rr, t.r.r)
  }

  /** Taking apart a tree with a right child: two top nodes and three subtrees, nothing shared. */
  lemma TurnParts(s: Store, c: Ctx<TagNode>, t: Tree<TagNode>)
    requires Split(s, c, t) && t.Bin? && t.r.Bin?
    ensures var x, y, a, b, d := t.e.x, t.r.e.x, t.l, t.r.l, t.r.r;
      && Nodes(t) == Nodes(a) + Nodes(b) + Nodes(d) + {x, y}
      && x != y && {x, y} !! Nodes(a) + Nodes(b) + Nodes(d) + CtxNodes(c)
      && Nodes(a) !! Nodes(b) && Nodes(a) !! Nodes(d) && Nodes(b) !! Nodes(d)
      && Nodes(a) + Nodes(b) + Nodes(d) !! CtxNodes(c)
      && s.h[x] == Rec(RootOf(a), y, HoleOf(c), t.rl, t.rr, t.e.k)
      && s.h[y] == Rec(RootOf(b), RootOf(d), x, t.r.rl, t.r.rr, t.r.e.k)
      && Sub(s.h, a, x) && Sub(s.h, b, y) && Sub(s.h, d, y)
    ensures RootOf(t.r.l) != null ==> RootOf(t.r.l) in Nodes(t.r.l)
    ensures HoleOf(c) != null ==> HoleOf(c) in CtxNodes(c)
    ensures CanTurnLeft(s, t.e.x)
  {
    assert Sub(s.h, t.r, t.e.x);
    assert Nodes(t.r) == Nodes(t.r.l) + {t.r.e.x} + Nodes(t.r.r);
  }

  /** Putting the parts together the other way round. */
  lemma TurnedParts(h: Heap, t: Tree<TagNode>, p: TagNode?)
    requires t.Bin? && t.l.Bin?
    requires var x, y, a, b, d := t.l.e.x, t.e.x, t.l.l, t.l.r, t.r;
      && x != y && {x, y} !! Nodes(a) + Nodes(b) + Nodes(d)
      && Nodes(a) !! Nodes(b) && Nodes(a) !! Nodes(d) && Nodes(b) !! Nodes(d)
      && x in h && y in h
      && h[x] == Rec(RootOf(a), RootOf(b), y, t.l.rl, t.l.rr, t.l.e.k)
      && h[y] == Rec(x, RootOf(d), p, t.rl, t.rr, t.e.k)
      && Sub(h, a, x) && Sub(h, b, x) && Sub(h, d, y)
    ensures Sub(h, t, p)
    ensures Nodes(t) == Nodes(t.l.l) + Nodes(t.l.r) + Nodes(t.r) + {t.l.e.x, t.e.x}
  {
    assert Nodes(t.l) == Nodes(t.l.l) + {t.l.e.x} + Nodes(t.l.r);
    assert Sub(h, t.l, t.e.x);
  }

  lemma TurnLeftHangs(s: Store, g: Store, c: Ctx<TagNode>, t: Tree<TagNode>)
    requires Split(s, c, t) && t.Bin? && t.r.Bin? && TurnedLeft(s, g, t.e.x)
    ensures Hangs(g.h, c, t.r.e.x, g.root)
  {
    TurnParts(s, c, t);
    SwapHangs(s, g, c, t.e.x, t.r.e.x);
  }

  /** The three subtrees below x and y survive the rotation, the middle one under x. */
  lemma TurnLeftSubtrees(s: Store, g: Store, c: Ctx<TagNode>, t: Tree<TagNode>)
    requires Split(s, c, t) && t.Bin? && t.r.Bin? && TurnedLeft(s, g, t.e.x)
    ensures Sub(g.h, t.l, t.e.x) && Sub(g.h, t.r.l, t.e.x) && Sub(g.h, t.r.r, t.r.e.x)
  {
    TurnParts(s, c, t);
    SubFrame(s.h, g.h, t.l, t.e.x);
    SubFrame(s.h, g.h, t.r.r, t.r.e.x);
    if t.r.l.Bin? {
      Reparent(s.h, g.h, t.r.l, t.r.l, t.r.e.x, t.e.x);
    }
  }

  /** RB_ROTATE_LEFT turns the focused tree and nothing else, bits travelling with their nodes. */
  lemma TurnLeftSplit(s: Store, g: Store, c: Ctx<TagNode>, t: Tree<TagNode>)
    requires Split(s, c, t) && t.Bin? && t.r.Bin? && TurnedLeft(s, g, t.e.x)
    ensures Split(g, c, LeftTurn(t))
  {
    TurnParts(s, c, t);
    TurnLeftHangs(s, g, c, t);
    TurnLeftSubtrees(s, g, c, t);
    TurnedParts(g.h, LeftTurn(t), HoleOf(c));
  }

  // ---------- Left and right exchanged ----------

  ghost function MirrorHeap(h: Heap): (g: Heap)
    ensures g.Keys == h.Keys
  {
    map x | x in h :: Rec(h[x].r, h[x].l, h[x].p, h[x].rr, h[x].rl, h[x].k)
  }

  ghost function MirrorStore(s: Store): Store { Store(MirrorHeap(s.h), s.root) }

  lemma {:induction false} MirrorSub(h: Heap, t: Tree<TagNode>, p: TagNode?)
    requires Sub(h, t, p)
    ensures Sub(MirrorHeap(h), Mirror(t), p) && Nodes(Mirror(t)) == Nodes(t)
  {
    if t.Bin? {
      MirrorSub(h, t.l, t.e.x);
      MirrorSub(h, t.r, t.e.x);
    }
  }

  lemma {:induction false} MirrorHangs(h: Heap, c: Ctx<TagNode>, n: TagNode?, root: TagNode?)
    requires Hangs(h, c, n, root)
    ensures Hangs(MirrorHeap(h), MirrorCtx(c), n, root) && CtxNodes(MirrorCtx(c)) == CtxNodes(c)
    decreases c
  {
    match c
    case Top =>
    case InLeft(up, e, _, _, r) =>
      MirrorSub(h, r, e.x);
      MirrorHangs(h, up, e.x, root);
    case InRight(up, l, e, _, _) =>
      MirrorSub(h, l, e.x);
      MirrorHangs(h, up, e.x, root);
  }

  lemma MirrorSplit(s: Store, c: Ctx<TagNode>, t: Tree<TagNode>)
    requires Split(s, c, t)
    ensures Split(MirrorStore(s), MirrorCtx(c), Mirror(t))
  {
    MirrorSub(s.h, t, HoleOf(c));
    MirrorHangs(s.h, c, RootOf(t), s.root);
  }

  /** Reading a mirrored split back. */
  lemma UnmirrorSplit(s: Store, c: Ctx<TagNode>, t: Tree<TagNode>)
    requires Split(MirrorStore(s), MirrorCtx(c), Mirror(t))
    ensures Split(s, c, t)
  {
    MirrorSplit(MirrorStore(s), MirrorCtx(c), Mirror(t));
    MirrorTwice(t);
    MirrorCtxTwice(c);
    assert MirrorHeap(MirrorHeap(s.h)) == s.h;
  }

  ghost predicate CanTurnRight(s: Store, x: TagNode) {
    var y, p := Get(s, x).l, Get(s, x).p;
    var b := Get(s, y).r;
    && x in s.h && y != null && y in s.h && y != x
    && b != x && b != y && (b != null ==> b in s.h)
    && p != x && p != y && (p != null ==> p in s.h && p != b && (s.h[p].l == x) != (s.h[p].r == x))
  }

  /** x sinks to the right below its left child y, whose right child b it takes over. */
  ghost predicate TurnedRight(s: Store, g: Store, x: TagNode) {
    && CanTurnRight(s, x) && g.h.Keys == s.h.Keys
    && var y, p := s.h[x].l, s.h[x].p;
    && var b := s.h[y].r;
    && g.h[x] == s.h[x].(l := b, p := y)
    && g.h[y] == s.h[y].(r := x, p := p)
    && (b != null ==> g.h[b] == s.h[b].(p := x))
    && Swapped(s, g, x, y)
    && Same(s.h, g.h, s.h.Keys - {x, y, b, p})
  }

  lemma MirrorTurned(s: Store, g: Store, x: TagNode)
    requires TurnedRight(s, g, x)
    ensures TurnedLeft(MirrorStore(s), MirrorStore(g), x)
  {
  }

  function RightTurn<T>(t: Tree<T>): Tree<T>
    requires t.Bin? && t.l.Bin?
  {
    Bin(t.l.l, t.l.e, t.l.rl, t.l.rr, Bin(t.l.r, t.e, t.rl, t.rr, t.r))
  }

  lemma MirrorTurn<T>(t: Tree<T>)
    requires t.Bin? && t.l.Bin?
    ensures Mirror(t).r.Bin? && LeftTurn(Mirror(t)) == Mirror(RightTurn(t))
  {
    assert Mirror(t).r == Mirror(t.l);
    assert Mirror(RightTurn(t).r) == Bin(Mirror(t.r), t.e, t.rr, t.rl, Mirror(t.l.r));
  }

  lemma TurnRightParts(s: Store, c: Ctx<TagNode>, t: Tree<TagNode>)
    requires Split(s, c, t) && t.Bin? && t.l.Bin?
    ensures CanTurnRight(s, t.e.x)
  {
    MirrorSplit(s, c, t);
    TurnParts(MirrorStore(s), MirrorCtx(c), Mirror(t));
  }

  lemma TurnRightSplit(s: Store, g: Store, c: Ctx<TagNode>, t: Tree<TagNode>)
    requires Split(s, c, t) && t.Bin? && t.l.Bin? && TurnedRight(s, g, t.e.x)
    ensures Split(g, c, RightTurn(t))
  {
    MirrorSplit(s, c, t);
    MirrorTurned(s, g, t.e.x);
    TurnLeftSplit(MirrorStore(s), MirrorStore(g), MirrorCtx(c), Mirror(t));
    MirrorTurn(t);
    UnmirrorSplit(g, c, RightTurn(t));
  }

  // ---------- Taking a node out ----------

  /** x, whose only child if any is b, is unlinked: the link to x leads to b, b's parent link passes over x. */
  ghost predicate Spliced(s: Store, g: Store, x: TagNode, b: TagNode?) {
    && x in s.h && g.h.Keys == s.h.Keys - {x}
    && Swapped(s, g, x, b)
    && (b != null ==> b in s.h && b in g.h && g.h[b] == s.h[b].(p := s.h[x].p))
    && Same(s.h, g.h, s.h.Keys - {x, b, s.h[x].p})
  }

  /** y, so far outside, takes over x's links and bits and keeps its own key; x is out. */
  ghost predicate Replaced(s: Store, g: Store, x: TagNode, y: TagNode, k: int) {
    && x in s.h && y !in s.h && g.h.Keys == s.h.Keys - {x} + {y}
    && g.h[y] == s.h[x].(k := k)
    && Swapped(s, g, x, y)
    && (s.h[x].l != null ==> s.h[x].l in s.h && s.h[x].l in g.h && g.h[s.h[x].l] == s.h[s.h[x].l].(p := y))
    && (s.h[x].r != null ==> s.h[x].r in s.h && s.h[x].r in g.h && g.h[s.h[x].r] == s.h[s.h[x].r].(p := y))
    && Same(s.h, g.h, s.h.Keys - {x, s.h[x].p, s.h[x].l, s.h[x].r})
  }

  lemma SpliceSplit(s: Store, g: Store, c: Ctx<TagNode>, t: Tree<TagNode>)
    requires Split(s, c, t) && t.Bin? && (t.l.Nil? || t.r.Nil?)
    requires Spliced(s, g, t.e.x, RootOf(if t.l.Nil? then t.r else t.l))
    ensures Split(g, c, if t.l.Nil? then t.r else t.l)
  {
    var b := if t.l.Nil? then t.r else t.l;
    assert Nodes(t) == Nodes(b) + {t.e.x} && t.e.x !in Nodes(b) && Sub(s.h, b, t.e.x);
    SwapHangs(s, g, c, t.e.x, RootOf(b));
    if b.Bin? {
      Reparent(s.h, g.h, b, b, t.e.x, HoleOf(c));
    }
  }

  lemma ReplaceSub(s: Store, g: Store, c: Ctx<TagNode>, t: Tree<TagNode>, y: TagNode, k: int)
    requires Split(s, c, t) && t.Bin? && Replaced(s, g, t.e.x, y, k)
    ensures Sub(g.h, t.l, y) && Sub(g.h, t.r, y)
  {
    assert Sub(s.h, t.l, t.e.x) && Sub(s.h, t.r, t.e.x);
    if t.l.Bin? {
      Reparent(s.h, g.h, t.l, t.l, t.e.x, y);
    }
    if t.r.Bin? {
      Reparent(s.h, g.h, t.r, t.r, t.e.x, y);
    }
  }

  lemma ReplaceHangs(s: Store, g: Store, c: Ctx<TagNode>, t: Tree<TagNode>, y: TagNode, k: int)
    requires Split(s, c, t) && t.Bin? && Replaced(s, g, t.e.x, y, k)
    ensures Hangs(g.h, c, y, g.root)
  {
    assert t.l.Bin? ==> t.l.e.x in Nodes(t.l);
    assert t.r.Bin? ==> t.r.e.x in Nodes(t.r);
    SwapHangs(s, g, c, t.e.x, y);
  }

  lemma ReplaceSplit(s: Store, g: Store, c: Ctx<TagNode>, t: Tree<TagNode>, e: Entry<TagNode>)
    requires Split(s, c, t) && t.Bin? && Replaced(s, g, t.e.x, e.x, e.k)
    ensures Split(g, c, Bin(t.l, e, t.rl, t.rr, t.r))
  {
    ReplaceSub(s, g, c, t, e.x, e.k);
    ReplaceHangs(s, g, c, t, e.x, e.k);
  }

  /** r with its leftmost node unlinked and nothing else changed. */
  function Unmin<T>(r: Tree<T>): Tree<T>
    requires r.Bin?
  {
    if r.l.Nil? then r.r else Bin(Unmin(r.l), r.e, r.rl, r.rr, r.r)
  }

  /** Moving the focus down the left spine, to its end node or to the hole that node leaves. */
  lemma {:induction false} FocusMin(s: Store, c: Ctx<TagNode>, r: Tree<TagNode>)
    requires r.Bin?
    ensures Split(s, c, r) <==> Split(s, MinCtx(c, r), MinTree(r))
    ensures Split(s, c, Unmin(r)) <==> Split(s, MinCtx(c, r), MinTree(r).r)
    decreases r
  {
    if r.l.Bin? {
      FocusLeft(s, c, r);
      FocusLeft(s, c, Unmin(r));
      FocusMin(s, InLeft(c, r.e, r.rl, r.rr, r.r), r.l);
    }
  }

  /** The store after y, the leftmost node below x's right child, is unlinked and before it replaces x. */
  ghost function Unlinked(s: Store, x: TagNode, y: TagNode): Store
    requires y in s.h
  {
    var q, b := s.h[y].p, s.h[y].r;
    Store(map n | n in s.h && n != y ::
            if n == q then (if q == x then s.h[n].(r := b) else s.h[n].(l := b))
            else if n == b then s.h[n].(p := q)
            else s.h[n],
          s.root)
  }

  /** The leftmost node of r sits at the end of the spine; the context above it keeps everything outside r. */
  lemma {:induction false} MinCtxNodes(s: Store, c: Ctx<TagNode>, r: Tree<TagNode>)
    requires Split(s, c, r) && r.Bin?
    ensures Split(s, MinCtx(c, r), MinTree(r))
    ensures CtxNodes(c) <= CtxNodes(MinCtx(c, r))
    ensures r.l.Nil? ==> MinTree(r) == r && MinCtx(c, r) == c
    ensures r.l.Bin? ==> MinCtx(c, r).InLeft? && HoleOf(MinCtx(c, r)) in Nodes(r) && r.e.x in CtxNodes(MinCtx(c, r))
    decreases r
  {
    if r.l.Bin? {
      FocusLeft(s, c, r);
      var c1 := InLeft(c, r.e, r.rl, r.rr, r.r);
      MinCtxNodes(s, c1, r.l);
      assert HoleOf(c1) in CtxNodes(c1);
    }
  }

  lemma {:induction false} MinCtxHole(c: Ctx<TagNode>, d: Ctx<TagNode>, r: Tree<TagNode>)
    requires r.Bin?
    ensures r.l.Bin? ==> HoleOf(MinCtx(c, r)) == HoleOf(MinCtx(d, r))
    decreases r
  {
    if r.l.Bin? {
      MinCtxHole(InLeft(c, r.e, r.rl, r.rr, r.r), InLeft(d, r.e, r.rl, r.rr, r.r), r.l);
    }
  }

  /** The nodes a two-child removal touches: which are different, and how they are linked. */
  ghost predicate CutLinks(s: Store, x: TagNode, y: TagNode) {
    && {x, y} <= s.h.Keys && x != y
    && var (l, r, p) := (s.h[x].l, s.h[x].r, s.h[x].p);
    && var (q, b) := (s.h[y].p, s.h[y].r);
    && l != null && r != null && q != null && l != r && r != x && {l, r, q} <= s.h.Keys
    && s.h[y].l == null && l !in {x, y, q}
    && q != y && (q == x <==> r == y) && (q != x ==> s.h[q].l == y)
    && (b != null ==> b in s.h && b !in {x, y, l, r, q} && b != p)
    && (p != null ==> p in s.h && p !in {x, y, l, r, q} && (s.h[p].l == x) != (s.h[p].r == x))
  }

  lemma CutParts(s: Store, c: Ctx<TagNode>, t: Tree<TagNode>)
    requires Split(s, c, t) && t.Bin? && t.l.Bin? && t.r.Bin?
    ensures CutLinks(s, t.e.x, MinTree(t.r).e.x)
    ensures var y := MinTree(t.r).e.x; s.h[y].r == RootOf(MinTree(t.r).r) && s.h[y].k == MinTree(t.r).e.k
    ensures s.h[t.e.x].r == t.r.e.x && (s.h[t.r.e.x].l == null <==> t.r.l.Nil?)
    ensures HoleOf(CutCtx(c, t)) == if t.r.l.Nil? then t.r.e.x else s.h[MinTree(t.r).e.x].p
  {
    var x, m := t.e.x, MinTree(t.r);
    var d := InRight(c, t.l, t.e, t.rl, t.rr);
    var f := MinCtx(d, t.r);
    FocusLinks(s, c, t);
    FocusRight(s, c, t);
    FocusLinks(s, d, t.r);
    MinCtxNodes(s, d, t.r);
    MinCtxHole(d, InRight(c, t.l, m.e, t.rl, t.rr), t.r);
    FocusLinks(s, f, m);
  }

  /** What the pointer code for two children leaves in memory: y in x's place, y's right child b in y's. */
  ghost predicate MovedUp(s: Store, g: Store, x: TagNode, y: TagNode) {
    && CutLinks(s, x, y) && g.h.Keys == s.h.Keys - {x}
    && var (l, r, q, b) := (s.h[x].l, s.h[x].r, s.h[y].p, s.h[y].r);
    && g.h[y] == s.h[x].(r := if q == x then b else r, k := s.h[y].k)
    && Swapped(s, g, x, y)
    && g.h[l] == s.h[l].(p := y)
    && (b != null ==> g.h[b] == s.h[b].(p := if q == x then y else q))
    && (q != x && q != r ==> g.h[q] == s.h[q].(l := b))
    && (q != x ==> g.h[r] == s.h[r].(p := y, l := if q == r then b else s.h[r].l))
    && Same(s.h, g.h, s.h.Keys - {x, y, l, r, q, b, s.h[x].p})
  }

  lemma MovedUpReplaced(s: Store, g: Store, x: TagNode, y: TagNode)
    requires MovedUp(s, g, x, y)
    ensures Spliced(s, Unlinked(s, x, y), y, s.h[y].r)
    ensures Replaced(Unlinked(s, x, y), g, x, y, s.h[y].k)
  {
  }

  lemma MovedUpSplit(s: Store, g: Store, c: Ctx<TagNode>, t: Tree<TagNode>)
    requires Split(s, c, t) && t.Bin? && t.l.Bin? && t.r.Bin? && MovedUp(s, g, t.e.x, MinTree(t.r).e.x)
    ensures Split(g, CutCtx(c, t), CutTree(t))
  {
    CutParts(s, c, t);
    MovedUpReplaced(s, g, t.e.x, MinTree(t.r).e.x);
    CutSplit(s, Unlinked(s, t.e.x, MinTree(t.r).e.x), g, c, t);
  }

  /** The two-child removal: the leftmost node of the right subtree is spliced out, then replaces t's root. */
  lemma CutSplit(s: Store, m: Store, g: Store, c: Ctx<TagNode>, t: Tree<TagNode>)
    requires Split(s, c, t) && t.Bin? && t.l.Bin? && t.r.Bin?
    requires Spliced(s, m, MinTree(t.r).e.x, RootOf(MinTree(t.r).r))
    requires Replaced(m, g, t.e.x, MinTree(t.r).e.x, MinTree(t.r).e.k)
    ensures Split(g, CutCtx(c, t), CutTree(t))
  {
    var e := MinTree(t.r).e;
    FocusRight(s, c, t);
    var d := InRight(c, t.l, t.e, t.rl, t.rr);
    FocusMin(s, d, t.r);
    SpliceSplit(s, m, MinCtx(d, t.r), MinTree(t.r));
    FocusMin(m, d, t.r);
    var u := Bin(t.l, t.e, t.rl, t.rr, Unmin(t.r));
    FocusRight(m, c, u);
    ReplaceSplit(m, g, c, u, e);
    FocusRight(g, c, Bin(t.l, e, t.rl, t.rr, Unmin(t.r)));
    FocusMin(g, InRight(c, t.l, e, t.rl, t.rr), t.r);
  }

  /** The nodes touched when x, with at most one child, is unlinked. */
  ghost predicate CutOneLinks(s: Store, x: TagNode) {
    && x in s.h && (s.h[x].l == null || s.h[x].r == null)
    && var p, b := s.h[x].p, if s.h[x].l == null then s.h[x].r else s.h[x].l;
    && (b != null ==> b in s.h && b != x && b != p)
    && (p != null ==> p in s.h && p != x)
  }

  lemma CutOneParts(s: Store, c: Ctx<TagNode>, t: Tree<TagNode>)
    requires Split(s, c, t) && t.Bin? && (t.l.Nil? || t.r.Nil?)
    ensures CutOneLinks(s, t.e.x) && s.h[t.e.x] == Rec(RootOf(t.l), RootOf(t.r), HoleOf(c), t.rl, t.rr, t.e.k)
  {
    var b := if t.l.Nil? then t.r else t.l;
    assert b.Bin? ==> b.e.x in Nodes(b);
    assert !c.Top? ==> c.e.x in CtxNodes(c);
    assert t.e.x in Nodes(t);
  }

  function Opt(n: TagNode?): set<TagNode> { if n == null then {} else {n} }

  // ---------- Putting a node in, and which nodes there are ----------

  /** x, so far outside, is linked in as a childless node where c's hole is. */
  ghost predicate Linked(s: Store, g: Store, c: Ctx<TagNode>, x: TagNode, k: int) {
    && x !in s.h && g.h.Keys == s.h.Keys + {x}
    && g.h[x] == Rec(null, null, HoleOf(c), false, false, k)
    && (if c.Top? then g.root == x else
        && c.e.x in s.h && g.root == s.root
        && g.h[c.e.x] == (if c.InLeft? then s.h[c.e.x].(l := x) else s.h[c.e.x].(r := x)))
    && Same(s.h, g.h, s.h.Keys - {HoleOf(c)})
  }

  lemma LinkSplit(s: Store, g: Store, c: Ctx<TagNode>, e: Entry<TagNode>)
    requires Split(s, c, Nil) && Linked(s, g, c, e.x, e.k)
    ensures Split(g, c, Single(e))
  {
    match c
    case Top =>
    case InLeft(up, f, _, _, r) =>
      SubFrame(s.h, g.h, r, f.x);
      HangsFrame(s.h, g.h, up, f.x, s.root);
    case InRight(up, l, f, _, _) =>
      SubFrame(s.h, g.h, l, f.x);
      HangsFrame(s.h, g.h, up, f.x, s.root);
  }

  lemma {:induction false} SubEntries(h: Heap, t: Tree<TagNode>, p: TagNode?)
    requires Sub(h, t, p)
    ensures forall e :: e in InOrder(t) ==> e.x in Nodes(t) && h[e.x].k == e.k
    ensures forall x: TagNode :: x in Nodes(t) ==> Entry(x, h[x].k) in InOrder(t)
    ensures forall x :: Has(t, x) <==> x in Nodes(t)
    ensures Distinct(InOrder(t))
  {
    if t.Bin? {
      SubEntries(h, t.l, t.e.x);
      SubEntries(h, t.r, t.e.x);
      DistinctJoin(InOrder(t.l), t.e, InOrder(t.r));
    }
  }

  lemma DistinctJoin(a: seq<Entry<TagNode>>, e: Entry<TagNode>, b: seq<Entry<TagNode>>)
    requires Distinct(a) && Distinct(b)
    requires forall f :: f in a ==> f.x != e.x
    requires forall f :: f in b ==> f.x != e.x
    requires forall f, g :: f in a && g in b ==> f.x != g.x
    ensures Distinct(a + [e] + b)
  {
    var s := a + [e] + b;
    assert forall i :: 0 <= i < |a| ==> s[i] == a[i] && s[i] in a;
    assert forall i :: |a| < i < |s| ==> s[i] == b[i - |a| - 1] && s[i] in b;
  }

  /** The nodes of a whole tree are those of its entries, each once, under their own keys. */
  lemma WholeEntries(s: Store, t: Tree<TagNode>)
    requires Split(s, Top, t)
    ensures forall e :: e in InOrder(t) ==> e.x in s.h && s.h[e.x].k == e.k
    ensures forall x: TagNode :: x in s.h ==> Entry(x, s.h[x].k) in InOrder(t)
    ensures forall x :: Has(t, x) <==> x in s.h
    ensures Distinct(InOrder(t))
  {
    SubEntries(s.h, t, null);
  }

  lemma {:induction false} FocusPath(s: Store, c: Ctx<TagNode>, t: Tree<TagNode>, x: TagNode)
    requires Split(s, c, t) && Has(t, x)
    ensures var (d, u) := Path(c, t, x); Split(s, d, u)
    decreases t
  {
    if t.e.x == x {
    } else if Has(t.l, x) {
      FocusLeft(s, c, t);
      FocusPath(s, InLeft(c, t.e, t.rl, t.rr, t.r), t.l, x);
    } else {
      FocusRight(s, c, t);
      FocusPath(s, InRight(c, t.l, t.e, t.rl, t.rr), t.r, x);
    }
  }

  /** Both links of the parent lead to t's root exactly when t and its sibling are empty. */
  lemma BareParentLinks(s: Store, c: Ctx<TagNode>, t: Tree<TagNode>)
    requires Split(s, c, t) && !c.Top? && Balanced(t) && Fits(c, Rank(t) + 1)
    ensures c.e.x in s.h && (s.h[c.e.x].l == RootOf(t) && s.h[c.e.x].r == RootOf(t) <==> BareParent(c, t))
    ensures Split(s, c.up, Joined(c, t))
    ensures BareParent(c, t) ==> RemoveReady(c.up, Single(c.e))
    ensures BareParent(c, t) ==> Joined(c, t).l.Nil? && Joined(c, t).r.Nil? && Joined(c, t).e == c.e
    ensures !BareParent(c, t) ==> RemoveReady(c, t)
  {
    FocusLinks(s, c, t);
    RankPositive(t);
    if c.InLeft? {
      FocusLeft(s, c.up, Joined(c, t));
      RankPositive(c.r);
    } else {
      FocusRight(s, c.up, Joined(c, t));
      RankPositive(c.l);
    }
    assert t.Bin? ==> t.e.x in Nodes(t);
  }

  /** Where node x is in a whole tree, and what taking it out there amounts to. */
  lemma PlaceOf(s: Store, t: Tree<TagNode>, x: TagNode) returns (d: Ctx<TagNode>, u: Tree<TagNode>)
    requires Split(s, Top, t) && Balanced(t) && x in s.h
    ensures Split(s, d, u) && u.Bin? && u.e.x == x && Has(t, x)
    ensures CloseReady(CutCtx(d, u), CutTree(u))
    ensures Close(CutCtx(d, u), CutTree(u)) == Remove(t, x) &&
            CloseDemotions(CutCtx(d, u), CutTree(u)) == RemoveWork(t, x)
    ensures Balanced(Remove(t, x)) && InOrder(Remove(t, x)) == Without(InOrder(t), x)
  {
    WholeEntries(s, t);
    PathReady(t, x);
    FocusPath(s, Top, t, x);
    var p := Path(Top, t, x);
    d, u := p.0, p.1;
    CutReady(d, u);
    RemoveCorrect(t, x);
  }

  /** What the walk of RB_INSERT finds, and what inserting there amounts to. */
  lemma SlotOf(s: Store, t: Tree<TagNode>, e: Entry<TagNode>)
    requires Split(s, Top, t) && Balanced(t) && Ordered(t) && (e.x in s.h ==> s.h[e.x].k == e.k)
    ensures Search(Top, t, e.k).1.Bin? <==> e.k in Keys(InOrder(t))
    ensures Search(Top, t, e.k).1.Bin? ==> Insert(t, e) == t && InsertWork(t, e) == 0
    ensures Search(Top, t, e.k).1.Nil? ==> e.x !in s.h && InsertReady(Search(Top, t, e.k).0, Single(e))
    ensures Search(Top, t, e.k).1.Nil? ==> Insert(t, e) == InsertColor(Search(Top, t, e.k).0, Single(e))
    ensures Search(Top, t, e.k).1.Nil? ==> InsertWork(t, e) == InsertPromotions(Search(Top, t, e.k).0, Single(e))
  {
    SearchFinds(t, e.k);
    if Search(Top, t, e.k).1.Nil? {
      FreshLeafReady(t, e);
      WholeEntries(s, t);
      forall f | f in InOrder(t)
        ensures f.k in Keys(InOrder(t))
      {
        var i :| 0 <= i < |InOrder(t)| && InOrder(t)[i] == f;
      }
    }
  }

  // ---------- Reading answers off the in-order sequence ----------

  function FirstOf(s: seq<Entry<TagNode>>): TagNode? { if s == [] then null else s[0].x }

  function LastOf(s: seq<Entry<TagNode>>): TagNode? { if s == [] then null else s[|s| - 1].x }

  /** A walk that ends on nothing proves the key absent. */
  lemma NoneBetween(s: Store, t: Tree<TagNode>, k: int)
    requires Split(s, Top, t) && Ordered(t) && Search(Top, t, k).1.Nil?
    ensures forall x :: x in s.h ==> s.h[x].k != k
  {
    SearchFinds(t, k);
    WholeEntries(s, t);
    forall x: TagNode | x in s.h
      ensures s.h[x].k != k
    {
      var i :| 0 <= i < |InOrder(t)| && InOrder(t)[i] == Entry(x, s.h[x].k);
      assert InOrder(t)[i].k in Keys(InOrder(t));
    }
  }

  /** When the walk ends on nothing, the first entry after the empty place is a node above k... */
  lemma FirstAboveIn(s: Store, t: Tree<TagNode>, k: int)
    requires Split(s, Top, t) && Ordered(t) && Search(Top, t, k).1.Nil?
    ensures var b := After(Search(Top, t, k).0); b != [] ==> b[0].x in s.h && s.h[b[0].x].k == b[0].k && k < b[0].k
  {
    var d := Search(Top, t, k).0;
    SearchCut(t, k);
    WholeEntries(s, t);
    if After(d) != [] {
      assert InOrder(t)[|Before(d)|] == After(d)[0];
      assert After(d)[0] in InOrder(t);
    }
  }

  /** ... and the least one. */
  lemma FirstAbove(s: Store, t: Tree<TagNode>, k: int)
    requires Split(s, Top, t) && Ordered(t) && Search(Top, t, k).1.Nil?
    ensures var b := After(Search(Top, t, k).0);
      forall x :: x in s.h ==> s.h[x].k < k || (b != [] && b[0].k <= s.h[x].k)
  {
    var d := Search(Top, t, k).0;
    SearchCut(t, k);
    WholeEntries(s, t);
    forall x: TagNode | x in s.h
      ensures s.h[x].k < k || (After(d) != [] && After(d)[0].k <= s.h[x].k)
    {
      var i :| 0 <= i < |InOrder(t)| && InOrder(t)[i] == Entry(x, s.h[x].k);
      LeastAbove(Before(d), After(d), k, i);
    }
  }

  /** The first and the last entry hold the extreme keys. */
  lemma EndsExtreme(s: Store, t: Tree<TagNode>)
    requires Split(s, Top, t)
    ensures InOrder(t) == [] <==> s.h.Keys == {}
    ensures InOrder(t) != [] ==> FirstOf(InOrder(t)) in s.h && LastOf(InOrder(t)) in s.h
    ensures Ordered(t) && InOrder(t) != [] ==>
              forall x :: x in s.h ==> s.h[FirstOf(InOrder(t))].k <= s.h[x].k <= s.h[LastOf(InOrder(t))].k
  {
    WholeEntries(s, t);
    var o := InOrder(t);
    if o != [] {
      assert o[0] in o && o[|o| - 1] in o;
    }
    forall x: TagNode | x in s.h
      ensures o != [] && (Ordered(t) ==> s.h[FirstOf(o)].k <= s.h[x].k <= s.h[LastOf(o)].k)
    {
      var i :| 0 <= i < |o| && o[i] == Entry(x, s.h[x].k);
    }
  }

  /** The nodes in order: all of them, each once, and with ascending keys if the tree is ordered. */
  lemma OrderOfNodes(s: Store, t: Tree<TagNode>)
    requires Split(s, Top, t)
    ensures var xs := Xs(InOrder(t));
      && (forall x :: x in s.h <==> x in xs)
      && (forall i, j :: 0 <= i < j < |xs| ==> xs[i] != xs[j])
      && (Ordered(t) ==> forall i, j :: 0 <= i < j < |xs| ==> s.h[xs[i]].k < s.h[xs[j]].k)
  {
    var (o, xs) := (InOrder(t), Xs(InOrder(t)));
    WholeEntries(s, t);
    forall i | 0 <= i < |o|
      ensures xs[i] in s.h && s.h[xs[i]].k == o[i].k
    {
      assert o[i] in o;
    }
    forall x: TagNode | x in s.h
      ensures x in xs
    {
      var i :| 0 <= i < |o| && o[i] == Entry(x, s.h[x].k);
      assert xs[i] == x;
    }
  }

  lemma OnlyIndex(s: seq<Entry<TagNode>>, j: nat)
    requires Distinct(s) && j < |s|
    ensures forall i :: 0 <= i < |s| && s[i].x == s[j].x ==> i == j
  {
  }

  /** The place of x in a whole tree, which gives its neighbours in order. */
  lemma AroundAll(d: Ctx<TagNode>, u: Tree<TagNode>)
    requires u.Bin? && Distinct(InOrder(Plug(d, u)))
    ensures var s := InOrder(Plug(d, u));
      forall i :: 0 <= i < |s| && s[i].x == u.e.x ==>
        s[i + 1..] == InOrder(u.r) + After(d) && s[..i] == Before(d) + InOrder(u.l)
  {
    Around(d, u);
    OnlyIndex(InOrder(Plug(d, u)), |Before(d)| + |InOrder(u.l)|);
  }

  lemma NeighboursOf(s: Store, t: Tree<TagNode>, x: TagNode) returns (d: Ctx<TagNode>, u: Tree<TagNode>)
    requires Split(s, Top, t) && x in s.h
    ensures Split(s, d, u) && u.Bin? && u.e.x == x
    ensures forall i :: 0 <= i < |InOrder(t)| && InOrder(t)[i].x == x ==>
              InOrder(t)[i + 1..] == InOrder(u.r) + After(d) && InOrder(t)[..i] == Before(d) + InOrder(u.l)
    ensures forall i :: 0 <= i < |InOrder(t)| ==> InOrder(t)[i].x in s.h
  {
    WholeEntries(s, t);
    FocusPath(s, Top, t, x);
    PathPlug(Top, t, x);
    var p := Path(Top, t, x);
    d, u := p.0, p.1;
    AroundAll(d, u);
    assert forall i :: 0 <= i < |InOrder(t)| ==> InOrder(t)[i] in InOrder(t);
  }

  lemma IndexOf(s: Store, t: Tree<TagNode>, x: TagNode) returns (i: nat)
    requires Split(s, Top, t) && x in s.h
    ensures i < |InOrder(t)| && InOrder(t)[i] == Entry(x, s.h[x].k) && Distinct(InOrder(t))
    ensures forall j :: 0 <= j < |InOrder(t)| ==> InOrder(t)[j].x in s.h && s.h[InOrder(t)[j].x].k == InOrder(t)[j].k
  {
    WholeEntries(s, t);
    i :| 0 <= i < |InOrder(t)| && InOrder(t)[i] == Entry(x, s.h[x].k);
    assert forall j :: 0 <= j < |InOrder(t)| ==> InOrder(t)[j] in InOrder(t);
  }

  /** Rewriting one node's key in memory is Rekey on the value. */
  lemma {:induction false} RekeySub(g: Heap, h: Heap, t: Tree<TagNode>, p: TagNode?, x: TagNode, k: int)
    requires Sub(g, t, p) && h.Keys == g.Keys
    requires forall n :: n in g ==> h[n] == if n == x then g[n].(k := k) else g[n]
    ensures Sub(h, Rekey(t, x, k), p) && Nodes(Rekey(t, x, k)) == Nodes(t) && RootOf(Rekey(t, x, k)) == RootOf(t)
  {
    if t.Bin? {
      RekeySub(g, h, t.l, t.e.x, x, k);
      RekeySub(g, h, t.r, t.e.x, x, k);
    }
  }
}
