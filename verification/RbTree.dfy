/**
 The rank-balanced tree of include/sys/tree.h as linked nodes, changed in place.  The
 ghost field model is the tree that the links spell; each method's effect on it is the
 function of the same name in Rebalance or SortedTrees.
 */
module RbTrees {
  import opened RankTrees
  import opened Rebalance
  import opened Links
  import opened SortedTrees

  /** tagcmp (src/tagtree.c:50-54). */
  function TagCmp(lhs: int, rhs: int): int {
    if lhs < rhs then -1 else if lhs > rhs then 1 else 0
  }

  class RbTree {
    var root: TagNode?
    ghost var model: Tree<TagNode>
    ghost var nodes: set<TagNode>

    /** RB_INIT. */
    constructor ()
      ensures Valid() && nodes == {} && model == Nil
    {
      root, model, nodes := null, Nil, {};
    }

    ghost function State(): Store
      reads this`root, this`nodes, nodes
    {
      Store(Snap(nodes), root)
    }

    /** RB_SWAP_CHILD. */
    method SwapChild(out: TagNode, in_: TagNode?)
      modifies this`root, Opt(out.parent)`left, Opt(out.parent)`right
      ensures out.parent == null ==> root == in_
      ensures out.parent != null ==> root == old(root)
      ensures out.parent != null ==>
                out.parent.Links() ==
                  var r := old(out.parent.Links());
                  if r.l == out then r.(l := in_) else r.(r := in_)
    {
      if out.parent == null {
        root := in_;
      } else if out == out.parent.left {
        out.parent.left := in_;
      } else {
        out.parent.right := in_;
      }
    }

    /** RB_ROTATE_LEFT, link by link. */
    method TurnLeft(elm: TagNode) returns (tmp: TagNode)
      requires elm.right != null && elm.right != elm && elm.right.left !in {elm, elm.right}
      requires elm.parent !in {elm, elm.right} && (elm.parent != null ==> elm.parent != elm.right.left)
      modifies this`root, elm`right, elm`parent, elm.right`left, elm.right`parent, Opt(elm.right.left)`parent,
               Opt(elm.parent)`left, Opt(elm.parent)`right
      ensures tmp == old(elm.right)
      ensures elm.Links() == old(elm.Links()).(r := old(elm.right.left), p := tmp)
      ensures tmp.Links() == old(elm.right.Links()).(l := elm, p := old(elm.parent))
      ensures elm.right != null ==> elm.right.Links() == old(elm.right.left.Links()).(p := elm)
      ensures tmp.parent == null ==> root == tmp
      ensures tmp.parent != null ==> root == old(root)
      ensures tmp.parent != null ==>
                tmp.parent.Links() ==
                  var r := old(elm.parent.Links());
                  if r.l == elm then r.(l := tmp) else r.(r := tmp)
    {
      tmp := elm.right;
      elm.right := tmp.left;
      if elm.right != null {
        elm.right.parent := elm;
      }
      tmp.parent := elm.parent;
      SwapChild(elm, tmp);
      tmp.left := elm;
      elm.parent := tmp;
    }

    /** RB_ROTATE_RIGHT, link by link. */
    method TurnRight(elm: TagNode) returns (tmp: TagNode)
      requires elm.left != null && elm.left != elm && elm.left.right !in {elm, elm.left}
      requires elm.parent !in {elm, elm.left} && (elm.parent != null ==> elm.parent != elm.left.right)
      modifies this`root, elm`left, elm`parent, elm.left`right, elm.left`parent, Opt(elm.left.right)`parent,
               Opt(elm.parent)`left, Opt(elm.parent)`right
      ensures tmp == old(elm.left)
      ensures elm.Links() == old(elm.Links()).(l := old(elm.left.right), p := tmp)
      ensures tmp.Links() == old(elm.left.Links()).(r := elm, p := old(elm.parent))
      ensures elm.left != null ==> elm.left.Links() == old(elm.left.right.Links()).(p := elm)
      ensures tmp.parent == null ==> root == tmp
      ensures tmp.parent != null ==> root == old(root)
      ensures tmp.parent != null ==>
                tmp.parent.Links() ==
                  var r := old(elm.parent.Links());
                  if r.l == elm then r.(l := tmp) else r.(r := tmp)
    {
      tmp := elm.left;
      elm.left := tmp.right;
      if elm.left != null {
        elm.left.parent := elm;
      }
      tmp.parent := elm.parent;
      SwapChild(elm, tmp);
      tmp.right := elm;
      elm.parent := tmp;
    }

    method RotateLeft(elm: TagNode) returns (tmp: TagNode, ghost g: Store)
      requires CanTurnLeft(State(), elm)
      modifies this`root, nodes`left, nodes`right, nodes`parent
      ensures tmp == old(elm.right)
      ensures g == State() && TurnedLeft(old(State()), g, elm)
    {
      tmp := TurnLeft(elm);
      g := State();
    }

    method RotateRight(elm: TagNode) returns (tmp: TagNode, ghost g: Store)
      requires CanTurnRight(State(), elm)
      modifies this`root, nodes`left, nodes`right, nodes`parent
      ensures tmp == old(elm.left)
      ensures g == State() && TurnedRight(old(State()), g, elm)
    {
      tmp := TurnRight(elm);
      g := State();
    }

    /** Sets both red bits; RB_FLIP_LEFT, RB_FLIP_RIGHT and the masks are instances. */
    method SetBits(x: TagNode, rl: bool, rr: bool) returns (ghost g: Store)
      requires x in nodes
      modifies x`redL, x`redR
      ensures g == State() && Painted(old(State()), g, x, rl, rr)
    {
      x.redL, x.redR := rl, rr;
      g := State();
    }

    /** The inner rotation of a double rotation at parent's left child elm (lines 480-486). */
    method LiftRightChild(elm: TagNode, parent: TagNode,
                          ghost up: Ctx<TagNode>, ghost e: Entry<TagNode>, ghost r: Tree<TagNode>,
                          ghost t: Tree<TagNode>)
        returns (child: TagNode)
      requires Split(State(), InLeft(up, e, false, false, r), t) && OneRed(t) && t.rl && t.e.x == elm && e.x == parent
      modifies this`root, nodes`left, nodes`right, nodes`parent, nodes`redL, nodes`redR
      ensures child == t.r.e.x
      ensures Split(State(), up,
              Bin(Bin(Bin(t.l, t.e, false, t.r.rl, t.r.l), t.r.e, t.r.rl, t.r.rr, t.r.r), e, t.r.rr, false, r))
    {
      ghost var c := InLeft(up, e, false, false, r);
      ghost var s, g, v := State(), State(), t;
      g := SetBits(elm, !elm.redL, elm.redR);
      PaintSplit(s, g, c, t, false, false);
      v := Bin(t.l, t.e, false, false, t.r);
      TurnParts(g, c, v);
      child, s := RotateLeft(elm);
      TurnLeftSplit(g, s, c, v);
      v := LeftTurn(v);
      if child.redL {
        FocusLeft(s, c, v);
        g := SetBits(elm, elm.redL, !elm.redR);
        PaintSplit(s, g, InLeft(c, v.e, v.rl, v.rr, v.r), v.l, false, true);
        v := v.(l := Bin(v.l.l, v.l.e, false, true, v.l.r));
        FocusLeft(g, c, v);
        FocusLeft(g, up, Bin(v, e, false, false, r));
      } else {
        FocusLeft(s, up, Bin(v, e, false, false, r));
        if child.redR {
          g := SetBits(parent, !parent.redL, parent.redR);
          PaintSplit(s, g, up, Bin(v, e, false, false, r), true, false);
        }
      }
    }

    method FixLeft(elm0: TagNode, parent: TagNode,
                   ghost up: Ctx<TagNode>, ghost e: Entry<TagNode>, ghost r: Tree<TagNode>, ghost t: Tree<TagNode>)
      requires Split(State(), InLeft(up, e, false, false, r), t) && OneRed(t) && t.e.x == elm0 && e.x == parent
      modifies this`root, nodes`left, nodes`right, nodes`parent, nodes`redL, nodes`redR
      ensures Split(State(), up, if t.rr then SingleRight(t, e, r) else DoubleRight(t, e, r))
    {
      var elm := elm0;
      ghost var u := Bin(t, e, false, false, r);
      FocusLeft(State(), up, u);
      if !elm.redR {
        elm := LiftRightChild(elm, parent, up, e, r, t);
        u := Bin(Bin(Bin(t.l, t.e, false, t.r.rl, t.r.l), t.r.e, t.r.rl, t.r.rr, t.r.r), e, t.r.rr, false, r);
      }
      ghost var s, g := State(), State();
      TurnRightParts(s, up, u);
      var top;
      top, g := RotateRight(parent);
      TurnRightSplit(s, g, up, u);
      s := SetBits(elm, false, false);
      PaintSplit(g, s, up, RightTurn(u), false, false);
    }

    /** The inner rotation of a double rotation at parent's right child elm. */
    method LiftLeftChild(elm: TagNode, parent: TagNode,
                         ghost up: Ctx<TagNode>, ghost l: Tree<TagNode>, ghost e: Entry<TagNode>,
                         ghost t: Tree<TagNode>)
        returns (child: TagNode)
      requires Split(State(), InRight(up, l, e, false, false), t) && OneRed(t) && t.rr && t.e.x == elm && e.x == parent
      modifies this`root, nodes`left, nodes`right, nodes`parent, nodes`redL, nodes`redR
      ensures child == t.l.e.x
      ensures Split(State(), up,
              Bin(l, e, false, t.l.rl, Bin(t.l.l, t.l.e, t.l.rl, t.l.rr, Bin(t.l.r, t.e, t.l.rr, false, t.r))))
    {
      ghost var c := InRight(up, l, e, false, false);
      ghost var s, g, v := State(), State(), t;
      g := SetBits(elm, elm.redL, !elm.redR);
      PaintSplit(s, g, c, t, false, false);
      v := Bin(t.l, t.e, false, false, t.r);
      TurnRightParts(g, c, v);
      child, s := RotateRight(elm);
      TurnRightSplit(g, s, c, v);
      v := RightTurn(v);
      if child.redR {
        FocusRight(s, c, v);
        g := SetBits(elm, !elm.redL, elm.redR);
        PaintSplit(s, g, InRight(c, v.l, v.e, v.rl, v.rr), v.r, true, false);
        v := v.(r := Bin(v.r.l, v.r.e, true, false, v.r.r));
        FocusRight(g, c, v);
        FocusRight(g, up, Bin(l, e, false, false, v));
      } else {
        FocusRight(s, up, Bin(l, e, false, false, v));
        if child.redL {
          g := SetBits(parent, parent.redL, !parent.redR);
          PaintSplit(s, g, up, Bin(l, e, false, false, v), false, true);
        }
      }
    }

    method FixRight(elm0: TagNode, parent: TagNode,
                    ghost up: Ctx<TagNode>, ghost l: Tree<TagNode>, ghost e: Entry<TagNode>, ghost t: Tree<TagNode>)
      requires Split(State(), InRight(up, l, e, false, false), t) && OneRed(t) && t.e.x == elm0 && e.x == parent
      modifies this`root, nodes`left, nodes`right, nodes`parent, nodes`redL, nodes`redR
      ensures Split(State(), up, if t.rl then SingleLeft(l, e, t) else DoubleLeft(l, e, t))
    {
      var elm := elm0;
      ghost var u := Bin(l, e, false, false, t);
      FocusRight(State(), up, u);
      if !elm.redL {
        elm := LiftLeftChild(elm, parent, up, l, e, t);
        u := Bin(l, e, false, t.l.rl, Bin(t.l.l, t.l.e, t.l.rl, t.l.rr, Bin(t.l.r, t.e, t.l.rr, false, t.r)));
      }
      ghost var s, g := State(), State();
      TurnParts(s, up, u);
      var top;
      top, g := RotateLeft(parent);
      TurnLeftSplit(s, g, up, u);
      s := SetBits(elm, false, false);
      PaintSplit(g, s, up, LeftTurn(u), false, false);
    }

    /** One round of RB_INSERT_COLOR with elm a left child (lines 470-488); done unless the parent was promoted. */
    method InsertRoundLeft(elm: TagNode, parent: TagNode, ghost c: Ctx<TagNode>, ghost t: Tree<TagNode>)
        returns (done: bool)
      requires Split(State(), c, t) && InsertReady(c, t) && t.e.x == elm && c.InLeft? && c.e.x == parent
      modifies this`root, nodes`left, nodes`right, nodes`parent, nodes`redL, nodes`redR
      ensures done == (c.rl || c.rr)
      ensures !done ==> Split(State(), c.up, Promoted(c, t))
      ensures done ==> Split(State(), Top, Rebalance.InsertColor(c, t))
    {
      ghost var s, g := State(), State();
      ghost var u := Bin(t, c.e, c.rl, c.rr, c.r);
      RotationNeedsOneRed(c, t);
      FocusLeft(s, c.up, u);
      if parent.redL {
        g := SetBits(parent, !parent.redL, parent.redR);
        PaintSplit(s, g, c.up, u, false, u.rr);
        FocusRoot(g, c.up, Bin(t, c.e, false, c.rr, c.r));
        return true;
      }
      g := SetBits(parent, parent.redL, !parent.redR);
      PaintSplit(s, g, c.up, u, u.rl, !u.rr);
      if parent.redR {
        return false;
      }
      FocusLeft(g, c.up, Bin(t, c.e, false, false, c.r));
      FixLeft(elm, parent, c.up, c.e, c.r, t);
      FocusRoot(State(), c.up, if t.rr then SingleRight(t, c.e, c.r) else DoubleRight(t, c.e, c.r));
      return true;
    }

    /** The same with elm a right child (lines 490-508). */
    method InsertRoundRight(elm: TagNode, parent: TagNode, ghost c: Ctx<TagNode>, ghost t: Tree<TagNode>)
        returns (done: bool)
      requires Split(State(), c, t) && InsertReady(c, t) && t.e.x == elm && c.InRight? && c.e.x == parent
      modifies this`root, nodes`left, nodes`right, nodes`parent, nodes`redL, nodes`redR
      ensures done == (c.rl || c.rr)
      ensures !done ==> Split(State(), c.up, Promoted(c, t))
      ensures done ==> Split(State(), Top, Rebalance.InsertColor(c, t))
    {
      ghost var s, g := State(), State();
      ghost var u := Bin(c.l, c.e, c.rl, c.rr, t);
      RotationNeedsOneRed(c, t);
      FocusRight(s, c.up, u);
      if parent.redR {
        g := SetBits(parent, parent.redL, !parent.redR);
        PaintSplit(s, g, c.up, u, u.rl, false);
        FocusRoot(g, c.up, Bin(c.l, c.e, c.rl, false, t));
        return true;
      }
      g := SetBits(parent, !parent.redL, parent.redR);
      PaintSplit(s, g, c.up, u, !u.rl, u.rr);
      if parent.redL {
        return false;
      }
      FocusRight(g, c.up, Bin(c.l, c.e, false, false, t));
      FixRight(elm, parent, c.up, c.l, c.e, t);
      FocusRoot(State(), c.up, if t.rl then SingleLeft(c.l, c.e, t) else DoubleLeft(c.l, c.e, t));
      return true;
    }

    /** RB_INSERT_COLOR. */
    method InsertColor(elm0: TagNode, ghost c0: Ctx<TagNode>, ghost t0: Tree<TagNode>) returns (ghost rounds: nat)
      requires Split(State(), c0, t0) && InsertReady(c0, t0) && t0.e.x == elm0
      modifies this`root, nodes`left, nodes`right, nodes`parent, nodes`redL, nodes`redR
      ensures Split(State(), Top, Rebalance.InsertColor(c0, t0))
      ensures rounds == InsertPromotions(c0, t0)
    {
      var elm := elm0;
      ghost var c, t := c0, t0;
      rounds := 0;
      FocusLinks(State(), c, t);
      while elm.parent != null
        invariant Split(State(), c, t) && InsertReady(c, t) && t.e.x == elm && elm in nodes && elm.parent == HoleOf(c)
        invariant Rebalance.InsertColor(c, t) == Rebalance.InsertColor(c0, t0)
        invariant rounds + InsertPromotions(c, t) == InsertPromotions(c0, t0)
        decreases c
      {
        var parent := elm.parent;
        FocusLinks(State(), c, t);
        PromotionStep(c, t);
        var done;
        if parent.left == elm {
          done := InsertRoundLeft(elm, parent, c, t);
        } else {
          done := InsertRoundRight(elm, parent, c, t);
        }
        if done {
          return;
        }
        elm := parent;
        rounds := rounds + 1;
        c, t := c.up, Promoted(c, t);
        FocusLinks(State(), c, t);
      }
    }

    // ---------- RB_REMOVE_COLOR ----------

    /** The inner rotation of a double rotation below parent's right child sib (lines 550-557). */
    method LiftNearNephewLeft(sib: TagNode, parent: TagNode, ghost up: Ctx<TagNode>,
                              ghost t: Tree<TagNode>, ghost e: Entry<TagNode>, ghost s: Tree<TagNode>)
        returns (elm: TagNode)
      requires s.Bin? && s.l.Bin? && !s.rl && !s.rr && s.e.x == sib && e.x == parent
      requires Split(State(), up, Bin(t, e, true, false, s))
      modifies this`root, nodes`left, nodes`right, nodes`parent, nodes`redL, nodes`redR
      ensures elm == s.l.e.x
      ensures Split(State(), up,
              Bin(t, e, false, s.l.rl, Bin(s.l.l, s.l.e, true, true, Bin(s.l.r, s.e, s.l.rr, false, s.r))))
    {
      ghost var m := s.l;
      ghost var c := InRight(up, t, e, false, false);
      ghost var a, b := State(), State();
      ghost var u := Bin(t, e, true, false, s);
      FocusLinks(a, up, u);
      b := SetBits(parent, !parent.redL, parent.redR);
      PaintSplit(a, b, up, u, false, false);
      u := Bin(t, e, false, false, s);
      FocusRight(b, up, u);
      TurnRightParts(b, c, s);
      elm, a := RotateRight(sib);
      TurnRightSplit(b, a, c, s);
      ghost var v := RightTurn(s);
      FocusLinks(a, c, v);
      if elm.redR {
        FocusRight(a, c, v);
        b := SetBits(sib, !sib.redL, sib.redR);
        PaintSplit(a, b, InRight(c, v.l, v.e, v.rl, v.rr), v.r, true, false);
        a := b;
        v := Bin(m.l, m.e, m.rl, m.rr, Bin(m.r, s.e, true, false, s.r));
        FocusRight(a, c, v);
      }
      ghost var d := false;
      if elm.redL {
        FocusRight(a, up, Bin(t, e, false, false, v));
        b := SetBits(parent, parent.redL, !parent.redR);
        PaintSplit(a, b, up, Bin(t, e, false, false, v), false, true);
        a := b;
        FocusRight(a, up, Bin(t, e, false, true, v));
        d := true;
      }
      b := SetBits(elm, true, true);
      PaintSplit(a, b, InRight(up, t, e, false, d), v, true, true);
      FocusRight(b, up, Bin(t, e, false, d, Bin(v.l, v.e, true, true, v.r)));
    }

    /** The mirror image, below parent's left child sib (lines 580-587). */
    method LiftNearNephewRight(sib: TagNode, parent: TagNode, ghost up: Ctx<TagNode>,
                               ghost s: Tree<TagNode>, ghost e: Entry<TagNode>, ghost t: Tree<TagNode>)
        returns (elm: TagNode)
      requires s.Bin? && s.r.Bin? && !s.rl && !s.rr && s.e.x == sib && e.x == parent
      requires Split(State(), up, Bin(s, e, false, true, t))
      modifies this`root, nodes`left, nodes`right, nodes`parent, nodes`redL, nodes`redR
      ensures elm == s.r.e.x
      ensures Split(State(), up,
              Bin(Bin(Bin(s.l, s.e, false, s.r.rl, s.r.l), s.r.e, true, true, s.r.r), e, s.r.rr, false, t))
    {
      ghost var m := s.r;
      ghost var c := InLeft(up, e, false, false, t);
      ghost var a, b := State(), State();
      ghost var u := Bin(s, e, false, true, t);
      FocusLinks(a, up, u);
      b := SetBits(parent, parent.redL, !parent.redR);
      PaintSplit(a, b, up, u, false, false);
      u := Bin(s, e, false, false, t);
      FocusLeft(b, up, u);
      TurnParts(b, c, s);
      elm, a := RotateLeft(sib);
      TurnLeftSplit(b, a, c, s);
      ghost var v := LeftTurn(s);
      FocusLinks(a, c, v);
      if elm.redL {
        FocusLeft(a, c, v);
        b := SetBits(sib, sib.redL, !sib.redR);
        PaintSplit(a, b, InLeft(c, v.e, v.rl, v.rr, v.r), v.l, false, true);
        a := b;
        v := Bin(Bin(s.l, s.e, false, true, m.l), m.e, m.rl, m.rr, m.r);
        FocusLeft(a, c, v);
      }
      ghost var d := false;
      if elm.redR {
        FocusLeft(a, up, Bin(v, e, false, false, t));
        b := SetBits(parent, !parent.redL, parent.redR);
        PaintSplit(a, b, up, Bin(v, e, false, false, t), true, false);
        a := b;
        FocusLeft(a, up, Bin(v, e, true, false, t));
        d := true;
      }
      b := SetBits(elm, true, true);
      PaintSplit(a, b, InLeft(up, e, d, false, t), v, true, true);
      FocusLeft(b, up, Bin(Bin(v.l, v.e, true, true, v.r), e, d, false, t));
    }

    /** Lines 546-557: the bits, and a nephew's lift if need be, before the rotation at the parent. */
    method ReadyLeft(sib: TagNode, parent: TagNode, ghost up: Ctx<TagNode>,
                     ghost t: Tree<TagNode>, ghost e: Entry<TagNode>,
                     ghost s: Tree<TagNode>) returns (ghost u: Tree<TagNode>)
      requires s.Bin? && !Is22(s) && (!s.rl ==> s.l.Bin?) && s.e.x == sib && e.x == parent
      requires Split(State(), InRight(up, t, e, true, false), s)
      modifies this`root, nodes`left, nodes`right, nodes`parent, nodes`redL, nodes`redR
      ensures Split(State(), up, u) && u.Bin? && u.r.Bin? && u.e.x == parent && LeftTurn(u) == DemoteLeft(t, e, s)
    {
      ghost var c := InRight(up, t, e, true, false);
      ghost var a, b := State(), State();
      b := SetBits(sib, sib.redL, !sib.redR);
      PaintSplit(a, b, c, s, s.rl, !s.rr);
      u := Bin(t, e, true, false, Bin(s.l, s.e, s.rl, !s.rr, s.r));
      FocusRight(b, up, u);
      FocusLinks(b, up, u);
      if sib.redL {
        a := SetBits(parent, !parent.redL, parent.redR);
        PaintSplit(b, a, up, u, false, false);
        u := u.(rl := false);
      } else if !sib.redR {
        var lifted := LiftNearNephewLeft(sib, parent, up, t, e, u.r);
        u := Bin(t, e, false, s.l.rl, Bin(s.l.l, s.l.e, true, true, Bin(s.l.r, s.e, s.l.rr, false, s.r)));
      }
    }

    /** The mirror image (lines 576-587). */
    method ReadyRight(sib: TagNode, parent: TagNode, ghost up: Ctx<TagNode>,
                      ghost s: Tree<TagNode>, ghost e: Entry<TagNode>,
                      ghost t: Tree<TagNode>) returns (ghost u: Tree<TagNode>)
      requires s.Bin? && !Is22(s) && (!s.rr ==> s.r.Bin?) && s.e.x == sib && e.x == parent
      requires Split(State(), InLeft(up, e, false, true, t), s)
      modifies this`root, nodes`left, nodes`right, nodes`parent, nodes`redL, nodes`redR
      ensures Split(State(), up, u) && u.Bin? && u.l.Bin? && u.e.x == parent && RightTurn(u) == DemoteRight(s, e, t)
    {
      ghost var c := InLeft(up, e, false, true, t);
      ghost var a, b := State(), State();
      b := SetBits(sib, !sib.redL, sib.redR);
      PaintSplit(a, b, c, s, !s.rl, s.rr);
      u := Bin(Bin(s.l, s.e, !s.rl, s.rr, s.r), e, false, true, t);
      FocusLeft(b, up, u);
      FocusLinks(b, up, u);
      if sib.redR {
        a := SetBits(parent, parent.redL, !parent.redR);
        PaintSplit(b, a, up, u, false, false);
        u := u.(rr := false);
      } else if !sib.redL {
        var lifted := LiftNearNephewRight(sib, parent, up, u.l, e, t);
        u := Bin(Bin(Bin(s.l, s.e, false, s.r.rl, s.r.l), s.r.e, true, true, s.r.r), e, s.r.rr, false, t);
      }
    }

    /** The rotation of RB_REMOVE_COLOR with the shrunken side on the left (lines 546-559). */
    method UnfixLeft(sib: TagNode, parent: TagNode, ghost up: Ctx<TagNode>,
                     ghost t: Tree<TagNode>, ghost e: Entry<TagNode>, ghost s: Tree<TagNode>)
      requires s.Bin? && !Is22(s) && (!s.rl ==> s.l.Bin?) && s.e.x == sib && e.x == parent
      requires Split(State(), InRight(up, t, e, true, false), s)
      modifies this`root, nodes`left, nodes`right, nodes`parent, nodes`redL, nodes`redR
      ensures Split(State(), up, DemoteLeft(t, e, s))
    {
      ghost var u := ReadyLeft(sib, parent, up, t, e, s);
      ghost var a := State();
      TurnParts(a, up, u);
      var top;
      ghost var b;
      top, b := RotateLeft(parent);
      TurnLeftSplit(a, b, up, u);
    }

    /** The mirror image (lines 576-589). */
    method UnfixRight(sib: TagNode, parent: TagNode, ghost up: Ctx<TagNode>,
                      ghost s: Tree<TagNode>, ghost e: Entry<TagNode>, ghost t: Tree<TagNode>)
      requires s.Bin? && !Is22(s) && (!s.rr ==> s.r.Bin?) && s.e.x == sib && e.x == parent
      requires Split(State(), InLeft(up, e, false, true, t), s)
      modifies this`root, nodes`left, nodes`right, nodes`parent, nodes`redL, nodes`redR
      ensures Split(State(), up, DemoteRight(s, e, t))
    {
      ghost var u := ReadyRight(sib, parent, up, s, e, t);
      ghost var a := State();
      TurnRightParts(a, up, u);
      var top;
      ghost var b;
      top, b := RotateRight(parent);
      TurnRightSplit(a, b, up, u);
    }

    /** One round of RB_REMOVE_COLOR with elm the left child (lines 530-559). */
    method RemoveRoundLeft(elm: TagNode?, parent: TagNode, ghost c: Ctx<TagNode>, ghost t: Tree<TagNode>)
        returns (done: bool)
      requires Split(State(), c, t) && RemoveReady(c, t) && RootOf(t) == elm && c.InLeft? && c.e.x == parent
      modifies this`root, nodes`left, nodes`right, nodes`parent, nodes`redL, nodes`redR
      ensures done == !Demotes(c, t)
      ensures !done ==> (c.rr || c.r.Bin?) && Split(State(), c.up, Demoted(c, t))
      ensures done ==> Split(State(), Top, Rebalance.RemoveColor(c, t))
    {
      ghost var a, b := State(), State();
      ghost var u := Bin(t, c.e, c.rl, c.rr, c.r);
      SiblingPresent(c, t);
      FocusLeft(a, c.up, u);
      if !parent.redL {
        b := SetBits(parent, !parent.redL, parent.redR);
        PaintSplit(a, b, c.up, u, true, u.rr);
        FocusRoot(b, c.up, Bin(t, c.e, true, c.rr, c.r));
        return true;
      }
      if parent.redR {
        b := SetBits(parent, parent.redL, !parent.redR);
        PaintSplit(a, b, c.up, u, true, false);
        return false;
      }
      var sib := parent.right;
      FocusRight(a, c.up, u);
      ghost var d := InRight(c.up, t, c.e, true, false);
      FocusLinks(a, d, c.r);
      if sib.redL && sib.redR {
        b := SetBits(sib, false, false);
        PaintSplit(a, b, d, c.r, false, false);
        FocusRight(b, c.up, Bin(t, c.e, true, false, Clear(c.r)));
        return false;
      }
      UnfixLeft(sib, parent, c.up, t, c.e, c.r);
      FocusRoot(State(), c.up, DemoteLeft(t, c.e, c.r));
      return true;
    }

    /** The same with elm the right child (lines 561-589). */
    method RemoveRoundRight(elm: TagNode?, parent: TagNode, ghost c: Ctx<TagNode>, ghost t: Tree<TagNode>)
        returns (done: bool)
      requires Split(State(), c, t) && RemoveReady(c, t) && RootOf(t) == elm && c.InRight? && c.e.x == parent
      modifies this`root, nodes`left, nodes`right, nodes`parent, nodes`redL, nodes`redR
      ensures done == !Demotes(c, t)
      ensures !done ==> (c.rl || c.l.Bin?) && Split(State(), c.up, Demoted(c, t))
      ensures done ==> Split(State(), Top, Rebalance.RemoveColor(c, t))
    {
      ghost var a, b := State(), State();
      ghost var u := Bin(c.l, c.e, c.rl, c.rr, t);
      SiblingPresent(c, t);
      FocusRight(a, c.up, u);
      if !parent.redR {
        b := SetBits(parent, parent.redL, !parent.redR);
        PaintSplit(a, b, c.up, u, u.rl, true);
        FocusRoot(b, c.up, Bin(c.l, c.e, c.rl, true, t));
        return true;
      }
      if parent.redL {
        b := SetBits(parent, !parent.redL, parent.redR);
        PaintSplit(a, b, c.up, u, false, true);
        return false;
      }
      var sib := parent.left;
      FocusLeft(a, c.up, u);
      ghost var d := InLeft(c.up, c.e, false, true, t);
      FocusLinks(a, d, c.l);
      if sib.redL && sib.redR {
        b := SetBits(sib, false, false);
        PaintSplit(a, b, d, c.l, false, false);
        FocusLeft(b, c.up, Bin(Clear(c.l), c.e, false, true, t));
        return false;
      }
      UnfixRight(sib, parent, c.up, c.l, c.e, t);
      FocusRoot(State(), c.up, DemoteRight(c.l, c.e, t));
      return true;
    }

    /** One round, and the step up to the parent's parent if the loop goes on. */
    method RemoveRound(elm: TagNode?, parent: TagNode, ghost c: Ctx<TagNode>, ghost t: Tree<TagNode>)
        returns (done: bool, up: TagNode?)
      requires Split(State(), c, t) && RemoveReady(c, t) && RootOf(t) == elm && !c.Top? && c.e.x == parent
      modifies this`root, nodes`left, nodes`right, nodes`parent, nodes`redL, nodes`redR
      ensures done == !Demotes(c, t)
      ensures done ==> Split(State(), Top, Rebalance.RemoveColor(c, t))
      ensures !done ==> (c.InLeft? ==> c.rr || c.r.Bin?) && (c.InRight? ==> c.rl || c.l.Bin?)
      ensures !done ==> Split(State(), c.up, Demoted(c, t)) && up == HoleOf(c.up) && RootOf(Demoted(c, t)) == parent
    {
      FocusLinks(State(), c, t);
      if parent.left == elm {
        done := RemoveRoundLeft(elm, parent, c, t);
      } else {
        done := RemoveRoundRight(elm, parent, c, t);
      }
      up := null;
      if !done {
        FocusLinks(State(), c.up, Demoted(c, t));
        up := parent.parent;
      }
    }

    /** The do loop of RB_REMOVE_COLOR. */
    method RemoveLoop(elm0: TagNode?, parent0: TagNode?, ghost c0: Ctx<TagNode>, ghost t0: Tree<TagNode>)
        returns (ghost rounds: nat)
      requires Split(State(), c0, t0) && RemoveReady(c0, t0) && RootOf(t0) == elm0 && HoleOf(c0) == parent0
      modifies this`root, nodes`left, nodes`right, nodes`parent, nodes`redL, nodes`redR
      ensures Split(State(), Top, Rebalance.RemoveColor(c0, t0))
      ensures rounds == RemoveDemotions(c0, t0)
    {
      var elm, parent := elm0, parent0;
      ghost var c, t := c0, t0;
      rounds := 0;
      while parent != null
        invariant Split(State(), c, t) && RemoveReady(c, t) && RootOf(t) == elm && HoleOf(c) == parent
        invariant Rebalance.RemoveColor(c, t) == Rebalance.RemoveColor(c0, t0)
        invariant rounds + RemoveDemotions(c, t) == RemoveDemotions(c0, t0)
        decreases c
      {
        DemotionStep(c, t);
        var done, up := RemoveRound(elm, parent, c, t);
        if done {
          return;
        }
        rounds := rounds + 1;
        c, t := c.up, Demoted(c, t);
        elm, parent := parent, up;
      }
    }

    // ---------- RB_REMOVE ----------

    /** The links spell the model, which obeys the rank rule; nothing is said about keys. */
    ghost predicate Shape()
      reads this`root, this`nodes, this`model, nodes
    {
      Split(State(), Top, model) && Balanced(model)
    }

    /** Lines 604-607 and 625-627: a node with at most one child gives its place to that child. */
    method MoveUpChild(elm: TagNode) returns (parent: TagNode?, child: TagNode?)
      requires elm.left == null || elm.right == null
      requires elm.parent != elm && (elm.parent != null ==> elm.parent != elm.left && elm.parent != elm.right)
      requires elm.left != elm && elm.right != elm
      modifies this`root, Opt(elm.left)`parent, Opt(elm.right)`parent, Opt(elm.parent)`left, Opt(elm.parent)`right
      ensures parent == elm.parent
      ensures child == if elm.left == null then elm.right else elm.left
      ensures child != null ==>
              child.Links() == old(if elm.left == null then elm.right.Links() else elm.left.Links()).(p := parent)
      ensures parent == null ==> root == child
      ensures parent != null ==> root == old(root)
      ensures parent != null ==>
                parent.Links() ==
                  var r := old(elm.parent.Links());
                  if r.l == elm then r.(l := child) else r.(r := child)
    {
      parent := elm.parent;
      if elm.left == null {
        child := elm.right;
      } else {
        child := elm.left;
      }
      SwapChild(elm, child);
      if child != null {
        child.parent := parent;
      }
    }

    /** Lines 609-612, 622-627: the right child y has no left child and moves up into old's place. */
    method MoveUpNear(old_: TagNode, elm: TagNode) returns (child: TagNode?)
      requires old_.right == elm && old_ != elm && old_.left != null && old_.left != old_ && old_.left != elm
      requires elm.right != null ==>
               elm.right != old_ && elm.right != elm && elm.right != old_.left && elm.right != old_.parent
      requires old_.parent != null ==> old_.parent != old_ && old_.parent != elm && old_.parent != old_.left
      modifies this`root, old_`right, elm`left, elm`right, elm`parent, elm`redL, elm`redR, old_.left`parent,
               Opt(elm.right)`parent, Opt(old_.parent)`left, Opt(old_.parent)`right
      ensures child == old(elm.right)
      ensures elm.Links() == old(old_.Links()).(r := child, k := elm.tagId)
      ensures old_.left.Links() == old(old_.left.Links()).(p := elm)
      ensures child != null ==> child.Links() == old(elm.right.Links()).(p := elm)
      ensures elm.parent == null ==> root == elm
      ensures elm.parent != null ==> root == old(root)
      ensures elm.parent != null ==>
                elm.parent.Links() ==
                  var r := old(old_.parent.Links());
                  if r.l == old_ then r.(l := elm) else r.(r := elm)
    {
      child := elm.right;
      old_.right := child;
      old_.left.parent := elm;
      elm.left, elm.right, elm.parent := old_.left, old_.right, old_.parent;
      elm.redL, elm.redR := old_.redL, old_.redR;
      SwapChild(old_, elm);
      if child != null {
        child.parent := elm;
      }
    }

    /** Lines 617-623: elm, further down the left spine, is unlinked and takes over old's links. */
    method TakePlace(old_: TagNode, elm: TagNode) returns (parent: TagNode, child: TagNode?)
      requires elm != old_ && old_.left != null && old_.right != null && old_.left != old_.right && elm.parent != null
      requires old_.left !in {old_, elm, elm.parent} && old_.right !in {old_, elm} && elm.parent !in {old_, elm}
      modifies elm`left, elm`right, elm`parent, elm`redL, elm`redR, elm.parent`left, old_.left`parent, old_.right`parent
      ensures parent == old(elm.parent) && child == old(elm.right)
      ensures elm.Links() == old(old_.Links()).(k := elm.tagId) && old_.Links() == old(old_.Links())
      ensures old_.left.Links() == old(old_.left.Links()).(p := elm)
      ensures old_.right.Links() ==
              old(old_.right.Links()).(p := elm, l := if parent == old_.right then child else old(old_.right.left))
      ensures parent != old_.right ==> parent.Links() == old(elm.parent.Links()).(l := child)
    {
      child := elm.right;
      parent := elm.parent;
      parent.left := child;
      old_.right.parent := elm;
      old_.left.parent := elm;
      elm.left, elm.right, elm.parent := old_.left, old_.right, old_.parent;
      elm.redL, elm.redR := old_.redL, old_.redR;
    }

    /** Lines 617-627: elm, further down the left spine, is unlinked and moves up into old's place. */
    method MoveUpFar(old_: TagNode, elm: TagNode) returns (parent: TagNode, child: TagNode?)
      requires elm != old_ && old_.left != null && old_.right != null && old_.left != old_.right && elm.parent != null
      requires old_.left !in {old_, elm, elm.parent} && old_.right !in {old_, elm} && elm.parent !in {old_, elm}
      requires elm.right != null ==>
               elm.right !in {old_, elm, old_.left, old_.right, elm.parent} && elm.right != old_.parent
      requires old_.parent != null ==> old_.parent !in {old_, elm, old_.left, old_.right, elm.parent}
      modifies this`root, elm`left, elm`right, elm`parent, elm`redL, elm`redR, elm.parent`left,
               old_.left`parent, old_.right`parent, Opt(elm.right)`parent,
               Opt(old_.parent)`left, Opt(old_.parent)`right
      ensures parent == old(elm.parent) && child == old(elm.right)
      ensures elm.Links() == old(old_.Links()).(k := elm.tagId)
      ensures old_.left.Links() == old(old_.left.Links()).(p := elm)
      ensures old_.right.Links() ==
              old(old_.right.Links()).(p := elm, l := if parent == old_.right then child else old(old_.right.left))
      ensures parent != old_.right ==> parent.Links() == old(elm.parent.Links()).(l := child)
      ensures child != null ==> child.Links() == old(elm.right.Links()).(p := parent)
      ensures elm.parent == null ==> root == elm
      ensures elm.parent != null ==> root == old(root)
      ensures elm.parent != null ==>
                elm.parent.Links() ==
                  var r := old(old_.parent.Links());
                  if r.l == old_ then r.(l := elm) else r.(r := elm)
    {
      parent, child := TakePlace(old_, elm);
      SwapChild(old_, elm);
      if child != null {
        child.parent := parent;
      }
    }

    /** The store once x is no longer counted as one of the tree's nodes. */
    ghost function StateWithout(x: TagNode): Store
      reads this`root, this`nodes, nodes
    {
      Store(Snap(nodes - {x}), root)
    }

    method Splice(elm: TagNode) returns (parent: TagNode?, child: TagNode?)
      requires CutOneLinks(State(), elm)
      modifies this`root, nodes`left, nodes`right, nodes`parent
      ensures Spliced(old(State()), StateWithout(elm), elm, child)
      ensures parent == old(elm.parent) && child == old(if elm.left == null then elm.right else elm.left)
    {
      parent, child := MoveUpChild(elm);
    }

    method ReplaceNear(old_: TagNode, elm: TagNode) returns (child: TagNode?)
      requires CutLinks(State(), old_, elm) && old_.right == elm
      modifies this`root, nodes`left, nodes`right, nodes`parent, nodes`redL, nodes`redR
      ensures child == old(elm.right)
      ensures MovedUp(old(State()), StateWithout(old_), old_, elm)
    {
      child := MoveUpNear(old_, elm);
    }

    method ReplaceFar(old_: TagNode, elm: TagNode) returns (parent: TagNode, child: TagNode?)
      requires CutLinks(State(), old_, elm) && old_.right != elm
      modifies this`root, nodes`left, nodes`right, nodes`parent, nodes`redL, nodes`redR
      ensures parent == old(elm.parent) && child == old(elm.right)
      ensures MovedUp(old(State()), StateWithout(old_), old_, elm)
    {
      ghost var s := State();
      parent, child := MoveUpFar(old_, elm);
      ghost var g := StateWithout(old_);
      assert Same(s.h, g.h, s.h.Keys - {old_, elm, s.h[old_].l, s.h[old_].r, parent, child, s.h[old_].p});
    }

    method CutOne(elm: TagNode, ghost c: Ctx<TagNode>, ghost t: Tree<TagNode>)
      returns (parent: TagNode?, child: TagNode?)
      requires Split(State(), c, t) && t.Bin? && t.e.x == elm && (t.l.Nil? || t.r.Nil?)
      modifies this`root, this`nodes, nodes`left, nodes`right, nodes`parent
      ensures nodes == old(nodes) - {elm} && Split(State(), CutCtx(c, t), CutTree(t))
      ensures parent == HoleOf(CutCtx(c, t)) && child == RootOf(CutTree(t))
    {
      ghost var s := State();
      CutOneParts(s, c, t);
      parent, child := Splice(elm);
      ghost var g := StateWithout(elm);
      SpliceSplit(s, g, c, t);
      nodes := nodes - {elm};
      assert State() == g;
    }

    /** Lines 614-616: the leftmost node below elm. */
    method Leftmost(elm0: TagNode, ghost c: Ctx<TagNode>, ghost r: Tree<TagNode>) returns (elm: TagNode)
      requires Split(State(), c, r) && r.Bin? && elm0 == r.e.x
      ensures elm == MinTree(r).e.x && elm in nodes
    {
      elm := elm0;
      ghost var d, u := c, r;
      FocusLinks(State(), d, u);
      while elm.left != null
        invariant Split(State(), d, u) && u.Bin? && u.e.x == elm && elm in nodes
        invariant MinTree(u) == MinTree(r) && elm.left == RootOf(u.l)
        decreases u
      {
        FocusLinks(State(), d, u);
        elm := elm.left;
        FocusLeft(State(), d, u);
        d, u := InLeft(d, u.e, u.rl, u.rr, u.r), u.l;
        FocusLinks(State(), d, u);
      }
    }

    /** Lines 608-627: old has two children; its successor is unlinked and takes old's place. */
    method MoveUpSuccessor(old_: TagNode, ghost c: Ctx<TagNode>, ghost t: Tree<TagNode>)
        returns (parent: TagNode, child: TagNode?)
      requires Split(State(), c, t) && t.Bin? && t.l.Bin? && t.r.Bin? && t.e.x == old_
      modifies this`root, nodes`left, nodes`right, nodes`parent, nodes`redL, nodes`redR
      ensures Split(StateWithout(old_), CutCtx(c, t), CutTree(t))
      ensures parent == HoleOf(CutCtx(c, t)) && child == RootOf(CutTree(t))
    {
      ghost var s := State();
      CutParts(s, c, t);
      var right := old_.right;
      if right.left == null {
        child := ReplaceNear(old_, right);
        parent := right;
      } else {
        FocusRight(s, c, t);
        var elm := Leftmost(right, InRight(c, t.l, t.e, t.rl, t.rr), t.r);
        parent, child := ReplaceFar(old_, elm);
      }
      MovedUpSplit(s, StateWithout(old_), c, t);
    }

    method CutTwo(old_: TagNode, ghost c: Ctx<TagNode>, ghost t: Tree<TagNode>)
      returns (parent: TagNode, child: TagNode?)
      requires Split(State(), c, t) && t.Bin? && t.l.Bin? && t.r.Bin? && t.e.x == old_
      modifies this`root, this`nodes, nodes`left, nodes`right, nodes`parent, nodes`redL, nodes`redR
      ensures nodes == old(nodes) - {old_} && Split(State(), CutCtx(c, t), CutTree(t))
      ensures parent == HoleOf(CutCtx(c, t)) && child == RootOf(CutTree(t))
    {
      parent, child := MoveUpSuccessor(old_, c, t);
      ghost var g := StateWithout(old_);
      nodes := nodes - {old_};
      assert State() == g;
    }

    /** RB_REMOVE_COLOR. */
    method RemoveColor(parent0: TagNode, elm0: TagNode?, ghost c: Ctx<TagNode>, ghost t: Tree<TagNode>)
        returns (ghost rounds: nat)
      requires Split(State(), c, t) && CloseReady(c, t) && HoleOf(c) == parent0 && RootOf(t) == elm0
      modifies this`root, nodes`left, nodes`right, nodes`parent, nodes`redL, nodes`redR
      ensures Split(State(), Top, Close(c, t)) && rounds == CloseDemotions(c, t)
    {
      var elm, parent: TagNode? := elm0, parent0;
      FocusLinks(State(), c, t);
      if parent0.left == elm && parent0.right == elm {
        ghost var s := State();
        BareParentLinks(s, c, t);
        ghost var g := SetBits(parent0, false, false);
        PaintSplit(s, g, c.up, Joined(c, t), false, false);
        FocusLinks(g, c.up, Single(c.e));
        elm := parent0;
        parent := elm.parent;
        if parent == null {
          return 0;
        }
        rounds := RemoveLoop(elm, parent, c.up, Single(c.e));
      } else {
        BareParentLinks(State(), c, t);
        rounds := RemoveLoop(elm, parent, c, t);
      }
    }

    /** Lines 601-627 with the node's place known: elm leaves the tree, child may now hang one rank too low. */
    method Detach(elm: TagNode, ghost c: Ctx<TagNode>, ghost t: Tree<TagNode>)
      returns (parent: TagNode?, child: TagNode?)
      requires Split(State(), c, t) && t.Bin? && t.e.x == elm
      modifies this`root, this`nodes, nodes`left, nodes`right, nodes`parent, nodes`redL, nodes`redR
      ensures nodes == old(nodes) - {elm}
      ensures Split(State(), CutCtx(c, t), CutTree(t)) && parent == HoleOf(CutCtx(c, t)) && child == RootOf(CutTree(t))
    {
      FocusLinks(State(), c, t);
      if elm.left == null || elm.right == null {
        parent, child := CutOne(elm, c, t);
      } else {
        parent, child := CutTwo(elm, c, t);
      }
    }

    /** RB_REMOVE with the node's place known. */
    method RemoveFrom(elm: TagNode, ghost c: Ctx<TagNode>, ghost t: Tree<TagNode>) returns (ghost rounds: nat)
      requires Split(State(), c, t) && t.Bin? && t.e.x == elm && CloseReady(CutCtx(c, t), CutTree(t))
      modifies this`root, this`nodes, nodes`left, nodes`right, nodes`parent, nodes`redL, nodes`redR
      ensures nodes == old(nodes) - {elm}
      ensures Split(State(), Top, Close(CutCtx(c, t), CutTree(t))) && rounds == CloseDemotions(CutCtx(c, t), CutTree(t))
    {
      var parent, child := Detach(elm, c, t);
      rounds := 0;
      if parent != null {
        rounds := RemoveColor(parent, child, CutCtx(c, t), CutTree(t));
      }
    }

    /** RB_REMOVE. */
    method Remove(elm: TagNode) returns (old_: TagNode, ghost rounds: nat)
      requires Shape() && elm in nodes
      modifies this, nodes`left, nodes`right, nodes`parent, nodes`redL, nodes`redR
      ensures Shape() && nodes == old(nodes) - {elm} && old_ == elm
      ensures Has(old(model), elm) && model == SortedTrees.Remove(old(model), elm)
      ensures InOrder(model) == Without(old(InOrder(model)), elm)
      ensures rounds == RemoveWork(old(model), elm)
    {
      ghost var t := model;
      ghost var d, u := PlaceOf(State(), t, elm);
      model := SortedTrees.Remove(t, elm);
      rounds := RemoveFrom(elm, d, u);
      old_ := elm;
    }

    // ---------- RB_INSERT ----------

    ghost predicate Valid()
      reads this`root, this`nodes, this`model, nodes
    {
      Shape() && Ordered(model)
    }

    /** The walk of RB_INSERT and RB_FIND: a node with the key, or the parent of the empty place and its side. */
    method Descend(key: int, ghost t: Tree<TagNode>)
        returns (tmp: TagNode?, parent: TagNode?, comp: int, ghost d: Ctx<TagNode>, ghost u: Tree<TagNode>,
                 ghost steps: nat)
      requires Split(State(), Top, t)
      ensures (d, u) == Search(Top, t, key) && tmp == RootOf(u) && Split(State(), d, u)
      ensures tmp == null ==> parent == HoleOf(d) && (parent != null ==> (comp < 0 <==> d.InLeft?))
      ensures tmp != null ==> tmp in nodes && tmp.tagId == key
      ensures steps <= Height(t)
    {
      tmp, parent, comp := root, null, 0;
      d, u, steps := Top, t, 0;
      FocusLinks(State(), d, u);
      while tmp != null
        invariant Split(State(), d, u) && RootOf(u) == tmp && (tmp != null ==> tmp in nodes)
        invariant Search(d, u, key) == Search(Top, t, key)
        invariant parent == HoleOf(d) && (parent != null ==> (comp < 0 <==> d.InLeft?))
        invariant steps + Height(u) <= Height(t)
        decreases u
      {
        FocusLinks(State(), d, u);
        steps := steps + 1;
        parent := tmp;
        comp := TagCmp(key, parent.tagId);
        if comp < 0 {
          tmp := tmp.left;
          FocusLeft(State(), d, u);
          d, u := InLeft(d, u.e, u.rl, u.rr, u.r), u.l;
        } else if comp > 0 {
          tmp := tmp.right;
          FocusRight(State(), d, u);
          d, u := InRight(d, u.l, u.e, u.rl, u.rr), u.r;
        } else {
          return;
        }
        FocusLinks(State(), d, u);
      }
    }

    /** RB_SET, and the assignment that hangs elm on its parent (lines 656-662). */
    method Attach(elm: TagNode, parent: TagNode?, comp: int)
      requires parent != elm
      modifies this`root, Opt(parent)`left, Opt(parent)`right, elm`left, elm`right, elm`parent, elm`redL, elm`redR
      ensures elm.Links() == Rec(null, null, parent, false, false, elm.tagId)
      ensures parent == null ==> root == elm
      ensures parent != null ==> root == old(root)
      ensures parent != null && comp < 0 ==> parent.Links() == old(parent.Links()).(l := elm)
      ensures parent != null && comp >= 0 ==> parent.Links() == old(parent.Links()).(r := elm)
    {
      elm.parent, elm.redL, elm.redR := parent, false, false;
      elm.left, elm.right := null, null;
      if parent == null {
        root := elm;
      } else if comp < 0 {
        parent.left := elm;
      } else {
        parent.right := elm;
      }
    }

    /** RB_SET and the link from the parent or the head, seen on the model. */
    method Link(elm: TagNode, parent: TagNode?, comp: int, ghost d: Ctx<TagNode>)
      requires Split(State(), d, Nil) && elm !in nodes && parent == HoleOf(d) &&
               (parent != null ==> (comp < 0 <==> d.InLeft?))
      modifies this`root, this`nodes, nodes`left, nodes`right, elm`left, elm`right, elm`parent, elm`redL, elm`redR
      ensures nodes == old(nodes) + {elm}
      ensures Split(State(), d, Single(Entry(elm, elm.tagId)))
    {
      ghost var s := State();
      FocusLinks(s, d, Nil);
      Attach(elm, parent, comp);
      nodes := nodes + {elm};
      ghost var g := State();
      LinkSplit(s, g, d, Entry(elm, elm.tagId));
    }

    /** Lines 656-663: elm goes into the empty place d and the rank rule is restored. */
    method InsertInto(elm: TagNode, parent: TagNode?, comp: int, ghost d: Ctx<TagNode>) returns (ghost rounds: nat)
      requires Split(State(), d, Nil) && elm !in nodes && parent == HoleOf(d) &&
               (parent != null ==> (comp < 0 <==> d.InLeft?))
      requires InsertReady(d, Single(Entry(elm, elm.tagId)))
      modifies this`root, this`nodes, nodes`left, nodes`right, nodes`parent, nodes`redL, nodes`redR,
               elm`left, elm`right, elm`parent, elm`redL, elm`redR
      ensures nodes == old(nodes) + {elm}
      ensures Split(State(), Top, Rebalance.InsertColor(d, Single(Entry(elm, elm.tagId))))
      ensures rounds == InsertPromotions(d, Single(Entry(elm, elm.tagId)))
    {
      Link(elm, parent, comp, d);
      rounds := InsertColor(elm, d, Single(Entry(elm, elm.tagId)));
    }

    /** The links' side of RB_INSERT: they spelled t, they spell t with elm inserted. */
    method InsertLinks(elm: TagNode, ghost t: Tree<TagNode>) returns (dup: TagNode?, ghost rounds: nat)
      requires Split(State(), Top, t) && Balanced(t) && Ordered(t)
      modifies this`root, this`nodes, nodes`left, nodes`right, nodes`parent, nodes`redL, nodes`redR,
               elm`left, elm`right, elm`parent, elm`redL, elm`redR
      ensures Split(State(), Top, SortedTrees.Insert(t, Entry(elm, elm.tagId)))
      ensures elm.tagId in Keys(InOrder(t)) ==>
                && dup != null && dup in nodes && dup.tagId == elm.tagId
                && State() == old(State()) && elm.Links() == old(elm.Links())
      ensures elm.tagId !in Keys(InOrder(t)) ==>
                dup == null && elm !in old(nodes) && nodes == old(nodes) + {elm}
      ensures rounds == InsertWork(t, Entry(elm, elm.tagId))
    {
      SlotOf(State(), t, Entry(elm, elm.tagId));
      var parent, comp;
      ghost var d, u, steps;
      dup, parent, comp, d, u, steps := Descend(elm.tagId, t);
      if dup != null {
        return dup, 0;
      }
      rounds := InsertInto(elm, parent, comp, d);
    }

    /** RB_INSERT. */
    method Insert(elm: TagNode) returns (dup: TagNode?, ghost rounds: nat)
      requires Valid()
      modifies this, nodes`left, nodes`right, nodes`parent, nodes`redL, nodes`redR,
               elm`left, elm`right, elm`parent, elm`redL, elm`redR
      ensures Valid() && model == SortedTrees.Insert(old(model), Entry(elm, elm.tagId))
      ensures InOrder(model) == InsertSorted(old(InOrder(model)), Entry(elm, elm.tagId))
      ensures elm.tagId in old(Keys(InOrder(model))) ==>
                && dup != null && dup in nodes && dup.tagId == elm.tagId
                && State() == old(State()) && elm.Links() == old(elm.Links())
      ensures elm.tagId !in old(Keys(InOrder(model))) ==>
                dup == null && elm !in old(nodes) && nodes == old(nodes) + {elm}
      ensures rounds == InsertWork(old(model), Entry(elm, elm.tagId))
    {
      ghost var t := model;
      model := SortedTrees.Insert(t, Entry(elm, elm.tagId));
      InsertedSorted(t, Entry(elm, elm.tagId));
      dup, rounds := InsertLinks(elm, t);
    }

    // ---------- Queries ----------

    /** RB_FIND. */
    method Find(key: int) returns (res: TagNode?, ghost steps: nat)
      requires Valid()
      ensures res != null ==> res in nodes && res.tagId == key
      ensures res == null ==> forall n :: n in nodes ==> n.tagId != key
      ensures steps <= Height(model)
    {
      res, steps := root, 0;
      ghost var d, u: Tree<TagNode> := Top, model;
      FocusLinks(State(), d, u);
      while res != null
        invariant Split(State(), d, u) && RootOf(u) == res && (res != null ==> res in nodes)
        invariant Search(d, u, key) == Search(Top, model, key)
        invariant steps + Height(u) <= Height(model)
        decreases u
      {
        FocusLinks(State(), d, u);
        steps := steps + 1;
        var comp := TagCmp(key, res.tagId);
        if comp < 0 {
          res := res.left;
          FocusLeft(State(), d, u);
          d, u := InLeft(d, u.e, u.rl, u.rr, u.r), u.l;
        } else if comp > 0 {
          res := res.right;
          FocusRight(State(), d, u);
          d, u := InRight(d, u.l, u.e, u.rl, u.rr), u.r;
        } else {
          return;
        }
        FocusLinks(State(), d, u);
      }
      NoneBetween(State(), model, key);
    }

    /** RB_NFIND. */
    method NFind(key: int) returns (res: TagNode?)
      requires Valid()
      ensures res != null ==> res in nodes && res.tagId >= key
      ensures res != null ==> forall n :: n in nodes && n.tagId >= key ==> res.tagId <= n.tagId
      ensures res == null ==> forall n :: n in nodes ==> n.tagId < key
    {
      var tmp := root;
      res := null;
      ghost var d, u: Tree<TagNode> := Top, model;
      FocusLinks(State(), d, u);
      while tmp != null
        invariant Split(State(), d, u) && RootOf(u) == tmp && (tmp != null ==> tmp in nodes)
        invariant Search(d, u, key) == Search(Top, model, key)
        invariant res == FirstOf(After(d))
        decreases u
      {
        FocusLinks(State(), d, u);
        var comp := TagCmp(key, tmp.tagId);
        if comp < 0 {
          res := tmp;
          tmp := tmp.left;
          FocusLeft(State(), d, u);
          d, u := InLeft(d, u.e, u.rl, u.rr, u.r), u.l;
        } else if comp > 0 {
          tmp := tmp.right;
          FocusRight(State(), d, u);
          d, u := InRight(d, u.l, u.e, u.rl, u.rr), u.r;
        } else {
          return tmp;
        }
        FocusLinks(State(), d, u);
      }
      FirstAbove(State(), model, key);
      FirstAboveIn(State(), model, key);
    }

    /** RB_MINMAX: the first node in order when val is negative, else the last. */
    method MinMax(val: int) returns (parent: TagNode?)
      requires Shape()
      ensures val < 0 ==> parent == FirstOf(InOrder(model))
      ensures val >= 0 ==> parent == LastOf(InOrder(model))
      ensures parent == null <==> nodes == {}
      ensures parent != null ==> parent in nodes
      ensures Ordered(model) && val < 0 ==> forall n :: n in nodes ==> parent.tagId <= n.tagId
      ensures Ordered(model) && val >= 0 ==> forall n :: n in nodes ==> n.tagId <= parent.tagId
    {
      var tmp := root;
      parent := null;
      EndsExtreme(State(), model);
      ghost var d, u: Tree<TagNode> := Top, model;
      FocusLinks(State(), d, u);
      while tmp != null
        invariant Split(State(), d, u) && RootOf(u) == tmp && (tmp != null ==> tmp in nodes)
        invariant parent == null ==> u == model
        invariant u.Bin? ==>
                  model.Bin? && if val < 0 then MinTree(u) == MinTree(model) else MaxTree(u) == MaxTree(model)
        invariant parent != null && u.Nil? ==>
                    model.Bin? && parent == if val < 0 then MinTree(model).e.x else MaxTree(model).e.x
        decreases u
      {
        FocusLinks(State(), d, u);
        parent := tmp;
        if val < 0 {
          tmp := tmp.left;
          FocusLeft(State(), d, u);
          d, u := InLeft(d, u.e, u.rl, u.rr, u.r), u.l;
        } else {
          tmp := tmp.right;
          FocusRight(State(), d, u);
          d, u := InRight(d, u.l, u.e, u.rl, u.rr), u.r;
        }
        FocusLinks(State(), d, u);
      }
      if model.Bin? {
        MinFirst(model);
        MaxLast(model);
      }
    }

    // ---------- Walking in order ----------

    /** The rightmost node below elm (lines 741-743). */
    method Rightmost(elm0: TagNode, ghost c: Ctx<TagNode>, ghost r: Tree<TagNode>) returns (elm: TagNode)
      requires Split(State(), c, r) && r.Bin? && elm0 == r.e.x
      ensures elm == MaxTree(r).e.x && elm in nodes
    {
      elm := elm0;
      ghost var d, u := c, r;
      FocusLinks(State(), d, u);
      while elm.right != null
        invariant Split(State(), d, u) && u.Bin? && u.e.x == elm && elm in nodes
        invariant MaxTree(u) == MaxTree(r) && elm.right == RootOf(u.r)
        decreases u
      {
        elm := elm.right;
        FocusRight(State(), d, u);
        d, u := InRight(d, u.l, u.e, u.rl, u.rr), u.r;
        FocusLinks(State(), d, u);
      }
    }

    /** Lines 722-730: up past right-child links, then once more. */
    method ClimbRight(elm0: TagNode, ghost d0: Ctx<TagNode>, ghost u0: Tree<TagNode>) returns (elm: TagNode?)
      requires Split(State(), d0, u0) && u0.Bin? && u0.e.x == elm0
      ensures elm == FirstOf(After(d0)) && (elm != null ==> elm in nodes)
    {
      elm := elm0;
      ghost var d, u := d0, u0;
      FocusLinks(State(), d, u);
      if elm.parent != null && elm == elm.parent.left {
        return elm.parent;
      }
      while elm.parent != null && elm == elm.parent.right
        invariant elm != null
        invariant Split(State(), d, u) && u.Bin? && u.e.x == elm && elm in nodes && elm.parent == HoleOf(d)
        invariant After(d) == After(d0)
        decreases d
      {
        FocusLinks(State(), d, u);
        FocusRight(State(), d.up, Joined(d, u));
        elm := elm.parent;
        d, u := d.up, Joined(d, u);
        FocusLinks(State(), d, u);
      }
      FocusLinks(State(), d, u);
      elm := elm.parent;
    }

    /** Lines 745-753, the mirror image. */
    method ClimbLeft(elm0: TagNode, ghost d0: Ctx<TagNode>, ghost u0: Tree<TagNode>) returns (elm: TagNode?)
      requires Split(State(), d0, u0) && u0.Bin? && u0.e.x == elm0
      ensures elm == LastOf(Before(d0)) && (elm != null ==> elm in nodes)
    {
      elm := elm0;
      ghost var d, u := d0, u0;
      FocusLinks(State(), d, u);
      if elm.parent != null && elm == elm.parent.right {
        return elm.parent;
      }
      while elm.parent != null && elm == elm.parent.left
        invariant elm != null
        invariant Split(State(), d, u) && u.Bin? && u.e.x == elm && elm in nodes && elm.parent == HoleOf(d)
        invariant Before(d) == Before(d0)
        decreases d
      {
        FocusLinks(State(), d, u);
        FocusLeft(State(), d.up, Joined(d, u));
        elm := elm.parent;
        d, u := d.up, Joined(d, u);
        FocusLinks(State(), d, u);
      }
      FocusLinks(State(), d, u);
      elm := elm.parent;
    }

    /** RB_NEXT: the node after elm in order, or null. */
    method Next(elm: TagNode) returns (res: TagNode?)
      requires Shape() && elm in nodes
      ensures forall i :: 0 <= i < |InOrder(model)| && InOrder(model)[i].x == elm ==>
                res == FirstOf(InOrder(model)[i + 1..])
      ensures res != null ==> res in nodes
    {
      ghost var d, u := NeighboursOf(State(), model, elm);
      FocusLinks(State(), d, u);
      if elm.right != null {
        FocusRight(State(), d, u);
        MinFirst(u.r);
        res := Leftmost(elm.right, InRight(d, u.l, u.e, u.rl, u.rr), u.r);
      } else {
        res := ClimbRight(elm, d, u);
      }
    }

    /** RB_PREV: the node before elm in order, or null. */
    method Prev(elm: TagNode) returns (res: TagNode?)
      requires Shape() && elm in nodes
      ensures forall i :: 0 <= i < |InOrder(model)| && InOrder(model)[i].x == elm ==>
                res == LastOf(InOrder(model)[..i])
      ensures res != null ==> res in nodes
    {
      ghost var d, u := NeighboursOf(State(), model, elm);
      FocusLinks(State(), d, u);
      if elm.left != null {
        FocusLeft(State(), d, u);
        MaxLast(u.l);
        res := Rightmost(elm.left, InLeft(d, u.e, u.rl, u.rr, u.r), u.l);
      } else {
        res := ClimbLeft(elm, d, u);
      }
    }

    /** The loop of RB_FOREACH, with a body that records the node. */
    method Walk() returns (trace: seq<TagNode>)
      requires Shape()
      ensures trace == Xs(InOrder(model))
    {
      trace := [];
      ghost var o := InOrder(model);
      var x := MinMax(-1);
      while x != null
        invariant |trace| <= |o|
        invariant forall i :: 0 <= i < |trace| ==> trace[i] == o[i].x
        invariant x == (if |trace| < |o| then o[|trace|].x else null) && (x != null ==> x in nodes)
        decreases |o| - |trace|
      {
        ghost var i := |trace|;
        trace := trace + [x];
        x := Next(x);
        assert x == FirstOf(o[i + 1..]);
      }
    }

    /** RB_FOREACH visits every node, once, and in the order of the keys. */
    method Visit() returns (trace: seq<TagNode>)
      requires Shape()
      ensures trace == Xs(InOrder(model))
      ensures forall x :: x in nodes <==> x in trace
      ensures forall i, j :: 0 <= i < j < |trace| ==> trace[i] != trace[j]
      ensures Ordered(model) ==> forall i, j :: 0 <= i < j < |trace| ==> trace[i].tagId < trace[j].tagId
    {
      trace := Walk();
      OrderOfNodes(State(), model);
    }

    // ---------- RB_REINSERT ----------

    /** The user's own assignment to the key of a node that is in the tree. */
    method SetKey(elm: TagNode, k: int)
      requires Shape() && elm in nodes
      modifies this`model, elm`tagId
      ensures Shape() && elm.tagId == k && model == Rekey(old(model), elm, k)
      ensures Without(InOrder(model), elm) == Without(old(InOrder(model)), elm)
    {
      ghost var s, t := State(), model;
      RekeyBalanced(t, elm, k);
      RekeyWithout(t, elm, k);
      model := Rekey(t, elm, k);
      elm.tagId := k;
      ghost var g := State();
      RekeySub(s.h, g.h, t, null, elm, k);
    }

    /** The test of RB_REINSERT (lines 779-782). */
    method OutOfPlace(elm: TagNode) returns (moved: bool)
      requires Shape() && elm in nodes && Sorted(Without(InOrder(model), elm))
      ensures !moved ==> Ordered(model) && elm.tagId !in Keys(Without(InOrder(model), elm))
      ensures !moved ==> InOrder(model) == InsertSorted(Without(InOrder(model), elm), Entry(elm, elm.tagId))
    {
      ghost var i := IndexOf(State(), model, elm);
      var prev := Prev(elm);
      if prev != null && TagCmp(prev.tagId, elm.tagId) >= 0 {
        return true;
      }
      var next := Next(elm);
      if next != null && TagCmp(elm.tagId, next.tagId) >= 0 {
        return true;
      }
      WithoutIndex(InOrder(model), i);
      InPlace(InOrder(model), i);
      return false;
    }

    /** RB_REINSERT, for a tree that is in order but for elm. */
    method Reinsert(elm: TagNode) returns (dup: TagNode?)
      requires Shape() && elm in nodes && Sorted(Without(InOrder(model), elm))
      modifies this, nodes`left, nodes`right, nodes`parent, nodes`redL, nodes`redR
      ensures Valid()
      ensures InOrder(model) == InsertSorted(old(Without(InOrder(model), elm)), Entry(elm, elm.tagId))
      ensures dup == null <==> elm.tagId !in old(Keys(Without(InOrder(model), elm)))
      ensures dup == null ==> nodes == old(nodes)
      ensures dup != null ==> nodes == old(nodes) - {elm} && dup in nodes && dup.tagId == elm.tagId
    {
      var moved := OutOfPlace(elm);
      if !moved {
        return null;
      }
      dup := Replace(elm);
    }

    /** Lines 784-785. */
    method Replace(elm: TagNode) returns (dup: TagNode?)
      requires Shape() && elm in nodes && Sorted(Without(InOrder(model), elm))
      modifies this, nodes`left, nodes`right, nodes`parent, nodes`redL, nodes`redR
      ensures Valid()
      ensures InOrder(model) == InsertSorted(old(Without(InOrder(model), elm)), Entry(elm, elm.tagId))
      ensures dup == null <==> elm.tagId !in old(Keys(Without(InOrder(model), elm)))
      ensures nodes == if dup == null then old(nodes) else old(nodes) - {elm}
      ensures dup != null ==> dup in nodes && dup.tagId == elm.tagId
    {
      var old_;
      ghost var rounds;
      old_, rounds := Remove(elm);
      dup, rounds := Insert(elm);
    }
  }
}
