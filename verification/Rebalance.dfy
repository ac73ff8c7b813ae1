/**
 What RB_INSERT_COLOR and RB_REMOVE_COLOR do to the tree as a value, and why it is right:
 in-order sequence kept, rank rule restored, rebalancing work paid for by a potential.
 */
module Rebalance {
  import opened RankTrees

  // ---------- Insertion ----------

  predicate IsLeaf<T>(t: Tree<T>) { t.Bin? && t.l.Nil? && t.r.Nil? }

  predicate Is22<T>(t: Tree<T>) { t.Bin? && t.rl && t.rr }

  /** One red bit, and the child on the other side is a node that is not (2,2). */
  predicate OneRed<T>(t: Tree<T>) {
    && t.Bin? && t.rl != t.rr
    && (if t.rl then t.r.Bin? && !Is22(t.r) else t.l.Bin? && !Is22(t.l))
  }

  /** The subtree t has grown: its rank is one more than its slot in c records. */
  predicate InsertReady<T>(c: Ctx<T>, t: Tree<T>) {
    Balanced(t) && Fits(c, Rank(t) - 1) && (IsLeaf(t) || OneRed(t))
  }

  /** A rotation is never due while t is the fresh leaf. */
  lemma RotationNeedsOneRed<T>(c: Ctx<T>, t: Tree<T>)
    requires InsertReady(c, t)
    ensures c.InLeft? && !c.rl && c.rr ==> OneRed(t)
    ensures c.InRight? && !c.rr && c.rl ==> OneRed(t)
  {
    if c.InLeft? { RankPositive(c.r); }
    if c.InRight? { RankPositive(c.l); }
  }

  /** The tree left behind by the insertion loop started at t with t's rank one too high. */
  function InsertColor<T>(c: Ctx<T>, t: Tree<T>): Tree<T>
    requires InsertReady(c, t)
    decreases c
  {
    RotationNeedsOneRed(c, t);
    match c
    case Top => t
    case InLeft(up, e, rl, rr, r) =>
      if rl then Plug(up, Bin(t, e, false, rr, r))
      else if !rr then InsertColor(up, Bin(t, e, false, true, r))
      else if t.rr then Plug(up, SingleRight(t, e, r))
      else Plug(up, DoubleRight(t, e, r))
    case InRight(up, l, e, rl, rr) =>
      if rr then Plug(up, Bin(l, e, rl, false, t))
      else if !rl then InsertColor(up, Bin(l, e, true, false, t))
      else if t.rl then Plug(up, SingleLeft(l, e, t))
      else Plug(up, DoubleLeft(l, e, t))
  }

  function SingleRight<T>(t: Tree<T>, e: Entry<T>, r: Tree<T>): Tree<T>
    requires t.Bin?
  {
    Bin(t.l, t.e, false, false, Bin(t.r, e, false, false, r))
  }

  function SingleLeft<T>(l: Tree<T>, e: Entry<T>, t: Tree<T>): Tree<T>
    requires t.Bin?
  {
    Bin(Bin(l, e, false, false, t.l), t.e, false, false, t.r)
  }

  function DoubleRight<T>(t: Tree<T>, e: Entry<T>, r: Tree<T>): Tree<T>
    requires t.Bin? && t.r.Bin?
  {
    var m := t.r;
    Bin(Bin(t.l, t.e, false, m.rl, m.l), m.e, false, false, Bin(m.r, e, m.rr, false, r))
  }

  function DoubleLeft<T>(l: Tree<T>, e: Entry<T>, t: Tree<T>): Tree<T>
    requires t.Bin? && t.l.Bin?
  {
    var m := t.l;
    Bin(Bin(l, e, false, m.rl, m.l), m.e, false, false, Bin(m.r, t.e, m.rr, false, t.r))
  }

  /** How many times the insertion loop takes its `continue` branch. */
  function InsertPromotions<T>(c: Ctx<T>, t: Tree<T>): nat
    requires InsertReady(c, t)
    decreases c
  {
    match c
    case Top => 0
    case InLeft(up, e, rl, rr, r) =>
      if rl || rr then 0 else 1 + InsertPromotions(up, Bin(t, e, false, true, r))
    case InRight(up, l, e, rl, rr) =>
      if rl || rr then 0 else 1 + InsertPromotions(up, Bin(l, e, true, false, t))
  }

  /** The tree at the parent after a promotion. */
  function Promoted<T>(c: Ctx<T>, t: Tree<T>): Tree<T>
    requires !c.Top?
  {
    if c.InLeft? then Bin(t, c.e, false, true, c.r) else Bin(c.l, c.e, true, false, t)
  }

  lemma PromotionStep<T>(c: Ctx<T>, t: Tree<T>)
    requires InsertReady(c, t) && !c.Top?
    ensures !c.rl && !c.rr ==>
              && InsertReady(c.up, Promoted(c, t))
              && InsertColor(c.up, Promoted(c, t)) == InsertColor(c, t)
              && 1 + InsertPromotions(c.up, Promoted(c, t)) == InsertPromotions(c, t)
    ensures c.rl || c.rr ==> InsertPromotions(c, t) == 0
  {
  }

  lemma RotationsKeepOrder<T>(t: Tree<T>, e: Entry<T>, s: Tree<T>)
    requires t.Bin?
    ensures InOrder(SingleRight(t, e, s)) == InOrder(t) + [e] + InOrder(s)
    ensures InOrder(SingleLeft(s, e, t)) == InOrder(s) + [e] + InOrder(t)
  {
    Regroup(InOrder(t.l), [t.e], InOrder(t.r), [e], InOrder(s));
    Regroup(InOrder(s), [e], InOrder(t.l), [t.e], InOrder(t.r));
  }

  lemma DoubleRotationsKeepOrder<T>(t: Tree<T>, e: Entry<T>, s: Tree<T>)
    requires t.Bin?
    ensures t.r.Bin? ==> InOrder(DoubleRight(t, e, s)) == InOrder(t) + [e] + InOrder(s)
    ensures t.l.Bin? ==> InOrder(DoubleLeft(s, e, t)) == InOrder(s) + [e] + InOrder(t)
  {
    if t.r.Bin? {
      Regroup7(InOrder(t.l), [t.e], InOrder(t.r.l), [t.r.e], InOrder(t.r.r), [e], InOrder(s));
    }
    if t.l.Bin? {
      Regroup7(InOrder(s), [e], InOrder(t.l.l), [t.l.e], InOrder(t.l.r), [t.e], InOrder(t.r));
    }
  }

  lemma Regroup7<X>(a: seq<X>, b: seq<X>, c: seq<X>, d: seq<X>, f: seq<X>, g: seq<X>, h: seq<X>)
    ensures a + b + c + d + (f + g + h) == a + b + (c + d + f) + g + h
    ensures a + b + c + d + (f + g + h) == a + b + ((c + d + f) + g + h)
  {
    assert a + b + c + d + (f + g + h) == a + b + (c + d + f) + g + h;
    assert a + b + (c + d + f) + g + h == a + b + ((c + d + f) + g + h);
  }

  lemma {:induction false} InsertColorInOrder<T>(c: Ctx<T>, t: Tree<T>)
    requires InsertReady(c, t)
    ensures InOrder(InsertColor(c, t)) == InOrder(Plug(c, t))
    decreases c
  {
    RotationNeedsOneRed(c, t);
    match c
    case Top =>
    case InLeft(up, e, rl, rr, r) =>
      if !rl && !rr {
        InsertColorInOrder(up, Bin(t, e, false, true, r));
      } else if !rl {
        RotationsKeepOrder(t, e, r);
        DoubleRotationsKeepOrder(t, e, r);
      }
      SameInOrder(up);
    case InRight(up, l, e, rl, rr) =>
      if !rl && !rr {
        InsertColorInOrder(up, Bin(l, e, true, false, t));
      } else if !rr {
        RotationsKeepOrder(t, e, l);
        DoubleRotationsKeepOrder(t, e, l);
      }
      SameInOrder(up);
  }

  /** What a context makes of a tree's sequence depends on the sequence alone. */
  lemma SameInOrder<T>(c: Ctx<T>)
    ensures forall s: Tree<T>, t: Tree<T> {:trigger Plug(c, s), Plug(c, t)} ::
              InOrder(s) == InOrder(t) ==> InOrder(Plug(c, s)) == InOrder(Plug(c, t))
  {
    forall s: Tree<T>, t: Tree<T> {:trigger Plug(c, s), Plug(c, t)} | InOrder(s) == InOrder(t)
      ensures InOrder(Plug(c, s)) == InOrder(Plug(c, t))
    {
      PlugInOrder(c, s);
      PlugInOrder(c, t);
    }
  }

  /** A double rotation restores the rank rule and gives a tree of t's rank. */
  lemma DoubleRotationsBalanced<T>(t: Tree<T>, e: Entry<T>, s: Tree<T>)
    requires Balanced(t) && OneRed(t) && Balanced(s) && Rank(s) == Rank(t) - 2
    ensures t.rl ==> Balanced(DoubleRight(t, e, s)) && Rank(DoubleRight(t, e, s)) == Rank(t)
    ensures t.rr ==> Balanced(DoubleLeft(s, e, t)) && Rank(DoubleLeft(s, e, t)) == Rank(t)
  {
    var m := if t.rl then t.r else t.l;
    assert Balanced(m) && Balanced(m.l) && Balanced(m.r) && Rank(m) == Rank(t) - 1;
    RankPositive(m.l);
    RankPositive(m.r);
    RankPositive(s);
    assert Rank(Bin(if t.rl then t.l else s, e, false, m.rl, m.l)) == Rank(t) - 1;
  }

  lemma {:induction false} InsertColorBalanced<T>(c: Ctx<T>, t: Tree<T>)
    requires InsertReady(c, t)
    ensures Balanced(InsertColor(c, t))
    decreases c
  {
    RotationNeedsOneRed(c, t);
    match c
    case Top =>
    case InLeft(up, e, rl, rr, r) =>
      if rl {
        PlugBalanced(up, Bin(t, e, false, rr, r));
      } else if !rr {
        InsertColorBalanced(up, Bin(t, e, false, true, r));
      } else if t.rr {
        PlugBalanced(up, SingleRight(t, e, r));
      } else {
        DoubleRotationsBalanced(t, e, r);
        PlugBalanced(up, DoubleRight(t, e, r));
      }
    case InRight(up, l, e, rl, rr) =>
      if rr {
        PlugBalanced(up, Bin(l, e, rl, false, t));
      } else if !rl {
        InsertColorBalanced(up, Bin(l, e, true, false, t));
      } else if t.rl {
        PlugBalanced(up, SingleLeft(l, e, t));
      } else {
        DoubleRotationsBalanced(t, e, l);
        PlugBalanced(up, DoubleLeft(l, e, t));
      }
  }

  // ---------- Removal ----------

  /**
   The subtree t has shrunk: its rank is one less than its slot in c records.
   A parent left without children is not handled by the loop (see Close).
   */
  predicate RemoveReady<T>(c: Ctx<T>, t: Tree<T>) {
    Balanced(t) && Fits(c, Rank(t) + 1) && !BareParent(c, t)
  }

  /** Filling c's hole with t leaves the parent of the hole without children. */
  predicate BareParent<T>(c: Ctx<T>, t: Tree<T>) {
    t.Nil? && ((c.InLeft? && c.r.Nil?) || (c.InRight? && c.l.Nil?))
  }

  function Clear<T>(t: Tree<T>): (s: Tree<T>)
    requires t.Bin?
    ensures InOrder(s) == InOrder(t)
    ensures Balanced(t) && Is22(t) ==> Balanced(s) && Rank(s) == Rank(t) - 1
  {
    Bin(t.l, t.e, false, false, t.r)
  }

  /** When a rotation is due, the sibling is a node, and its inner child is one when a double rotation is. */
  lemma SiblingPresent<T>(c: Ctx<T>, t: Tree<T>)
    requires RemoveReady(c, t)
    ensures c.InLeft? && c.rl && !c.rr ==> c.r.Bin? && Rank(c.r) == Rank(t) + 2
    ensures c.InLeft? && c.rl && !c.rr && !c.r.rl ==> c.r.l.Bin? && Rank(c.r.l) == Rank(t) + 1
    ensures c.InRight? && c.rr && !c.rl ==> c.l.Bin? && Rank(c.l) == Rank(t) + 2
    ensures c.InRight? && c.rr && !c.rl && !c.l.rr ==> c.l.r.Bin? && Rank(c.l.r) == Rank(t) + 1
  {
    RankPositive(t);
    if c.InLeft? && c.rl && !c.rr { RankPositive(c.r); RankPositive(c.r.l); }
    if c.InRight? && c.rr && !c.rl { RankPositive(c.l); RankPositive(c.l.r); }
  }

  /** The tree left behind by the removal loop started at t with t's rank one too low. */
  function RemoveColor<T>(c: Ctx<T>, t: Tree<T>): Tree<T>
    requires RemoveReady(c, t)
    decreases c
  {
    SiblingPresent(c, t);
    match c
    case Top => t
    case InLeft(up, e, rl, rr, r) =>
      if !rl then Plug(up, Bin(t, e, true, rr, r))
      else if rr then RemoveColor(up, Bin(t, e, true, false, r))
      else if r.rl && r.rr then RemoveColor(up, Bin(t, e, true, false, Clear(r)))
      else Plug(up, DemoteLeft(t, e, r))
    case InRight(up, l, e, rl, rr) =>
      if !rr then Plug(up, Bin(l, e, rl, true, t))
      else if rl then RemoveColor(up, Bin(l, e, false, true, t))
      else if l.rl && l.rr then RemoveColor(up, Bin(Clear(l), e, false, true, t))
      else Plug(up, DemoteRight(l, e, t))
  }

  /** The rotations of the removal loop: the parent e sinks to t's side and the sibling s rises. */
  function DemoteLeft<T>(t: Tree<T>, e: Entry<T>, s: Tree<T>): Tree<T>
    requires s.Bin? && !(s.rl && s.rr) && (!s.rl ==> s.l.Bin?)
  {
    if s.rl then Bin(Bin(t, e, false, false, s.l), s.e, true, true, s.r)
    else if s.rr then
      var m := s.l;
      Bin(Bin(t, e, false, m.rl, m.l), m.e, true, true, Bin(m.r, s.e, m.rr, false, s.r))
    else Bin(Bin(t, e, true, false, s.l), s.e, false, true, s.r)
  }

  function DemoteRight<T>(s: Tree<T>, e: Entry<T>, t: Tree<T>): Tree<T>
    requires s.Bin? && !(s.rl && s.rr) && (!s.rr ==> s.r.Bin?)
  {
    if s.rr then Bin(s.l, s.e, true, true, Bin(s.r, e, false, false, t))
    else if s.rl then
      var m := s.r;
      Bin(Bin(s.l, s.e, false, m.rl, m.l), m.e, true, true, Bin(m.r, e, m.rr, false, t))
    else Bin(s.l, s.e, true, false, Bin(s.r, e, false, true, t))
  }

  /** How many times the removal loop takes one of its `continue` branches. */
  function RemoveDemotions<T>(c: Ctx<T>, t: Tree<T>): nat
    requires RemoveReady(c, t)
    decreases c
  {
    SiblingPresent(c, t);
    match c
    case Top => 0
    case InLeft(up, e, rl, rr, r) =>
      if !rl then 0
      else if rr then 1 + RemoveDemotions(up, Bin(t, e, true, false, r))
      else if r.rl && r.rr then 1 + RemoveDemotions(up, Bin(t, e, true, false, Clear(r)))
      else 0
    case InRight(up, l, e, rl, rr) =>
      if !rr then 0
      else if rl then 1 + RemoveDemotions(up, Bin(l, e, false, true, t))
      else if l.rl && l.rr then 1 + RemoveDemotions(up, Bin(Clear(l), e, false, true, t))
      else 0
  }

  lemma DemotionsKeepOrder<T>(t: Tree<T>, e: Entry<T>, s: Tree<T>)
    requires s.Bin? && !(s.rl && s.rr)
    ensures (s.rl || s.l.Bin?) ==> InOrder(DemoteLeft(t, e, s)) == InOrder(t) + [e] + InOrder(s)
    ensures (s.rr || s.r.Bin?) ==> InOrder(DemoteRight(s, e, t)) == InOrder(s) + [e] + InOrder(t)
  {
    Regroup(InOrder(t), [e], InOrder(s.l), [s.e], InOrder(s.r));
    Regroup(InOrder(s.l), [s.e], InOrder(s.r), [e], InOrder(t));
    if s.l.Bin? {
      Regroup7(InOrder(t), [e], InOrder(s.l.l), [s.l.e], InOrder(s.l.r), [s.e], InOrder(s.r));
    }
    if s.r.Bin? {
      Regroup7(InOrder(s.l), [s.e], InOrder(s.r.l), [s.r.e], InOrder(s.r.r), [e], InOrder(t));
    }
  }

  lemma {:induction false} RemoveColorInOrder<T>(c: Ctx<T>, t: Tree<T>)
    requires RemoveReady(c, t)
    ensures InOrder(RemoveColor(c, t)) == InOrder(Plug(c, t))
    decreases c
  {
    SiblingPresent(c, t);
    match c
    case Top =>
    case InLeft(up, e, rl, rr, r) =>
      if rl && rr {
        RemoveColorInOrder(up, Bin(t, e, true, false, r));
      } else if rl && r.rl && r.rr {
        RemoveColorInOrder(up, Bin(t, e, true, false, Clear(r)));
      } else if rl {
        DemotionsKeepOrder(t, e, r);
      }
      SameInOrder(up);
    case InRight(up, l, e, rl, rr) =>
      if rr && rl {
        RemoveColorInOrder(up, Bin(l, e, false, true, t));
      } else if rr && l.rl && l.rr {
        RemoveColorInOrder(up, Bin(Clear(l), e, false, true, t));
      } else if rr {
        DemotionsKeepOrder(t, e, l);
      }
      SameInOrder(up);
  }

  /** Every rotation of the removal loop restores the rank rule and gives the rank the slot records. */
  lemma DemotionsBalanced<T>(t: Tree<T>, e: Entry<T>, s: Tree<T>)
    requires Balanced(t) && Balanced(s) && s.Bin? && !Is22(s) && Rank(s) == Rank(t) + 2
    ensures (s.rl || s.l.Bin?) ==>
              Balanced(DemoteLeft(t, e, s)) && Rank(DemoteLeft(t, e, s)) == Rank(t) + 3
    ensures (s.rr || s.r.Bin?) ==>
              Balanced(DemoteRight(s, e, t)) && Rank(DemoteRight(s, e, t)) == Rank(t) + 3
  {
    RankPositive(t);
    RankPositive(s.l);
    RankPositive(s.r);
    if s.l.Bin? { assert Balanced(s.l); RankPositive(s.l.l); RankPositive(s.l.r); }
    if s.r.Bin? { assert Balanced(s.r); RankPositive(s.r.l); RankPositive(s.r.r); }
  }

  lemma {:induction false} RemoveColorBalanced<T>(c: Ctx<T>, t: Tree<T>)
    requires RemoveReady(c, t)
    ensures Balanced(RemoveColor(c, t))
    decreases c
  {
    SiblingPresent(c, t);
    RankPositive(t);
    match c
    case Top =>
    case InLeft(up, e, rl, rr, r) =>
      if !rl {
        RankPositive(r);
        PlugBalanced(up, Bin(t, e, true, rr, r));
      } else if rr {
        RemoveColorBalanced(up, Bin(t, e, true, false, r));
      } else if r.rl && r.rr {
        RemoveColorBalanced(up, Bin(t, e, true, false, Clear(r)));
      } else {
        DemotionsBalanced(t, e, r);
        PlugBalanced(up, DemoteLeft(t, e, r));
      }
    case InRight(up, l, e, rl, rr) =>
      if !rr {
        RankPositive(l);
        PlugBalanced(up, Bin(l, e, rl, true, t));
      } else if rl {
        RemoveColorBalanced(up, Bin(l, e, false, true, t));
      } else if l.rl && l.rr {
        RemoveColorBalanced(up, Bin(Clear(l), e, false, true, t));
      } else {
        DemotionsBalanced(t, e, l);
        PlugBalanced(up, DemoteRight(l, e, t));
      }
  }

  /** The tree at the parent after a demotion, with or without demoting the sibling too. */
  function Demoted<T>(c: Ctx<T>, t: Tree<T>): Tree<T>
    requires !c.Top? && (c.InLeft? && !c.rr ==> c.r.Bin?) && (c.InRight? && !c.rl ==> c.l.Bin?)
  {
    if c.InLeft? then Bin(t, c.e, true, false, if c.rr then c.r else Clear(c.r))
    else Bin(if c.rl then c.l else Clear(c.l), c.e, false, true, t)
  }

  /** The parent is demoted: the edge to t is red, and so is the other one, or the sibling is (2,2). */
  predicate Demotes<T>(c: Ctx<T>, t: Tree<T>) {
    || (c.InLeft? && c.rl && (c.rr || Is22(c.r)))
    || (c.InRight? && c.rr && (c.rl || Is22(c.l)))
  }

  lemma DemotionStep<T>(c: Ctx<T>, t: Tree<T>)
    requires RemoveReady(c, t) && !c.Top?
    ensures Demotes(c, t) ==>
              && RemoveReady(c.up, Demoted(c, t))
              && RemoveColor(c.up, Demoted(c, t)) == RemoveColor(c, t)
              && 1 + RemoveDemotions(c.up, Demoted(c, t)) == RemoveDemotions(c, t)
    ensures !Demotes(c, t) ==> RemoveDemotions(c, t) == 0
  {
    SiblingPresent(c, t);
  }

  // ---------- Entering the removal loop ----------

  predicate CloseReady<T>(c: Ctx<T>, t: Tree<T>) { Balanced(t) && Fits(c, Rank(t) + 1) }

  function Single<T>(e: Entry<T>): Tree<T> { Bin(Nil, e, false, false, Nil) }

  /** RB_REMOVE_COLOR as a whole: a parent left without children becomes a leaf before the loop starts. */
  function Close<T>(c: Ctx<T>, t: Tree<T>): Tree<T>
    requires CloseReady(c, t)
  {
    if BareParent(c, t) then RemoveColor(c.up, Single(c.e)) else RemoveColor(c, t)
  }

  function CloseDemotions<T>(c: Ctx<T>, t: Tree<T>): nat
    requires CloseReady(c, t)
  {
    if BareParent(c, t) then RemoveDemotions(c.up, Single(c.e)) else RemoveDemotions(c, t)
  }

  lemma BareListed<T>(c: Ctx<T>, t: Tree<T>)
    requires BareParent(c, t)
    ensures Before(c) + InOrder(t) + After(c) == Before(c.up) + InOrder(Single(c.e)) + After(c.up)
  {
    assert InOrder(Single(c.e)) == [c.e] && InOrder(t) == [];
    if c.InLeft? {
      assert After(c) == [c.e] + After(c.up);
    } else {
      assert Before(c) == Before(c.up) + [c.e];
    }
  }

  lemma CloseBare<T>(c: Ctx<T>, t: Tree<T>)
    requires CloseReady(c, t) && BareParent(c, t)
    ensures Balanced(Close(c, t)) && InOrder(Close(c, t)) == Before(c) + InOrder(t) + After(c)
  {
    RemoveColorBalanced(c.up, Single(c.e));
    RemoveColorInOrder(c.up, Single(c.e));
    PlugInOrder(c.up, Single(c.e));
    BareListed(c, t);
  }

  lemma CloseCorrect<T>(c: Ctx<T>, t: Tree<T>)
    requires CloseReady(c, t)
    ensures Balanced(Close(c, t)) && InOrder(Close(c, t)) == Before(c) + InOrder(t) + After(c)
  {
    if BareParent(c, t) {
      CloseBare(c, t);
    } else {
      RemoveColorBalanced(c, t);
      RemoveColorInOrder(c, t);
      PlugInOrder(c, t);
    }
  }

  // ---------- Removing the node under the focus ----------

  /** The leftmost node of r, and the context of its place when r hangs in c. */
  function MinTree<T>(r: Tree<T>): (m: Tree<T>)
    requires r.Bin?
    ensures m.Bin? && m.l.Nil?
  {
    if r.l.Nil? then r else MinTree(r.l)
  }

  function MinCtx<T>(c: Ctx<T>, r: Tree<T>): Ctx<T>
    requires r.Bin?
    decreases r
  {
    if r.l.Nil? then c else MinCtx(InLeft(c, r.e, r.rl, r.rr, r.r), r.l)
  }

  /** Where the hole is after t's root is taken out, and what then fills it. */
  function CutCtx<T>(c: Ctx<T>, t: Tree<T>): Ctx<T>
    requires t.Bin?
  {
    if t.l.Nil? || t.r.Nil? then c
    else MinCtx(InRight(c, t.l, MinTree(t.r).e, t.rl, t.rr), t.r)
  }

  function CutTree<T>(t: Tree<T>): Tree<T>
    requires t.Bin?
  {
    if t.l.Nil? then t.r else if t.r.Nil? then t.l else MinTree(t.r).r
  }

  lemma {:induction false} MinCtxReady<T>(c: Ctx<T>, r: Tree<T>)
    requires r.Bin? && Balanced(r) && Fits(c, Rank(r))
    ensures CloseReady(MinCtx(c, r), MinTree(r).r)
    decreases r
  {
    RankPositive(r.l);
    RankPositive(r.r);
    if r.l.Bin? {
      MinCtxReady(InLeft(c, r.e, r.rl, r.rr, r.r), r.l);
    }
  }

  lemma {:induction false} MinCtxInOrder<T>(c: Ctx<T>, r: Tree<T>)
    requires r.Bin?
    ensures Before(MinCtx(c, r)) == Before(c)
    ensures [MinTree(r).e] + InOrder(MinTree(r).r) + After(MinCtx(c, r)) == InOrder(r) + After(c)
    decreases r
  {
    if r.l.Bin? {
      MinCtxInOrder(InLeft(c, r.e, r.rl, r.rr, r.r), r.l);
      assert InOrder(r.l) + ([r.e] + InOrder(r.r) + After(c)) == InOrder(r) + After(c);
    } else {
      assert InOrder(r) == [r.e] + InOrder(r.r);
    }
  }

  lemma MinCtxFits<T>(c: Ctx<T>, r: Tree<T>)
    requires r.Bin? && Balanced(r) && Fits(c, Rank(r))
    ensures CloseReady(MinCtx(c, r), MinTree(r).r)
    ensures Before(MinCtx(c, r)) == Before(c)
    ensures [MinTree(r).e] + InOrder(MinTree(r).r) + After(MinCtx(c, r)) == InOrder(r) + After(c)
  {
    MinCtxReady(c, r);
    MinCtxInOrder(c, r);
  }

  lemma CutReady<T>(c: Ctx<T>, t: Tree<T>)
    requires t.Bin? && Balanced(t) && Fits(c, Rank(t))
    ensures CloseReady(CutCtx(c, t), CutTree(t))
  {
    RankPositive(t.l);
    RankPositive(t.r);
    if t.l.Bin? && t.r.Bin? {
      MinCtxFits(InRight(c, t.l, MinTree(t.r).e, t.rl, t.rr), t.r);
    }
  }

  lemma CutInOrder<T>(c: Ctx<T>, t: Tree<T>)
    requires t.Bin? && Balanced(t) && Fits(c, Rank(t))
    ensures Before(CutCtx(c, t)) + InOrder(CutTree(t)) + After(CutCtx(c, t))
         == Before(c) + InOrder(t.l) + InOrder(t.r) + After(c)
  {
    if t.l.Bin? && t.r.Bin? {
      var m := MinTree(t.r);
      var c1 := InRight(c, t.l, m.e, t.rl, t.rr);
      MinCtxFits(c1, t.r);
      Cat(Before(c) + InOrder(t.l), [m.e], InOrder(m.r), After(MinCtx(c1, t.r)));
      Cat(Before(c) + InOrder(t.l), [], InOrder(t.r), After(c));
    }
  }

  lemma Cat<X>(a: seq<X>, b: seq<X>, c: seq<X>, d: seq<X>)
    ensures a + b + c + d == a + (b + c + d)
    ensures b == [] ==> a + (c + d) == a + c + d
  {
  }

  /** RB_REMOVE of the node under the focus. */
  function RemoveAt<T>(c: Ctx<T>, t: Tree<T>): Tree<T>
    requires t.Bin? && Balanced(t) && Fits(c, Rank(t))
  {
    CutReady(c, t);
    Close(CutCtx(c, t), CutTree(t))
  }

  lemma RemoveAtCorrect<T>(c: Ctx<T>, t: Tree<T>)
    requires t.Bin? && Balanced(t) && Fits(c, Rank(t))
    ensures Balanced(RemoveAt(c, t))
    ensures InOrder(RemoveAt(c, t)) == Before(c) + InOrder(t.l) + InOrder(t.r) + After(c)
  {
    CutReady(c, t);
    CutInOrder(c, t);
    CloseCorrect(CutCtx(c, t), CutTree(t));
  }
}
