/**
 How deep the trees get and how much rebalancing they cost.
 */
module Bounds {
  import opened RankTrees
  import opened Rebalance
  import opened SortedTrees

  // ---------- Height ----------

  function Pow2(n: nat): nat { if n == 0 then 1 else 2 * Pow2(n - 1) }

  lemma {:induction false} Pow2Monotone(m: nat, n: nat)
    requires m <= n
    ensures Pow2(m) <= Pow2(n)
  {
    if m < n {
      Pow2Monotone(m, n - 1);
    }
  }

  lemma SumSquares(a: nat, b: nat, m: nat)
    requires m <= a * a && m <= b * b
    ensures 4 * m <= (a + b) * (a + b)
  {
    assert (a + b) * (a + b) == a * a + 2 * (a * b) + b * b;
    if a <= b {
      assert a * a <= a * b;
    } else {
      assert b * b <= a * b;
    }
  }

  lemma {:induction false} RankBounds<T>(t: Tree<T>)
    requires Balanced(t)
    ensures Height(t) <= Rank(t)
    ensures Pow2(Rank(t)) <= (Size(t) + 1) * (Size(t) + 1)
  {
    RankPositive(t);
    if t.Bin? {
      RankBounds(t.l);
      RankBounds(t.r);
      RankPositive(t.l);
      RankPositive(t.r);
      var a, b := Size(t.l) + 1, Size(t.r) + 1;
      if Rank(t) >= 2 {
        Pow2Monotone(Rank(t) - 2, Rank(t.l));
        Pow2Monotone(Rank(t) - 2, Rank(t.r));
        SumSquares(a, b, Pow2(Rank(t) - 2));
        assert Pow2(Rank(t)) == 4 * Pow2(Rank(t) - 2);
      } else {
        SumSquares(a, b, 1);
      }
      assert Size(t) + 1 == a + b;
    }
  }

  /** The header's claim: height at most 2 lg (n + 1). */
  lemma HeightBound<T>(t: Tree<T>)
    requires Balanced(t)
    ensures Pow2(Height(t)) <= (Size(t) + 1) * (Size(t) + 1)
  {
    RankBounds(t);
    Pow2Monotone(Height(t), Rank(t));
  }

  function Depth<T>(c: Ctx<T>): nat
    decreases c
  {
    if c.Top? then 0 else 1 + Depth(c.up)
  }

  lemma {:induction false} PlugHeight<T>(c: Ctx<T>, t: Tree<T>)
    ensures Depth(c) + Height(t) <= Height(Plug(c, t))
    decreases c
  {
    if !c.Top? {
      PlugHeight(c.up, Joined(c, t));
    }
  }

  lemma {:induction false} PromotionsWithinDepth<T>(c: Ctx<T>, t: Tree<T>)
    requires InsertReady(c, t)
    ensures InsertPromotions(c, t) <= Depth(c)
    decreases c
  {
    if !c.Top? {
      PromotionStep(c, t);
      if !c.rl && !c.rr {
        PromotionsWithinDepth(c.up, Promoted(c, t));
      }
    }
  }

  lemma {:induction false} DemotionsWithinDepth<T>(c: Ctx<T>, t: Tree<T>)
    requires RemoveReady(c, t)
    ensures RemoveDemotions(c, t) <= Depth(c)
    decreases c
  {
    if !c.Top? {
      DemotionStep(c, t);
      if Demotes(c, t) {
        DemotionsWithinDepth(c.up, Demoted(c, t));
      }
    }
  }

  lemma {:induction false} MinDepth<T>(c: Ctx<T>, r: Tree<T>)
    requires r.Bin?
    ensures Depth(MinCtx(c, r)) < Depth(c) + Height(r)
    decreases r
  {
    if r.l.Bin? {
      MinDepth(InLeft(c, r.e, r.rl, r.rr, r.r), r.l);
    }
  }

  /** Neither colour loop goes on more often than the tree is high. */
  lemma InsertWithinHeight<T>(t: Tree<T>, e: Entry<T>)
    requires Balanced(t)
    ensures InsertWork(t, e) <= Height(t)
  {
    var (d, u) := Search(Top, t, e.k);
    SearchPlug(Top, t, e.k);
    PlugHeight(d, u);
    if u.Nil? {
      FreshLeafReady(t, e);
      PromotionsWithinDepth(d, Single(e));
    }
  }

  lemma RemoveWithinHeight<T>(t: Tree<T>, x: T)
    requires Balanced(t) && Has(t, x)
    ensures RemoveWork(t, x) <= Height(t)
  {
    PathReady(t, x);
    var (d, u) := Path(Top, t, x);
    PlugHeight(d, u);
    CutReady(d, u);
    var (c, v) := (CutCtx(d, u), CutTree(u));
    if u.l.Bin? && u.r.Bin? {
      MinDepth(InRight(d, u.l, MinTree(u.r).e, u.rl, u.rr), u.r);
    }
    if BareParent(c, v) {
      DemotionsWithinDepth(c.up, Single(c.e));
    } else {
      DemotionsWithinDepth(c, v);
    }
  }

  // ---------- The potential ----------

  /** What a node's pair of bits stores: 1 for (1,1), 2 for (2,2). */
  function Credit(rl: bool, rr: bool): nat { if rl != rr then 0 else if rl then 2 else 1 }

  function Phi<T>(t: Tree<T>): nat {
    match t
    case Nil => 0
    case Bin(l, _, rl, rr, r) => Phi(l) + Credit(rl, rr) + Phi(r)
  }

  function PhiCtx<T>(c: Ctx<T>): nat
    decreases c
  {
    match c
    case Top => 0
    case InLeft(up, _, rl, rr, r) => PhiCtx(up) + Credit(rl, rr) + Phi(r)
    case InRight(up, l, _, rl, rr) => PhiCtx(up) + Credit(rl, rr) + Phi(l)
  }

  lemma {:induction false} PlugPhi<T>(c: Ctx<T>, t: Tree<T>)
    ensures Phi(Plug(c, t)) == PhiCtx(c) + Phi(t)
    decreases c
  {
    if !c.Top? {
      PlugPhi(c.up, Joined(c, t));
    }
  }

  /** Each promotion is paid for by the potential; the end of the loop adds at most 2. */
  lemma {:induction false} InsertColorPhi<T>(c: Ctx<T>, t: Tree<T>)
    requires InsertReady(c, t)
    ensures InsertPromotions(c, t) + Phi(InsertColor(c, t)) <= PhiCtx(c) + Phi(t) + 2
    decreases c
  {
    RotationNeedsOneRed(c, t);
    match c
    case Top =>
    case InLeft(up, e, rl, rr, r) =>
      if rl {
        PlugPhi(up, Bin(t, e, false, rr, r));
      } else if !rr {
        InsertColorPhi(up, Bin(t, e, false, true, r));
      } else if t.rr {
        PlugPhi(up, SingleRight(t, e, r));
      } else {
        PlugPhi(up, DoubleRight(t, e, r));
      }
    case InRight(up, l, e, rl, rr) =>
      if rr {
        PlugPhi(up, Bin(l, e, rl, false, t));
      } else if !rl {
        InsertColorPhi(up, Bin(l, e, true, false, t));
      } else if t.rl {
        PlugPhi(up, SingleLeft(l, e, t));
      } else {
        PlugPhi(up, DoubleLeft(l, e, t));
      }
  }

  lemma DemotionsPhi<T>(t: Tree<T>, e: Entry<T>, s: Tree<T>)
    requires s.Bin? && !Is22(s)
    ensures (s.rl || s.l.Bin?) ==> Phi(DemoteLeft(t, e, s)) <= Phi(t) + Phi(s) + 3
    ensures (s.rr || s.r.Bin?) ==> Phi(DemoteRight(s, e, t)) <= Phi(s) + Phi(t) + 3
  {
    if !s.rl && s.rr && s.l.Bin? {
      assert Phi(s) == Phi(s.l.l) + Credit(s.l.rl, s.l.rr) + Phi(s.l.r) + Phi(s.r);
    }
    if !s.rr && s.rl && s.r.Bin? {
      assert Phi(s) == Phi(s.r.l) + Credit(s.r.rl, s.r.rr) + Phi(s.r.r) + Phi(s.l);
    }
  }

  /** Each demotion is paid for by the potential; the end of the loop adds at most 3. */
  lemma {:induction false} RemoveColorPhi<T>(c: Ctx<T>, t: Tree<T>)
    requires RemoveReady(c, t)
    ensures RemoveDemotions(c, t) + Phi(RemoveColor(c, t)) <= PhiCtx(c) + Phi(t) + 3
    decreases c
  {
    SiblingPresent(c, t);
    match c
    case Top =>
    case InLeft(up, e, rl, rr, r) =>
      if !rl {
        PlugPhi(up, Bin(t, e, true, rr, r));
      } else if rr {
        RemoveColorPhi(up, Bin(t, e, true, false, r));
      } else if r.rl && r.rr {
        RemoveColorPhi(up, Bin(t, e, true, false, Clear(r)));
      } else {
        DemotionsPhi(t, e, r);
        PlugPhi(up, DemoteLeft(t, e, r));
      }
    case InRight(up, l, e, rl, rr) =>
      if !rr {
        PlugPhi(up, Bin(l, e, rl, true, t));
      } else if rl {
        RemoveColorPhi(up, Bin(l, e, false, true, t));
      } else if l.rl && l.rr {
        RemoveColorPhi(up, Bin(Clear(l), e, false, true, t));
      } else {
        DemotionsPhi(t, e, l);
        PlugPhi(up, DemoteRight(l, e, t));
      }
  }

  lemma InsertCost<T>(t: Tree<T>, e: Entry<T>)
    requires Balanced(t)
    ensures InsertWork(t, e) + Phi(Insert(t, e)) <= Phi(t) + 3
  {
    var (d, u) := Search(Top, t, e.k);
    SearchPlug(Top, t, e.k);
    PlugPhi(d, u);
    if u.Nil? {
      FreshLeafReady(t, e);
      InsertColorPhi(d, Single(e));
    }
  }

  lemma {:induction false} MinPhi<T>(c: Ctx<T>, r: Tree<T>)
    requires r.Bin?
    ensures PhiCtx(MinCtx(c, r)) + Phi(MinTree(r)) == PhiCtx(c) + Phi(r)
    decreases r
  {
    if r.l.Bin? {
      MinPhi(InLeft(c, r.e, r.rl, r.rr, r.r), r.l);
    }
  }

  lemma {:induction false} MinLeaf<T>(r: Tree<T>)
    requires r.Bin? && Balanced(r)
    ensures Balanced(MinTree(r))
    ensures MinTree(r).r.Nil? ==> Phi(MinTree(r)) == 1
  {
    if r.l.Bin? {
      MinLeaf(r.l);
    }
  }

  /** The node taken out held one unit if it was a leaf, which pays for turning its parent into one. */
  lemma CutPhi<T>(c: Ctx<T>, t: Tree<T>)
    requires t.Bin? && Balanced(t)
    ensures PhiCtx(CutCtx(c, t)) + Phi(CutTree(t)) + (if CutTree(t).Nil? then 1 else 0) <= PhiCtx(c) + Phi(t)
  {
    if t.l.Bin? && t.r.Bin? {
      MinPhi(InRight(c, t.l, MinTree(t.r).e, t.rl, t.rr), t.r);
      MinLeaf(t.r);
    }
  }

  lemma RemoveCost<T>(t: Tree<T>, x: T)
    requires Balanced(t) && Has(t, x)
    ensures RemoveWork(t, x) + Phi(Remove(t, x)) <= Phi(t) + 3
  {
    PathReady(t, x);
    var (d, u) := Path(Top, t, x);
    PlugPhi(d, u);
    CutReady(d, u);
    CutPhi(d, u);
    var (c, v) := (CutCtx(d, u), CutTree(u));
    if BareParent(c, v) {
      RemoveColorPhi(c.up, Single(c.e));
    } else {
      RemoveColorPhi(c, v);
    }
  }

  // ---------- Insert-only trees are AVL trees ----------

  predicate No22<T>(t: Tree<T>) {
    t.Bin? ==> !(t.rl && t.rr) && No22(t.l) && No22(t.r)
  }

  predicate No22Ctx<T>(c: Ctx<T>)
    decreases c
  {
    !c.Top? ==> !(c.rl && c.rr) && No22(if c.InLeft? then c.r else c.l) && No22Ctx(c.up)
  }

  lemma {:induction false} PlugNo22<T>(c: Ctx<T>, t: Tree<T>)
    ensures No22(Plug(c, t)) <==> No22Ctx(c) && No22(t)
    decreases c
  {
    if !c.Top? {
      PlugNo22(c.up, Joined(c, t));
    }
  }

  lemma {:induction false} InsertColorNo22<T>(c: Ctx<T>, t: Tree<T>)
    requires InsertReady(c, t) && No22Ctx(c) && No22(t)
    ensures No22(InsertColor(c, t))
    decreases c
  {
    RotationNeedsOneRed(c, t);
    match c
    case Top =>
    case InLeft(up, e, rl, rr, r) =>
      if rl {
        PlugNo22(up, Bin(t, e, false, rr, r));
      } else if !rr {
        InsertColorNo22(up, Bin(t, e, false, true, r));
      } else if t.rr {
        PlugNo22(up, SingleRight(t, e, r));
      } else {
        PlugNo22(up, DoubleRight(t, e, r));
      }
    case InRight(up, l, e, rl, rr) =>
      if rr {
        PlugNo22(up, Bin(l, e, rl, false, t));
      } else if !rl {
        InsertColorNo22(up, Bin(l, e, true, false, t));
      } else if t.rl {
        PlugNo22(up, SingleLeft(l, e, t));
      } else {
        PlugNo22(up, DoubleLeft(l, e, t));
      }
  }

  lemma InsertKeepsAvl<T>(t: Tree<T>, e: Entry<T>)
    requires Balanced(t) && No22(t)
    ensures No22(Insert(t, e))
  {
    var (d, u) := Search(Top, t, e.k);
    SearchPlug(Top, t, e.k);
    PlugNo22(d, u);
    if u.Nil? {
      FreshLeafReady(t, e);
      InsertColorNo22(d, Single(e));
    }
  }

  /** The AVL rule: the heights of the two subtrees of every node differ by at most 1. */
  predicate Avl<T>(t: Tree<T>) {
    t.Bin? ==> -1 <= Height(t.l) - Height(t.r) <= 1 && Avl(t.l) && Avl(t.r)
  }

  lemma {:induction false} No22IsAvl<T>(t: Tree<T>)
    requires Balanced(t) && No22(t)
    ensures Rank(t) == Height(t) && Avl(t)
  {
    if t.Bin? {
      No22IsAvl(t.l);
      No22IsAvl(t.r);
    }
  }
}
