/**
 What splaying costs (include/sys/tree.h:41-51): the turns of the loop are paid for by a
 potential, the sum of the binary logarithms of all subtrees' weights.
 */
module SplayCost {
  import Bounds
  import opened RankTrees
  import opened SortedTrees
  import opened SplaySpec

  /** The binary logarithm, rounded down. */
  function Lg(n: nat): nat { if n < 2 then 0 else 1 + Lg(n / 2) }

  /** The logarithm to the base 2, rounded down. */
  lemma {:induction false} LgBounds(n: nat)
    requires n > 0
    ensures Bounds.Pow2(Lg(n)) <= n < 2 * Bounds.Pow2(Lg(n))
  {
    if n >= 2 {
      LgBounds(n / 2);
    }
  }

  function Psi<T>(t: Splay<T>): nat {
    match t
    case Empty => 0
    case Fork(l, _, r) => Psi(l) + Lg(Weight(t)) + Psi(r)
  }

  /** How often the loop of SPLAY turns. */
  function Rounds<T>(t: Splay<T>, k: int): nat
    requires t.Fork?
    decreases Weight(t)
  {
    if k < t.e.k then
      if t.l.Empty? then 1
      else
        var u := if k < t.l.e.k then TurnRight(t) else t;
        if u.l.Empty? then 1 else 1 + Rounds(u.l, k)
    else if k > t.e.k then
      if t.r.Empty? then 1
      else
        var u := if k > t.r.e.k then TurnLeft(t) else t;
        if u.r.Empty? then 1 else 1 + Rounds(u.r, k)
    else 0
  }

  /** One turn of the loop below the root's key, or above it: whether it ends the loop, and the middle tree after it. */
  function LeftStep<T>(t: Splay<T>, k: int): (bool, Splay<T>)
    requires t.Fork?
  {
    if t.l.Empty? then (true, t)
    else
      var u := if k < t.l.e.k then TurnRight(t) else t;
      if u.l.Empty? then (true, u) else (false, u.l)
  }

  function RightStep<T>(t: Splay<T>, k: int): (bool, Splay<T>)
    requires t.Fork?
  {
    if t.r.Empty? then (true, t)
    else
      var u := if k > t.r.e.k then TurnLeft(t) else t;
      if u.r.Empty? then (true, u) else (false, u.r)
  }

  lemma RoundsStep<T>(t: Splay<T>, k: int)
    requires t.Fork? && k != t.e.k
    ensures var (stop, u) := if k < t.e.k then LeftStep(t, k) else RightStep(t, k);
      u.Fork? && Rounds(t, k) == if stop then 1 else 1 + Rounds(u, k)
  {
  }

  // ---------- Logarithms ----------

  lemma {:induction false} LgMonotone(a: nat, b: nat)
    requires a <= b
    ensures Lg(a) <= Lg(b)
  {
    if a >= 2 {
      LgMonotone(a / 2, b / 2);
    }
  }

  /** Of two parts of a whole one has at most half the weight. */
  lemma LgParts(a: nat, b: nat, c: nat)
    requires a + b <= c && c >= 2
    ensures Lg(a) + Lg(b) <= 2 * Lg(c) - 1
  {
    LgMonotone(if a <= b then a else b, c / 2);
    LgMonotone(if a <= b then b else a, c);
  }

  // ---------- What a turn leaves for the turns below ----------

  lemma {:induction false} LoopParts<T>(s: Smaller<T>, t: Splay<T>, g: Greater<T>, k: int)
    requires t.Fork?
    ensures var r := SplayAt(t, k); SplayLoop(s, t, g, k) == Fork(CloseS(s, r.l), r.e, CloseG(g, r.r))
    decreases Weight(t)
  {
    if k < t.e.k && t.l.Fork? {
      var u := if k < t.l.e.k then TurnRight(t) else t;
      if u.l.Fork? {
        LoopParts(s, u.l, Less(g, u.e, u.r), k);
        LoopParts(NoSmaller, u.l, Less(NoGreater, u.e, u.r), k);
      }
    } else if k > t.e.k && t.r.Fork? {
      var u := if k > t.r.e.k then TurnLeft(t) else t;
      if u.r.Fork? {
        LoopParts(More(s, u.l, u.e), u.r, g, k);
        LoopParts(More(NoSmaller, u.l, u.e), u.r, NoGreater, k);
      }
    }
  }

  lemma LeftPart<T>(t: Splay<T>, u: Splay<T>, k: int)
    requires t.Fork? && k < t.e.k && t.l.Fork? && u == (if k < t.l.e.k then TurnRight(t) else t) && u.l.Fork?
    ensures var v := SplayAt(u.l, k); SplayAt(t, k) == Fork(v.l, v.e, Fork(v.r, u.e, u.r))
  {
    LoopParts(NoSmaller, u.l, Less(NoGreater, u.e, u.r), k);
  }

  lemma RightPart<T>(t: Splay<T>, u: Splay<T>, k: int)
    requires t.Fork? && k > t.e.k && t.r.Fork? && u == (if k > t.r.e.k then TurnLeft(t) else t) && u.r.Fork?
    ensures var v := SplayAt(u.r, k); SplayAt(t, k) == Fork(Fork(u.l, u.e, v.l), v.e, v.r)
  {
    LoopParts(More(NoSmaller, u.l, u.e), u.r, NoGreater, k);
  }

  lemma {:induction false} SplayWeight<T>(t: Splay<T>, k: int)
    requires t.Fork?
    ensures Weight(SplayAt(t, k)) == Weight(t)
    decreases Weight(t)
  {
    if k < t.e.k && t.l.Fork? {
      var u := if k < t.l.e.k then TurnRight(t) else t;
      if u.l.Fork? {
        LeftPart(t, u, k);
        SplayWeight(u.l, k);
      }
    } else if k > t.e.k && t.r.Fork? {
      var u := if k > t.r.e.k then TurnLeft(t) else t;
      if u.r.Fork? {
        RightPart(t, u, k);
        SplayWeight(u.r, k);
      }
    }
  }

  // ---------- The cost of one splay ----------

  /** The turns, and twice the potential of the two sides of the result. */
  function Bill<T>(t: Splay<T>, k: int): nat
    requires t.Fork?
  {
    var r := SplayAt(t, k);
    Rounds(t, k) + 2 * Psi(r.l) + 2 * Psi(r.r)
  }

  /**
   The bill is within the potential and four logarithms. If the first turn goes right, it stays so, but for one, with
   the left side's weight charged as the whole weight: a turn the other way just above makes use of that. And mirrored.
   */
  predicate Paid<T>(t: Splay<T>, k: int)
    requires t.Fork?
  {
    var (r, w) := (SplayAt(t, k), Lg(Weight(t)));
    && Bill(t, k) <= 2 * Psi(t) + 4 * w + 1
    && (k >= t.e.k ==> Bill(t, k) + 2 * (w - Lg(Weight(r.l))) <= 2 * Psi(t) + 4 * w + 2)
    && (k <= t.e.k ==> Bill(t, k) + 2 * (w - Lg(Weight(r.r))) <= 2 * Psi(t) + 4 * w + 2)
  }

  /** One step to the left, after which the loop goes right or stops. */
  lemma PaidOneLeft<T>(t: Splay<T>, k: int)
    requires t.Fork? && k < t.e.k && t.l.Fork? && k >= t.l.e.k && Paid(t.l, k)
    ensures Paid(t, k)
  {
    var (v, w) := (SplayAt(t.l, k), Weight(t));
    LeftPart(t, t, k);
    SplayWeight(t.l, k);
    LgMonotone(Weight(t.l), w);
    LgParts(Weight(v.l), Weight(Fork(v.r, t.e, t.r)), w);
  }

  lemma PaidOneRight<T>(t: Splay<T>, k: int)
    requires t.Fork? && k > t.e.k && t.r.Fork? && k <= t.r.e.k && Paid(t.r, k)
    ensures Paid(t, k)
  {
    var (v, w) := (SplayAt(t.r, k), Weight(t));
    RightPart(t, t, k);
    SplayWeight(t.r, k);
    LgMonotone(Weight(t.r), w);
    LgParts(Weight(v.r), Weight(Fork(t.l, t.e, v.l)), w);
  }

  lemma PsiTwoLeft<T>(t: Splay<T>)
    requires t.Fork? && t.l.Fork?
    ensures Psi(t) == Psi(t.l.l) + Lg(Weight(t.l)) + Psi(t.l.r) + Lg(Weight(t)) + Psi(t.r)
    ensures Psi(TurnRight(t).r) == Psi(t.l.r) + Lg(Weight(TurnRight(t).r)) + Psi(t.r)
    ensures Weight(t.l.l) + Weight(TurnRight(t).r) + 1 == Weight(t)
    ensures Weight(t.l.l) < Weight(t.l) < Weight(t)
  {
  }

  lemma PsiTwoRight<T>(t: Splay<T>)
    requires t.Fork? && t.r.Fork?
    ensures Psi(t) == Psi(t.l) + Lg(Weight(t)) + Psi(t.r.l) + Lg(Weight(t.r)) + Psi(t.r.r)
    ensures Psi(TurnLeft(t).l) == Psi(t.l) + Lg(Weight(TurnLeft(t).l)) + Psi(t.r.l)
    ensures Weight(t.r.r) + Weight(TurnLeft(t).l) + 1 == Weight(t)
    ensures Weight(t.r.r) < Weight(t.r) < Weight(t)
  {
  }

  /** Two steps to the left, with a rotation: the node turned down and the rest of the path share the old weight. */
  lemma PaidTwoLeft<T>(t: Splay<T>, k: int)
    requires t.Fork? && k < t.e.k && t.l.Fork? && k < t.l.e.k && t.l.l.Fork? && Paid(t.l.l, k)
    ensures Paid(t, k)
  {
    var (w, u, v) := (Weight(t), TurnRight(t), SplayAt(t.l.l, k));
    PsiTwoLeft(t);
    LeftPart(t, u, k);
    SplayWeight(t.l.l, k);
    LgMonotone(Weight(t.l.l), Weight(t.l));
    LgMonotone(Weight(Fork(v.r, u.e, u.r)), w);
    LgParts(Weight(t.l.l), Weight(u.r), w);
    assert Bill(t, k) == 1 + Bill(t.l.l, k) + 2 * Lg(Weight(Fork(v.r, u.e, u.r))) + 2 * Psi(u.r);
  }

  lemma PaidTwoRight<T>(t: Splay<T>, k: int)
    requires t.Fork? && k > t.e.k && t.r.Fork? && k > t.r.e.k && t.r.r.Fork? && Paid(t.r.r, k)
    ensures Paid(t, k)
  {
    var (w, u, v) := (Weight(t), TurnLeft(t), SplayAt(t.r.r, k));
    PsiTwoRight(t);
    RightPart(t, u, k);
    SplayWeight(t.r.r, k);
    LgMonotone(Weight(t.r.r), Weight(t.r));
    LgMonotone(Weight(Fork(u.l, u.e, v.l)), w);
    LgParts(Weight(t.r.r), Weight(u.l), w);
    assert Bill(t, k) == 1 + Bill(t.r.r, k) + 2 * Lg(Weight(Fork(u.l, u.e, v.l))) + 2 * Psi(u.l);
  }

  /** A rotation after which nothing is left to walk into. */
  lemma PaidTurned<T>(t: Splay<T>, k: int)
    requires t.Fork?
    requires || (k < t.e.k && t.l.Fork? && k < t.l.e.k && t.l.l.Empty?)
             || (k > t.e.k && t.r.Fork? && k > t.r.e.k && t.r.r.Empty?)
    ensures Paid(t, k)
  {
    if k < t.e.k {
      PsiTwoLeft(t);
      LgMonotone(Weight(TurnRight(t).r), Weight(t));
    } else {
      PsiTwoRight(t);
      LgMonotone(Weight(TurnLeft(t).l), Weight(t));
    }
  }

  lemma {:induction false} Pays<T>(t: Splay<T>, k: int)
    requires t.Fork?
    ensures Paid(t, k)
    decreases Weight(t)
  {
    if k < t.e.k && t.l.Fork? {
      PsiTwoLeft(t);
      if k >= t.l.e.k {
        Pays(t.l, k);
        PaidOneLeft(t, k);
      } else if t.l.l.Fork? {
        Pays(t.l.l, k);
        PaidTwoLeft(t, k);
      } else {
        PaidTurned(t, k);
      }
    } else if k > t.e.k && t.r.Fork? {
      PsiTwoRight(t);
      if k <= t.r.e.k {
        Pays(t.r, k);
        PaidOneRight(t, k);
      } else if t.r.r.Fork? {
        Pays(t.r.r, k);
        PaidTwoRight(t, k);
      } else {
        PaidTurned(t, k);
      }
    } else {
      LgMonotone(Weight(t.l), Weight(t));
      LgMonotone(Weight(t.r), Weight(t));
    }
  }

  /** Turns, and twice the potential, rise by at most six logarithms of the weight and one. */
  lemma SplayTurns<T>(t: Splay<T>, k: int)
    requires t.Fork?
    ensures Rounds(t, k) + 2 * Psi(SplayAt(t, k)) <= 2 * Psi(t) + 6 * Lg(Weight(t)) + 1
  {
    Pays(t, k);
    SplayWeight(t, k);
  }

  // ---------- Runs ----------

  datatype Access<T> = Visit(k: int) | Put(e: Entry<T>) | Cut(k: int)

  /** SPLAY_FIND, SPLAY_INSERT and SPLAY_REMOVE. */
  function Do<T>(t: Splay<T>, a: Access<T>): Splay<T> {
    match a
    case Visit(k) => if t.Empty? then t else SplayAt(t, k)
    case Put(e) => SplayInsert(t, e)
    case Cut(k) => SplayRemove(t, k)
  }

  /** The turns of all splays of one operation. */
  function Turns<T>(t: Splay<T>, a: Access<T>): nat {
    if t.Empty? then 0
    else
      match a
      case Visit(k) => Rounds(t, k)
      case Put(e) => Rounds(t, e.k)
      case Cut(k) =>
        var u := SplayAt(t, k);
        Rounds(t, k) + if u.e.k == k && u.l.Fork? then Rounds(u.l, k) else 0
  }

  /** Splitting the splayed tree under a new root costs the root's logarithm. */
  lemma SplitPsi<T>(u: Splay<T>, e: Entry<T>)
    requires u.Fork?
    ensures Psi(Fork(u.l, e, Fork(Empty, u.e, u.r))) <= Psi(u) + Lg(Weight(u) + 1)
    ensures Psi(Fork(Fork(u.l, u.e, Empty), e, u.r)) <= Psi(u) + Lg(Weight(u) + 1)
  {
    assert Weight<T>(Empty) == 0 && Psi<T>(Empty) == 0;
    LgMonotone(Weight(Fork(Empty, u.e, u.r)), Weight(u));
    LgMonotone(Weight(Fork(u.l, u.e, Empty)), Weight(u));
    assert Psi(Fork(Empty, u.e, u.r)) == Lg(Weight(Fork(Empty, u.e, u.r))) + Psi(u.r);
    assert Psi(Fork(u.l, u.e, Empty)) == Psi(u.l) + Lg(Weight(Fork(u.l, u.e, Empty)));
  }

  lemma PutCost<T>(t: Splay<T>, e: Entry<T>)
    ensures Weight(SplayInsert(t, e)) <= Weight(t) + 1
    ensures Turns(t, Put(e)) + 2 * Psi(SplayInsert(t, e)) <= 2 * Psi(t) + 12 * Lg(Weight(t) + 1) + 2
  {
    if t.Fork? {
      SplayTurns(t, e.k);
      SplayWeight(t, e.k);
      SplitPsi(SplayAt(t, e.k), e);
      LgMonotone(Weight(t), Weight(t) + 1);
    }
  }

  /** Hanging the right part on the splayed left part costs no more than the old root did. */
  lemma JoinPsi<T>(u: Splay<T>, v: Splay<T>)
    requires u.Fork? && v.Fork? && Weight(v) == Weight(u.l)
    ensures Weight(Fork(v.l, v.e, u.r)) <= Weight(u)
    ensures Psi(Fork(v.l, v.e, u.r)) <= Psi(v) + Lg(Weight(u)) + Psi(u.r)
  {
    LgMonotone(Weight(Fork(v.l, v.e, u.r)), Weight(u));
  }

  lemma CutCost<T>(t: Splay<T>, k: int)
    ensures Weight(SplayRemove(t, k)) <= Weight(t)
    ensures Turns(t, Cut(k)) + 2 * Psi(SplayRemove(t, k)) <= 2 * Psi(t) + 12 * Lg(Weight(t) + 1) + 2
  {
    if t.Fork? {
      var u := SplayAt(t, k);
      SplayTurns(t, k);
      SplayWeight(t, k);
      LgMonotone(Weight(t), Weight(t) + 1);
      if u.e.k == k && u.l.Fork? {
        SplayTurns(u.l, k);
        SplayWeight(u.l, k);
        LgMonotone(Weight(u.l), Weight(t));
        JoinPsi(u, SplayAt(u.l, k));
      }
    }
  }

  /**
   One operation of any kind: at most twelve logarithms of the weight, and two, from the potential's point of view.
   */
  lemma AccessCost<T>(t: Splay<T>, a: Access<T>)
    ensures Weight(Do(t, a)) <= Weight(t) + if a.Put? then 1 else 0
    ensures Turns(t, a) + 2 * Psi(Do(t, a)) <= 2 * Psi(t) + 12 * Lg(Weight(t) + 1) + 2
  {
    match a
    case Visit(k) =>
      if t.Fork? {
        SplayTurns(t, k);
        SplayWeight(t, k);
        LgMonotone(Weight(t), Weight(t) + 1);
      }
    case Put(e) => PutCost(t, e);
    case Cut(k) => CutCost(t, k);
  }

  /** The tree and all turns after a run from the empty tree. */
  function Play<T>(run: seq<Access<T>>): (Splay<T>, nat) {
    if run == [] then (Empty, 0)
    else
      var (t, n) := Play(run[..|run| - 1]);
      (Do(t, run[|run| - 1]), n + Turns(t, run[|run| - 1]))
  }

  function Puts<T>(run: seq<Access<T>>): nat {
    if run == [] then 0 else Puts(run[..|run| - 1]) + if run[|run| - 1].Put? then 1 else 0
  }

  lemma {:induction false} RunTurnsWithin<T>(run: seq<Access<T>>, n: nat)
    requires Puts(run) <= n
    ensures var (t, turns) := Play(run);
      Weight(t) <= Puts(run) && turns + 2 * Psi(t) <= |run| * (12 * Lg(n + 1) + 2)
    decreases |run|
  {
    if run != [] {
      var (init, a) := (run[..|run| - 1], run[|run| - 1]);
      var t := Play(init).0;
      RunTurnsWithin(init, n);
      AccessCost(t, a);
      LgMonotone(Weight(t) + 1, n + 1);
      OneMore(|init|, 12 * Lg(n + 1) + 2);
    }
  }

  lemma OneMore(m: nat, c: nat)
    ensures (m + 1) * c == m * c + c
  {
  }

  /** Any m operations with n insertions among them, from the empty tree, turn O(m lg n) times in all. */
  lemma RunTurns<T>(run: seq<Access<T>>)
    ensures Play(run).1 <= |run| * (12 * Lg(Puts(run) + 1) + 2)
  {
    RunTurnsWithin(run, Puts(run));
  }
}
