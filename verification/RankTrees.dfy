/**
 Rank-balanced (weak AVL) trees as values.

 A tree node carries its entry and two bits.  A set bit says that the rank
 difference to that child is 2, a clear bit that it is 1; ranks are never
 stored.  A Ctx is a tree with one subtree missing, read from the hole up to
 the root: it is the value behind a chain of parent links.
 */
module RankTrees {

  datatype Entry<T> = Entry(x: T, k: int)

  datatype Tree<T> =
    | Nil
    | Bin(l: Tree<T>, e: Entry<T>, rl: bool, rr: bool, r: Tree<T>)

  datatype Ctx<T> =
    | Top
    | InLeft(up: Ctx<T>, e: Entry<T>, rl: bool, rr: bool, r: Tree<T>)
    | InRight(up: Ctx<T>, l: Tree<T>, e: Entry<T>, rl: bool, rr: bool)

  function Plug<T>(c: Ctx<T>, t: Tree<T>): Tree<T>
    decreases c
  {
    match c
    case Top => t
    case InLeft(up, e, rl, rr, r) => Plug(up, Bin(t, e, rl, rr, r))
    case InRight(up, l, e, rl, rr) => Plug(up, Bin(l, e, rl, rr, t))
  }

  // ---------- In-order sequence ----------

  function InOrder<T>(t: Tree<T>): seq<Entry<T>> {
    match t
    case Nil => []
    case Bin(l, e, _, _, r) => InOrder(l) + [e] + InOrder(r)
  }

  /** The entries that come before the hole of c, and those that come after it. */
  function Before<T>(c: Ctx<T>): seq<Entry<T>> {
    match c
    case Top => []
    case InLeft(up, _, _, _, _) => Before(up)
    case InRight(up, l, e, _, _) => Before(up) + InOrder(l) + [e]
  }

  function After<T>(c: Ctx<T>): seq<Entry<T>> {
    match c
    case Top => []
    case InLeft(up, e, _, _, r) => [e] + InOrder(r) + After(up)
    case InRight(up, _, _, _, _) => After(up)
  }

  /** Concatenation of five parts, bracketed the three ways the context lemmas need. */
  lemma Regroup<X>(a: seq<X>, b: seq<X>, c: seq<X>, d: seq<X>, f: seq<X>)
    ensures a + (b + c + d) + f == a + b + (c + d + f)
    ensures a + (b + c + d) + f == (a + b + c) + d + f
  {
    assert a + (b + c + d) + f == a + b + (c + d + f);
    assert a + (b + c + d) + f == (a + b + c) + d + f;
  }

  lemma {:induction false} PlugInOrder<T>(c: Ctx<T>, t: Tree<T>)
    ensures InOrder(Plug(c, t)) == Before(c) + InOrder(t) + After(c)
    decreases c
  {
    match c
    case Top =>
    case InLeft(up, e, rl, rr, r) =>
      PlugInOrder(up, Bin(t, e, rl, rr, r));
      Regroup(Before(up), InOrder(t), [e], InOrder(r), After(up));
    case InRight(up, l, e, rl, rr) =>
      PlugInOrder(up, Bin(l, e, rl, rr, t));
      Regroup(Before(up), InOrder(l), [e], InOrder(t), After(up));
  }

  // ---------- Ranks ----------

  function Diff(red: bool): int { if red then 2 else 1 }

  /** The rank read off the leftmost path; on a balanced tree every path gives it. */
  function Rank<T>(t: Tree<T>): int {
    match t
    case Nil => 0
    case Bin(l, _, rl, _, _) => Rank(l) + Diff(rl)
  }

  /** All rank differences are 1 or 2, both sides agree on the rank, and no leaf has a red bit. */
  predicate Balanced<T>(t: Tree<T>) {
    match t
    case Nil => true
    case Bin(l, _, rl, rr, r) =>
      && Balanced(l) && Balanced(r)
      && Rank(l) + Diff(rl) == Rank(r) + Diff(rr)
      && (l.Nil? && r.Nil? ==> !rl && !rr)
  }

  /** Putting a balanced tree of rank h in the hole makes the whole tree balanced. */
  predicate Fits<T>(c: Ctx<T>, h: int)
    decreases c
  {
    match c
    case Top => true
    case InLeft(up, _, rl, rr, r) =>
      && Balanced(r) && h + Diff(rl) == Rank(r) + Diff(rr)
      && (h == 0 && r.Nil? ==> !rl)
      && Fits(up, h + Diff(rl))
    case InRight(up, l, _, rl, rr) =>
      && Balanced(l) && h + Diff(rr) == Rank(l) + Diff(rl)
      && (h == 0 && l.Nil? ==> !rl)
      && Fits(up, h + Diff(rr))
  }

  lemma {:induction false} RankPositive<T>(t: Tree<T>)
    ensures Rank(t) >= 0 && (Rank(t) == 0 <==> t.Nil?)
  {
    match t
    case Nil =>
    case Bin(l, _, _, _, _) => RankPositive(l);
  }

  /** One level up from the hole. */
  function Joined<T>(c: Ctx<T>, t: Tree<T>): Tree<T>
    requires !c.Top?
  {
    if c.InLeft? then Bin(t, c.e, c.rl, c.rr, c.r) else Bin(c.l, c.e, c.rl, c.rr, t)
  }

  lemma JoinedBalanced<T>(c: Ctx<T>, t: Tree<T>)
    requires !c.Top?
    ensures Balanced(Joined(c, t)) && Fits(c.up, Rank(Joined(c, t))) <==> Balanced(t) && Fits(c, Rank(t))
  {
    RankPositive(t);
    RankPositive(if c.InLeft? then c.r else c.l);
  }

  lemma {:induction false} PlugBalanced<T>(c: Ctx<T>, t: Tree<T>)
    ensures Balanced(Plug(c, t)) <==> Balanced(t) && Fits(c, Rank(t))
    decreases c
  {
    if !c.Top? {
      JoinedBalanced(c, t);
      PlugBalanced(c.up, Joined(c, t));
    }
  }

  // ---------- Keys and order ----------

  predicate Sorted<T>(s: seq<Entry<T>>) {
    forall i, j :: 0 <= i < j < |s| ==> s[i].k < s[j].k
  }

  predicate Ordered<T>(t: Tree<T>) { Sorted(InOrder(t)) }

  predicate Below<T>(s: seq<Entry<T>>, k: int) { forall i :: 0 <= i < |s| ==> s[i].k < k }

  predicate Above<T>(s: seq<Entry<T>>, k: int) { forall i :: 0 <= i < |s| ==> k < s[i].k }

  // ---------- Size and height ----------

  function Size<T>(t: Tree<T>): (n: nat) {
    match t
    case Nil => 0
    case Bin(l, _, _, _, r) => Size(l) + 1 + Size(r)
  }

  function Max(a: int, b: int): int { if a < b then b else a }

  /** Nodes on the longest path to nil. */
  function Height<T>(t: Tree<T>): (h: nat) {
    match t
    case Nil => 0
    case Bin(l, _, _, _, r) => 1 + Max(Height(l), Height(r))
  }

  // ---------- Left and right exchanged ----------

  function Mirror<T>(t: Tree<T>): (m: Tree<T>)
    ensures m.Nil? <==> t.Nil?
    ensures t.Bin? ==> m.e == t.e
  {
    match t
    case Nil => Nil
    case Bin(l, e, rl, rr, r) => Bin(Mirror(r), e, rr, rl, Mirror(l))
  }

  function MirrorCtx<T>(c: Ctx<T>): (m: Ctx<T>)
    ensures m.Top? <==> c.Top?
    ensures !c.Top? ==> m.e == c.e
    decreases c
  {
    match c
    case Top => Top
    case InLeft(up, e, rl, rr, r) => InRight(MirrorCtx(up), Mirror(r), e, rr, rl)
    case InRight(up, l, e, rl, rr) => InLeft(MirrorCtx(up), e, rr, rl, Mirror(l))
  }

  lemma {:induction false} MirrorTwice<T>(t: Tree<T>)
    ensures Mirror(Mirror(t)) == t
  {
    match t
    case Nil =>
    case Bin(l, _, _, _, r) =>
      MirrorTwice(l);
      MirrorTwice(r);
  }

  lemma {:induction false} MirrorCtxTwice<T>(c: Ctx<T>)
    ensures MirrorCtx(MirrorCtx(c)) == c
    decreases c
  {
    match c
    case Top =>
    case InLeft(up, _, _, _, r) =>
      MirrorCtxTwice(up);
      MirrorTwice(r);
    case InRight(up, l, _, _, _) =>
      MirrorCtxTwice(up);
      MirrorTwice(l);
  }
}
