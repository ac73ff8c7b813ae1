/**
 Rank-balanced trees as sorted dictionaries: insertion by key, removal of a node,
 and their agreement with plain sorted sequences.
 */
module SortedTrees {
  import opened RankTrees
  import opened Rebalance

  // ---------- The reference: strictly sorted sequences ----------

  function InsertSorted<T>(s: seq<Entry<T>>, e: Entry<T>): seq<Entry<T>> {
    if s == [] then [e]
    else if e.k < s[0].k then [e] + s
    else if e.k == s[0].k then s
    else [s[0]] + InsertSorted(s[1..], e)
  }

  function Without<T(==)>(s: seq<Entry<T>>, x: T): seq<Entry<T>> {
    if s == [] then []
    else if s[0].x == x then Without(s[1..], x)
    else [s[0]] + Without(s[1..], x)
  }

  predicate Distinct<T(==)>(s: seq<Entry<T>>) {
    forall i, j :: 0 <= i < j < |s| ==> s[i].x != s[j].x
  }

  predicate Mentions<T(==)>(s: seq<Entry<T>>, x: T) { exists i :: 0 <= i < |s| && s[i].x == x }

  lemma {:induction false} InsertSortedBetween<T>(a: seq<Entry<T>>, e: Entry<T>, b: seq<Entry<T>>)
    requires Below(a, e.k) && Above(b, e.k)
    ensures InsertSorted(a + b, e) == a + [e] + b
  {
    if a == [] {
      assert a + b == b && a + [e] + b == [e] + b;
    } else {
      InsertSortedBetween(a[1..], e, b);
      assert (a + b)[1..] == a[1..] + b;
      assert [a[0]] + (a[1..] + [e] + b) == a + [e] + b;
    }
  }

  lemma {:induction false} InsertSortedSame<T>(a: seq<Entry<T>>, e: Entry<T>, b: seq<Entry<T>>)
    requires Below(a, e.k) && b != [] && b[0].k == e.k
    ensures InsertSorted(a + b, e) == a + b
  {
    if a == [] {
      assert a + b == b;
    } else {
      InsertSortedSame(a[1..], e, b);
      assert (a + b)[1..] == a[1..] + b;
      assert [a[0]] + (a[1..] + b) == a + b;
    }
  }

  lemma {:induction false} WithoutAbsent<T>(s: seq<Entry<T>>, x: T)
    requires !Mentions(s, x)
    ensures Without(s, x) == s
  {
    if s != [] {
      assert s[0].x != x;
      forall i | 0 <= i < |s| - 1
        ensures s[1..][i].x != x
      {
        assert s[1..][i] == s[i + 1];
      }
      WithoutAbsent(s[1..], x);
    }
  }

  lemma {:induction false} WithoutAt<T>(a: seq<Entry<T>>, e: Entry<T>, b: seq<Entry<T>>)
    requires Distinct(a + [e] + b)
    ensures Without(a + [e] + b, e.x) == a + b
  {
    var s := a + [e] + b;
    if a == [] {
      assert s[0] == e && s[1..] == b && a + b == b;
      forall i | 0 <= i < |b|
        ensures b[i].x != e.x
      {
        assert b[i] == s[i + 1];
      }
      WithoutAbsent(b, e.x);
    } else {
      assert s[0] == a[0] && s[1..] == a[1..] + [e] + b && s[|a|] == e;
      WithoutAt(a[1..], e, b);
      assert [a[0]] + (a[1..] + b) == a + b;
    }
  }

  // ---------- Searching by key ----------

  /** Walking down from t, which hangs in c, towards key k: the place where the walk stops. */
  function Search<T>(c: Ctx<T>, t: Tree<T>, k: int): (Ctx<T>, Tree<T>)
    decreases t
  {
    if t.Nil? || t.e.k == k then (c, t)
    else if k < t.e.k then Search(InLeft(c, t.e, t.rl, t.rr, t.r), t.l, k)
    else Search(InRight(c, t.l, t.e, t.rl, t.rr), t.r, k)
  }

  lemma {:induction false} SearchPlug<T>(c: Ctx<T>, t: Tree<T>, k: int)
    ensures var (d, u) := Search(c, t, k); Plug(d, u) == Plug(c, t) && (u.Bin? ==> u.e.k == k)
    decreases t
  {
    if t.Nil? || t.e.k == k {
    } else if k < t.e.k {
      SearchPlug(InLeft(c, t.e, t.rl, t.rr, t.r), t.l, k);
    } else {
      SearchPlug(InRight(c, t.l, t.e, t.rl, t.rr), t.r, k);
    }
  }

  lemma SortedParts<T>(a: seq<Entry<T>>, e: Entry<T>, b: seq<Entry<T>>)
    requires Sorted(a + [e] + b)
    ensures Sorted(a) && Sorted(b) && Below(a, e.k) && Above(b, e.k)
  {
    var s := a + [e] + b;
    assert forall i :: 0 <= i < |a| ==> a[i] == s[i];
    assert s[|a|] == e;
    assert forall i :: 0 <= i < |b| ==> b[i] == s[|a| + 1 + i];
  }

  lemma AboveJoined<T>(e: Entry<T>, a: seq<Entry<T>>, b: seq<Entry<T>>, k: int)
    requires k < e.k && Above(a, e.k) && Above(b, k)
    ensures Above([e] + a + b, k)
  {
  }

  lemma BelowJoined<T>(a: seq<Entry<T>>, b: seq<Entry<T>>, e: Entry<T>, k: int)
    requires Below(a, k) && Below(b, e.k) && e.k < k
    ensures Below(a + b + [e], k)
  {
  }

  lemma {:induction false} SearchBounds<T>(c: Ctx<T>, t: Tree<T>, k: int)
    requires Ordered(t) && Below(Before(c), k) && Above(After(c), k)
    ensures var (d, u) := Search(c, t, k); Ordered(u) && Below(Before(d), k) && Above(After(d), k)
    decreases t
  {
    if t.Bin? {
      SortedParts(InOrder(t.l), t.e, InOrder(t.r));
      if k < t.e.k {
        AboveJoined(t.e, InOrder(t.r), After(c), k);
        SearchBounds(InLeft(c, t.e, t.rl, t.rr, t.r), t.l, k);
      } else if k > t.e.k {
        BelowJoined(Before(c), InOrder(t.l), t.e, k);
        SearchBounds(InRight(c, t.l, t.e, t.rl, t.rr), t.r, k);
      }
    }
  }

  // ---------- Insertion ----------

  /** RB_INSERT: a present key leaves the tree alone. */
  function Insert<T>(t: Tree<T>, e: Entry<T>): Tree<T>
    requires Balanced(t)
  {
    var (d, u) := Search(Top, t, e.k);
    if u.Bin? then t else
    FreshLeafReady(t, e);
    InsertColor(d, Single(e))
  }

  function InsertWork<T>(t: Tree<T>, e: Entry<T>): nat
    requires Balanced(t)
  {
    var (d, u) := Search(Top, t, e.k);
    if u.Bin? then 0 else
    FreshLeafReady(t, e);
    InsertPromotions(d, Single(e))
  }

  lemma FreshLeafReady<T>(t: Tree<T>, e: Entry<T>)
    requires Balanced(t) && Search(Top, t, e.k).1.Nil?
    ensures InsertReady(Search(Top, t, e.k).0, Single(e))
  {
    SearchPlug(Top, t, e.k);
    PlugBalanced(Search(Top, t, e.k).0, Nil);
  }

  lemma InsertNew<T>(t: Tree<T>, e: Entry<T>)
    requires Balanced(t) && Ordered(t) && Search(Top, t, e.k).1.Nil?
    ensures Balanced(Insert(t, e))
    ensures InOrder(Insert(t, e)) == InsertSorted(InOrder(t), e)
  {
    var d := Search(Top, t, e.k).0;
    SearchCut(t, e.k);
    FreshLeafReady(t, e);
    InsertColorBalanced(d, Single(e));
    InsertColorInOrder(d, Single(e));
    PlugInOrder(d, Single(e));
    assert InOrder(Single(e)) == [e];
    InsertSortedBetween(Before(d), e, After(d));
  }

  lemma InsertPresent<T>(t: Tree<T>, k: int)
    requires Ordered(t) && Search(Top, t, k).1.Bin?
    ensures var (d, u) := Search(Top, t, k);
      var (a, b) := (Before(d) + InOrder(u.l), [u.e] + InOrder(u.r) + After(d));
      u.e.k == k && InOrder(t) == a + b && Below(a, k)
  {
    var (d, u) := Search(Top, t, k);
    SearchPlug(Top, t, k);
    SearchBounds(Top, t, k);
    PlugInOrder(d, u);
    SortedParts(InOrder(u.l), u.e, InOrder(u.r));
    Regroup(Before(d), InOrder(u.l), [u.e], InOrder(u.r), After(d));
  }

  lemma InsertCorrect<T>(t: Tree<T>, e: Entry<T>)
    requires Balanced(t) && Ordered(t)
    ensures Balanced(Insert(t, e))
    ensures InOrder(Insert(t, e)) == InsertSorted(InOrder(t), e)
  {
    var (d, u) := Search(Top, t, e.k);
    if u.Nil? {
      InsertNew(t, e);
    } else {
      InsertPresent(t, e.k);
      InsertSortedSame(Before(d) + InOrder(u.l), e, [u.e] + InOrder(u.r) + After(d));
    }
  }

  lemma SortedCons<T>(e: Entry<T>, s: seq<Entry<T>>)
    ensures Sorted([e] + s) <==> Sorted(s) && Above(s, e.k)
  {
    var r := [e] + s;
    assert forall i :: 0 <= i < |s| ==> s[i] == r[i + 1];
    if Sorted(r) {
      forall i | 0 <= i < |s|
        ensures e.k < s[i].k
      {
        assert r[0].k < r[i + 1].k;
      }
    }
    if Sorted(s) && Above(s, e.k) {
      forall i, j | 0 <= i < j < |r|
        ensures r[i].k < r[j].k
      {
        assert r[j] == s[j - 1];
        assert i > 0 ==> r[i] == s[i - 1];
      }
    }
  }

  lemma {:induction false} InsertSortedAbove<T>(s: seq<Entry<T>>, e: Entry<T>, k: int)
    requires Above(s, k) && k < e.k
    ensures Above(InsertSorted(s, e), k)
  {
    if s != [] {
      InsertSortedAbove(s[1..], e, k);
    }
  }

  lemma {:induction false} InsertSortedSorted<T>(s: seq<Entry<T>>, e: Entry<T>)
    requires Sorted(s)
    ensures Sorted(InsertSorted(s, e))
  {
    SortedCons(e, s);
    if s != [] {
      assert s == [s[0]] + s[1..];
      SortedCons(s[0], s[1..]);
      if s[0].k < e.k {
        InsertSortedSorted(s[1..], e);
        InsertSortedAbove(s[1..], e, s[0].k);
        SortedCons(s[0], InsertSorted(s[1..], e));
      }
    }
  }

  function Keys<T>(s: seq<Entry<T>>): set<int> { set i | 0 <= i < |s| :: s[i].k }

  lemma {:induction false} InsertSortedKeys<T>(s: seq<Entry<T>>, e: Entry<T>)
    ensures Keys(InsertSorted(s, e)) == Keys(s) + {e.k}
  {
    if s == [] {
      assert [e][0].k == e.k;
    } else {
      KeysCons(s[0], s[1..]);
      assert s == [s[0]] + s[1..];
      KeysCons(e, s);
      if s[0].k < e.k {
        InsertSortedKeys(s[1..], e);
        KeysCons(s[0], InsertSorted(s[1..], e));
      }
    }
  }

  lemma KeysCons<T>(e: Entry<T>, s: seq<Entry<T>>)
    ensures Keys([e] + s) == {e.k} + Keys(s)
  {
    var r := [e] + s;
    assert forall i :: 0 <= i < |s| ==> s[i] == r[i + 1];
    assert r[0] == e;
    forall k | k in {e.k} + Keys(s)
      ensures k in Keys(r)
    {
      if k != e.k {
        var i :| 0 <= i < |s| && s[i].k == k;
        assert r[i + 1].k == k;
      } else {
        assert r[0].k == k;
      }
    }
  }

  lemma InsertedSorted<T>(t: Tree<T>, e: Entry<T>)
    requires Balanced(t) && Ordered(t)
    ensures Balanced(Insert(t, e)) && Ordered(Insert(t, e)) && InOrder(Insert(t, e)) == InsertSorted(InOrder(t), e)
  {
    InsertCorrect(t, e);
    InsertSortedSorted(InOrder(t), e);
  }

  /** A walk that ends on nothing cuts the sequence at k. */
  lemma SearchCut<T>(t: Tree<T>, k: int)
    requires Ordered(t) && Search(Top, t, k).1.Nil?
    ensures var d := Search(Top, t, k).0;
      InOrder(t) == Before(d) + After(d) && Below(Before(d), k) && Above(After(d), k)
  {
    var d := Search(Top, t, k).0;
    SearchPlug(Top, t, k);
    SearchBounds(Top, t, k);
    PlugInOrder(d, Nil);
    assert Before(d) + [] == Before(d);
  }

  /** The walk ends on a node exactly when the key is there. */
  lemma SearchFinds<T>(t: Tree<T>, k: int)
    requires Ordered(t)
    ensures Search(Top, t, k).1.Bin? <==> k in Keys(InOrder(t))
  {
    var (d, u) := Search(Top, t, k);
    SearchPlug(Top, t, k);
    SearchBounds(Top, t, k);
    PlugInOrder(d, u);
    if u.Bin? {
      var s := InOrder(t);
      var i := |Before(d)| + |InOrder(u.l)|;
      assert s[i] == InOrder(u)[|InOrder(u.l)|] == u.e;
    } else {
      assert InOrder(t) == Before(d) + After(d);
    }
  }

  // ---------- Removal ----------

  predicate Has<T(==)>(t: Tree<T>, x: T) {
    t.Bin? && (t.e.x == x || Has(t.l, x) || Has(t.r, x))
  }

  /** The place of node x in t, which hangs in c. */
  function Path<T(==)>(c: Ctx<T>, t: Tree<T>, x: T): (Ctx<T>, Tree<T>)
    requires Has(t, x)
    decreases t
  {
    if t.e.x == x then (c, t)
    else if Has(t.l, x) then Path(InLeft(c, t.e, t.rl, t.rr, t.r), t.l, x)
    else Path(InRight(c, t.l, t.e, t.rl, t.rr), t.r, x)
  }

  lemma {:induction false} PathPlug<T>(c: Ctx<T>, t: Tree<T>, x: T)
    requires Has(t, x)
    ensures var (d, u) := Path(c, t, x); Plug(d, u) == Plug(c, t) && u.Bin? && u.e.x == x
    decreases t
  {
    if t.e.x == x {
    } else if Has(t.l, x) {
      PathPlug(InLeft(c, t.e, t.rl, t.rr, t.r), t.l, x);
    } else {
      PathPlug(InRight(c, t.l, t.e, t.rl, t.rr), t.r, x);
    }
  }

  lemma PathReady<T>(t: Tree<T>, x: T)
    requires Balanced(t) && Has(t, x)
    ensures var (d, u) := Path(Top, t, x); u.Bin? && u.e.x == x && Balanced(u) && Fits(d, Rank(u)) && Plug(d, u) == t
  {
    var (d, u) := Path(Top, t, x);
    PathPlug(Top, t, x);
    PlugBalanced(d, u);
  }

  function Remove<T(==)>(t: Tree<T>, x: T): Tree<T>
    requires Balanced(t) && Has(t, x)
  {
    PathReady(t, x);
    var (d, u) := Path(Top, t, x);
    RemoveAt(d, u)
  }

  function RemoveWork<T(==)>(t: Tree<T>, x: T): nat
    requires Balanced(t) && Has(t, x)
  {
    PathReady(t, x);
    var (d, u) := Path(Top, t, x);
    CutReady(d, u);
    CloseDemotions(CutCtx(d, u), CutTree(u))
  }

  /** No order is assumed: removal follows links only. */
  lemma RemoveCorrect<T>(t: Tree<T>, x: T)
    requires Balanced(t) && Has(t, x) && Distinct(InOrder(t))
    ensures Balanced(Remove(t, x))
    ensures InOrder(Remove(t, x)) == Without(InOrder(t), x)
  {
    PathReady(t, x);
    var (d, u) := Path(Top, t, x);
    RemoveAtCorrect(d, u);
    PlugInOrder(d, u);
    WithoutMiddle(Before(d), InOrder(u.l), u.e, InOrder(u.r), After(d));
  }

  lemma WithoutMiddle<T>(a: seq<Entry<T>>, b: seq<Entry<T>>, e: Entry<T>, c: seq<Entry<T>>, d: seq<Entry<T>>)
    requires Distinct(a + (b + [e] + c) + d)
    ensures Without(a + (b + [e] + c) + d, e.x) == a + b + c + d
  {
    assert a + (b + [e] + c) + d == (a + b) + [e] + (c + d);
    WithoutAt(a + b, e, c + d);
    assert (a + b) + (c + d) == a + b + c + d;
  }

  // ---------- Neighbours, least and greatest ----------

  function Xs<T>(s: seq<Entry<T>>): (r: seq<T>)
    ensures |r| == |s|
    ensures forall i :: 0 <= i < |s| ==> r[i] == s[i].x
  {
    if s == [] then [] else [s[0].x] + Xs(s[1..])
  }

  lemma {:induction false} MinFirst<T>(r: Tree<T>)
    requires r.Bin?
    ensures |InOrder(r)| > 0 && InOrder(r)[0] == MinTree(r).e
  {
    if r.l.Bin? {
      MinFirst(r.l);
    }
  }

  function MaxTree<T>(r: Tree<T>): (m: Tree<T>)
    requires r.Bin?
    ensures m.Bin? && m.r.Nil?
  {
    if r.r.Nil? then r else MaxTree(r.r)
  }

  lemma {:induction false} MaxLast<T>(r: Tree<T>)
    requires r.Bin?
    ensures |InOrder(r)| > 0 && InOrder(r)[|InOrder(r)| - 1] == MaxTree(r).e
  {
    if r.r.Bin? {
      MaxLast(r.r);
    }
  }

  /** The entries around the root of a focused tree. */
  lemma Around<T>(d: Ctx<T>, u: Tree<T>)
    requires u.Bin?
    ensures var s, i := InOrder(Plug(d, u)), |Before(d)| + |InOrder(u.l)|;
      && i < |s| && s[i] == u.e
      && s[i + 1..] == InOrder(u.r) + After(d)
      && s[..i] == Before(d) + InOrder(u.l)
  {
    PlugInOrder(d, u);
    AroundMiddle(Before(d), InOrder(u.l), u.e, InOrder(u.r), After(d));
  }

  lemma AroundMiddle<T>(a: seq<Entry<T>>, b: seq<Entry<T>>, e: Entry<T>, c: seq<Entry<T>>, d: seq<Entry<T>>)
    ensures var s, i := a + (b + [e] + c) + d, |a| + |b|;
      i < |s| && s[i] == e && s[i + 1..] == c + d && s[..i] == a + b
  {
    var s := a + (b + [e] + c) + d;
    assert s == (a + b) + ([e] + (c + d));
  }

  /** In a sorted sequence cut at k, the first entry of the upper part is the least from k on. */
  lemma LeastAbove<T>(a: seq<Entry<T>>, b: seq<Entry<T>>, k: int, i: nat)
    requires Sorted(a + b) && Below(a, k) && Above(b, k) && i < |a + b|
    ensures (a + b)[i].k < k || (b != [] && k <= b[0].k <= (a + b)[i].k)
  {
    var s := a + b;
    if i < |a| {
      assert s[i] == a[i];
    } else {
      assert s[i] == b[i - |a|] && s[|a|] == b[0];
    }
  }

  // ---------- Changing one key ----------

  function Rekey<T(==)>(t: Tree<T>, x: T, k: int): Tree<T> {
    match t
    case Nil => Nil
    case Bin(l, e, rl, rr, r) =>
      Bin(Rekey(l, x, k), if e.x == x then Entry(x, k) else e, rl, rr, Rekey(r, x, k))
  }

  lemma {:induction false} RekeyBalanced<T>(t: Tree<T>, x: T, k: int)
    ensures Rank(Rekey(t, x, k)) == Rank(t) && (Rekey(t, x, k).Nil? <==> t.Nil?)
    ensures Balanced(Rekey(t, x, k)) <==> Balanced(t)
  {
    if t.Bin? {
      RekeyBalanced(t.l, x, k);
      RekeyBalanced(t.r, x, k);
    }
  }

  lemma {:induction false} WithoutConcat<T>(a: seq<Entry<T>>, b: seq<Entry<T>>, x: T)
    ensures Without(a + b, x) == Without(a, x) + Without(b, x)
  {
    if a == [] {
      assert a + b == b;
    } else {
      assert (a + b)[1..] == a[1..] + b;
      WithoutConcat(a[1..], b, x);
    }
  }

  lemma {:induction false} RekeyWithout<T>(t: Tree<T>, x: T, k: int)
    ensures Without(InOrder(Rekey(t, x, k)), x) == Without(InOrder(t), x)
  {
    if t.Bin? {
      RekeyWithout(t.l, x, k);
      RekeyWithout(t.r, x, k);
      var u := Rekey(t, x, k);
      assert Without([u.e], x) == Without([t.e], x);
      WithoutConcat(InOrder(u.l) + [u.e], InOrder(u.r), x);
      WithoutConcat(InOrder(u.l), [u.e], x);
      WithoutConcat(InOrder(t.l) + [t.e], InOrder(t.r), x);
      WithoutConcat(InOrder(t.l), [t.e], x);
    }
  }

  lemma BoundsAt<T>(a: seq<Entry<T>>, k: int, b: seq<Entry<T>>)
    requires Sorted(a + b)
    requires a != [] ==> a[|a| - 1].k < k
    requires b != [] ==> k < b[0].k
    ensures Below(a, k) && Above(b, k)
  {
    var r := a + b;
    forall i | 0 <= i < |a|
      ensures a[i].k < k
    {
      assert r[i] == a[i] && r[|a| - 1] == a[|a| - 1];
    }
    forall i | 0 <= i < |b|
      ensures k < b[i].k
    {
      assert r[|a|] == b[0] && r[|a| + i] == b[i];
    }
  }

  /** An entry between its neighbours, in a sequence otherwise sorted: all is sorted and its key is new. */
  lemma BetweenNeighbours<T>(a: seq<Entry<T>>, e: Entry<T>, b: seq<Entry<T>>)
    requires Sorted(a + b)
    requires a != [] ==> a[|a| - 1].k < e.k
    requires b != [] ==> e.k < b[0].k
    ensures Sorted(a + [e] + b) && InsertSorted(a + b, e) == a + [e] + b && e.k !in Keys(a + b)
  {
    BoundsAt(a, e.k, b);
    InsertSortedBetween(a, e, b);
    InsertSortedSorted(a + b, e);
  }

  /** Taking the entry at i out by name or by position is the same when names are distinct. */
  lemma WithoutIndex<T>(s: seq<Entry<T>>, i: nat)
    requires Distinct(s) && i < |s|
    ensures Without(s, s[i].x) == s[..i] + s[i + 1..]
  {
    assert s == s[..i] + [s[i]] + s[i + 1..];
    WithoutAt(s[..i], s[i], s[i + 1..]);
  }

  /** The two neighbours decide whether one entry of an otherwise sorted sequence is in place. */
  lemma InPlace<T>(o: seq<Entry<T>>, i: nat)
    requires i < |o| && Sorted(o[..i] + o[i + 1..])
    requires i > 0 ==> o[i - 1].k < o[i].k
    requires i + 1 < |o| ==> o[i].k < o[i + 1].k
    ensures Sorted(o) && InsertSorted(o[..i] + o[i + 1..], o[i]) == o && o[i].k !in Keys(o[..i] + o[i + 1..])
  {
    assert o[..i] + [o[i]] + o[i + 1..] == o;
    BetweenNeighbours(o[..i], o[i], o[i + 1..]);
  }

  lemma InsertSortedLast<T>(s: seq<Entry<T>>, e: Entry<T>)
    requires Below(s, e.k)
    ensures InsertSorted(s, e) == s + [e]
  {
    assert s + [] == s;
    InsertSortedBetween(s, e, []);
  }

  lemma InsertSortedFirst<T>(s: seq<Entry<T>>, e: Entry<T>)
    requires Above(s, e.k)
    ensures InsertSorted(s, e) == [e] + s
  {
  }

  lemma {:induction false} WithoutAbove<T>(s: seq<Entry<T>>, x: T, k: int)
    requires Above(s, k)
    ensures Above(Without(s, x), k)
  {
    if s != [] {
      WithoutAbove(s[1..], x, k);
    }
  }

  lemma {:induction false} WithoutSorted<T>(s: seq<Entry<T>>, x: T)
    requires Sorted(s)
    ensures Sorted(Without(s, x))
  {
    if s != [] {
      assert s == [s[0]] + s[1..];
      SortedCons(s[0], s[1..]);
      WithoutSorted(s[1..], x);
      WithoutAbove(s[1..], x, s[0].k);
      SortedCons(s[0], Without(s[1..], x));
    }
  }
}
