/**
 Top-down splaying on values: the two side trees grown by the loop, what the loop
 leaves at the root, and insertion and removal as operations on a sorted sequence.
 */
module SplaySpec {
  import opened RankTrees
  import opened SortedTrees

  datatype Splay<T> = Empty | Fork(l: Splay<T>, e: Entry<T>, r: Splay<T>)

  /** The tree of smaller entries under construction: each new node hangs right of the one before. */
  datatype Smaller<T> = NoSmaller | More(prev: Smaller<T>, a: Splay<T>, e: Entry<T>)

  /** The tree of greater entries under construction: each new node hangs left of the one before. */
  datatype Greater<T> = NoGreater | Less(prev: Greater<T>, e: Entry<T>, b: Splay<T>)

  function Listed<T>(t: Splay<T>): seq<Entry<T>> {
    match t
    case Empty => []
    case Fork(l, e, r) => Listed(l) + [e] + Listed(r)
  }

  function ListedS<T>(s: Smaller<T>): seq<Entry<T>> {
    match s
    case NoSmaller => []
    case More(prev, a, e) => ListedS(prev) + Listed(a) + [e]
  }

  function ListedG<T>(g: Greater<T>): seq<Entry<T>> {
    match g
    case NoGreater => []
    case Less(prev, e, b) => [e] + Listed(b) + ListedG(prev)
  }

  /** The side trees completed with a subtree in the open place. */
  function CloseS<T>(s: Smaller<T>, m: Splay<T>): Splay<T>
    decreases s
  {
    match s
    case NoSmaller => m
    case More(prev, a, e) => CloseS(prev, Fork(a, e, m))
  }

  function CloseG<T>(g: Greater<T>, m: Splay<T>): Splay<T>
    decreases g
  {
    match g
    case NoGreater => m
    case Less(prev, e, b) => CloseG(prev, Fork(m, e, b))
  }

  /** SPLAY_ASSEMBLE. */
  function Assemble<T>(s: Smaller<T>, t: Splay<T>, g: Greater<T>): Splay<T>
    requires t.Fork?
  {
    Fork(CloseS(s, t.l), t.e, CloseG(g, t.r))
  }

  function TurnRight<T>(t: Splay<T>): (u: Splay<T>)
    requires t.Fork? && t.l.Fork?
    ensures Weight(u) == Weight(t)
  {
    Fork(t.l.l, t.l.e, Fork(t.l.r, t.e, t.r))
  }

  function TurnLeft<T>(t: Splay<T>): (u: Splay<T>)
    requires t.Fork? && t.r.Fork?
    ensures Weight(u) == Weight(t)
  {
    Fork(Fork(t.l, t.e, t.r.l), t.r.e, t.r.r)
  }

  function Weight<T>(t: Splay<T>): nat {
    match t
    case Empty => 0
    case Fork(l, _, r) => Weight(l) + 1 + Weight(r)
  }

  /** The loop of SPLAY from the middle tree t, with the side trees grown so far. */
  function SplayLoop<T>(s: Smaller<T>, t: Splay<T>, g: Greater<T>, k: int): (r: Splay<T>)
    requires t.Fork?
    ensures r.Fork?
    decreases Weight(t)
  {
    if k < t.e.k then
      if t.l.Empty? then Assemble(s, t, g)
      else
        var u := if k < t.l.e.k then TurnRight(t) else t;
        if u.l.Empty? then Assemble(s, u, g)
        else SplayLoop(s, u.l, Less(g, u.e, u.r), k)
    else if k > t.e.k then
      if t.r.Empty? then Assemble(s, t, g)
      else
        var u := if k > t.r.e.k then TurnLeft(t) else t;
        if u.r.Empty? then Assemble(s, u, g)
        else SplayLoop(More(s, u.l, u.e), u.r, g, k)
    else Assemble(s, t, g)
  }

  function SplayAt<T>(t: Splay<T>, k: int): (r: Splay<T>)
    requires t.Fork?
    ensures r.Fork?
  {
    SplayLoop(NoSmaller, t, NoGreater, k)
  }

  // ---------- The sequence is kept ----------

  lemma {:induction false} CloseSListed<T>(s: Smaller<T>, m: Splay<T>)
    ensures Listed(CloseS(s, m)) == ListedS(s) + Listed(m)
    decreases s
  {
    match s
    case NoSmaller =>
    case More(prev, a, e) =>
      CloseSListed(prev, Fork(a, e, m));
      assert ListedS(prev) + (Listed(a) + [e] + Listed(m)) == ListedS(prev) + Listed(a) + [e] + Listed(m);
  }

  lemma {:induction false} CloseGListed<T>(g: Greater<T>, m: Splay<T>)
    ensures Listed(CloseG(g, m)) == Listed(m) + ListedG(g)
    decreases g
  {
    match g
    case NoGreater =>
    case Less(prev, e, b) =>
      CloseGListed(prev, Fork(m, e, b));
      assert Listed(m) + [e] + Listed(b) + ListedG(prev) == Listed(m) + ([e] + Listed(b) + ListedG(prev));
  }

  lemma AssembleListed<T>(s: Smaller<T>, t: Splay<T>, g: Greater<T>)
    requires t.Fork?
    ensures Listed(Assemble(s, t, g)) == ListedS(s) + Listed(t) + ListedG(g)
  {
    CloseSListed(s, t.l);
    CloseGListed(g, t.r);
    Regroup(ListedS(s), Listed(t.l), [t.e], Listed(t.r), ListedG(g));
    assert (ListedS(s) + Listed(t.l)) + [t.e] + (Listed(t.r) + ListedG(g))
        == ListedS(s) + Listed(t.l) + ([t.e] + Listed(t.r) + ListedG(g));
  }

  lemma TurnsListed<T>(t: Splay<T>)
    requires t.Fork?
    ensures t.l.Fork? ==> Listed(TurnRight(t)) == Listed(t)
    ensures t.r.Fork? ==> Listed(TurnLeft(t)) == Listed(t)
  {
    if t.l.Fork? {
      Regroup(Listed(t.l.l), [t.l.e], Listed(t.l.r), [t.e], Listed(t.r));
    }
    if t.r.Fork? {
      Regroup(Listed(t.l), [t.e], Listed(t.r.l), [t.r.e], Listed(t.r.r));
    }
  }

  lemma {:induction false} SplayListed<T>(s: Smaller<T>, t: Splay<T>, g: Greater<T>, k: int)
    requires t.Fork?
    ensures Listed(SplayLoop(s, t, g, k)) == ListedS(s) + Listed(t) + ListedG(g)
    decreases Weight(t)
  {
    TurnsListed(t);
    if k < t.e.k && t.l.Fork? {
      var u := if k < t.l.e.k then TurnRight(t) else t;
      if u.l.Empty? {
        AssembleListed(s, u, g);
      } else {
        SplayListed(s, u.l, Less(g, u.e, u.r), k);
        Regroup(ListedS(s), Listed(u.l), [u.e], Listed(u.r), ListedG(g));
      }
    } else if k > t.e.k && t.r.Fork? {
      var u := if k > t.r.e.k then TurnLeft(t) else t;
      if u.r.Empty? {
        AssembleListed(s, u, g);
      } else {
        SplayListed(More(s, u.l, u.e), u.r, g, k);
        Regroup(ListedS(s), Listed(u.l), [u.e], Listed(u.r), ListedG(g));
      }
    } else {
      AssembleListed(s, t, g);
    }
  }

  // ---------- What comes to the root ----------

  /** The root holds k, or the root is the last entry below k, or the first one above it. */
  predicate Nearest<T>(t: Splay<T>, k: int) {
    && t.Fork?
    && (t.e.k < k ==> Above(Listed(t.r), k))
    && (t.e.k > k ==> Below(Listed(t.l), k))
  }

  lemma AssembleNearest<T>(s: Smaller<T>, t: Splay<T>, g: Greater<T>, k: int)
    requires t.Fork? && Below(ListedS(s), k) && Above(ListedG(g), k)
    requires k < t.e.k ==> t.l.Empty?
    requires k > t.e.k ==> t.r.Empty?
    ensures Nearest(Assemble(s, t, g), k)
  {
    CloseSListed(s, t.l);
    CloseGListed(g, t.r);
  }

  lemma GrowBounds<T>(s: Smaller<T>, u: Splay<T>, g: Greater<T>, k: int)
    requires u.Fork? && Sorted(Listed(u)) && Below(ListedS(s), k) && Above(ListedG(g), k)
    ensures Sorted(Listed(u.l)) && Sorted(Listed(u.r))
    ensures k < u.e.k ==> Above(ListedG(Less(g, u.e, u.r)), k)
    ensures k > u.e.k ==> Below(ListedS(More(s, u.l, u.e)), k)
  {
    SortedParts(Listed(u.l), u.e, Listed(u.r));
    if k < u.e.k {
      AboveJoined(u.e, Listed(u.r), ListedG(g), k);
    } else if k > u.e.k {
      BelowJoined(ListedS(s), Listed(u.l), u.e, k);
    }
  }

  lemma {:induction false} SplayNearest<T>(s: Smaller<T>, t: Splay<T>, g: Greater<T>, k: int)
    requires t.Fork? && Sorted(Listed(t)) && Below(ListedS(s), k) && Above(ListedG(g), k)
    ensures Nearest(SplayLoop(s, t, g, k), k)
    decreases Weight(t)
  {
    TurnsListed(t);
    if k < t.e.k && t.l.Fork? {
      var u := if k < t.l.e.k then TurnRight(t) else t;
      GrowBounds(s, u, g, k);
      if u.l.Empty? {
        AssembleNearest(s, u, g, k);
      } else {
        SplayNearest(s, u.l, Less(g, u.e, u.r), k);
      }
    } else if k > t.e.k && t.r.Fork? {
      var u := if k > t.r.e.k then TurnLeft(t) else t;
      GrowBounds(s, u, g, k);
      if u.r.Empty? {
        AssembleNearest(s, u, g, k);
      } else {
        SplayNearest(More(s, u.l, u.e), u.r, g, k);
      }
    } else {
      AssembleNearest(s, t, g, k);
    }
  }

  /** SPLAY keeps the sequence and brings the key, or a neighbour of its place, to the root. */
  lemma SplayCorrect<T>(t: Splay<T>, k: int)
    requires t.Fork?
    ensures Listed(SplayAt(t, k)) == Listed(t)
    ensures Sorted(Listed(t)) ==> Nearest(SplayAt(t, k), k) && (SplayAt(t, k).e.k == k <==> k in Keys(Listed(t)))
  {
    SplayListed(NoSmaller, t, NoGreater, k);
    var u := SplayAt(t, k);
    if Sorted(Listed(t)) {
      SplayNearest(NoSmaller, t, NoGreater, k);
      RootOrAbsent(u, k);
    }
  }

  lemma RootOrAbsent<T>(u: Splay<T>, k: int)
    requires u.Fork? && Sorted(Listed(u)) && Nearest(u, k)
    ensures u.e.k == k <==> k in Keys(Listed(u))
  {
    SortedParts(Listed(u.l), u.e, Listed(u.r));
    var o := Listed(u);
    assert o[|Listed(u.l)|] == u.e;
    if u.e.k != k {
      forall i | 0 <= i < |o|
        ensures o[i].k != k
      {
        assert i < |Listed(u.l)| ==> o[i] == Listed(u.l)[i];
        assert i > |Listed(u.l)| ==> o[i] == Listed(u.r)[i - |Listed(u.l)| - 1];
      }
    }
  }

  // ---------- Insertion and removal ----------

  /** SPLAY_INSERT. */
  function SplayInsert<T>(t: Splay<T>, e: Entry<T>): Splay<T> {
    if t.Empty? then Fork(Empty, e, Empty)
    else
      var u := SplayAt(t, e.k);
      if e.k < u.e.k then Fork(u.l, e, Fork(Empty, u.e, u.r))
      else if e.k > u.e.k then Fork(Fork(u.l, u.e, Empty), e, u.r)
      else u
  }

  lemma InsertAround<T>(a: seq<Entry<T>>, f: Entry<T>, b: seq<Entry<T>>, e: Entry<T>)
    requires Sorted(a + [f] + b)
    ensures e.k < f.k && Below(a, e.k) ==> InsertSorted(a + [f] + b, e) == a + [e] + ([] + [f] + b)
    ensures e.k > f.k && Above(b, e.k) ==> InsertSorted(a + [f] + b, e) == (a + [f] + []) + [e] + b
    ensures e.k == f.k ==> InsertSorted(a + [f] + b, e) == a + [f] + b
  {
    SortedParts(a, f, b);
    if e.k < f.k && Below(a, e.k) {
      assert a + [f] + b == a + ([] + [f] + b);
      InsertSortedBetween(a, e, [] + [f] + b);
    } else if e.k > f.k && Above(b, e.k) {
      assert a + [f] + b == (a + [f] + []) + b;
      InsertSortedBetween(a + [f] + [], e, b);
    } else if e.k == f.k {
      assert a + [f] + b == a + ([f] + b);
      InsertSortedSame(a, e, [f] + b);
    }
  }

  lemma SplayInsertCorrect<T>(t: Splay<T>, e: Entry<T>)
    requires Sorted(Listed(t))
    ensures Listed(SplayInsert(t, e)) == InsertSorted(Listed(t), e)
  {
    if t.Fork? {
      SplayCorrect(t, e.k);
      var u := SplayAt(t, e.k);
      InsertAround(Listed(u.l), u.e, Listed(u.r), e);
      assert Listed<T>(Empty) == [];
      assert Listed(Fork(Empty, u.e, u.r)) == [] + [u.e] + Listed(u.r);
      assert Listed(Fork(u.l, u.e, Empty)) == Listed(u.l) + [u.e] + [];
    }
  }

  function WithoutKey<T>(s: seq<Entry<T>>, k: int): seq<Entry<T>> {
    if s == [] then []
    else if s[0].k == k then WithoutKey(s[1..], k)
    else [s[0]] + WithoutKey(s[1..], k)
  }

  /** SPLAY_REMOVE: the left part is splayed again so that its greatest entry can take the right part. */
  function SplayRemove<T>(t: Splay<T>, k: int): Splay<T> {
    if t.Empty? then t
    else
      var u := SplayAt(t, k);
      if u.e.k != k then u
      else if u.l.Empty? then u.r
      else
        var v := SplayAt(u.l, k);
        Fork(v.l, v.e, u.r)
  }

  lemma {:induction false} WithoutKeyConcat<T>(a: seq<Entry<T>>, b: seq<Entry<T>>, k: int)
    ensures WithoutKey(a + b, k) == WithoutKey(a, k) + WithoutKey(b, k)
  {
    if a == [] {
      assert a + b == b;
    } else {
      assert (a + b)[1..] == a[1..] + b;
      WithoutKeyConcat(a[1..], b, k);
    }
  }

  lemma {:induction false} WithoutKeyAbsent<T>(s: seq<Entry<T>>, k: int)
    requires forall i :: 0 <= i < |s| ==> s[i].k != k
    ensures WithoutKey(s, k) == s
  {
    if s != [] {
      WithoutKeyAbsent(s[1..], k);
    }
  }

  /** Splaying for a key above all entries leaves the greatest one at the root, with nothing to its right. */
  lemma SplayBeyond<T>(t: Splay<T>, k: int)
    requires t.Fork? && Sorted(Listed(t)) && Below(Listed(t), k)
    ensures SplayAt(t, k).r == Empty
  {
    var v := SplayAt(t, k);
    if v.r.Fork? {
      var i, j := RightRoot(v);
    }
    SplayCorrect(t, k);
    assert Listed(v)[|Listed(v.l)|] == v.e;
  }

  lemma RightRoot<T>(v: Splay<T>) returns (i: nat, j: nat)
    requires v.Fork? && v.r.Fork?
    ensures i < |Listed(v)| && j < |Listed(v.r)| && Listed(v)[i] == Listed(v.r)[j] == v.r.e
  {
    j := |Listed(v.r.l)|;
    i := |Listed(v.l)| + 1 + j;
  }

  lemma RemoveMiddle<T>(a: seq<Entry<T>>, f: Entry<T>, b: seq<Entry<T>>)
    requires Sorted(a + [f] + b)
    ensures WithoutKey(a + [f] + b, f.k) == a + b
  {
    SortedParts(a, f, b);
    WithoutKeyConcat(a + [f], b, f.k);
    WithoutKeyConcat(a, [f], f.k);
    WithoutKeyAbsent(a, f.k);
    WithoutKeyAbsent(b, f.k);
  }

  lemma SplayRemoveCorrect<T>(t: Splay<T>, k: int)
    requires Sorted(Listed(t))
    ensures Listed(SplayRemove(t, k)) == WithoutKey(Listed(t), k)
  {
    if t.Fork? {
      SplayCorrect(t, k);
      var u := SplayAt(t, k);
      if u.e.k != k {
        WithoutKeyAbsent(Listed(t), k);
      } else {
        RemoveMiddle(Listed(u.l), u.e, Listed(u.r));
        if u.l.Fork? {
          SortedParts(Listed(u.l), u.e, Listed(u.r));
          SplayBeyond(u.l, k);
          SplayCorrect(u.l, k);
        }
      }
    }
  }

  /** After the first splay of a removal: whether the key is there, and that the left part can be joined. */
  lemma RemoveReady<T>(t: Splay<T>, k: int)
    requires t.Fork? && Sorted(Listed(t))
    ensures var u := SplayAt(t, k);
      && (u.e.k == k <==> k in Keys(Listed(t)))
      && (u.e.k == k && u.l.Fork? ==> SplayAt(u.l, k).r.Empty?)
  {
    SplayCorrect(t, k);
    var u := SplayAt(t, k);
    SortedParts(Listed(u.l), u.e, Listed(u.r));
    if u.e.k == k && u.l.Fork? {
      SplayBeyond(u.l, k);
    }
  }

  lemma {:induction false} WithoutKeyAbove<T>(s: seq<Entry<T>>, k: int, m: int)
    requires Above(s, m)
    ensures Above(WithoutKey(s, k), m)
  {
    if s != [] {
      WithoutKeyAbove(s[1..], k, m);
    }
  }

  lemma {:induction false} WithoutKeySorted<T>(s: seq<Entry<T>>, k: int)
    requires Sorted(s)
    ensures Sorted(WithoutKey(s, k))
  {
    if s != [] {
      assert s == [s[0]] + s[1..];
      SortedCons(s[0], s[1..]);
      WithoutKeySorted(s[1..], k);
      WithoutKeyAbove(s[1..], k, s[0].k);
      SortedCons(s[0], WithoutKey(s[1..], k));
    }
  }
}
