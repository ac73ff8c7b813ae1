/**
 Ids as the source has them: a new tag's id is an int, one more than the greatest (src/tagtree.c:121-127).
 Registry counts without a bound; here is when the two agree, and what happens when they do not.
 */
module TagIds {
  import opened RankTrees
  import opened SortedTrees
  import opened Types
  import opened Metatag
  import opened Registry

  const LIMIT := INT32 / 2

  predicate IdsFit(r: Reg) {
    && (forall t :: t in r.tags ==> t.id < LIMIT)
    && (r.cache.Some? ==> forall t :: t in r.cache.value.listing ==> t.id < LIMIT)
  }

  /** The registry's invariant over every run, and, up to 2^31 - 12 operations, with the source's own ids. */
  lemma RunGood(ops: seq<Op>)
    ensures Good(Play(ops))
    ensures |ops| <= LIMIT - 12 ==> IdsFit(Play(ops))
  {
    PlayTyped(ops, false);
    PlayGood(ops);
  }

  // ---------- The runs that use ids up ----------

  const NAME: seq<byte> := [120]

  /** k creations of a tag. */
  function Inserts(k: nat): seq<Op> { seq(k, (i: nat) => Insert(NAME, Simple(Int))) }

  /** The first operation also creates the built-in tags, with the ids from 2 to 11. */
  lemma InitTags(op: Op)
    requires op == Lookup(0) || op == Insert(NAME, Simple(Int))
    ensures var r := Step(START, op);
      && r.inited && r.cache.None?
      && |r.tags| == (if op.Insert? then 11 else 10) && NextId(r.tags) == |r.tags| + 2
  {
    InitEffect(START);
  }

  lemma {:induction false} InsertsRun(k: nat)
    requires k > 0
    ensures var r := Play(Inserts(k)); r.inited && r.cache.None? && r.tags != [] && NextId(r.tags) == k + 12
  {
    assert Inserts(k)[..k - 1] == Inserts(k - 1);
    if k == 1 {
      InitTags(Insert(NAME, Simple(Int)));
    } else {
      InsertsRun(k - 1);
    }
  }

  /** All ids of all runs of up to m operations fit an int if and only if m is at most 2^31 - 12. */
  lemma RunBound(m: nat)
    ensures (forall ops :: |ops| <= m ==> IdsFit(Play(ops))) <==> m <= LIMIT - 12
  {
    if m <= LIMIT - 12 {
      forall ops: seq<Op> | |ops| <= m
        ensures IdsFit(Play(ops))
      {
        RunGood(ops);
      }
    } else {
      var k := LIMIT - 11;
      InsertsRun(k);
      var r := Play(Inserts(k));
      assert |Inserts(k)| <= m && r.tags[|r.tags| - 1] in r.tags;
    }
  }

  /** A tag created and the one before removed: ten live tags again, and a higher id. */
  lemma ChurnRound(r: Reg, k: nat)
    requires GoodIds(r) && r.inited && r.cache.None? && |r.tags| == 10 && NextId(r.tags) == k + 11 && k > 0
    ensures var s := Step(r, Insert(NAME, Simple(Int)));
      var t := Step(s, Remove(k + 10));
      && |s.tags| == 11 && t.inited && t.cache.None? && |t.tags| == 10 && NextId(t.tags) == k + 12
  {
    var s := Step(r, Insert(NAME, Simple(Int)));
    assert s.tags[9].id == k + 10;
    NextIdGood(r, NAME, Simple(Int));
    OutsideAt(s.tags, 9);
  }

  /** At no time of the run are more than n ordinary tags live. */
  predicate Few(ops: seq<Op>, n: nat) { |Play(ops).tags| <= n && (ops == [] || Few(ops[..|ops| - 1], n)) }

  lemma AndThen(ops: seq<Op>, a: Op, n: nat)
    ensures Play(ops + [a]) == Step(Play(ops), a)
    ensures Few(ops + [a], n) <==> Few(ops, n) && |Play(ops + [a]).tags| <= n
  {
    assert (ops + [a])[..|ops|] == ops;
  }

  predicate Churned(r: Reg, k: nat) { r.inited && r.cache.None? && |r.tags| == 10 && NextId(r.tags) == k + 12 }

  lemma ChurnOnce(ops: seq<Op>, k: nat) returns (longer: seq<Op>)
    requires Churned(Play(ops), k) && Few(ops, 11)
    ensures Churned(Play(longer), k + 1) && Few(longer, 11)
  {
    var (a, b) := (Insert(NAME, Simple(Int)), Remove(k + 11));
    PlayGood(ops);
    ChurnRound(Play(ops), k + 1);
    AndThen(ops, a, 11);
    AndThen(ops + [a], b, 11);
    longer := ops + [a] + [b];
  }

  lemma ChurnStart() returns (ops: seq<Op>)
    ensures Churned(Play(ops), 0) && Few(ops, 11)
  {
    InitTags(Lookup(0));
    AndThen([], Lookup(0), 11);
    ops := [] + [Lookup(0)];
  }

  /**
   Every id from 12 on is the next one of some run with never more than eleven live tags: memory is no bound on ids.
   */
  lemma ChurnRun(k: nat) returns (ops: seq<Op>)
    ensures Churned(Play(ops), k) && Few(ops, 11)
  {
    if k == 0 {
      ops := ChurnStart();
    } else {
      ops := ChurnRun(k - 1);
      ops := ChurnOnce(ops, k - 1);
    }
  }

  // ---------- Past the last id ----------

  /**
   As long as the live ids are ints, the source's id for a new tag comes after them all if and only if it does not
   overflow.
   */
  lemma FreshExact(r: Reg)
    requires GoodIds(r) && IdsFit(r)
    ensures (forall t :: t in r.tags ==> t.id < ToInt(NextId(r.tags))) <==> NextId(r.tags) < LIMIT
  {
    if r.tags != [] {
      assert r.tags[|r.tags| - 1] in r.tags;
    }
  }

  /**
   If the overflowing addition wraps, the next tag goes to the front of the tree instead of its end, the greatest id
   is what it was, and the tag after that has an id that is taken: RB_INSERT returns the clash, which nobody looks at,
   and tree_size counts a node that is not in the tree.
   */
  lemma WrappedClash<T>(s: seq<Entry<T>>, a: T, b: T)
    requires Sorted(s) && Above(s, -LIMIT) && s != [] && s[|s| - 1].k == LIMIT - 1
    ensures var (e, f) := (Entry(a, ToInt(LIMIT)), Entry(b, ToInt(LIMIT)));
      && InsertSorted(s, e) == [e] + s && ([e] + s)[|s|].k == LIMIT - 1
      && f.k in Keys([e] + s) && InsertSorted([e] + s, f) == [e] + s
  {
    var e := Entry(a, ToInt(LIMIT));
    InsertSortedFirst(s, e);
    KeysCons(e, s);
  }
}
