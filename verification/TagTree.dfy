/**
 src/tagtree.c on the linked tree: tags are nodes of an RbTree, and the metatag is
 one of them.  Each method does to the tree what the registry operation of the same
 name does to the registry's state.
 */
module TagPayload {
  import opened RankTrees
  import opened SortedTrees
  import opened Links
  import opened Types
  import opened Metatag
  import opened Registry

  ghost predicate Carries(x: TagNode, k: int, t: TagRec)
    reads x`name, x`ty
  {
    k == t.id && x.name == t.name && x.ty == t.ty
  }

  ghost predicate AllCarry(S: set<TagNode>, s: seq<Entry<TagNode>>, tags: seq<TagRec>)
    reads S`name, S`ty
  {
    |s| == |tags| && forall i :: 0 <= i < |tags| ==> s[i].x in S && Carries(s[i].x, s[i].k, tags[i])
  }

  /** The metatag as the listing sees it. */
  function MetaRec(c: Cache): TagRec { TagRec(METATAG_ID, TAGS_NAME, NewArray(c.room, Simple(Sint))) }

  function Head(r: Reg): (h: seq<TagRec>)
    ensures |h| == Cached(r)
  {
    if r.cache.Some? then [MetaRec(r.cache.value)] else []
  }

  /** Every node's record in order: the metatag, if cached, and then the ordinary tags. */
  function Recs(r: Reg): seq<TagRec> {
    if r.cache.Some? then [MetaRec(r.cache.value)] + r.tags else r.tags
  }

  lemma RecsAre(r: Reg)
    ensures Recs(r) == Head(r) + r.tags
  {
  }

  lemma RecsAscend(r: Reg)
    requires GoodIds(r)
    ensures Ascending(Recs(r))
    ensures forall i :: 0 <= i < |Recs(r)| ==> (Recs(r)[i].id == METATAG_ID <==> r.cache.Some? && i == 0)
    ensures Recs(r) == [] ==> NextId(r.tags) == METATAG_ID + 1
    ensures Recs(r) != [] ==> NextId(r.tags) == Recs(r)[|Recs(r)| - 1].id + 1
  {
  }

  lemma AddIds(r: Reg, name: seq<byte>, ty: Type)
    requires GoodIds(r)
    ensures GoodIds(AddNode(r, name, ty))
    ensures Recs(AddNode(r, name, ty)) == Recs(r) + [TagRec(NextId(r.tags), name, ty)]
  {
  }

  lemma DropRecs(r: Reg)
    ensures r.cache.Some? ==> Recs(DropCache(r)) == Recs(r)[..0] + Recs(r)[1..]
  {
  }

  lemma AddRepresents(S: set<TagNode>, s: seq<Entry<TagNode>>, ts: seq<TagRec>, x: TagNode, t: TagRec)
    requires AllCarry(S, s, ts) && Carries(x, t.id, t)
    ensures AllCarry(S + {x}, s + [Entry(x, t.id)], ts + [t])
  {
  }

  lemma PutRepresents(S: set<TagNode>, s: seq<Entry<TagNode>>, ts: seq<TagRec>, x: TagNode, t: TagRec)
    requires AllCarry(S, s, ts) && Carries(x, t.id, t)
    ensures AllCarry(S + {x}, [Entry(x, t.id)] + s, [t] + ts)
  {
  }

  /** A node whose id comes after all others goes to the end of the order. */
  lemma NewLast(S: set<TagNode>, s: seq<Entry<TagNode>>, ts: seq<TagRec>, e: Entry<TagNode>)
    requires AllCarry(S, s, ts) && forall i :: 0 <= i < |ts| ==> ts[i].id < e.k
    ensures InsertSorted(s, e) == s + [e] && e.k !in Keys(s)
  {
    InsertSortedLast(s, e);
  }

  lemma NewFirst(S: set<TagNode>, s: seq<Entry<TagNode>>, ts: seq<TagRec>, e: Entry<TagNode>)
    requires AllCarry(S, s, ts) && forall i :: 0 <= i < |ts| ==> e.k < ts[i].id
    ensures InsertSorted(s, e) == [e] + s && e.k !in Keys(s)
  {
    InsertSortedFirst(s, e);
  }

  lemma CutRepresents(S: set<TagNode>, s: seq<Entry<TagNode>>, ts: seq<TagRec>, i: nat)
    requires AllCarry(S, s, ts) && Distinct(s) && i < |s|
    ensures AllCarry(S - {s[i].x}, s[..i] + s[i + 1..], ts[..i] + ts[i + 1..])
  {
    var (u, vs) := (s[..i] + s[i + 1..], ts[..i] + ts[i + 1..]);
    forall j | 0 <= j < |u|
      ensures u[j].x != s[i].x && u[j].x in S && Carries(u[j].x, u[j].k, vs[j])
    {
      var k := if j < i then j else j + 1;
      assert u[j] == s[k] && vs[j] == ts[k];
    }
  }

  lemma CutSecond<T>(a: seq<T>, b: seq<T>, j: nat)
    requires j < |b|
    ensures (a + b)[..|a| + j] + (a + b)[|a| + j + 1..] == a + (b[..j] + b[j + 1..])
  {
  }

  lemma CutTags(r: Reg, j: nat)
    requires GoodIds(r) && j < |r.tags|
    ensures Live(r.tags, r.tags[j].id)
    ensures Drop(r, r.tags[j].id).0.tags == r.tags[..j] + r.tags[j + 1..]
    ensures Drop(r, r.tags[j].id).0.cache == r.cache
  {
    OutsideAt(r.tags, j);
  }

  /** Cutting one ordinary tag out of all the records. */
  lemma CutRecs(r: Reg, j: nat)
    requires GoodIds(r) && j < |r.tags|
    ensures Live(r.tags, r.tags[j].id) && GoodIds(Drop(r, r.tags[j].id).0)
    ensures var i := Cached(r) + j;
      i < |Recs(r)| && Recs(r)[i] == r.tags[j] && Recs(Drop(r, r.tags[j].id).0) == Recs(r)[..i] + Recs(r)[i + 1..]
  {
    var q := Drop(r, r.tags[j].id).0;
    CutTags(r, j);
    DropIds(r, r.tags[j].id);
    CutSecond(Head(r), r.tags, j);
    RecsAre(r);
    RecsAre(q);
  }

  lemma OrdinaryAt(r: Reg, i: nat)
    requires i < |Recs(r)| && Recs(r)[i].id != METATAG_ID
    ensures Cached(r) <= i < Cached(r) + |r.tags| && r.tags[i - Cached(r)] == Recs(r)[i]
  {
  }

  lemma RecsLive(r: Reg, id: int)
    requires GoodIds(r)
    ensures (exists i :: 0 <= i < |Recs(r)| && Recs(r)[i].id == id) <==>
              (id == METATAG_ID && r.cache.Some?) || (id >= 0 && Live(r.tags, id))
  {
    RecsAscend(r);
    assert r.cache.Some? ==> Recs(r)[0].id == METATAG_ID;
    if i :| 0 <= i < |Recs(r)| && Recs(r)[i].id == id && id != METATAG_ID {
      assert r.tags[i - Cached(r)].id == id;
    }
    if id >= 0 && Live(r.tags, id) {
      var i :| 0 <= i < |r.tags| && r.tags[i].id == id;
      assert Recs(r)[i + Cached(r)].id == id;
    }
  }

  // ---------- Sizing ----------

  /** What the sizing pass sums up. */
  lemma {:induction false} NeededRecs(t: TagRec, ts: seq<TagRec>)
    ensures Needed([t] + ts) == HEADER + |t.name| + Needed(ts)
  {
    if ts == [] {
      assert [t] + ts == [t] && [t][..0] == [];
    } else {
      assert ([t] + ts)[..|ts|] == [t] + ts[..|ts| - 1];
      NeededRecs(t, ts[..|ts| - 1]);
    }
  }

  lemma RoomRecs(r: Reg)
    ensures Needed(Recs(r)) == MetaCreate(r).cache.value.room
  {
    if r.cache.Some? {
      NeededRecs(MetaRec(r.cache.value), r.tags);
    }
  }

  lemma RoomCovers(r: Reg)
    ensures var c := MetaCreate(r).cache.value;
      && c == Cache(r.tags, Serialize(r.tags), c.room) && Needed(r.tags) <= c.room
      && MetaCreate(r) == DropCache(r).(cache := Some(c), gone := {}, builds := r.builds + 1)
  {
  }

  lemma PrefixNext(ts: seq<TagRec>, i: nat)
    requires i < |ts|
    ensures Needed(ts[..i + 1]) == Needed(ts[..i]) + HEADER + |ts[i].name|
    ensures Serialize(ts[..i + 1]) == Serialize(ts[..i]) + Record(ts[i])
  {
    assert ts[..i + 1][..i] == ts[..i];
  }

  lemma {:induction false} PrefixNeeds(ts: seq<TagRec>, i: nat)
    requires i <= |ts|
    ensures Needed(ts[..i]) <= Needed(ts)
    decreases |ts| - i
  {
    if i == |ts| {
      assert ts[..i] == ts;
    } else {
      PrefixNext(ts, i);
      PrefixNeeds(ts, i + 1);
    }
  }

  /** The bytes up to and with the next record fit what the whole listing asks for. */
  lemma NextFits(ts: seq<TagRec>, i: nat)
    requires i < |ts|
    ensures |Serialize(ts[..i])| + |Record(ts[i])| <= Needed(ts)
  {
    PrefixNext(ts, i);
    WrittenFits(ts[..i + 1]);
    PrefixNeeds(ts, i + 1);
  }
}

module TagTrees {
  import opened RankTrees
  import opened Links
  import opened SortedTrees
  import opened RbTrees
  import opened Types
  import opened Bytes
  import opened Metatag
  import opened Registry
  import opened TagPayload

  const WORD := 8  // sizeof(uintptr_t)

  /** The tree's nodes carry these records, in the order of their ids. */
  ghost predicate Lines(tree: RbTree, ts: seq<TagRec>)
    reads tree, tree.nodes
  {
    tree.Valid() && AllCarry(tree.nodes, InOrder(tree.model), ts)
  }

  /** The tree's nodes are the tags of a registry state. */
  ghost predicate Stands(tree: RbTree, r: Reg)
    reads tree, tree.nodes
  {
    GoodIds(r) && Lines(tree, Recs(r))
  }

  /** The counters are no part of it. */
  lemma StandsAlike(tree: RbTree, r: Reg, q: Reg)
    requires Stands(tree, r) && q.tags == r.tags && q.cache == r.cache && q.creates == r.creates
    ensures Stands(tree, q)
  {
    assert Recs(q) == Recs(r);
  }

  /** All nodes but the metatag. */
  ghost function Ordinary(S: set<TagNode>): set<TagNode>
    reads S`tagId
  {
    set x | x in S && x.tagId != METATAG_ID
  }

  lemma OrdinaryMore(S: set<TagNode>, x: TagNode)
    ensures x.tagId != METATAG_ID ==> Ordinary(S + {x}) == Ordinary(S) + {x}
  {
  }

  /** What the nodes' own ids say about the registry. */
  lemma Standing(tree: RbTree, r: Reg)
    requires Stands(tree, r)
    ensures Distinct(InOrder(tree.model)) && |InOrder(tree.model)| == |Recs(r)|
    ensures forall i :: 0 <= i < |Recs(r)| ==>
              && InOrder(tree.model)[i].x in tree.nodes
              && InOrder(tree.model)[i].x.tagId == InOrder(tree.model)[i].k == Recs(r)[i].id
    ensures forall x :: x in tree.nodes ==> exists i :: 0 <= i < |Recs(r)| && InOrder(tree.model)[i].x == x
  {
    var s := InOrder(tree.model);
    WholeEntries(tree.State(), tree.model);
    forall i | 0 <= i < |Recs(r)|
      ensures s[i].x in tree.nodes && s[i].x.tagId == s[i].k == Recs(r)[i].id
    {
      assert s[i] in s;
    }
    forall x | x in tree.nodes
      ensures exists i :: 0 <= i < |Recs(r)| && s[i].x == x
    {
      assert Entry(x, x.tagId) in s;
    }
  }

  lemma {:induction false} DistinctCount(s: seq<Entry<TagNode>>, S: set<TagNode>)
    requires Distinct(s) && forall x :: x in S <==> Mentions(s, x)
    ensures |S| == |s|
    decreases |s|
  {
    if s == [] {
      assert forall x :: x in S ==> Mentions(s, x);
      assert S == {};
    } else {
      var (init, e) := (s[..|s| - 1], s[|s| - 1]);
      forall x
        ensures x in S - {e.x} <==> Mentions(init, x)
      {
        SnocMentions(init, e, x);
        assert init + [e] == s;
      }
      DistinctCount(init, S - {e.x});
    }
  }

  lemma SnocMentions(init: seq<Entry<TagNode>>, e: Entry<TagNode>, x: TagNode)
    ensures Mentions(init + [e], x) <==> Mentions(init, x) || x == e.x
  {
    var s := init + [e];
    assert s[|init|] == e;
    assert forall i :: 0 <= i < |init| ==> s[i] == init[i];
  }

  /** The tree has one node for every record. */
  lemma CountNodes(tree: RbTree, r: Reg)
    requires Stands(tree, r)
    ensures |tree.nodes| == |r.tags| + Cached(r)
  {
    Standing(tree, r);
    DistinctCount(InOrder(tree.model), tree.nodes);
  }

  /** RB_REMOVE, seen with the tags' payload, which it leaves alone. */
  method TakeOut(tree: RbTree, x: TagNode, ghost ts: seq<TagRec>)
    requires Lines(tree, ts) && x in tree.nodes
    modifies tree, tree.nodes`left, tree.nodes`right, tree.nodes`parent, tree.nodes`redL, tree.nodes`redR
    ensures tree.Valid() && tree.nodes == old(tree.nodes) - {x}
    ensures InOrder(tree.model) == Without(old(InOrder(tree.model)), x)
    ensures AllCarry(old(tree.nodes), old(InOrder(tree.model)), ts)
  {
    WithoutSorted(InOrder(tree.model), x);
    var old_;
    ghost var rounds;
    old_, rounds := tree.Remove(x);
  }

  method CutLine(tree: RbTree, x: TagNode, ghost ts: seq<TagRec>, ghost i: nat)
    requires Lines(tree, ts) && i < |InOrder(tree.model)| && x == InOrder(tree.model)[i].x
    requires x in tree.nodes && Distinct(InOrder(tree.model))
    modifies tree, tree.nodes`left, tree.nodes`right, tree.nodes`parent, tree.nodes`redL, tree.nodes`redR
    ensures i < |ts| && Lines(tree, ts[..i] + ts[i + 1..]) && tree.nodes == old(tree.nodes) - {x}
  {
    ghost var S := tree.nodes;
    ghost var s := InOrder(tree.model);
    WithoutIndex(s, i);
    TakeOut(tree, x, ts);
    CutRepresents(S, s, ts, i);
  }

  /** RB_INSERT of a node whose id comes after all others. */
  method AddLast(tree: RbTree, x: TagNode, ghost ts: seq<TagRec>, ghost t: TagRec)
    requires Lines(tree, ts) && Carries(x, x.tagId, t) && forall i :: 0 <= i < |ts| ==> ts[i].id < t.id
    modifies tree, tree.nodes`left, tree.nodes`right, tree.nodes`parent, tree.nodes`redL, tree.nodes`redR,
             x`left, x`right, x`parent, x`redL, x`redR
    ensures Lines(tree, ts + [t]) && tree.nodes == old(tree.nodes) + {x}
  {
    ghost var S := tree.nodes;
    ghost var s := InOrder(tree.model);
    NewLast(S, s, ts, Entry(x, t.id));
    var dup;
    ghost var rounds;
    dup, rounds := tree.Insert(x);
    AddRepresents(S, s, ts, x, t);
  }

  /** RB_INSERT of a node whose id comes before all others. */
  method AddFirst(tree: RbTree, x: TagNode, ghost ts: seq<TagRec>, ghost t: TagRec)
    requires Lines(tree, ts) && Carries(x, x.tagId, t) && forall i :: 0 <= i < |ts| ==> t.id < ts[i].id
    modifies tree, tree.nodes`left, tree.nodes`right, tree.nodes`parent, tree.nodes`redL, tree.nodes`redR,
             x`left, x`right, x`parent, x`redL, x`redR
    ensures Lines(tree, [t] + ts) && tree.nodes == old(tree.nodes) + {x}
  {
    ghost var S := tree.nodes;
    ghost var s := InOrder(tree.model);
    NewFirst(S, s, ts, Entry(x, t.id));
    var dup;
    ghost var rounds;
    dup, rounds := tree.Insert(x);
    PutRepresents(S, s, ts, x, t);
  }

  /** Where a tag's node is. */
  lemma TagAt(tree: RbTree, r: Reg, x: TagNode) returns (j: nat)
    requires Stands(tree, r) && x in tree.nodes && x.tagId != METATAG_ID
    ensures j < |r.tags| && r.tags[j].id == x.tagId
    ensures Cached(r) + j < |InOrder(tree.model)| && InOrder(tree.model)[Cached(r) + j].x == x
    ensures Distinct(InOrder(tree.model))
  {
    var i := IndexOf(tree.State(), tree.model, x);
    AtNode(tree, r, i);
    OrdinaryAt(r, i);
    j := i - Cached(r);
  }

  /** The ordinary tag leaves the tree (lines 331-337, without the counter). */
  method TakeTag(tree: RbTree, x: TagNode, ghost r: Reg)
    requires Stands(tree, r) && x in tree.nodes && x.tagId != METATAG_ID
    modifies tree, tree.nodes`left, tree.nodes`right, tree.nodes`parent, tree.nodes`redL, tree.nodes`redR
    ensures x.tagId >= 0 && Live(r.tags, x.tagId)
    ensures Stands(tree, Drop(r, x.tagId).0) && tree.nodes == old(tree.nodes) - {x}
  {
    ghost var j := TagAt(tree, r, x);
    CutRecs(r, j);
    ghost var q, i := Drop(r, x.tagId).0, Cached(r) + j;
    CutLine(tree, x, Recs(r), i);
    assert Stands(tree, q);
  }

  /** The one node that can carry the metatag's id is the first. */
  lemma MetatagFirst(tree: RbTree, r: Reg)
    requires Stands(tree, r)
    ensures Distinct(InOrder(tree.model)) && (r.cache.Some? ==> InOrder(tree.model) != [])
    ensures forall x :: x in tree.nodes ==> (x.tagId == METATAG_ID <==> r.cache.Some? && x == InOrder(tree.model)[0].x)
    ensures r.cache.Some? ==> InOrder(tree.model)[0].x in tree.nodes && InOrder(tree.model)[0].x.tagId == METATAG_ID
  {
    Standing(tree, r);
    RecsAscend(r);
  }

  /** The other nodes carry the live ids. */
  lemma LiveNodes(tree: RbTree, r: Reg, id: int)
    requires Stands(tree, r)
    ensures (exists x :: x in tree.nodes && x.tagId == id) <==>
              (id == METATAG_ID && r.cache.Some?) || (id >= 0 && Live(r.tags, id))
  {
    var s := InOrder(tree.model);
    Standing(tree, r);
    RecsLive(r, id);
    if i :| 0 <= i < |Recs(r)| && Recs(r)[i].id == id {
      assert s[i].x in tree.nodes;
    }
  }

  /** The metatag, if there is one, leaves the tree (lines 159-166 and 214-221, without the counter). */
  method TakeMetatag(tree: RbTree, ghost r: Reg) returns (taken: bool)
    requires Stands(tree, r)
    modifies tree, tree.nodes`left, tree.nodes`right, tree.nodes`parent, tree.nodes`redL, tree.nodes`redR
    ensures Stands(tree, DropCache(r)) && taken == r.cache.Some?
    ensures tree.nodes == old(Ordinary(tree.nodes))
  {
    MetatagFirst(tree, r);
    DropRecs(r);
    var metatag;
    ghost var steps;
    metatag, steps := tree.Find(METATAG_ID);
    taken := metatag != null;
    if metatag != null {
      CutLine(tree, metatag, Recs(r), 0);
    }
  }

  /** Lines 324-336, without the counter. */
  method TakeLive(tree: RbTree, id: int, ghost r: Reg) returns (taken: bool)
    requires Stands(tree, r) && id != METATAG_ID
    modifies tree, tree.nodes`left, tree.nodes`right, tree.nodes`parent, tree.nodes`redL, tree.nodes`redR
    ensures taken <==> id >= 0 && Live(r.tags, id)
    ensures Stands(tree, if taken then Drop(r, id).0 else r) && tree.nodes <= old(tree.nodes)
  {
    LiveNodes(tree, r, id);
    var tag;
    ghost var steps;
    tag, steps := tree.Find(id);
    taken := tag != null;
    if tag != null {
      TakeTag(tree, tag, r);
    }
  }

  /** RB_INSERT of a node with the next free id. */
  method PutTag(tree: RbTree, x: TagNode, ghost r: Reg)
    requires Stands(tree, r) && x.tagId == NextId(r.tags)
    modifies tree, tree.nodes`left, tree.nodes`right, tree.nodes`parent, tree.nodes`redL, tree.nodes`redR,
             x`left, x`right, x`parent, x`redL, x`redR
    ensures Stands(tree, AddNode(r, x.name, x.ty)) && tree.nodes == old(tree.nodes) + {x}
  {
    ghost var t := TagRec(x.tagId, x.name, x.ty);
    RecsAscend(r);
    AddIds(r, x.name, x.ty);
    AddLast(tree, x, Recs(r), t);
  }

  /** RB_INSERT of a metatag into a tree that has none. */
  method PutMetatag(tree: RbTree, x: TagNode, ghost r: Reg, ghost c: Cache)
    requires Stands(tree, r) && r.cache.None? && Carries(x, x.tagId, MetaRec(c))
    modifies tree, tree.nodes`left, tree.nodes`right, tree.nodes`parent, tree.nodes`redL, tree.nodes`redR,
             x`left, x`right, x`parent, x`redL, x`redR
    ensures Stands(tree, r.(cache := Some(c))) && tree.nodes == old(tree.nodes) + {x}
  {
    ghost var q := r.(cache := Some(c));
    assert Recs(r) == r.tags && Recs(q) == [MetaRec(c)] + r.tags && GoodIds(q);
    AddFirst(tree, x, r.tags, MetaRec(c));
  }

  /** The id for the next tag (lines 121-127). */
  method FreeId(tree: RbTree, ghost r: Reg) returns (id: int)
    requires Stands(tree, r)
    ensures id == NextId(r.tags)
  {
    Standing(tree, r);
    RecsAscend(r);
    var tag := tree.MinMax(1);
    if tag == null {
      id := METATAG_ID + 1;
    } else {
      id := tag.tagId + 1;
    }
  }

  ghost function NodeAt(s: seq<Entry<TagNode>>, i: nat): TagNode? { if i < |s| then s[i].x else null }

  lemma AtNode(tree: RbTree, r: Reg, i: nat)
    requires Stands(tree, r) && i < |Recs(r)|
    ensures |InOrder(tree.model)| == |Recs(r)|
    ensures var x := InOrder(tree.model)[i].x;
      x in tree.nodes && x.tagId == Recs(r)[i].id && x.name == Recs(r)[i].name && x.ty == Recs(r)[i].ty
  {
    Standing(tree, r);
    assert Carries(InOrder(tree.model)[i].x, InOrder(tree.model)[i].k, Recs(r)[i]);
  }

  /** The steps of RB_FOREACH: the least node, and then the next one. */
  method First(tree: RbTree) returns (x: TagNode?)
    requires tree.Valid()
    ensures x == NodeAt(InOrder(tree.model), 0)
  {
    x := tree.MinMax(-1);
  }

  method After(tree: RbTree, tag: TagNode, ghost i: nat) returns (x: TagNode?)
    requires tree.Valid() && tag in tree.nodes && tag == NodeAt(InOrder(tree.model), i)
    ensures x == NodeAt(InOrder(tree.model), i + 1)
  {
    x := tree.Next(tag);
  }

  /** The summing loop (lines 209-212); sums stay below 2^64 as long as the names fit memory. */
  method SumSizes(tree: RbTree, ghost r: Reg) returns (total: nat)
    requires Stands(tree, r)
    ensures total == MetaCreate(r).cache.value.room
  {
    ghost var ts, s := Recs(r), InOrder(tree.model);
    total := 0;
    ghost var i := 0;
    var tag := First(tree);
    while tag != null
      invariant i <= |ts| == |s| && tag == NodeAt(s, i)
      invariant total == Needed(ts[..i])
      decreases |ts| - i
    {
      AtNode(tree, r, i);
      PrefixNext(ts, i);
      total := total + HEADER + |tag.name|;
      tag := After(tree, tag, i);
      i := i + 1;
    }
    assert ts[..i] == ts;
    RoomRecs(r);
  }

  // ---------- Filling the listing ----------

  /** memcpy of the first n bytes of a name. */
  method PutName(data: array<byte>, p: nat, name: seq<byte>, n: nat) returns (q: nat)
    requires n <= |name| && p + n <= data.Length
    modifies data
    ensures q == p + n && data[..q] == old(data[..p]) + name[..n]
  {
    q := p;
    while q < p + n
      invariant p <= q <= p + n
      invariant data[..q] == old(data[..p]) + name[..q - p]
    {
      data[q] := name[q - p];
      q := q + 1;
    }
  }

  /** type_size_bytes is narrowed to 16 bits, whether or not it wrapped at 64 before. */
  lemma NarrowSize(ty: Type)
    ensures Le(SizeOf(ty) % SIZE_T, 2) == Le(SizeOf(ty), 2)
  {
    var (q, r) := (SizeOf(ty) / SIZE_T, SizeOf(ty) % SIZE_T);
    LeTwoBytes(r);
    LeTwoBytes(SizeOf(ty));
    assert SizeOf(ty) == r + (q * 0x1_0000_0000_0000) * UINT16;
    ModShift(r, q * 0x1_0000_0000_0000, UINT16);
  }

  lemma RegroupHeader(s: seq<byte>, a: seq<byte>, b: seq<byte>, c: seq<byte>, d: seq<byte>, e: seq<byte>, f: seq<byte>,
                      g: seq<byte>)
    ensures s + a + b + c + d + e + f + g == s + (a + b + c + d + e + f + g)
  {
  }

  method PutHeader(data: array<byte>, p: nat, tag: TagNode, ghost t: TagRec) returns (q: nat)
    requires tag.tagId == t.id && tag.name == t.name && tag.ty == t.ty
    requires p + HEADER <= data.Length
    modifies data
    ensures q == p + HEADER && data[..q] == old(data[..p]) + Header(t)
  {
    ghost var s := data[..p];
    var size := TypeSizeBytes(tag.ty);
    NarrowSize(tag.ty);
    LeTwoBytes(|tag.name|);
    var dim := if tag.ty.Array? then tag.ty.len else 0;
    q := PutNumber(data, p, tag.tagId, 4);
    q := PutNumber(data, q, 0x2000, 2);
    q := PutNumber(data, q, size, 2);
    q := PutNumber(data, q, dim, 4);
    q := PutNumber(data, q, 0, 4);
    q := PutNumber(data, q, 0, 4);
    q := PutNumber(data, q, |tag.name| % UINT16, 2);
    RegroupHeader(s, Le(t.id, 4), Le(0x2000, 2), Le(SizeOf(t.ty), 2), Le(Dim0(t.ty), 4), Le(0, 4), Le(0, 4),
                  Le(|t.name|, 2));
  }

  /** The body of the filling loop (lines 247-267). */
  method PutRecord(data: array<byte>, p: nat, tag: TagNode, ghost t: TagRec) returns (q: nat)
    requires tag.tagId == t.id && tag.name == t.name && tag.ty == t.ty
    requires p + |Record(t)| <= data.Length
    modifies data
    ensures q == p + |Record(t)| && data[..q] == old(data[..p]) + Record(t)
  {
    ghost var s := data[..p];
    q := PutHeader(data, p, tag, t);
    q := PutName(data, q, tag.name, |tag.name| % UINT16);
    BytesRegroup(s, Header(t), t.name[..NameLength(t)]);
  }

  /** One round of the filling loop. */
  method FillRound(tree: RbTree, data: array<byte>, p: nat, tag: TagNode, ghost r: Reg, ghost i: nat)
    returns (q: nat, next: TagNode?)
    requires Stands(tree, r) && r.cache.None? && i < |r.tags| == |InOrder(tree.model)| &&
             tag == NodeAt(InOrder(tree.model), i)
    requires p <= data.Length && Needed(r.tags) <= data.Length && data[..p] == Serialize(r.tags[..i])
    modifies data
    ensures q <= data.Length && data[..q] == Serialize(r.tags[..i + 1])
    ensures next == NodeAt(InOrder(tree.model), i + 1)
  {
    AtNode(tree, r, i);
    NextFits(r.tags, i);
    PrefixNext(r.tags, i);
    q := PutRecord(data, p, tag, r.tags[i]);
    next := After(tree, tag, i);
  }

  lemma All<T>(ts: seq<T>)
    ensures ts[..|ts|] == ts
  {
  }

  /** The filling loop (lines 245-268), over a tree without a metatag. */
  method Fill(tree: RbTree, data: array<byte>, ghost r: Reg) returns (p: nat)
    requires Stands(tree, r) && r.cache.None? && Needed(r.tags) <= data.Length
    modifies data
    ensures p <= data.Length && data[..p] == Serialize(r.tags)
  {
    ghost var ts, s := r.tags, InOrder(tree.model);
    p := 0;
    ghost var i := 0;
    var tag := First(tree);
    assert |s| == |ts|;
    while tag != null
      invariant i <= |ts| && tag == NodeAt(s, i)
      invariant p <= data.Length && data[..p] == Serialize(ts[..i])
      decreases |ts| - i
    {
      p, tag := FillRound(tree, data, p, tag, r, i);
      i := i + 1;
    }
    assert i == |ts|;
    All(ts);
  }

  // ---------- New nodes ----------

  /** At least a word is reserved, and filled with 0x42. */
  function Room(ty: Type): nat { if SizeOf(ty) % SIZE_T < WORD then WORD else SizeOf(ty) % SIZE_T }

  function Untouched(ty: Type): seq<byte> { seq(Room(ty), _ => 0x42) }

  /** At least eight bytes, at least what the type asks for unless that is more than a size_t holds, and all 0x42. */
  lemma UntouchedBytes(ty: Type)
    ensures |Untouched(ty)| >= 8 && (SizeOf(ty) < 0x1_0000_0000_0000_0000 ==> |Untouched(ty)| >= SizeOf(ty))
    ensures |Untouched(ty)| == 8 || |Untouched(ty)| == SizeOf(ty) % 0x1_0000_0000_0000_0000
    ensures forall k :: 0 <= k < |Untouched(ty)| ==> Untouched(ty)[k] == 0x42
  {
  }

  /** The buffer of a new tag (lines 114-119 and 149-153). */
  method NewBuffer(ty: Type) returns (data: array<byte>)
    ensures fresh(data) && data[..] == Untouched(ty)
  {
    var sz := TypeSizeBytes(ty);
    if sz < WORD {
      sz := WORD;
    }
    data := new byte[sz](_ => 0x42);
  }

  /** The new node goes into the tree (lines 121-156, without the counter). */
  method AddTag(tree: RbTree, name: seq<byte>, ty: Type, data: array<byte>, ghost r: Reg) returns (tag: TagNode)
    requires Stands(tree, r)
    modifies tree, tree.nodes`left, tree.nodes`right, tree.nodes`parent, tree.nodes`redL, tree.nodes`redR
    ensures Stands(tree, AddNode(r, name, ty)) && tree.nodes == old(tree.nodes) + {tag} && fresh(tag)
    ensures tag.tagId == NextId(r.tags) && tag.name == name && tag.ty == ty && !tag.cb && tag.data == data
  {
    var id := FreeId(tree, r);
    tag := new TagNode(id, name, ty, data);
    PutTag(tree, tag, r);
  }

  /** The new metatag, filled (lines 223-268). */
  method NewMetatag(tree: RbTree, total: nat, ghost r: Reg, ghost c: Cache) returns (ret: TagNode)
    requires Stands(tree, r) && r.cache.None? && Needed(r.tags) <= total
    requires c == Cache(r.tags, Serialize(r.tags), total)
    ensures fresh(ret) && fresh(ret.data) && Carries(ret, ret.tagId, MetaRec(c))
    ensures ret.data.Length == total && c.bytes <= ret.data[..]
  {
    var data := new byte[total];
    var p := Fill(tree, data, r);
    ret := new TagNode(METATAG_ID, TAGS_NAME, NewArray(total, Simple(Sint)), data);
  }

  /** The new metatag goes into the tree (lines 223-272). */
  method AddMetatag(tree: RbTree, total: nat, ghost r: Reg, ghost c: Cache) returns (ret: TagNode)
    requires Stands(tree, r) && r.cache.None? && Needed(r.tags) <= total
    requires c == Cache(r.tags, Serialize(r.tags), total)
    modifies tree, tree.nodes`left, tree.nodes`right, tree.nodes`parent, tree.nodes`redL, tree.nodes`redR
    ensures Stands(tree, r.(cache := Some(c))) && tree.nodes == old(tree.nodes) + {ret} && fresh(ret) && fresh(ret.data)
    ensures ret.tagId == METATAG_ID && ret.name == TAGS_NAME
    ensures ret.data.Length == total && c.bytes <= ret.data[..]
  {
    ret := NewMetatag(tree, total, r, c);
    PutMetatag(tree, ret, r, c);
  }

  // ---------- Buffers ----------

  /**
   Every ordinary tag has a buffer of its own of the size its type asks for, and a metatag one as large as its listing,
   which it starts with.  What callers write into ordinary buffers does not matter here.
   */
  ghost predicate Buffered(S: set<TagNode>, c: Option<Cache>)
    reads S`tagId, S`ty, S`data, set x | x in S :: x.data
  {
    && Apart(S)
    && forall x :: x in S ==>
      if x.tagId == METATAG_ID then c.Some? && Listed(x, c.value) else x.data.Length == Room(x.ty)
  }

  ghost predicate Apart(S: set<TagNode>)
    reads S`data
  {
    forall x, y :: x in S && y in S && x.data == y.data ==> x == y
  }

  ghost function Datas(S: set<TagNode>): set<array<byte>>
    reads S`data
  {
    set x | x in S :: x.data
  }

  ghost predicate Listed(x: TagNode, c: Cache)
    reads x`data, x.data
  {
    x.data.Length == c.room && c.bytes <= x.data[..]
  }

  lemma BufferedLess(S: set<TagNode>, c: Option<Cache>, U: set<TagNode>)
    requires Buffered(S, c) && U <= S
    ensures Buffered(U, c)
  {
  }

  lemma BufferedOrdinary(S: set<TagNode>, c: Option<Cache>)
    requires Buffered(S, c)
    ensures Buffered(Ordinary(S), None)
  {
  }

  lemma BufferedMore(S: set<TagNode>, x: TagNode)
    requires Buffered(S, None) && x.data !in Datas(S) && x.data[..] == Untouched(x.ty) && x.tagId != METATAG_ID
    ensures Buffered(S + {x}, None)
  {
    assert |x.data[..]| == x.data.Length;
  }

  lemma BufferedMeta(S: set<TagNode>, x: TagNode, c: Cache)
    requires Buffered(S, None) && x.data !in Datas(S) && Listed(x, c) && x.tagId == METATAG_ID
    ensures Buffered(S + {x}, Some(c))
  {
  }

  /** Nodes made after the ones in O hold, in their first byte, how far their ids are from the first one. */
  ghost predicate Numbered(S: set<TagNode>, O: set<TagNode>, first: nat)
    reads S`tagId, S`data, set x | x in S :: x.data
  {
    forall x :: x in S && x !in O ==> x.data.Length >= 8 && x.data[0] == x.tagId - first
  }

  lemma NumberedMore(S: set<TagNode>, O: set<TagNode>, first: nat, x: TagNode, U: set<TagNode>)
    requires Numbered(S, O, first) && U <= S + {x} && x.data.Length >= 8 && x.data[0] == x.tagId - first
    ensures Numbered(U, O, first)
  {
  }

  lemma {:induction false} NextAfter(r: Reg, names: seq<seq<byte>>)
    ensures NextId(CreateAll(r, names).tags) == NextId(r.tags) + |names|
    decreases |names|
  {
    if names != [] {
      NextAfter(r, names[..|names| - 1]);
    }
  }

  // ---------- The tag tree ----------

  /** The registry after a lookup of any int. */
  function LookedUp(r: Reg, id: int): Reg { if id >= 0 then LookupTag(r, id) else Registry.Init(r) }

  class TagTree {
    const tree: RbTree
    var treeSize: nat
    var inited: bool

    ghost predicate Counts(r: Reg)
      reads this, tree, tree.nodes
    {
      treeSize == r.size && inited == r.inited && Stands(tree, r)
    }

    /** The linked tree, its counter, its flag and its buffers are those of a registry state. */
    ghost predicate Models(r: Reg)
      reads this, tree, tree.nodes, set x | x in tree.nodes :: x.data
    {
      Counts(r) && Buffered(tree.nodes, r.cache)
    }

    constructor ()
      ensures Models(START) && fresh(tree) && tree.nodes == {}
    {
      tree := new RbTree();
      treeSize, inited := 0, false;
    }

    /** Live nodes, the metatag included, are tree_size plus the metatags built so far, modulo 2^64. */
    lemma NodesCounted(r: Reg)
      requires Counts(r) && Counted(r)
      ensures |tree.nodes| % SIZE_T == (treeSize + r.builds) % SIZE_T
    {
      CountNodes(tree, r);
    }

    /** tree_size++. */
    method CountUp(ghost q: Reg)
      requires Stands(tree, q) && q.size == Bump(treeSize, 1, 0) && inited == q.inited
      modifies this`treeSize
      ensures Counts(q)
    {
      treeSize := (treeSize + 1) % SIZE_T;
    }

    /** tree_size--. */
    method CountDown(ghost q: Reg)
      requires Stands(tree, q) && q.size == Bump(treeSize, 0, 1) && inited == q.inited
      modifies this`treeSize
      ensures Counts(q)
    {
      treeSize := (treeSize + SIZE_T - 1) % SIZE_T;
    }

    /** Lines 159-166 and 214-221. */
    method DropMetatag(ghost r: Reg)
      requires Counts(r)
      modifies this`treeSize, tree, tree.nodes`left, tree.nodes`right, tree.nodes`parent, tree.nodes`redL,
               tree.nodes`redR
      ensures Counts(DropCache(r))
      ensures tree.nodes == old(Ordinary(tree.nodes))
    {
      var taken := TakeMetatag(tree, r);
      if taken {
        CountDown(DropCache(r));
      }
    }

    /** Lines 114-157: the new tag, before any metatag is dropped. */
    method Add(name: seq<byte>, ty: Type, ghost r: Reg) returns (tag: TagNode)
      requires Counts(r)
      modifies this`treeSize, tree, tree.nodes`left, tree.nodes`right, tree.nodes`parent, tree.nodes`redL,
               tree.nodes`redR
      ensures Counts(AddNode(r, name, ty)) && tree.nodes == old(tree.nodes) + {tag} && fresh(tag) && fresh(tag.data)
      ensures tag.tagId == NextId(r.tags) && tag.name == name && tag.ty == ty && !tag.cb &&
              tag.data[..] == Untouched(ty)
    {
      var data := NewBuffer(ty);
      tag := AddTag(tree, name, ty, data, r);
      CountUp(AddNode(r, name, ty));
    }

    /** The links' and the counter's side of tag_tree_node_create. */
    method CreateTag(name: seq<byte>, ty: Type, ghost r: Reg) returns (tag: TagNode)
      requires Counts(r)
      modifies this`treeSize, tree, tree.nodes`left, tree.nodes`right, tree.nodes`parent, tree.nodes`redL,
               tree.nodes`redR
      ensures Counts(Registry.NodeCreate(r, name, ty))
      ensures tree.nodes == old(Ordinary(tree.nodes)) + {tag}
      ensures fresh(tag) && fresh(tag.data)
      ensures tag.tagId == NextId(r.tags) && tag.name == name && tag.ty == ty && !tag.cb &&
              tag.data[..] == Untouched(ty)
    {
      ghost var S, q, p := tree.nodes, AddNode(r, name, ty), Registry.NodeCreate(r, name, ty);
      tag := Add(name, ty, r);
      OrdinaryMore(S, tag);
      ghost var O := Ordinary(tree.nodes);
      DropMetatag(q);
      assert tree.nodes == O && Counts(p);
    }

    /** The buffers' side of it. */
    method BufferTag(name: seq<byte>, ty: Type, ghost r: Reg, ghost S: set<TagNode>) returns (tag: TagNode)
      requires Counts(r) && S == Ordinary(tree.nodes) && Buffered(S, None)
      modifies this`treeSize, tree, tree.nodes`left, tree.nodes`right, tree.nodes`parent, tree.nodes`redL,
               tree.nodes`redR
      ensures Counts(Registry.NodeCreate(r, name, ty)) && Buffered(tree.nodes, None)
      ensures tree.nodes == S + {tag} && fresh(tag) && fresh(tag.data)
      ensures tag.tagId == NextId(r.tags) && tag.name == name && tag.ty == ty && !tag.cb &&
              tag.data[..] == Untouched(ty)
    {
      ghost var D := Datas(S);
      tag := CreateTag(name, ty, r);
      assert tag.data !in D;
      BufferedMore(S, tag);
    }

    /** tag_tree_node_create. */
    method NodeCreate(name: seq<byte>, ty: Type, ghost r: Reg) returns (tag: TagNode)
      requires Models(r)
      modifies this`treeSize, tree, tree.nodes`left, tree.nodes`right, tree.nodes`parent, tree.nodes`redL,
               tree.nodes`redR
      ensures Models(Registry.NodeCreate(r, name, ty)) && tree.nodes == old(Ordinary(tree.nodes)) + {tag}
      ensures fresh(tag) && fresh(tag.data) && tag in tree.nodes && fresh(tree.nodes - old(tree.nodes))
      ensures tag.tagId == NextId(r.tags) && tag.name == name && tag.ty == ty && !tag.cb
      ensures tag.data[..] == Untouched(ty)
    {
      ghost var S := Ordinary(tree.nodes);
      BufferedOrdinary(tree.nodes, r.cache);
      tag := BufferTag(name, ty, r, S);
    }

    /** The links' and the counter's side of tag_tree_metanode_create. */
    method CreateMetatag(ghost r: Reg) returns (ret: TagNode)
      requires Counts(r)
      modifies this`treeSize, tree, tree.nodes`left, tree.nodes`right, tree.nodes`parent, tree.nodes`redL,
               tree.nodes`redR
      ensures Counts(MetaCreate(r))
      ensures tree.nodes == old(Ordinary(tree.nodes)) + {ret}
      ensures fresh(ret) && fresh(ret.data)
      ensures ret.tagId == METATAG_ID && ret.name == TAGS_NAME && Listed(ret, MetaCreate(r).cache.value)
    {
      RoomCovers(r);
      ghost var q, s := DropCache(r), MetaCreate(r);
      var total := SumSizes(tree, r);
      DropMetatag(r);
      ret := PutListing(total, q, s.cache.value, s);
    }

    /** Lines 223-272, into a tree without a metatag. */
    method PutListing(total: nat, ghost q: Reg, ghost c: Cache, ghost s: Reg) returns (ret: TagNode)
      requires Counts(q) && q.cache.None? && Needed(q.tags) <= total && c == Cache(q.tags, Serialize(q.tags), total)
      requires s == q.(cache := Some(c), gone := {}, builds := q.builds + 1)
      modifies tree, tree.nodes`left, tree.nodes`right, tree.nodes`parent, tree.nodes`redL, tree.nodes`redR
      ensures Counts(s) && tree.nodes == old(tree.nodes) + {ret} && fresh(ret) && fresh(ret.data)
      ensures ret.tagId == METATAG_ID && ret.name == TAGS_NAME && Listed(ret, c)
    {
      ret := AddMetatag(tree, total, q, c);
      StandsAlike(tree, q.(cache := Some(c)), s);
    }

    /** The buffers' side of it. */
    method BufferMetatag(ghost r: Reg, ghost s: Reg, ghost S: set<TagNode>) returns (ret: TagNode)
      requires Counts(r) && s == MetaCreate(r) && S == Ordinary(tree.nodes) && Buffered(S, None)
      modifies this`treeSize, tree, tree.nodes`left, tree.nodes`right, tree.nodes`parent, tree.nodes`redL,
               tree.nodes`redR
      ensures Counts(s) && s.cache.Some? && Buffered(tree.nodes, s.cache)
      ensures tree.nodes == S + {ret} && fresh(ret) && fresh(ret.data)
      ensures ret.tagId == METATAG_ID && ret.name == TAGS_NAME && Listed(ret, s.cache.value)
    {
      ghost var D := Datas(S);
      ret := CreateMetatag(r);
      assert ret.data !in D;
      BufferedMeta(S, ret, s.cache.value);
    }

    /** tag_tree_metanode_create. */
    method MetanodeCreate(ghost r: Reg) returns (ret: TagNode)
      requires Models(r)
      modifies this`treeSize, tree, tree.nodes`left, tree.nodes`right, tree.nodes`parent, tree.nodes`redL,
               tree.nodes`redR
      ensures Models(MetaCreate(r))
      ensures fresh(ret) && fresh(ret.data) && ret in tree.nodes && fresh(tree.nodes - old(tree.nodes))
      ensures ret.tagId == METATAG_ID && ret.name == TAGS_NAME
      ensures Listed(ret, MetaCreate(r).cache.value)
    {
      ghost var S := Ordinary(tree.nodes);
      BufferedOrdinary(tree.nodes, r.cache);
      ret := BufferMetatag(r, MetaCreate(r), S);
    }

    /** A byte goes into an ordinary tag's buffer, which is no part of the registry. */
    method PutByte(tag: TagNode, val: byte, ghost s: Reg)
      requires Models(s) && tag in tree.nodes && tag.tagId != METATAG_ID && tag.data.Length >= 8
      modifies tag.data
      ensures Models(s) && tag.data[0] == val
    {
      assert Apart(tree.nodes);
      tag.data[0] := val;
    }

    /** The macro of lines 88-94, for the one type that tags.inc uses; val goes to one byte of the buffer. */
    method DefineScalar(name: seq<byte>, val: byte, ghost r: Reg) returns (ghost tag: TagNode)
      requires Models(r)
      modifies this`treeSize, tree, tree.nodes`left, tree.nodes`right, tree.nodes`parent, tree.nodes`redL,
               tree.nodes`redR
      ensures Models(Registry.NodeCreate(r, name, Simple(Int))) && fresh(tree.nodes - old(tree.nodes))
      ensures tree.nodes <= old(tree.nodes) + {tag} && tag.tagId == NextId(r.tags)
      ensures tag.data.Length >= 8 && tag.data[0] == val
    {
      ghost var s := Registry.NodeCreate(r, name, Simple(Int));
      var node := NodeCreate(name, Simple(Int), r);
      assert |node.data[..]| == node.data.Length;
      PutByte(node, val, s);
      tag := node;
    }

    /** tag_tree_init, run by one thread; the locking around it is the subject of InitProtocol. */
    method Init(ghost r: Reg)
      requires Models(r)
      modifies this`treeSize, this`inited, tree, tree.nodes`left, tree.nodes`right, tree.nodes`parent, tree.nodes`redL,
               tree.nodes`redR
      ensures Models(Registry.Init(r)) && fresh(tree.nodes - old(tree.nodes))
      ensures r.inited ==> tree.nodes == old(tree.nodes)
      ensures !r.inited ==> Numbered(tree.nodes, old(tree.nodes), NextId(r.tags))
    {
      if inited {
        return;
      }
      inited := true;
      ghost var q := r.(inited := true);
      StandsAlike(tree, r, q);
      assert Models(q);
      DefineAll(10, q);
    }

    /** One line of tags.inc. */
    method DefineRound(name: seq<byte>, val: byte, ghost r: Reg, ghost O: set<TagNode>, ghost first: nat)
      requires Models(r) && Numbered(tree.nodes, O, first) && NextId(r.tags) == first + val
      modifies this`treeSize, tree, tree.nodes`left, tree.nodes`right, tree.nodes`parent, tree.nodes`redL,
               tree.nodes`redR
      ensures Models(Registry.NodeCreate(r, name, Simple(Int))) && fresh(tree.nodes - old(tree.nodes))
      ensures Numbered(tree.nodes, O, first)
    {
      ghost var S, id := tree.nodes, first + val;
      ghost var tag := DefineScalar(name, val, r);
      assert tag.tagId == id;
      NumberedMore(S, O, first, tag, tree.nodes);
    }

    /** The first n lines of tags.inc. */
    method DefineAll(n: nat, ghost q: Reg)
      requires Models(q) && n <= 10
      modifies this`treeSize, tree, tree.nodes`left, tree.nodes`right, tree.nodes`parent, tree.nodes`redL,
               tree.nodes`redR
      ensures Models(CreateAll(q, Builtins(n))) && fresh(tree.nodes - old(tree.nodes))
      ensures Numbered(tree.nodes, old(tree.nodes), NextId(q.tags))
    {
      if n > 0 {
        ghost var O, first := tree.nodes, NextId(q.tags);
        ghost var r := CreateAll(q, Builtins(n - 1));
        DefineAll(n - 1, q);
        assert Builtins(n)[..n - 1] == Builtins(n - 1);
        NextAfter(q, Builtins(n - 1));
        DefineRound(BuiltinName(n - 1), n - 1, r, O, first);
      }
    }

    /** Lines 290-305. */
    method InsertPast(name: seq<byte>, ty: Type, ghost q: Reg, ghost s: (Reg, nat)) returns (tag: TagNode)
      requires Models(q)
      requires s == if name == TAGS_NAME then (MetaCreate(q), METATAG_ID)
               else (Registry.NodeCreate(q, name, ty), NextId(q.tags))
      modifies this`treeSize, tree, tree.nodes`left, tree.nodes`right, tree.nodes`parent, tree.nodes`redL,
               tree.nodes`redR
      ensures Models(s.0) && tag in tree.nodes && tag.name == name && tag.tagId == s.1
      ensures fresh(tree.nodes - old(tree.nodes))
    {
      if name == TAGS_NAME {
        tag := MetanodeCreate(q);
      } else {
        tag := NodeCreate(name, ty, q);
      }
    }

    /** tag_tree_insert. */
    method Insert(name: seq<byte>, ty: Type, ghost r: Reg) returns (ret: int, ghost tag: TagNode)
      requires Models(r)
      modifies this`treeSize, this`inited, tree, tree.nodes`left, tree.nodes`right, tree.nodes`parent, tree.nodes`redL,
               tree.nodes`redR
      ensures Models(InsertTag(r, name, ty).0) && ret == InsertTag(r, name, ty).1 && fresh(tree.nodes - old(tree.nodes))
      ensures tag in tree.nodes && tag.tagId == ret && tag.name == name
    {
      ghost var q, s := Registry.Init(r), InsertTag(r, name, ty);
      Init(r);
      var node := InsertPast(name, ty, q, s);
      ret, tag := node.tagId, node;
    }

    /** tag_tree_remove. */
    method Remove(id: int, ghost r: Reg) returns (status: Status)
      requires Models(r)
      modifies this`treeSize, this`inited, tree, tree.nodes`left, tree.nodes`right, tree.nodes`parent, tree.nodes`redL,
               tree.nodes`redR
      ensures id >= 0 ==> Models(RemoveTag(r, id).0) && status == RemoveTag(r, id).1
      ensures id < 0 ==> Models(Registry.Init(r)) && status == NotFound
      ensures status == Ok <==> id == METATAG_ID || (id >= 0 && Live(Registry.Init(r).tags, id))
      ensures fresh(tree.nodes - old(tree.nodes))
    {
      if id == METATAG_ID {
        return Ok;
      }
      Init(r);
      ghost var q := Registry.Init(r);
      status := RemoveLive(id, q);
    }

    /** The links' and the counter's side of lines 324-340. */
    method DropTag(id: int, ghost q: Reg) returns (status: Status)
      requires Counts(q) && id != METATAG_ID
      modifies this`treeSize, tree, tree.nodes`left, tree.nodes`right, tree.nodes`parent, tree.nodes`redL,
               tree.nodes`redR
      ensures id >= 0 ==> Counts(Drop(q, id).0) && status == Drop(q, id).1
      ensures id < 0 ==> Counts(q) && status == NotFound
      ensures status == Ok <==> id >= 0 && Live(q.tags, id)
      ensures tree.nodes <= old(tree.nodes)
    {
      var taken := TakeLive(tree, id, q);
      status := NotFound;
      if taken {
        CountDown(Drop(q, id).0);
        status := Ok;
      }
    }

    /** Lines 324-340. */
    method RemoveLive(id: int, ghost q: Reg) returns (status: Status)
      requires Models(q) && id != METATAG_ID
      modifies this`treeSize, tree, tree.nodes`left, tree.nodes`right, tree.nodes`parent, tree.nodes`redL,
               tree.nodes`redR
      ensures id >= 0 ==> Models(Drop(q, id).0) && status == Drop(q, id).1
      ensures id < 0 ==> Models(q) && status == NotFound
      ensures status == Ok <==> id >= 0 && Live(q.tags, id)
      ensures tree.nodes <= old(tree.nodes)
    {
      ghost var S := tree.nodes;
      status := DropTag(id, q);
      BufferedLess(S, q.cache, tree.nodes);
    }

    /** Lines 362-379. */
    method LookupPast(id: int, ghost q: Reg, ghost s: Reg) returns (ret: TagNode?)
      requires Models(q) && s == if id == METATAG_ID && q.cache.None? then MetaCreate(q) else q
      modifies this`treeSize, tree, tree.nodes`left, tree.nodes`right, tree.nodes`parent, tree.nodes`redL,
               tree.nodes`redR
      ensures Models(s) && fresh(tree.nodes - old(tree.nodes))
      ensures id != METATAG_ID || q.cache.Some? ==> tree.nodes == old(tree.nodes)
      ensures ret != null ==> ret in tree.nodes && ret.tagId == id
      ensures ret != null <==> id == METATAG_ID || (id >= 0 && Live(q.tags, id))
    {
      LiveNodes(tree, q, id);
      ghost var steps;
      ret, steps := tree.Find(id);
      if ret == null && id == METATAG_ID {
        ret := MetanodeCreate(q);
      }
    }

    method LookupFrom(id: int, ghost r: Reg, ghost q: Reg, ghost s: Reg, ghost same: bool) returns (ret: TagNode?)
      requires Models(r) && q == Registry.Init(r) && s == if id == METATAG_ID && q.cache.None? then MetaCreate(q) else q
      requires same ==> r.inited && (id != METATAG_ID || q.cache.Some?)
      modifies this`treeSize, this`inited, tree, tree.nodes`left, tree.nodes`right, tree.nodes`parent, tree.nodes`redL,
               tree.nodes`redR
      ensures Models(s) && fresh(tree.nodes - old(tree.nodes)) && (same ==> tree.nodes == old(tree.nodes))
      ensures ret != null ==> ret in tree.nodes && ret.tagId == id
      ensures ret != null <==> id == METATAG_ID || (id >= 0 && Live(q.tags, id))
    {
      Init(r);
      ret := LookupPast(id, q, s);
    }

    /** tag_tree_lookup. */
    method Lookup(id: int, ghost r: Reg) returns (ret: TagNode?)
      requires Models(r)
      modifies this`treeSize, this`inited, tree, tree.nodes`left, tree.nodes`right, tree.nodes`parent, tree.nodes`redL,
               tree.nodes`redR
      ensures Models(LookedUp(r, id)) && fresh(tree.nodes - old(tree.nodes))
      ensures id != METATAG_ID ==> Models(Registry.Init(r))
      ensures r.inited && (id != METATAG_ID || r.cache.Some?) ==> tree.nodes == old(tree.nodes)
      ensures ret != null ==> ret in tree.nodes && ret.tagId == id
      ensures ret != null <==> id == METATAG_ID || (id >= 0 && Live(Registry.Init(r).tags, id))
    {
      ghost var q, s := Registry.Init(r), LookedUp(r, id);
      ghost var same := r.inited && (id != METATAG_ID || r.cache.Some?);
      ret := LookupFrom(id, r, q, s, same);
    }

    /** Any one operation. */
    method Perform(op: Op, ghost r: Reg)
      requires Models(r)
      modifies this`treeSize, this`inited, tree, tree.nodes`left, tree.nodes`right, tree.nodes`parent, tree.nodes`redL,
               tree.nodes`redR
      ensures Models(Step(r, op)) && fresh(tree.nodes - old(tree.nodes))
    {
      match op {
        case Insert(name, ty) =>
          var ret;
          ghost var tag;
          ret, tag := Insert(name, ty, r);
        case Remove(id) => var status := Remove(id, r);
        case Lookup(id) => var tag := Lookup(id, r);
      }
    }
  }

  /** Any run of operations on an empty tag tree ends as the registry does. */
  method Replay(ops: seq<Op>) returns (t: TagTree)
    ensures fresh(t) && fresh(t.tree) && fresh(t.tree.nodes) && t.Models(Play(ops))
  {
    if ops == [] {
      t := new TagTree();
    } else {
      var init, op := ops[..|ops| - 1], ops[|ops| - 1];
      t := Replay(init);
      t.Perform(op, Play(init));
    }
  }
}
