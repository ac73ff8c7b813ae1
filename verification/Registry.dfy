/**
 The tag registry of src/tagtree.c as a state machine: ids, the cached "@tags"
 listing, and the tree_size counter, over every run of its operations.
 */
module Registry {
  import opened Types
  import opened Metatag

  /** The cached metatag: what was listed when it was built, the bytes written, and the bytes allocated. */
  datatype Cache = Cache(listing: seq<TagRec>, bytes: seq<byte>, room: nat)

  datatype Option<+T> = None | Some(value: T)

  /**
   tags: the live ordinary tags in id order; cache: the metatag node, when it is in the tree;
   size: tree_size; builds, creates: how often each kind of node was made; gone: ids removed
   since the cache was built.
   */
  datatype Reg = Reg(inited: bool, tags: seq<TagRec>, cache: Option<Cache>,
                     size: nat, builds: nat, creates: nat, gone: set<nat>)

  const START := Reg(false, [], None, 0, 0, 0, {})

  datatype Status = Ok | NotFound

  datatype Op = Insert(name: seq<byte>, ty: Type) | Remove(id: nat) | Lookup(id: nat)

  function Cached(r: Reg): nat { if r.cache.Some? then 1 else 0 }

  /** RB_MAX plus one; the metatag, if it is the only node, gives the same first id as an empty tree. */
  function NextId(tags: seq<TagRec>): nat {
    if tags == [] then METATAG_ID + 1 else tags[|tags| - 1].id + 1
  }

  /** tree_size arithmetic wraps like size_t. */
  function Bump(size: nat, plus: nat, minus: nat): nat
    requires minus <= 1
  {
    (size + plus + SIZE_T - minus) % SIZE_T
  }

  /** The new node's part of tag_tree_node_create (lines 121-157). */
  function AddNode(r: Reg, name: seq<byte>, ty: Type): Reg {
    r.(tags := r.tags + [TagRec(NextId(r.tags), name, ty)], size := Bump(r.size, 1, 0), creates := r.creates + 1)
  }

  /** The metatag, if there is one, leaves the tree (lines 159-166 and 214-221). */
  function DropCache(r: Reg): Reg {
    if r.cache.None? then r else r.(cache := None, gone := {}, size := Bump(r.size, 0, 1))
  }

  /** tag_tree_node_create. */
  function NodeCreate(r: Reg, name: seq<byte>, ty: Type): Reg { DropCache(AddNode(r, name, ty)) }

  /** tag_tree_metanode_create: sizes are summed over all nodes, an old metatag included; the build is not counted. */
  function MetaCreate(r: Reg): Reg {
    var room := Needed(r.tags) + if r.cache.Some? then HEADER + |TAGS_NAME| else 0;
    DropCache(r).(cache := Some(Cache(r.tags, Serialize(r.tags), room)), gone := {}, builds := r.builds + 1)
  }

  predicate Live(tags: seq<TagRec>, id: nat) { exists i :: 0 <= i < |tags| && tags[i].id == id }

  /** The listing or tag list restricted to the ids outside a set. */
  function Outside(tags: seq<TagRec>, ids: set<nat>): seq<TagRec> {
    if tags == [] then []
    else
      var init := Outside(tags[..|tags| - 1], ids);
      if tags[|tags| - 1].id in ids then init else init + [tags[|tags| - 1]]
  }

  /** "DUMMY_AQUA_DATA_" and a digit (tags.inc). */
  function BuiltinName(i: nat): seq<byte> {
    [68, 85, 77, 77, 89, 95, 65, 81, 85, 65, 95, 68, 65, 84, 65, 95, 48 + i % 10]
  }

  /** The first n names that tags.inc defines, in order. */
  function Builtins(n: nat): (names: seq<seq<byte>>)
    ensures |names| == n
  {
    seq(n, (i: nat) => BuiltinName(i))
  }

  function CreateAll(r: Reg, names: seq<seq<byte>>): Reg
    decreases |names|
  {
    if names == [] then r
    else NodeCreate(CreateAll(r, names[..|names| - 1]), names[|names| - 1], Simple(Int))
  }

  /** tag_tree_init. */
  function Init(r: Reg): Reg {
    if r.inited then r else CreateAll(r.(inited := true), Builtins(10))
  }

  function InsertTag(r: Reg, name: seq<byte>, ty: Type): (Reg, nat) {
    var s := Init(r);
    if name == TAGS_NAME then (MetaCreate(s), METATAG_ID) else (NodeCreate(s, name, ty), NextId(s.tags))
  }

  /** tag_tree_remove past initialisation: the metatag is kept even though it lists the removed tag. */
  function Drop(s: Reg, id: nat): (Reg, Status) {
    if Live(s.tags, id) then
      (s.(tags := Outside(s.tags, {id}), size := Bump(s.size, 0, 1),
          gone := if s.cache.Some? then s.gone + {id} else {}), Ok)
    else (s, NotFound)
  }

  function RemoveTag(r: Reg, id: nat): (Reg, Status) {
    if id == METATAG_ID then (r, Ok) else Drop(Init(r), id)
  }

  function LookupTag(r: Reg, id: nat): Reg {
    var s := Init(r);
    if id == METATAG_ID && s.cache.None? then MetaCreate(s) else s
  }

  function Step(r: Reg, op: Op): Reg {
    match op
    case Insert(name, ty) => InsertTag(r, name, ty).0
    case Remove(id) => RemoveTag(r, id).0
    case Lookup(id) => LookupTag(r, id)
  }

  function Play(ops: seq<Op>): Reg {
    if ops == [] then START else Step(Play(ops[..|ops| - 1]), ops[|ops| - 1])
  }

  // ---------- What every reachable state satisfies ----------

  predicate Ascending(tags: seq<TagRec>) {
    forall i, j :: 0 <= i < j < |tags| ==> tags[i].id < tags[j].id
  }

  /** Ids of ordinary tags ascend, start at 2, and stay within one more than the number of creates. */
  predicate GoodIds(r: Reg) {
    && Ascending(r.tags)
    && forall i :: 0 <= i < |r.tags| ==> METATAG_ID < r.tags[i].id <= r.creates + 1
  }

  /**
   The cached listing is exact up to removals: leaving out the ids removed since it was built
   gives the live tags, record for record; those ids are listed and none of them is live.
   */
  predicate Coherent(r: Reg) {
    r.cache.Some? ==>
      && Ascending(r.cache.value.listing)
      && r.tags == Outside(r.cache.value.listing, r.gone)
      && (forall id :: id in r.gone ==> Live(r.cache.value.listing, id))
      && r.cache.value.bytes == Serialize(r.cache.value.listing)
      && Needed(r.cache.value.listing) <= r.cache.value.room <= Needed(r.cache.value.listing) + HEADER + |TAGS_NAME|
  }

  /** Nodes in the tree, the metatag included, are tree_size plus the metatags built so far, modulo 2^64. */
  predicate Counted(r: Reg) {
    r.size < SIZE_T && (|r.tags| + Cached(r)) % SIZE_T == (r.size + r.builds) % SIZE_T
  }

  predicate Good(r: Reg) { GoodIds(r) && Coherent(r) && Counted(r) && (r.cache.None? ==> r.gone == {}) }

  // ---------- Filtering ----------

  lemma {:induction false} OutsideMembers(tags: seq<TagRec>, ids: set<nat>)
    requires Ascending(tags)
    ensures Ascending(Outside(tags, ids)) && |Outside(tags, ids)| <= |tags|
    ensures forall t :: t in Outside(tags, ids) <==> t in tags && t.id !in ids
  {
    if tags != [] {
      var (init, t) := (tags[..|tags| - 1], tags[|tags| - 1]);
      OutsideMembers(init, ids);
      assert tags == init + [t];
      var o := Outside(init, ids);
      forall i | 0 <= i < |o|
        ensures o[i].id < t.id
      {
        assert o[i] in init;
      }
    }
  }

  lemma {:induction false} OutsideTwice(tags: seq<TagRec>, a: set<nat>, b: set<nat>)
    ensures Outside(Outside(tags, a), b) == Outside(tags, a + b)
  {
    if tags != [] {
      var (init, t) := (tags[..|tags| - 1], tags[|tags| - 1]);
      OutsideTwice(init, a, b);
      var o := Outside(init, a);
      assert (o + [t])[..|o|] == o;
    }
  }

  lemma {:induction false} OutsideNone(tags: seq<TagRec>)
    ensures Outside(tags, {}) == tags
  {
    if tags != [] {
      OutsideNone(tags[..|tags| - 1]);
    }
  }

  /** Exactly one record goes when one live id is left out. */
  lemma {:induction false} OutsideOne(tags: seq<TagRec>, id: nat)
    requires Ascending(tags)
    ensures |Outside(tags, {id})| == |tags| - (if Live(tags, id) then 1 else 0)
  {
    if tags != [] {
      var (init, t) := (tags[..|tags| - 1], tags[|tags| - 1]);
      OutsideOne(init, id);
      assert Live(tags, id) <==> Live(init, id) || t.id == id by {
        assert forall i :: 0 <= i < |init| ==> init[i] == tags[i];
        assert tags[|tags| - 1] == t;
      }
      if t.id == id {
        assert !Live(init, id);
      }
    }
  }

  // ---------- Every operation keeps them ----------

  lemma AddCounted(r: Reg, name: seq<byte>, ty: Type)
    requires Counted(r)
    ensures Counted(AddNode(r, name, ty))
  {
    BumpCounted(r.size, r.builds, |r.tags| + Cached(r), 1, 0);
  }

  lemma DropCacheCounted(r: Reg)
    requires Counted(r)
    ensures Counted(DropCache(r))
  {
    if r.cache.Some? {
      BumpCounted(r.size, r.builds, |r.tags| + 1, 0, 1);
    }
  }

  lemma NextIdGood(r: Reg, name: seq<byte>, ty: Type)
    requires GoodIds(r)
    ensures GoodIds(NodeCreate(r, name, ty))
    ensures !Live(r.tags, NextId(r.tags)) && NextId(r.tags) != METATAG_ID
    ensures forall i :: 0 <= i < |r.tags| ==> r.tags[i].id < NextId(r.tags)
  {
  }

  lemma NodeCreateGood(r: Reg, name: seq<byte>, ty: Type)
    requires Good(r)
    ensures Good(NodeCreate(r, name, ty))
  {
    AddCounted(r, name, ty);
    DropCacheCounted(AddNode(r, name, ty));
    NextIdGood(r, name, ty);
  }

  lemma BuildCounted(r: Reg)
    requires Counted(r)
    ensures Counted(MetaCreate(r))
  {
    DropCacheCounted(r);
    CountBuild(DropCache(r).size, r.builds, |r.tags|);
  }

  lemma BuildCoherent(r: Reg)
    requires GoodIds(r)
    ensures Coherent(MetaCreate(r))
  {
    OutsideNone(r.tags);
  }

  lemma MetaCreateGood(r: Reg)
    requires Good(r)
    ensures Good(MetaCreate(r))
  {
    BuildCounted(r);
    BuildCoherent(r);
  }

  /** Adding nodes, and taking one away, changes tree_size and the node count alike. */
  lemma BumpCounted(size: nat, builds: nat, n: nat, plus: nat, minus: nat)
    requires minus <= 1 && minus <= n && n % SIZE_T == (size + builds) % SIZE_T
    ensures Bump(size, plus, minus) < SIZE_T
    ensures (n + plus - minus) % SIZE_T == (Bump(size, plus, minus) + builds) % SIZE_T
  {
  }

  /** A build adds a node that tree_size does not see. */
  lemma CountBuild(size: nat, builds: nat, n: nat)
    requires n % SIZE_T == (size + builds) % SIZE_T
    ensures (n + 1) % SIZE_T == (size + (builds + 1)) % SIZE_T
  {
  }

  lemma DropIds(s: Reg, id: nat)
    requires GoodIds(s) && Live(s.tags, id)
    ensures GoodIds(Drop(s, id).0)
  {
    var t := Drop(s, id).0;
    OutsideMembers(s.tags, {id});
    forall j | 0 <= j < |t.tags|
      ensures METATAG_ID < t.tags[j].id <= t.creates + 1
    {
      assert t.tags[j] in s.tags;
    }
  }

  lemma DropCounted(s: Reg, id: nat)
    requires Good(s) && Live(s.tags, id)
    ensures Counted(Drop(s, id).0)
  {
    OutsideOne(s.tags, id);
    assert |s.tags| >= 1;
    BumpCounted(s.size, s.builds, |s.tags| + Cached(s), 0, 1);
  }

  lemma OutsideLive(tags: seq<TagRec>, ids: set<nat>, id: nat)
    requires Ascending(tags) && Live(Outside(tags, ids), id)
    ensures Live(tags, id)
  {
    OutsideMembers(tags, ids);
    var o := Outside(tags, ids);
    var i :| 0 <= i < |o| && o[i].id == id;
    assert o[i] in tags;
  }

  lemma DropCoherent(s: Reg, id: nat)
    requires Coherent(s) && Live(s.tags, id)
    ensures Coherent(Drop(s, id).0)
  {
    if s.cache.Some? {
      var l := s.cache.value.listing;
      OutsideTwice(l, s.gone, {id});
      OutsideLive(l, s.gone, id);
    }
  }

  lemma DropGood(s: Reg, id: nat)
    requires Good(s)
    ensures Good(Drop(s, id).0)
  {
    if Live(s.tags, id) {
      DropIds(s, id);
      DropCounted(s, id);
      DropCoherent(s, id);
    }
  }

  lemma {:induction false} CreateAllGood(r: Reg, names: seq<seq<byte>>)
    requires Good(r)
    ensures Good(CreateAll(r, names))
    decreases |names|
  {
    if names != [] {
      CreateAllGood(r, names[..|names| - 1]);
      NodeCreateGood(CreateAll(r, names[..|names| - 1]), names[|names| - 1], Simple(Int));
    }
  }

  lemma {:induction false} CreateAllInited(r: Reg, names: seq<seq<byte>>)
    requires r.inited
    ensures CreateAll(r, names).inited
    decreases |names|
  {
    if names != [] {
      CreateAllInited(r, names[..|names| - 1]);
    }
  }

  lemma InitGood(r: Reg)
    requires Good(r)
    ensures Good(Init(r))
  {
    CreateAllGood(r.(inited := true), Builtins(10));
  }

  lemma StepGood(r: Reg, op: Op)
    requires Good(r)
    ensures Good(Step(r, op))
  {
    InitGood(r);
    var s := Init(r);
    match op
    case Insert(name, ty) =>
      if name == TAGS_NAME {
        MetaCreateGood(s);
      } else {
        NodeCreateGood(s, name, ty);
      }
    case Remove(id) => DropGood(s, id);
    case Lookup(_) => MetaCreateGood(s);
  }

  /** Ids, cache coherence and the node count, over every run. */
  lemma {:induction false} PlayGood(ops: seq<Op>)
    ensures Good(Play(ops))
  {
    if ops != [] {
      PlayGood(ops[..|ops| - 1]);
      StepGood(Play(ops[..|ops| - 1]), ops[|ops| - 1]);
    }
  }

  // ---------- What each operation does ----------

  /**
   A removal takes out the record with the id and no other; it says so exactly if there was one, and of the metatag.
   */
  lemma RemoveEffect(r: Reg, id: nat)
    requires Good(r)
    ensures var (s, (t, status)) := (Init(r), RemoveTag(r, id));
      && (status == Ok <==> id == METATAG_ID || Live(s.tags, id))
      && (id == METATAG_ID ==> t == r)
      && (id != METATAG_ID ==>
            && (forall u :: u in t.tags <==> u in s.tags && u.id != id)
            && |t.tags| == |s.tags| - (if Live(s.tags, id) then 1 else 0)
            && t.cache == s.cache && t.inited == s.inited && t.creates == s.creates)
  {
    var s := Init(r);
    InitGood(r);
    OutsideMembers(s.tags, {id});
    OutsideOne(s.tags, id);
    forall u | u in s.tags
      ensures u.id == id ==> Live(s.tags, id)
    {
      var i :| 0 <= i < |s.tags| && s.tags[i] == u;
    }
  }

  /**
   An insertion appends one record under a fresh id and drops the listing; "@tags" makes a new listing of all tags.
   */
  lemma InsertEffect(r: Reg, name: seq<byte>, ty: Type)
    ensures var (s, (t, id)) := (Init(r), InsertTag(r, name, ty));
      if name == TAGS_NAME then id == 1 && t.tags == s.tags && t.cache.Some? && NewlyListed(t)
      else t.tags == s.tags + [TagRec(id, name, ty)] && t.cache.None?
  {
  }

  /** The listing has just been made. */
  predicate NewlyListed(r: Reg) { r.cache.Some? && r.cache.value.listing == r.tags && r.gone == {} }

  /** A lookup leaves the tags alone, and the listing too if there is one; the metatag's makes one if there is none. */
  lemma LookupEffect(r: Reg, id: nat)
    ensures var (s, t) := (Init(r), LookupTag(r, id));
      && t.tags == s.tags && t.inited == s.inited
      && (id != 1 || s.cache.Some? ==> t == s)
      && (id == 1 && s.cache.None? ==> NewlyListed(t))
  {
  }

  /** The characters of a C string. */
  predicate Spells(name: seq<byte>, text: string) {
    |name| == |text| && forall i :: 0 <= i < |name| ==> name[i] == text[i] as int
  }

  lemma BuiltinSpelled(i: nat)
    requires i < 10
    ensures Spells(BuiltinName(i), "DUMMY_AQUA_DATA_" + [(48 + i) as char])
    ensures Spells(TAGS_NAME, "@tags") && BuiltinName(i) != TAGS_NAME
  {
  }

  /** A built-in tag: the ids run from 2, the last character is the digit, the type is INT. */
  predicate Builtin(t: TagRec, i: nat)
    requires i < 10
  {
    t.id == i + 2 && t.ty == Simple(Int) && Spells(t.name, "DUMMY_AQUA_DATA_" + [(48 + i) as char])
  }

  lemma {:induction false} BuiltinRecords(n: nat)
    requires n <= 10
    ensures var r := CreateAll(START.(inited := true), Builtins(n));
      && r.inited && r.cache.None? && r.creates == n && |r.tags| == n
      && forall i :: 0 <= i < n ==> Builtin(r.tags[i], i)
  {
    if n > 0 {
      BuiltinRecords(n - 1);
      assert Builtins(n)[..n - 1] == Builtins(n - 1);
      BuiltinSpelled(n - 1);
    }
  }

  /** The first call of all makes the ten tags of tags.inc. */
  lemma InitEffect(r: Reg)
    ensures r.inited ==> Init(r) == r
    ensures r == START ==> |Init(r).tags| == 10 && Init(r).inited && Init(r).cache.None?
    ensures r == START ==> forall i :: 0 <= i < 10 ==> Builtin(Init(r).tags[i], i)
  {
    BuiltinRecords(10);
  }

  // ---------- Readings ----------

  lemma NewIdWithin(ops: seq<Op>)
    ensures NextId(Init(Play(ops)).tags) <= |ops| + 12
  {
    PlayGood(ops);
    PlayTyped(ops, false);
    InitGood(Play(ops));
    InitTyped(Play(ops), |ops|, false);
  }

  /**
   A create never meets a live id, never takes the metatag's, and counts up with the creates; the id is the one that
   the source computes in an int if and only if it is below 2^31, as it is after up to 2^31 - 13 operations.
   */
  lemma FreshIds(ops: seq<Op>, name: seq<byte>, ty: Type)
    requires name != TAGS_NAME
    ensures var s := Init(Play(ops));
      var (t, id) := InsertTag(Play(ops), name, ty);
      && !Live(s.tags, id) && (forall u :: u in s.tags ==> u.id < id)
      && METATAG_ID < id <= t.creates + 1 && id <= |ops| + 12
      && (ToInt(id) == id <==> id < INT32 / 2)
      && Live(t.tags, id) && t.cache.None?
  {
    PlayGood(ops);
    NewIdWithin(ops);
    InitGood(Play(ops));
    var s := Init(Play(ops));
    ToIntExact(NextId(s.tags));
    NodeCreateGood(s, name, ty);
    NextIdGood(s, name, ty);
    var t := NodeCreate(s, name, ty);
    assert t.tags[|s.tags|].id == NextId(s.tags);
  }

  /** A cached record stands for a live tag exactly when it was not removed since, and every live tag has one. */
  lemma CacheCoherence(ops: seq<Op>)
    ensures var r := Play(ops);
      r.cache.Some? ==>
        && (forall t :: t in r.tags <==> t in r.cache.value.listing && t.id !in r.gone)
        && (forall id :: id in r.gone ==> Live(r.cache.value.listing, id) && !Live(r.tags, id))
  {
    PlayGood(ops);
    var r := Play(ops);
    if r.cache.Some? {
      OutsideMembers(r.cache.value.listing, r.gone);
      forall i | 0 <= i < |r.tags|
        ensures r.tags[i].id !in r.gone
      {
        assert r.tags[i] in r.tags;
      }
    }
  }

  /** Callers insert types that the library's own constructors make. */
  predicate WellTyped(ops: seq<Op>) { forall i :: 0 <= i < |ops| && ops[i].Insert? ==> WellFormed(ops[i].ty) }

  predicate Bounded(tags: seq<TagRec>, n: nat, typed: bool) {
    forall t :: t in tags ==> t.id <= n + 1 && (typed ==> WellFormed(t.ty))
  }

  /**
   Live and listed tags alike have ids within the creates, of which there are at most ten more than operations,
   and, if typed, such types.
   */
  predicate Typed(r: Reg, n: nat, typed: bool) {
    && Bounded(r.tags, r.creates, typed) && (r.cache.Some? ==> Bounded(r.cache.value.listing, r.creates, typed))
    && if r.inited then r.creates <= n + 10 else r.creates == 0
  }

  lemma NodeCreateTyped(r: Reg, name: seq<byte>, ty: Type, typed: bool)
    requires Bounded(r.tags, r.creates, typed) && GoodIds(r) && (typed ==> WellFormed(ty))
    ensures Bounded(NodeCreate(r, name, ty).tags, r.creates + 1, typed)
    ensures NodeCreate(r, name, ty).creates == r.creates + 1
    ensures NodeCreate(r, name, ty).cache.None? && NodeCreate(r, name, ty).inited == r.inited
  {
  }

  lemma {:induction false} CreateAllTyped(r: Reg, names: seq<seq<byte>>, typed: bool)
    requires Good(r) && Bounded(r.tags, r.creates, typed)
    ensures var u := CreateAll(r, names);
      && Bounded(u.tags, u.creates, typed) && u.creates == r.creates + |names| && u.inited == r.inited
      && (names != [] ==> u.cache.None?)
    decreases |names|
  {
    if names != [] {
      var init := names[..|names| - 1];
      CreateAllTyped(r, init, typed);
      CreateAllGood(r, init);
      NodeCreateTyped(CreateAll(r, init), names[|names| - 1], Simple(Int), typed);
    }
  }

  lemma InitTyped(r: Reg, n: nat, typed: bool)
    requires Good(r) && Typed(r, n, typed)
    ensures Typed(Init(r), n, typed) && Init(r).inited
  {
    CreateAllTyped(r.(inited := true), Builtins(10), typed);
  }

  lemma MetaCreateTyped(s: Reg, n: nat, typed: bool)
    requires Typed(s, n, typed) && s.inited
    ensures Typed(MetaCreate(s), n + 1, typed)
  {
  }

  lemma AddTyped(s: Reg, name: seq<byte>, ty: Type, n: nat, typed: bool)
    requires Typed(s, n, typed) && s.inited && GoodIds(s) && (typed ==> WellFormed(ty))
    ensures Typed(NodeCreate(s, name, ty), n + 1, typed)
  {
    NodeCreateTyped(s, name, ty, typed);
  }

  lemma DropTyped(s: Reg, id: nat, n: nat, typed: bool)
    requires Typed(s, n, typed) && s.inited && GoodIds(s)
    ensures Typed(Drop(s, id).0, n + 1, typed)
  {
    OutsideMembers(s.tags, {id});
  }

  lemma StepTyped(r: Reg, op: Op, n: nat, typed: bool)
    requires Good(r) && Typed(r, n, typed) && (typed && op.Insert? ==> WellFormed(op.ty))
    ensures Typed(Step(r, op), n + 1, typed)
  {
    InitGood(r);
    InitTyped(r, n, typed);
    var s := Init(r);
    match op
    case Insert(name, ty) =>
      if name == TAGS_NAME {
        MetaCreateTyped(s, n, typed);
      } else {
        AddTyped(s, name, ty, n, typed);
      }
    case Remove(id) => DropTyped(s, id, n, typed);
    case Lookup(_) => MetaCreateTyped(s, n, typed);
  }

  lemma {:induction false} PlayTyped(ops: seq<Op>, typed: bool)
    requires typed ==> WellTyped(ops)
    ensures Typed(Play(ops), |ops|, typed)
  {
    if ops != [] {
      var init := ops[..|ops| - 1];
      assert typed ==> WellTyped(init) by {
        assert forall i :: 0 <= i < |init| ==> init[i] == ops[i];
      }
      PlayTyped(init, typed);
      PlayGood(init);
      StepTyped(Play(init), ops[|ops| - 1], |init|, typed);
    }
  }

  /** The cached bytes fit their buffer; they parse to the listed tags in every run whose ids fit an int. */
  lemma CachedBytes(ops: seq<Op>)
    ensures var r := Play(ops);
      r.cache.Some? ==>
        && |r.cache.value.bytes| <= r.cache.value.room
        && (WellTyped(ops) && |ops| <= INT32 / 2 - 12 ==>
              Parse(r.cache.value.bytes) == Rows(r.cache.value.listing))
  {
    PlayGood(ops);
    var r := Play(ops);
    if r.cache.Some? {
      WrittenFits(r.cache.value.listing);
      if WellTyped(ops) && |ops| <= INT32 / 2 - 12 {
        PlayTyped(ops, true);
        ParseSerialize(r.cache.value.listing);
      }
    }
  }

  /**
   How many of the allocated bytes stay unwritten after a build, if all names are short: none, or the old metatag's
   27.
   */
  lemma BuildRoom(r: Reg)
    ensures var c := MetaCreate(r).cache.value;
      ShortNames(r.tags) <==> c.room - |c.bytes| == if r.cache.Some? then 27 else 0
    ensures var c := MetaCreate(r).cache.value; |c.bytes| <= c.room
  {
    WrittenFits(r.tags);
  }

  /** Leaving out one live id is cutting its record out of the sequence. */
  lemma {:induction false} OutsideAt(tags: seq<TagRec>, i: nat)
    requires Ascending(tags) && i < |tags|
    ensures Outside(tags, {tags[i].id}) == tags[..i] + tags[i + 1..]
  {
    var (init, t) := (tags[..|tags| - 1], tags[|tags| - 1]);
    if i == |init| {
      OutsideAll(init, t.id);
    } else {
      OutsideAt(init, i);
      assert init[..i] + init[i + 1..] + [t] == tags[..i] + tags[i + 1..];
    }
  }

  lemma {:induction false} OutsideAll(tags: seq<TagRec>, id: nat)
    requires forall i :: 0 <= i < |tags| ==> tags[i].id != id
    ensures Outside(tags, {id}) == tags
  {
    if tags != [] {
      OutsideAll(tags[..|tags| - 1], id);
    }
  }
}
