/**
 A generated accessor from end to end (src/plcstub.c:34-68 and 84-198): the lookup in the
 tag tree, and then the access to the buffer of the node that it found.
 */
module Calls {
  import opened RankTrees
  import opened SortedTrees
  import opened Links
  import opened RbTrees
  import opened Types
  import opened Bytes
  import opened Metatag
  import opened Registry
  import opened TagPayload
  import opened TagTrees
  import opened Access

  // ---------- The nodes that a lookup finds ----------

  /** A metatag's node has the type and the buffer of its listing. */
  lemma MetatagNode(t: TagTree, r: Reg, x: TagNode)
    requires t.Models(r) && x in t.tree.nodes && x.tagId == METATAG_ID
    ensures r.cache.Some? && Listed(x, r.cache.value) && x.ty == NewArray(r.cache.value.room, Simple(Sint))
  {
    MetatagFirst(t.tree, r);
    AtNode(t.tree, r, 0);
  }

  /** An id is carried by one node. */
  lemma OneNode(tree: RbTree, r: Reg, x: TagNode, y: TagNode)
    requires Stands(tree, r) && x in tree.nodes && y in tree.nodes && x.tagId == y.tagId
    ensures x == y
  {
    Standing(tree, r);
    RecsAscend(r);
  }

  /** An ordinary tag's node has its type, and the buffer that goes with it. */
  lemma OrdinaryNode(t: TagTree, r: Reg, x: TagNode)
    requires t.Models(r) && x in t.tree.nodes && x.tagId != METATAG_ID
    ensures x.data.Length == Room(x.ty) && exists u :: u in r.tags && u.id == x.tagId && u.ty == x.ty
  {
    var j := TagAt(t.tree, r, x);
    AtNode(t.tree, r, Cached(r) + j);
    assert Recs(r)[Cached(r) + j] == r.tags[j];
  }

  predicate InReach(ty: Type, offset: nat, w: nat, room: nat) { Place(ty, offset) ==> Within(ty, offset, w, room) }

  /** The caller's side of an access: it stays in the buffer of the tag with the id, if there is one. */
  predicate Safe(q: Reg, id: int, offset: nat, w: nat) {
    if id == METATAG_ID then
      q.cache.Some? ==> InReach(NewArray(q.cache.value.room, Simple(Sint)), offset, w, q.cache.value.room)
    else forall u :: u in q.tags && u.id == id ==> InReach(u.ty, offset, w, Room(u.ty))
  }

  lemma SafeNode(t: TagTree, q: Reg, id: int, offset: nat, w: nat, x: TagNode)
    requires t.Models(q) && Safe(q, id, offset, w) && x in t.tree.nodes && x.tagId == id
    ensures InReach(x.ty, offset, w, x.data.Length)
  {
    if id == METATAG_ID {
      MetatagNode(t, q, x);
    } else {
      OrdinaryNode(t, q, x);
    }
  }

  /** What a getter answers on a tag that was found, or not. */
  ghost predicate Answers(x: TagNode?, offset: nat, a: Accessor, val: nat)
    reads x, if x == null then {} else {x.data}
  {
    && Pow256(Width(a)) > 0
    && if x == null then val == Failed(ERR_NOT_FOUND, a)
       else if !Place(x.ty, offset) then val == Failed(ERR_BAD_PARAM, a)
       else Within(x.ty, offset, Width(a), x.data.Length)
            && val == Loaded(x.data[..], ByteOffset(x.ty, offset), Width(a))
  }

  method GetFrom(x: TagNode?, offset: nat, a: Accessor) returns (val: nat)
    requires x != null ==> InReach(x.ty, offset, Width(a), x.data.Length)
    ensures Answers(x, offset, a, val)
  {
    var events;
    val, events := Getter(x, offset, a);
  }

  /** The lookup of an accessor, with what its caller made sure of. */
  method Found(t: TagTree, id: int, offset: nat, w: nat, ghost r: Reg, ghost s: Reg) returns (x: TagNode?)
    requires t.Models(r) && s == LookedUp(r, id) && Safe(s, id, offset, w)
    modifies t`treeSize, t`inited, t.tree, t.tree.nodes`left, t.tree.nodes`right, t.tree.nodes`parent,
             t.tree.nodes`redL, t.tree.nodes`redR
    ensures t.Models(s)
    ensures x != null <==> id == METATAG_ID || (id >= 0 && Live(s.tags, id))
    ensures x != null ==> x in t.tree.nodes && x.tagId == id && InReach(x.ty, offset, w, x.data.Length)
    ensures r.inited && (id != METATAG_ID || r.cache.Some?) ==> t.tree.nodes == old(t.tree.nodes)
    ensures fresh(t.tree.nodes - old(t.tree.nodes))
  {
    x := t.Lookup(id, r);
    if x != null {
      SafeNode(t, s, id, offset, w, x);
    }
  }

  /** plc_tag_get_x. */
  method Get(t: TagTree, id: int, offset: nat, a: Accessor, ghost r: Reg, ghost s: Reg)
    returns (val: nat, ghost x: TagNode?)
    requires t.Models(r) && s == LookedUp(r, id) && Safe(s, id, offset, Width(a))
    modifies t`treeSize, t`inited, t.tree, t.tree.nodes`left, t.tree.nodes`right, t.tree.nodes`parent,
             t.tree.nodes`redL, t.tree.nodes`redR
    ensures t.Models(s) && Answers(x, offset, a, val)
    ensures x != null <==> id == METATAG_ID || (id >= 0 && Live(s.tags, id))
    ensures x != null ==> x in t.tree.nodes && x.tagId == id
    ensures r.inited && (id != METATAG_ID || r.cache.Some?) ==> t.tree.nodes == old(t.tree.nodes)
    ensures fresh(t.tree.nodes - old(t.tree.nodes))
  {
    var node := Found(t, id, offset, Width(a), r, s);
    val := GetFrom(node, offset, a);
    x := node;
  }

  /**
   The access of a setter; the buffers of the other nodes stay, and so does the tag tree, unless it is the listing.
   */
  method SetFrom(t: TagTree, x: TagNode, offset: nat, w: nat, val: nat, ghost s: Reg) returns (status: int)
    requires t.Models(s) && x in t.tree.nodes && InReach(x.ty, offset, w, x.data.Length)
    modifies x.data
    ensures t.Counts(s) && (x.tagId != METATAG_ID ==> t.Models(s))
    ensures status == if Place(x.ty, offset) then STATUS_OK else ERR_BAD_PARAM
    ensures x.data[..] == if status == STATUS_OK then Stored(old(x.data[..]), ByteOffset(x.ty, offset), w, val)
                          else old(x.data[..])
    ensures forall y :: y in t.tree.nodes && y != x ==> y.data[..] == old(y.data[..])
  {
    assert Apart(t.tree.nodes);
    var events;
    status, events := SetImpl(x, offset, w, val);
  }

  /** plc_tag_set_x on an ordinary tag, not the first call of all. */
  method Set(t: TagTree, id: int, offset: nat, w: nat, val: nat, ghost r: Reg, ghost x: TagNode) returns (status: int)
    requires t.Models(r) && r.inited && id != METATAG_ID && Safe(r, id, offset, w) && x in t.tree.nodes && x.tagId == id
    modifies t`treeSize, t`inited, t.tree, t.tree.nodes`left, t.tree.nodes`right, t.tree.nodes`parent,
             t.tree.nodes`redL, t.tree.nodes`redR, x.data
    ensures t.Models(r) && t.tree.nodes == old(t.tree.nodes) && InReach(x.ty, offset, w, x.data.Length)
    ensures status == if Place(x.ty, offset) then STATUS_OK else ERR_BAD_PARAM
    ensures x.data[..] == if status == STATUS_OK then Stored(old(x.data[..]), ByteOffset(x.ty, offset), w, val)
                          else old(x.data[..])
  {
    LiveNodes(t.tree, r, id);
    var node := Found(t, id, offset, w, r, r);
    OneNode(t.tree, r, node, x);
    status := SetFrom(t, node, offset, w, val, r);
  }

  // ---------- Set and get on any tag ----------

  lemma SafeTag(r: Reg, k: nat, i: nat, w: nat)
    requires GoodIds(r) && k < |r.tags|
    requires Cell(r.tags[k].ty, i, w)
    ensures Safe(r, r.tags[k].id, i, w)
  {
    RoomForCells(r.tags[k].ty);
    CellWithin(r.tags[k].ty, i, w, Room(r.tags[k].ty));
  }

  /** Where tag k of the registry is. */
  lemma TagNodeAt(t: TagTree, r: Reg, k: nat, x: TagNode)
    requires t.Models(r) && k < |r.tags| && x in t.tree.nodes && x.tagId == r.tags[k].id
    ensures x.ty == r.tags[k].ty && x.data.Length == Room(x.ty)
  {
    OrdinaryNode(t, r, x);
  }

  /** What a getter answers on an ordinary tag, as a value. */
  lemma AnsweredAt(x: TagNode, j: nat, w: nat, val: nat)
    requires Cell(x.ty, j, w)
    requires x.data.Length == Room(x.ty) && Answers(x, j, Integer(w), val)
    ensures Within(x.ty, j, w, |x.data[..]|) && val == Loaded(x.data[..], ByteOffset(x.ty, j), w)
  {
  }

  /** An access, of this width, to this place of tag k. */
  predicate Element(r: Reg, k: nat, i: nat, w: nat) { r.inited && k < |r.tags| && Cell(r.tags[k].ty, i, w) }

  /** The node of tag k. */
  ghost predicate NodeOf(t: TagTree, r: Reg, k: nat, x: TagNode)
    requires k < |r.tags|
    reads t, t.tree, x
  {
    x in t.tree.nodes && x.tagId == r.tags[k].id && x.ty == r.tags[k].ty && x.data.Length == Room(x.ty)
  }

  /** plc_tag_get_x at a place of a tag. */
  method GetAt(t: TagTree, id: int, i: nat, w: nat, ghost r: Reg, ghost k: nat) returns (val: nat, ghost x: TagNode)
    requires t.Models(r) && Element(r, k, i, w) && id == r.tags[k].id
    modifies t`treeSize, t`inited, t.tree, t.tree.nodes`left, t.tree.nodes`right, t.tree.nodes`parent,
             t.tree.nodes`redL, t.tree.nodes`redR
    ensures t.Models(r) && t.tree.nodes == old(t.tree.nodes) && NodeOf(t, r, k, x)
    ensures Within(x.ty, i, w, |x.data[..]|) && val == Loaded(x.data[..], ByteOffset(x.ty, i), w)
  {
    SafeTag(r, k, i, w);
    ghost var y;
    val, y := Get(t, id, i, Integer(w), r, r);
    TagNodeAt(t, r, k, y);
    AnsweredAt(y, i, w, val);
    x := y;
  }

  /** plc_tag_set_x at a place of a tag. */
  method SetAt(t: TagTree, id: int, i: nat, w: nat, v: nat, ghost r: Reg, ghost k: nat, ghost x: TagNode)
    returns (status: int)
    requires t.Models(r) && Element(r, k, i, w) && id == r.tags[k].id && NodeOf(t, r, k, x)
    modifies t`treeSize, t`inited, t.tree, t.tree.nodes`left, t.tree.nodes`right, t.tree.nodes`parent,
             t.tree.nodes`redL, t.tree.nodes`redR, x.data
    ensures t.Models(r) && t.tree.nodes == old(t.tree.nodes) && status == STATUS_OK
    ensures Within(x.ty, i, w, |old(x.data[..])|)
    ensures x.data[..] == Stored(old(x.data[..]), ByteOffset(x.ty, i), w, v)
  {
    SafeTag(r, k, i, w);
    status := Set(t, id, i, w, v, r, x);
  }

  /** A get from a known node. */
  method GetThere(t: TagTree, id: int, i: nat, w: nat, ghost r: Reg, ghost k: nat, ghost x: TagNode) returns (val: nat)
    requires t.Models(r) && Element(r, k, i, w) && id == r.tags[k].id && NodeOf(t, r, k, x)
    modifies t`treeSize, t`inited, t.tree, t.tree.nodes`left, t.tree.nodes`right, t.tree.nodes`parent,
             t.tree.nodes`redL, t.tree.nodes`redR
    ensures t.Models(r)
    ensures Within(x.ty, i, w, |x.data[..]|) && val == Loaded(x.data[..], ByteOffset(x.ty, i), w)
  {
    ghost var y;
    val, y := GetAt(t, id, i, w, r, k);
    OneNode(t.tree, r, x, y);
  }

  /** A set and then a get. */
  method SetGetAt(t: TagTree, id: int, i: nat, j: nat, w: nat, v: nat, ghost r: Reg, ghost k: nat, ghost x: TagNode)
    returns (status: int, val: nat)
    requires t.Models(r) && Element(r, k, i, w) && Element(r, k, j, w) && id == r.tags[k].id && NodeOf(t, r, k, x)
    modifies t`treeSize, t`inited, t.tree, t.tree.nodes`left, t.tree.nodes`right, t.tree.nodes`parent,
             t.tree.nodes`redL, t.tree.nodes`redR, x.data
    ensures t.Models(r) && status == STATUS_OK
    ensures Within(x.ty, i, w, |old(x.data[..])|) && Within(x.ty, j, w, |old(x.data[..])|)
    ensures val == Loaded(Stored(old(x.data[..]), ByteOffset(x.ty, i), w, v), ByteOffset(x.ty, j), w)
  {
    status := SetAt(t, id, i, w, v, r, k, x);
    val := GetThere(t, id, j, w, r, k, x);
  }

  /**
   A get, a set and a get again, by id, on a tag tree in any state: what was set is read back at its place, and what
   is at the others, in an array, is what it was.  The library has been called before, or the id would not be known.
   */
  method RoundTrip(t: TagTree, id: int, i: nat, j: nat, w: nat, v: nat, ghost r: Reg, ghost k: nat)
    returns (status: int, before: nat, val: nat)
    requires t.Models(r) && Element(r, k, i, w) && Element(r, k, j, w) && id == r.tags[k].id
    modifies t`treeSize, t`inited, t.tree, t.tree.nodes`left, t.tree.nodes`right, t.tree.nodes`parent,
             t.tree.nodes`redL, t.tree.nodes`redR, set x | x in t.tree.nodes :: x.data
    ensures t.Models(r) && status == STATUS_OK && Pow256(w) > 0
    ensures val == if i == j then v % Pow256(w) else before
  {
    ghost var x;
    before, x := GetAt(t, id, j, w, r, k);
    ghost var ty, data := x.ty, x.data[..];
    RoomForCells(ty);
    CellRoundTrip(ty, data, i, j, w, v);
    status, val := SetGetAt(t, id, i, j, w, v, r, k, x);
  }

  // ---------- Reading the listing ----------

  lemma OneByte(s: seq<byte>, i: nat)
    requires i < |s|
    ensures Loaded(s, i, 1) == s[i]
  {
    assert s[i..i + 1] == [s[i]];
    assert FromLe([s[i]]) == s[i] + 256 * FromLe([s[i]][1..]);
  }

  /** A byte-wide getter on the listing, index by index: an array's length has 16 bits. */
  predicate ByteRead(c: Cache, i: nat, val: nat) {
    if i < c.room % UINT16 then i < |c.bytes| ==> val == c.bytes[i] else val == Failed(ERR_BAD_PARAM, Integer(1))
  }

  lemma ListedByte(x: TagNode, c: Cache, i: nat, val: nat)
    requires Listed(x, c) && x.ty == NewArray(c.room, Simple(Sint)) && Answers(x, i, Integer(1), val)
    ensures ByteRead(c, i, val) && val < 256
  {
    if i < c.room % UINT16 {
      OffsetExact(x.ty, i);
      OneByte(x.data[..], i);
    }
  }

  lemma ListingSafe(s: Reg, i: nat)
    ensures Safe(s, METATAG_ID, i, 1)
  {
    if s.cache.Some? && i < s.cache.value.room % UINT16 {
      OffsetExact(NewArray(s.cache.value.room, Simple(Sint)), i);
    }
  }

  /** plc_tag_get_uint8(1, i). */
  method GetListed(t: TagTree, i: nat, ghost r: Reg, ghost s: Reg) returns (val: nat)
    requires t.Models(r) && s == LookedUp(r, METATAG_ID)
    modifies t`treeSize, t`inited, t.tree, t.tree.nodes`left, t.tree.nodes`right, t.tree.nodes`parent,
             t.tree.nodes`redL, t.tree.nodes`redR
    ensures t.Models(s) && s.cache.Some? && ByteRead(s.cache.value, i, val) && val < 256
    ensures fresh(t.tree.nodes - old(t.tree.nodes))
    ensures r.inited && r.cache.Some? ==> t.tree.nodes == old(t.tree.nodes)
  {
    ListingSafe(s, i);
    ghost var x;
    val, x := Get(t, METATAG_ID, i, Integer(1), r, s);
    MetatagNode(t, s, x);
    ListedByte(x, s.cache.value, i, val);
  }

  /** A cached listing is found as it is. */
  lemma LookedUpAgain(r: Reg)
    ensures var s := LookedUp(r, METATAG_ID); s.inited && s.cache.Some? && LookedUp(s, METATAG_ID) == s
  {
    CreateAllInited(r.(inited := true), Builtins(10));
  }

  predicate BytesRead(c: Cache, got: seq<byte>) { forall i :: 0 <= i < |got| ==> ByteRead(c, i, got[i]) }

  lemma ReadSnoc(c: Cache, got: seq<byte>, val: byte)
    requires BytesRead(c, got) && ByteRead(c, |got|, val)
    ensures BytesRead(c, got + [val])
  {
  }

  /** The rest of it, once it is cached. */
  method ReadRest(t: TagTree, first: byte, n: nat, ghost s: Reg) returns (got: seq<byte>)
    requires t.Models(s) && s.inited && s.cache.Some? && s == LookedUp(s, METATAG_ID)
    requires n > 0 && ByteRead(s.cache.value, 0, first)
    modifies t`treeSize, t`inited, t.tree, t.tree.nodes`left, t.tree.nodes`right, t.tree.nodes`parent,
             t.tree.nodes`redL, t.tree.nodes`redR
    ensures t.Models(s) && |got| == n && BytesRead(s.cache.value, got)
  {
    ghost var c := s.cache.value;
    got := [first];
    while |got| < n
      invariant 0 < |got| <= n && t.Models(s) && t.tree.nodes == old(t.tree.nodes) && BytesRead(c, got)
    {
      var val := GetListed(t, |got|, s, s);
      ReadSnoc(c, got, val);
      got := got + [val];
    }
  }

  /** Reading the listing through its tag, byte by byte. */
  method ReadListing(t: TagTree, n: nat, ghost r: Reg, ghost s: Reg) returns (got: seq<byte>)
    requires t.Models(r) && s == LookedUp(r, METATAG_ID) && n > 0
    modifies t`treeSize, t`inited, t.tree, t.tree.nodes`left, t.tree.nodes`right, t.tree.nodes`parent,
             t.tree.nodes`redL, t.tree.nodes`redR
    ensures t.Models(s) && s.cache.Some? && |got| == n && BytesRead(s.cache.value, got)
  {
    LookedUpAgain(r);
    var first := GetListed(t, 0, r, s);
    got := ReadRest(t, first, n, s);
  }

  /** As long as there are fewer than 65536 bytes, what is read is what was written. */
  lemma ReadWhole(c: Cache, got: seq<byte>)
    requires |c.bytes| <= |got| && |c.bytes| <= c.room < UINT16
    requires BytesRead(c, got)
    ensures got[..|c.bytes|] == c.bytes
  {
  }

  lemma OneInsert(name: seq<byte>, ty: Type)
    requires name != TAGS_NAME
    ensures Play([Op.Insert(name, ty)]) == NodeCreate(Init(START), name, ty) && Init(START).inited
  {
    var ops := [Op.Insert(name, ty)];
    assert ops[..0] == [];
    assert Play(ops) == Step(Play([]), ops[0]);
    CreateAllInited(START.(inited := true), Builtins(10));
  }

  lemma LongName(q: Reg, name: seq<byte>, ty: Type)
    requires q.inited
    ensures var s := LookedUp(NodeCreate(q, name, ty), METATAG_ID);
      s.cache.Some? && s.cache.value.room >= |name|
  {
    var ts := NodeCreate(q, name, ty).tags;
    assert ts[..|ts| - 1] == q.tags;
  }

  /** One long name makes the listing too long to be read to its end (Access.ListingReadable). */
  lemma WideListing(name: seq<byte>, ty: Type)
    requires |name| >= UINT16
    ensures var r := Play([Op.Insert(name, ty), Op.Lookup(METATAG_ID)]);
      r.cache.Some? && r.cache.value.room >= UINT16
  {
    OneInsert(name, ty);
    LongName(Init(START), name, ty);
    LookedUpRun([Op.Insert(name, ty)]);
  }

  /** What the caller has read, by then. */
  predicate ListingRead(ops: seq<Op>, r: Reg, got: seq<byte>) {
    && r.cache.Some?
    && var c := r.cache.value;
    && r.tags == Outside(c.listing, r.gone)
    && (WellTyped(ops) && |ops| < INT32 / 2 - 12 && |c.bytes| <= |got| && c.room < UINT16 ==>
          var rows := Parse(got[..|c.bytes|]);
          |rows| == |c.listing| && forall i :: 0 <= i < |rows| ==> Shows(rows[i], c.listing[i]))
  }

  lemma LookedUpRun(ops: seq<Op>)
    ensures Play(ops + [Op.Lookup(METATAG_ID)]) == LookedUp(Play(ops), METATAG_ID)
  {
    assert (ops + [Op.Lookup(METATAG_ID)])[..|ops|] == ops;
  }

  lemma RunListed(ops: seq<Op>, got: seq<byte>)
    requires var s := Play(ops + [Op.Lookup(METATAG_ID)]); s.cache.Some? && BytesRead(s.cache.value, got)
    ensures ListingRead(ops, Play(ops + [Op.Lookup(METATAG_ID)]), got)
  {
    var long := ops + [Op.Lookup(METATAG_ID)];
    var c := Play(long).cache.value;
    PlayGood(long);
    CachedBytes(long);
    assert WellTyped(ops) ==> WellTyped(long);
    if |c.bytes| <= |got| && c.room < UINT16 {
      ReadWhole(c, got);
      RowsShow(c.listing);
    }
  }

  /**
   From end to end: after any run, a caller who reads enough of the listing byte by byte and parses it gets a row for
   every tag that was live when the listing was built, in order; those are the live tags but for the ones removed since.
   It takes well-formed types, ids that fit an int and a listing of fewer than 65536 bytes.
   */
  method ListTags(ops: seq<Op>, n: nat) returns (t: TagTree, got: seq<byte>)
    requires n > 0
    ensures t.Models(Play(ops + [Op.Lookup(METATAG_ID)])) && |got| == n
    ensures ListingRead(ops, Play(ops + [Op.Lookup(METATAG_ID)]), got)
  {
    LookedUpRun(ops);
    ghost var s := Play(ops + [Op.Lookup(METATAG_ID)]);
    t := Replay(ops);
    got := ReadListing(t, n, Play(ops), s);
    RunListed(ops, got);
  }

  // ---------- Transfers ----------

  /** plc_tag_read and plc_tag_write, which move no data; a negative timeout is turned away before anything else. */
  method TransferTo(t: TagTree, id: int, kind: Kind, timeout: int, ghost r: Reg, ghost s: Reg) returns (status: int)
    requires t.Models(r) && s == if timeout < 0 then r else LookedUp(r, id)
    modifies t`treeSize, t`inited, t.tree, t.tree.nodes`left, t.tree.nodes`right, t.tree.nodes`parent,
             t.tree.nodes`redL, t.tree.nodes`redR
    ensures t.Models(s) && fresh(t.tree.nodes - old(t.tree.nodes))
    ensures status == if timeout < 0 then -7 else if id == 1 || (id >= 0 && Live(s.tags, id)) then 0 else -19
  {
    var events;
    if timeout < 0 {
      status, events := Transfer(null, kind, timeout);
    } else {
      var x := LookUp(t, id, r, s);
      status, events := Transfer(x, kind, timeout);
    }
  }

  method LookUp(t: TagTree, id: int, ghost r: Reg, ghost s: Reg) returns (x: TagNode?)
    requires t.Models(r) && s == LookedUp(r, id)
    modifies t`treeSize, t`inited, t.tree, t.tree.nodes`left, t.tree.nodes`right, t.tree.nodes`parent,
             t.tree.nodes`redL, t.tree.nodes`redR
    ensures t.Models(s) && fresh(t.tree.nodes - old(t.tree.nodes))
    ensures x != null <==> id == METATAG_ID || (id >= 0 && Live(s.tags, id))
  {
    x := t.Lookup(id, r);
  }

  // ---------- The built-in tags and their listing ----------

  /** The first byte of a tag that was made when the tree was empty. */
  method FirstByte(t: TagTree, i: nat, ghost s: Reg) returns (val: nat)
    requires t.Models(s) && s.inited && i < |s.tags| && s.tags[i].id == i + 2 && s.tags[i].ty == Simple(Int)
    requires Numbered(t.tree.nodes, {}, 2)
    modifies t`treeSize, t`inited, t.tree, t.tree.nodes`left, t.tree.nodes`right, t.tree.nodes`parent,
             t.tree.nodes`redL, t.tree.nodes`redR
    ensures t.Models(s) && val == i
  {
    ghost var x;
    val, x := GetAt(t, i + 2, 0, 1, s, i);
    OneByte(x.data[..], 0);
  }

  /** After the first call the built-in tag i, with the id i + 2, has i in its first byte. */
  method BuiltinValue(i: nat) returns (t: TagTree, val: nat)
    requires i < 10
    ensures t.Models(Init(START)) && val == i
  {
    InitEffect(START);
    assert Builtin(Init(START).tags[i], i);
    t := new TagTree();
    t.Init(START);
    val := FirstByte(t, i, Init(START));
  }

  lemma SameSlice(a: seq<byte>, b: seq<byte>, o: nat, w: nat)
    requires b <= a && o + w <= |b|
    ensures a[o..o + w] == b[o..o + w]
  {
  }

  lemma LoadedPrefix(a: seq<byte>, b: seq<byte>, o: nat, w: nat)
    requires b <= a && o + w <= |b|
    ensures Loaded(a, o, w) == FromLe(b[o..o + w])
  {
    SameSlice(a, b, o, w);
  }

  lemma ListingOffset(room: nat, o: nat)
    requires o < room < UINT16
    ensures var ty := NewArray(room, Simple(Sint)); Place(ty, o) && ByteOffset(ty, o) == o
  {
    OffsetExact(NewArray(room, Simple(Sint)), o);
  }

  /** A wider accessor on the listing reads the field that starts at its index. */
  lemma FieldAnswered(x: TagNode, c: Cache, o: nat, w: nat, val: nat)
    requires Listed(x, c) && x.ty == NewArray(c.room, Simple(Sint)) && c.room < UINT16
    requires o + w <= |c.bytes| && o < c.room && Answers(x, o, Integer(w), val)
    ensures val == FromLe(c.bytes[o..o + w])
  {
    ListingOffset(c.room, o);
    LoadedPrefix(x.data[..], c.bytes, o, w);
  }

  /** An accessor of this width starts within the listing and ends there. */
  predicate Field(s: Reg, o: nat, w: nat) {
    s.cache.Some? && var c := s.cache.value; c.room < UINT16 && o < c.room && o + w <= |c.bytes| <= c.room
  }

  lemma FieldSafe(s: Reg, o: nat, w: nat)
    requires Field(s, o, w)
    ensures Safe(s, METATAG_ID, o, w)
  {
    OffsetExact(NewArray(s.cache.value.room, Simple(Sint)), o);
  }

  /** plc_tag_get_x(1, o). */
  method GetField(t: TagTree, o: nat, w: nat, ghost r: Reg, ghost s: Reg) returns (val: nat)
    requires t.Models(r) && s == LookedUp(r, METATAG_ID) && Field(s, o, w)
    modifies t`treeSize, t`inited, t.tree, t.tree.nodes`left, t.tree.nodes`right, t.tree.nodes`parent,
             t.tree.nodes`redL, t.tree.nodes`redR
    ensures t.Models(s) && val == FromLe(s.cache.value.bytes[o..o + w])
    ensures fresh(t.tree.nodes - old(t.tree.nodes))
    ensures r.inited && r.cache.Some? ==> t.tree.nodes == old(t.tree.nodes)
  {
    FieldSafe(s, o, w);
    ghost var x;
    val, x := Get(t, METATAG_ID, o, Integer(w), r, s);
    MetatagNode(t, s, x);
    FieldAnswered(x, s.cache.value, o, w, val);
  }

  /** plc_tag_get_x(1, o) past the end of the listing. */
  method GetPast(t: TagTree, o: nat, w: nat, ghost s: Reg) returns (val: nat)
    requires t.Models(s) && s.inited && s.cache.Some? && s == LookedUp(s, METATAG_ID) && s.cache.value.room <= o &&
             w > 0
    modifies t`treeSize, t`inited, t.tree, t.tree.nodes`left, t.tree.nodes`right, t.tree.nodes`parent,
             t.tree.nodes`redL, t.tree.nodes`redR
    ensures t.Models(s) && t.tree.nodes == old(t.tree.nodes) && Pow256(w) > 0 && val - Pow256(w) == -7
  {
    ghost var x;
    val, x := Get(t, METATAG_ID, o, Integer(w), s, s);
    MetatagNode(t, s, x);
    FailedIsStatus(ERR_BAD_PARAM, w);
  }

  predicate AllBuiltin(tags: seq<TagRec>) { |tags| <= 10 && forall i :: 0 <= i < |tags| ==> Builtin(tags[i], i) }

  lemma {:induction false} BuiltinNeeded(tags: seq<TagRec>)
    requires AllBuiltin(tags)
    ensures Needed(tags) == 39 * |tags| && ShortNames(tags)
  {
    if tags != [] {
      BuiltinNeeded(tags[..|tags| - 1]);
      assert Builtin(tags[|tags| - 1], |tags| - 1);
    }
  }

  lemma {:induction false} SerializeStart(ts: seq<TagRec>)
    requires ts != []
    ensures Record(ts[0]) <= Serialize(ts)
    decreases |ts|
  {
    var init := ts[..|ts| - 1];
    if init == [] {
      assert Serialize(ts) == [] + Record(ts[0]);
    } else {
      SerializeStart(init);
      assert init[0] == ts[0] && Serialize(init) <= Serialize(ts);
    }
  }

  /** The first row of the first listing: its id, element size, first dimension and length of the name. */
  predicate FirstRow(s: seq<byte>) {
    && |s| >= 39 && FromLe(s[0..4]) == 2 && FromLe(s[6..8]) == 2
    && FromLe(s[8..12]) == 0 && FromLe(s[20..22]) == 17
  }

  lemma FirstFields(t: TagRec)
    requires Builtin(t, 0)
    ensures FirstRow(Record(t))
  {
    HeaderFields(t, t.name[..17]);
    assert Pow256(2) == 0x1_0000 && Pow256(4) == 0x1_0000_0000;
    FromLeLe(2, 4);
    FromLeLe(2, 2);
    FromLeLe(0, 4);
    FromLeLe(17, 2);
  }

  lemma FirstRowOf(a: seq<byte>, s: seq<byte>)
    requires FirstRow(a) && a <= s
    ensures FirstRow(s)
  {
    SameSlice(s, a, 0, 4);
    SameSlice(s, a, 6, 2);
    SameSlice(s, a, 8, 4);
    SameSlice(s, a, 20, 2);
  }

  lemma ListingOf(ts: seq<TagRec>)
    requires AllBuiltin(ts) && |ts| == 10
    ensures Needed(ts) == |Serialize(ts)| == 390 && FirstRow(Serialize(ts))
  {
    BuiltinNeeded(ts);
    WrittenFits(ts);
    SerializeStart(ts);
    assert Builtin(ts[0], 0);
    FirstFields(ts[0]);
    FirstRowOf(Record(ts[0]), Serialize(ts));
  }

  /** The first listing of all. */
  predicate FirstListing(s: Reg) {
    && s.inited && s.cache.Some? && s == LookedUp(s, METATAG_ID) && NextId(s.tags) == 12
    && s.cache.value.room == |s.cache.value.bytes| == 390 && FirstRow(s.cache.value.bytes)
  }

  lemma ListedFirst()
    ensures FirstListing(LookedUp(START, METATAG_ID))
  {
    InitEffect(START);
    LookedUpAgain(START);
    assert Builtin(Init(START).tags[9], 9);
    ListingOf(Init(START).tags);
  }

  /** A field of the listing, again and again. */
  method GetKnown(t: TagTree, o: nat, w: nat, ghost n: nat, ghost s: Reg) returns (val: nat)
    requires t.Models(s) && s.inited && s.cache.Some? && s == LookedUp(s, METATAG_ID) && Field(s, o, w)
    requires FromLe(s.cache.value.bytes[o..o + w]) == n
    modifies t`treeSize, t`inited, t.tree, t.tree.nodes`left, t.tree.nodes`right, t.tree.nodes`parent,
             t.tree.nodes`redL, t.tree.nodes`redR
    ensures t.Models(s) && t.tree.nodes == old(t.tree.nodes) && val == n
  {
    val := GetField(t, o, w, s, s);
  }

  method ReadIdAndSize(t: TagTree, ghost s: Reg) returns (id: nat, size: nat)
    requires t.Models(s) && FirstListing(s)
    modifies t`treeSize, t`inited, t.tree, t.tree.nodes`left, t.tree.nodes`right, t.tree.nodes`parent,
             t.tree.nodes`redL, t.tree.nodes`redR
    ensures t.Models(s) && t.tree.nodes == old(t.tree.nodes) && id == 2 && size == 2
  {
    id := GetKnown(t, 0, 4, 2, s);
    size := GetKnown(t, 6, 2, 2, s);
  }

  method ReadDimAndLength(t: TagTree, ghost s: Reg) returns (dim: nat, length: nat)
    requires t.Models(s) && FirstListing(s)
    modifies t`treeSize, t`inited, t.tree, t.tree.nodes`left, t.tree.nodes`right, t.tree.nodes`parent,
             t.tree.nodes`redL, t.tree.nodes`redR
    ensures t.Models(s) && t.tree.nodes == old(t.tree.nodes) && dim == 0 && length == 17
  {
    dim := GetKnown(t, 8, 4, 0, s);
    length := GetKnown(t, 20, 2, 17, s);
  }

  /** What the library's own test reads from the listing (test/04-metatag_lookup.c). */
  method ReadFirstRow(t: TagTree, ghost s: Reg) returns (id: nat, size: nat, dim: nat, length: nat, past: int)
    requires t.Models(s) && FirstListing(s)
    modifies t`treeSize, t`inited, t.tree, t.tree.nodes`left, t.tree.nodes`right, t.tree.nodes`parent,
             t.tree.nodes`redL, t.tree.nodes`redR
    ensures t.Models(s) && t.tree.nodes == old(t.tree.nodes)
    ensures id == 2 && size == 2 && dim == 0 && length == 17 && past == -7
  {
    id, size := ReadIdAndSize(t, s);
    dim, length := ReadDimAndLength(t, s);
    past := ReadPast(t, s);
  }

  method ReadPast(t: TagTree, ghost s: Reg) returns (past: int)
    requires t.Models(s) && FirstListing(s)
    modifies t`treeSize, t`inited, t.tree, t.tree.nodes`left, t.tree.nodes`right, t.tree.nodes`parent,
             t.tree.nodes`redL, t.tree.nodes`redR
    ensures t.Models(s) && t.tree.nodes == old(t.tree.nodes) && past == -7
  {
    past := GetPast(t, 1000, 2, s);
    assert Pow256(2) == 0x1_0000;
    past := past - 0x1_0000;
  }

  /** That test, from its first call to its last; a number that an accessor returns is read as a signed one. */
  method TestedListing(name: seq<byte>) returns (status: int, id: nat, size: nat, dim: nat, length: nat, past: int,
                                                made: int)
    requires name != TAGS_NAME
    ensures status == 0 && id == 2 && size == 2 && dim == 0 && length == 17 && past == -7 && made == 12
  {
    ListedFirst();
    ghost var s := LookedUp(START, METATAG_ID);
    var t := new TagTree();
    status := TransferTo(t, METATAG_ID, Read, 1000, START, s);
    id, size, dim, length, past := ReadFirstRow(t, s);
    ghost var tag;
    made, tag := t.Insert(name, Simple(Lint), s);
  }
}
