/**
 The byte layout of the "@tags" listing (struct metatag_t, include/plcstub.h:15-22):
 packed, little-endian, one record per tag with the name right behind it.
 */
module Metatag {
  import opened Types
  import opened Bytes

  const METATAG_ID := 1
  const HEADER := 22  // sizeof(struct metatag_t): 4 + 2 + 2 + 3 * 4 + 2
  const TAGS_NAME: seq<byte> := [64, 116, 97, 103, 115]  // "@tags"

  /** A tag as the listing sees it.  Names are C strings. */
  datatype TagRec = TagRec(id: nat, name: seq<byte>, ty: Type)

  /** One parsed record. */
  datatype Row = Row(id: nat, kind: nat, elemSize: nat, dims: seq<nat>, name: seq<byte>)

  // ---------- Records ----------

  function Dim0(ty: Type): nat { if ty.Array? then ty.len else 0 }

  /** strlen narrowed to the 16-bit length field. */
  function NameLength(t: TagRec): nat { |t.name| % UINT16 }

  function Header(t: TagRec): (s: seq<byte>)
    ensures |s| == HEADER
  {
    Le(t.id, 4) + Le(0x2000, 2) + Le(SizeOf(t.ty), 2) + Le(Dim0(t.ty), 4) + Le(0, 4) + Le(0, 4) + Le(|t.name|, 2)
  }

  function Record(t: TagRec): (s: seq<byte>)
    ensures |s| == HEADER + NameLength(t)
  {
    Header(t) + t.name[..NameLength(t)]
  }

  function Serialize(ts: seq<TagRec>): seq<byte>
  {
    if ts == [] then [] else Serialize(ts[..|ts| - 1]) + Record(ts[|ts| - 1])
  }

  /** The sizing pass: 22 bytes and the whole name for every tag. */
  function Needed(ts: seq<TagRec>): nat {
    if ts == [] then 0 else Needed(ts[..|ts| - 1]) + HEADER + |ts[|ts| - 1].name|
  }

  predicate ShortNames(ts: seq<TagRec>) { forall i :: 0 <= i < |ts| ==> |ts[i].name| < UINT16 }

  lemma RecordFits(t: TagRec)
    ensures |Record(t)| <= HEADER + |t.name|
    ensures |Record(t)| == HEADER + |t.name| <==> |t.name| < UINT16
  {
  }

  /** The bytes written never exceed the bytes asked for, and are as many exactly when no name was cut. */
  lemma {:induction false} WrittenFits(ts: seq<TagRec>)
    ensures |Serialize(ts)| <= Needed(ts)
    ensures |Serialize(ts)| == Needed(ts) <==> ShortNames(ts)
  {
    if ts != [] {
      var (init, t) := (ts[..|ts| - 1], ts[|ts| - 1]);
      WrittenFits(init);
      RecordFits(t);
      assert ShortNames(ts) <==> ShortNames(init) && |t.name| < UINT16 by {
        assert forall i :: 0 <= i < |init| ==> init[i] == ts[i];
      }
    }
  }

  // ---------- Reading a listing back ----------

  function ParseRow(s: seq<byte>): Row
    requires |s| >= HEADER
  {
    var n := FromLe(s[20..22]);
    Row(FromLe(s[0..4]), FromLe(s[4..6]), FromLe(s[6..8]),
        [FromLe(s[8..12]), FromLe(s[12..16]), FromLe(s[16..20])],
        if HEADER + n <= |s| then s[HEADER..HEADER + n] else s[HEADER..])
  }

  /** Record after record until fewer than a header's bytes are left. */
  function Parse(s: seq<byte>): seq<Row>
    decreases |s|
  {
    if |s| < HEADER then []
    else
      var r := ParseRow(s);
      [r] + Parse(s[HEADER + |r.name|..])
  }

  function RowOf(t: TagRec): Row
  {
    Row(t.id, 0x2000, SizeOf(t.ty) % UINT16, [Dim0(t.ty), 0, 0], t.name[..NameLength(t)])
  }

  predicate Listable(t: TagRec) {
    t.id < INT32 && WellFormed(t.ty)
  }

  /** A uint16_t field keeps the value modulo 65536. */
  lemma LeTwoBytes(n: nat)
    ensures Le(n, 2) == Le(n % UINT16, 2)
  {
    LeModulo(n, 2);
    assert Pow256(2) == UINT16;
  }

  lemma Parts(a: seq<byte>, b: seq<byte>, c: seq<byte>, d: seq<byte>, e: seq<byte>, f: seq<byte>, g: seq<byte>,
              rest: seq<byte>)
    requires |a| == |d| == |e| == |f| == 4 && |b| == |c| == |g| == 2
    ensures var s := a + b + c + d + e + f + g + rest;
      && s[0..4] == a && s[4..6] == b && s[6..8] == c && s[8..12] == d && s[12..16] == e && s[16..20] == f
      && s[20..22] == g && s[22..] == rest
  {
  }

  lemma HeaderFields(t: TagRec, rest: seq<byte>)
    ensures var s := Header(t) + rest;
      && s[0..4] == Le(t.id, 4) && s[4..6] == Le(0x2000, 2) && s[6..8] == Le(SizeOf(t.ty), 2)
      && s[8..12] == Le(Dim0(t.ty), 4) && s[12..16] == Le(0, 4) && s[16..20] == Le(0, 4)
      && s[20..22] == Le(|t.name|, 2) && s[22..] == rest
  {
    Parts(Le(t.id, 4), Le(0x2000, 2), Le(SizeOf(t.ty), 2), Le(Dim0(t.ty), 4), Le(0, 4), Le(0, 4), Le(|t.name|, 2),
          rest);
  }

  lemma ParseRecord(t: TagRec, rest: seq<byte>)
    requires Listable(t)
    ensures ParseRow(Record(t) + rest) == RowOf(t)
    ensures (Record(t) + rest)[HEADER + NameLength(t)..] == rest
  {
    var (s, n) := (Record(t) + rest, t.name[..NameLength(t)]);
    assert s == Header(t) + (n + rest);
    HeaderFields(t, n + rest);
    assert Pow256(2) == UINT16 && Pow256(4) == INT32;
    FromLeLe(t.id, 4);
    FromLeLe(0x2000, 2);
    LeTwoBytes(SizeOf(t.ty));
    FromLeLe(SizeOf(t.ty) % UINT16, 2);
    FromLeLe(Dim0(t.ty), 4);
    FromLeLe(0, 4);
    LeTwoBytes(|t.name|);
    FromLeLe(NameLength(t), 2);
    assert s[HEADER..HEADER + NameLength(t)] == n;
    assert ParseRow(s).dims == RowOf(t).dims;
  }

  lemma ParseNext(t: TagRec, rest: seq<byte>)
    requires Listable(t)
    ensures Parse(Record(t) + rest) == [RowOf(t)] + Parse(rest)
  {
    ParseRecord(t, rest);
    assert |RowOf(t).name| == NameLength(t);
  }

  lemma {:induction false} ParseSerializeFollowed(ts: seq<TagRec>, rest: seq<byte>)
    requires forall t :: t in ts ==> Listable(t)
    ensures Parse(Serialize(ts) + rest) == Rows(ts) + Parse(rest)
    decreases |ts|
  {
    if ts == [] {
      assert Serialize(ts) + rest == rest;
    } else {
      var (init, t) := (ts[..|ts| - 1], ts[|ts| - 1]);
      assert t in ts && forall u :: u in init ==> u in ts;
      BytesRegroup(Serialize(init), Record(t), rest);
      ParseSerializeFollowed(init, Record(t) + rest);
      ParseNext(t, rest);
      assert Rows(init) + ([RowOf(t)] + Parse(rest)) == (Rows(init) + [RowOf(t)]) + Parse(rest);
    }
  }

  function Rows(ts: seq<TagRec>): (r: seq<Row>)
    ensures |r| == |ts|
    ensures forall i :: 0 <= i < |ts| ==> r[i] == RowOf(ts[i])
  {
    if ts == [] then [] else Rows(ts[..|ts| - 1]) + [RowOf(ts[|ts| - 1])]
  }

  /** What a row says of its tag: an array's length is its first dimension, and anything else has none. */
  predicate Shows(row: Row, t: TagRec) {
    && row.id == t.id && row.kind == 0x2000 && row.elemSize == SizeOf(t.ty) % 0x1_0000
    && row.dims == [if t.ty.Array? then t.ty.len else 0, 0, 0]
    && row.name == t.name[..|t.name| % 0x1_0000]
  }

  lemma RowShows(t: TagRec)
    ensures Shows(RowOf(t), t)
  {
  }

  lemma RowsShow(ts: seq<TagRec>)
    ensures |Rows(ts)| == |ts| && forall i :: 0 <= i < |ts| ==> Shows(Rows(ts)[i], ts[i])
  {
    forall i | 0 <= i < |ts|
      ensures Shows(Rows(ts)[i], ts[i])
    {
      RowShows(ts[i]);
    }
  }

  /** Reading the written bytes back gives a row for every tag, in order. */
  lemma ParseSerialize(ts: seq<TagRec>)
    requires forall t :: t in ts ==> Listable(t)
    ensures Parse(Serialize(ts)) == Rows(ts)
    ensures |Rows(ts)| == |ts| && forall i :: 0 <= i < |ts| ==> Shows(Rows(ts)[i], ts[i])
  {
    RowsShow(ts);
    ParseSerializeFollowed(ts, []);
    assert Serialize(ts) + [] == Serialize(ts);
    assert Rows(ts) + Parse([]) == Rows(ts);
  }

  /** The kept name is the whole name exactly when its length fits the 16-bit field. */
  lemma NameKept(t: TagRec)
    ensures RowOf(t).name == t.name <==> |t.name| < UINT16
  {
    assert |t.name[..NameLength(t)]| == NameLength(t);
  }
}
