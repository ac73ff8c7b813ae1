/**
 Typed access to a tag's buffer (src/plcstub.c): the accessor generators and the two
 functions behind them, with the events a registered callback is given.
 */
module Access {
  import opened Types
  import opened Bytes
  import opened Links
  import opened TagTrees
  import opened Bounds

  const STATUS_OK := 0
  const ERR_BAD_PARAM := -7
  const ERR_NOT_FOUND := -19

  datatype Kind = Read | Write

  /** READ_STARTED, WRITE_STARTED; READ_COMPLETED, WRITE_COMPLETED; ABORTED. */
  datatype What = Started(kind: Kind) | Completed(kind: Kind) | Aborted

  datatype CbEvent = CbEvent(what: What, status: int)

  /** The places of a tag: the indices of an array, and the one of anything else. */
  predicate Place(ty: Type, i: int) { if ty.Array? then 0 <= i < ty.len else i == 0 }

  /** The test of lines 107-126: nothing past the first place of a scalar, or past the length of an array. */
  predicate TooLarge(ty: Type, offset: int) { if ty.Array? then offset >= ty.len else offset > 0 }

  /** The number of bytes into the buffer (line 127); a struct or a scalar keeps the caller's offset. */
  function ByteOffset(ty: Type, offset: nat): int {
    if ty.Array? then ToInt((offset * (SizeOf(ty.member) % SIZE_T)) % SIZE_T) else offset
  }

  /** The bytes that a call touches lie in the buffer. */
  predicate Within(ty: Type, offset: nat, w: nat, room: nat) {
    0 <= ByteOffset(ty, offset) && ByteOffset(ty, offset) + w <= room
  }

  /** What one call reports to a callback. */
  function Reports(kind: Kind, ty: Type, offset: int): seq<CbEvent> {
    var begin := CbEvent(Started(kind), STATUS_OK);
    if !TooLarge(ty, offset) then [begin, CbEvent(Completed(kind), STATUS_OK)]
    else if ty.Array? then [begin]
    else [begin, CbEvent(Aborted, ERR_BAD_PARAM)]
  }

  /** Which events those are: COMPLETED at a place of the tag, ABORTED past a scalar's, and none past an array's end. */
  lemma ReportsByPlace(kind: Kind, ty: Type, offset: nat)
    ensures var (begin, r) := (CbEvent(Started(kind), 0), Reports(kind, ty, offset));
      && (Place(ty, offset) ==> r == [begin, CbEvent(Completed(kind), 0)])
      && (!Place(ty, offset) && !ty.Array? ==> r == [begin, CbEvent(Aborted, -7)])
      && (!Place(ty, offset) && ty.Array? ==> r == [begin])
  {
  }

  /** The checks that get_impl and set_impl share, up to the byte offset, with the events so far. */
  method Check(t: TagNode, kind: Kind, offset: nat) returns (status: int, at: int, events: seq<CbEvent>)
    ensures status == if Place(t.ty, offset) then STATUS_OK else ERR_BAD_PARAM
    ensures status == STATUS_OK ==> at == ByteOffset(t.ty, offset)
    ensures t.cb && status == STATUS_OK ==> events == Reports(kind, t.ty, offset)[..1]
    ensures t.cb && status != STATUS_OK ==> events == Reports(kind, t.ty, offset)
    ensures !t.cb ==> events == []
  {
    events := if t.cb then [CbEvent(Started(kind), STATUS_OK)] else [];
    at := offset;
    if !t.ty.Array? {
      if offset > 0 {
        if t.cb {
          events := events + [CbEvent(Aborted, ERR_BAD_PARAM)];
        }
        return ERR_BAD_PARAM, at, events;
      }
    } else {
      if offset >= t.ty.len {
        return ERR_BAD_PARAM, at, events;
      }
      var size := TypeSizeBytes(t.ty.member);
      at := ToInt((offset * size) % SIZE_T);
    }
    status := STATUS_OK;
  }

  /** plcstub_get_impl past the lookup, for an accessor w bytes wide. */
  method GetImpl(t: TagNode?, offset: nat, w: nat) returns (status: int, val: nat, events: seq<CbEvent>)
    requires t != null && Place(t.ty, offset) ==> Within(t.ty, offset, w, t.data.Length)
    ensures t == null ==> status == ERR_NOT_FOUND && events == []
    ensures t != null ==> status == if Place(t.ty, offset) then STATUS_OK else ERR_BAD_PARAM
    ensures t != null ==> events == if t.cb then Reports(Read, t.ty, offset) else []
    ensures t != null && status == STATUS_OK ==> val == Loaded(t.data[..], ByteOffset(t.ty, offset), w)
  {
    val := 0;
    if t == null {
      return ERR_NOT_FOUND, val, [];
    }
    var at;
    status, at, events := Check(t, Read, offset);
    if status != STATUS_OK {
      return;
    }
    val := TakeNumber(t.data, at, w);
    if t.cb {
      events := events + [CbEvent(Completed(Read), STATUS_OK)];
    }
  }

  /** plcstub_set_impl past the lookup. */
  method SetImpl(t: TagNode?, offset: nat, w: nat, val: nat) returns (status: int, events: seq<CbEvent>)
    requires t != null && Place(t.ty, offset) ==> Within(t.ty, offset, w, t.data.Length)
    modifies if t == null then {} else {t.data}
    ensures t == null ==> status == ERR_NOT_FOUND && events == []
    ensures t != null ==> status == if Place(t.ty, offset) then STATUS_OK else ERR_BAD_PARAM
    ensures t != null ==> events == if t.cb then Reports(Write, t.ty, offset) else []
    ensures t != null ==> t.data[..] ==
                            if status == STATUS_OK then Stored(old(t.data[..]), ByteOffset(t.ty, offset), w, val)
                            else old(t.data[..])
  {
    if t == null {
      return ERR_NOT_FOUND, [];
    }
    var at;
    status, at, events := Check(t, Write, offset);
    if status != STATUS_OK {
      return;
    }
    ghost var s := t.data[..];
    var q := PutNumber(t.data, at, val, w);
    assert t.data[..] == t.data[..q] + t.data[q..];
    if t.cb {
      events := events + [CbEvent(Completed(Write), STATUS_OK)];
    }
  }

  /** The generated accessors: an integer of w bytes, float and double. */
  datatype Accessor = Integer(w: nat) | Float32 | Float64

  function Width(a: Accessor): nat {
    match a
    case Integer(w) => w
    case Float32 => 4
    case Float64 => 8
  }

  predicate Fails(status: int) { status == ERR_BAD_PARAM || status == ERR_NOT_FOUND }

  /** The pattern that a getter returns for a status other than OK, by a cast to its own type (line 50). */
  function Failed(status: int, a: Accessor): nat
    requires Fails(status) && Pow256(Width(a)) > 0
  {
    match a
    case Integer(w) => status % Pow256(w)
    case Float32 => if status == ERR_BAD_PARAM then 0xC0E0_0000 else 0xC198_0000
    case Float64 => if status == ERR_BAD_PARAM then 0xC01C_0000_0000_0000 else 0xC033_0000_0000_0000
  }

  /** The value of a normal binary32 or binary64 pattern of magnitude 1 or more: sign, exponent and fraction. */
  function FloatValue(pattern: nat, fraction: nat, exponents: nat, bias: nat): real
    requires fraction > 0 && exponents > 0
  {
    var (sign, e, m) := (pattern / fraction / exponents, pattern / fraction % exponents, pattern % fraction);
    var x := (1.0 + m as real / fraction as real) * Pow2(if e >= bias then e - bias else 0) as real;
    if sign == 0 then x else -x
  }

  /** Getters return the status as a number of their own type; an integer's pattern is to be read as a signed number. */
  lemma FailedIsStatus(status: int, w: nat)
    requires Fails(status)
    ensures w > 0 ==> Pow256(w) > 0 && Failed(status, Integer(w)) - Pow256(w) == status
    ensures Width(Integer(w)) == w && Width(Float32) == 4 && Width(Float64) == 8
    ensures Pow256(4) > 0 && FloatValue(Failed(status, Float32), 0x80_0000, 256, 127) == status as real
    ensures Pow256(8) > 0 && FloatValue(Failed(status, Float64), 0x10_0000_0000_0000, 2048, 1023) == status as real
  {
    assert Pow2(2) == 4 && Pow2(4) == 16;
    if w > 0 {
      LeModulo(0, w - 1);
      AddedModulus(status, Pow256(w));
    }
  }

  lemma AddedModulus(a: int, m: nat)
    requires a < 0 <= a + m
    ensures a % m == a + m
  {
  }

  /** A generated getter. */
  method Getter(t: TagNode?, offset: nat, a: Accessor) returns (val: nat, events: seq<CbEvent>)
    requires t != null && Place(t.ty, offset) ==> Within(t.ty, offset, Width(a), t.data.Length)
    ensures Pow256(Width(a)) > 0
    ensures t == null ==> val == Failed(ERR_NOT_FOUND, a)
    ensures t != null && !Place(t.ty, offset) ==> val == Failed(ERR_BAD_PARAM, a)
    ensures t != null && Place(t.ty, offset) ==> val == Loaded(t.data[..], ByteOffset(t.ty, offset), Width(a))
  {
    LeModulo(0, Width(a));
    var status;
    status, val, events := GetImpl(t, offset, Width(a));
    if status != STATUS_OK {
      val := Failed(status, a);
    }
  }

  /** So a getter's error cannot be told from a stored value: at every accessor some value reads just like it. */
  lemma ErrorLooksStored(s: seq<byte>, o: nat, a: Accessor, status: int) returns (v: nat)
    requires o + Width(a) <= |s| && Fails(status)
    ensures Pow256(Width(a)) > 0 && v < Pow256(Width(a))
    ensures Loaded(Stored(s, o, Width(a), v), o, Width(a)) == v == Failed(status, a)
  {
    var w := Width(a);
    LeModulo(0, w);
    v := Failed(status, a);
    assert Pow256(4) == 0x1_0000_0000 && Pow256(8) == 0x1_0000_0000_0000_0000;
    assert v < Pow256(w);
    LoadStored(s, o, w, v);
    RemainderOf(v, 0, v, Pow256(w));
  }

  // ---------- Which places an access touches ----------

  /** The byte offset is the true one exactly as long as it fits an int. */
  lemma OffsetExact(ty: Type, i: nat)
    requires ty.Array?
    ensures ByteOffset(ty, i) == i * SizeOf(ty.member) <==> i * SizeOf(ty.member) < INT32 / 2
    ensures -0x8000_0000 <= ByteOffset(ty, i) < 0x8000_0000
    ensures (i * SizeOf(ty.member) - ByteOffset(ty, i)) % 0x1_0000_0000 == 0
  {
    var m := SizeOf(ty.member);
    ModMul(m, i, SIZE_T);
    assert (m % SIZE_T) * i == i * (m % SIZE_T) && m * i == i * m;
    SizeToInt(i * m);
  }

  /** Narrowing to a size_t first makes no difference to an int. */
  lemma SizeToInt(n: nat)
    ensures ToInt(n % SIZE_T) == ToInt(n)
    ensures ToInt(n) == n <==> n < INT32 / 2
    ensures -0x8000_0000 <= ToInt(n) < 0x8000_0000 && (n - ToInt(n)) % 0x1_0000_0000 == 0
  {
    ToIntExact(n);
    var q := n / SIZE_T;
    assert n == n % SIZE_T + (q * INT32) * INT32;
    ModShift(n % SIZE_T, q * INT32, INT32);
  }

  /** All elements start, and end, within the array's own size. */
  lemma ElementWithin(len: nat, m: nat, i: nat)
    requires i < len
    ensures i * m + m <= len * m && i * m <= (len - 1) * m
  {
    Distribute(len, i, m);
    Distribute(len - 1, i, m);
    assert (len - 1 - i) * m >= 0;
  }

  lemma ElementsApart(i: nat, j: nat, m: nat)
    requires i != j
    ensures i * m + m <= j * m || j * m + m <= i * m
  {
    Distribute(i, j, m);
    Distribute(j, i, m);
  }

  /** Up to 2^31 bytes, every index of an array has its true offset, the last one the largest. */
  lemma IndexOffset(ty: Type, i: nat)
    requires ty.Array? && SizeOf(ty) < INT32 / 2 && i < ty.len
    ensures ByteOffset(ty, i) == i * SizeOf(ty.member) >= 0
    ensures i * SizeOf(ty.member) <= (ty.len - 1) * SizeOf(ty.member)
    ensures i * SizeOf(ty.member) + SizeOf(ty.member) <= SizeOf(ty)
  {
    var m := SizeOf(ty.member);
    Commute(ty.len, m);
    ElementWithin(ty.len, m, i);
    Nonnegative(i, m);
    OffsetExact(ty, i);
  }

  lemma Commute(a: int, b: int)
    ensures a * b == b * a
  {
  }

  lemma Nonnegative(a: nat, b: nat)
    ensures a * b >= 0
  {
  }

  /** An accessor no wider than the member stays inside the buffer at every index of the array. */
  lemma ArrayWithin(ty: Type, i: nat, w: nat)
    requires ty.Array? && SizeOf(ty) < INT32 / 2 && i < ty.len && w <= SizeOf(ty.member)
    ensures ByteOffset(ty, i) == i * SizeOf(ty.member) && Within(ty, i, w, Room(ty))
  {
    IndexOffset(ty, i);
  }

  /** A wider accessor does so at every index exactly when it does at the last one. */
  lemma WideWithin(ty: Type, w: nat)
    requires ty.Array? && SizeOf(ty) < INT32 / 2 && ty.len > 0
    ensures (forall i :: 0 <= i < ty.len ==> Within(ty, i, w, Room(ty))) <==>
              (ty.len - 1) * SizeOf(ty.member) + w <= Room(ty)
  {
    forall i | 0 <= i < ty.len
      ensures 0 <= ByteOffset(ty, i) <= (ty.len - 1) * SizeOf(ty.member)
    {
      IndexOffset(ty, i);
    }
    IndexOffset(ty, ty.len - 1);
    assert Within(ty, ty.len - 1, w, Room(ty)) <==> (ty.len - 1) * SizeOf(ty.member) + w <= Room(ty);
  }

  /** A word is reserved, so a scalar's one place is in the buffer for every accessor of up to eight bytes. */
  lemma ScalarWithin(ty: Type, w: nat)
    requires !ty.Array? && w <= 8
    ensures Within(ty, 0, w, Room(ty))
  {
  }

  /** An access that stays in the bytes of its place: no wider than an array's member, or than a word. */
  predicate Cell(ty: Type, i: nat, w: nat) {
    Place(ty, i) && w <= CellWidth(ty) && (ty.Array? ==> SizeOf(ty) < INT32 / 2)
  }

  function CellWidth(ty: Type): nat { if ty.Array? then SizeOf(ty.member) else 8 }

  /** The bytes that the places of a tag take. */
  function CellBytes(ty: Type): nat { if ty.Array? then SizeOf(ty) else 8 }

  lemma CellWithin(ty: Type, i: nat, w: nat, room: nat)
    requires Cell(ty, i, w) && room >= CellBytes(ty)
    ensures Within(ty, i, w, room) && !TooLarge(ty, i)
    ensures ByteOffset(ty, i) == if ty.Array? then i * SizeOf(ty.member) else 0
  {
    if ty.Array? {
      IndexOffset(ty, i);
    }
  }

  lemma RoomForCells(ty: Type)
    requires ty.Array? ==> SizeOf(ty) < INT32 / 2
    ensures Room(ty) >= CellBytes(ty)
  {
  }

  /**
   The metatag is an array of as many bytes as its listing, but an array's length has 16 bits: every byte of
   the listing can be read, one by one, if and only if there are fewer than 65536.
   */
  lemma ListingReadable(room: nat)
    ensures var ty := NewArray(room, Simple(Sint));
      (forall i :: 0 <= i < room ==> Place(ty, i) && Within(ty, i, 1, room)) <==> room < UINT16
  {
    var ty := NewArray(room, Simple(Sint));
    assert SizeOf(ty.member) == 1;
    if room >= UINT16 {
      assert !Place(ty, room - 1);
    } else {
      forall i | 0 <= i < room
        ensures Place(ty, i) && Within(ty, i, 1, room)
      {
        OffsetExact(ty, i);
      }
    }
  }

  // ---------- Round trip ----------

  /** What a set does to every get of the same tag. */
  lemma CellRoundTrip(ty: Type, s: seq<byte>, i: nat, j: nat, w: nat, v: nat)
    requires Cell(ty, i, w) && Cell(ty, j, w) && |s| >= CellBytes(ty)
    ensures Within(ty, i, w, |s|) && Within(ty, j, w, |s|) && Pow256(w) > 0
    ensures Loaded(Stored(s, ByteOffset(ty, i), w, v), ByteOffset(ty, j), w) ==
              if i == j then v % Pow256(w) else Loaded(s, ByteOffset(ty, j), w)
  {
    CellWithin(ty, i, w, |s|);
    CellWithin(ty, j, w, |s|);
    LoadStored(s, ByteOffset(ty, i), w, v);
    if i != j {
      ElementsApart(i, j, SizeOf(ty.member));
      LoadElsewhere(s, ByteOffset(ty, i), w, v, ByteOffset(ty, j), w);
    }
  }

  /** set, and then get at any place, on a tag as tag_tree_node_create leaves it. */
  method SetThenGet(t: TagNode, i: nat, j: nat, w: nat, v: nat) returns (status: int, before: nat, val: nat)
    requires t.data.Length == Room(t.ty) && Cell(t.ty, i, w) && Cell(t.ty, j, w)
    modifies t.data
    ensures status == STATUS_OK && Pow256(w) > 0
    ensures val == if i == j then v % Pow256(w) else before
  {
    RoomForCells(t.ty);
    CellRoundTrip(t.ty, t.data[..], i, j, w, v);
    var events;
    before, events := Getter(t, j, Integer(w));
    status, events := SetImpl(t, i, w, v);
    val, events := Getter(t, j, Integer(w));
  }

  /** A scalar keeps what is set at offset 0, of any width up to a word, and turns every other offset away. */
  method SetThenGetScalar(t: TagNode, offset: nat, w: nat, v: nat) returns (status: int, val: nat, rejected: int)
    requires !t.ty.Array? && w <= 8 && t.data.Length == Room(t.ty) && offset > 0
    modifies t.data
    ensures Pow256(w) > 0 && status == 0 && val == v % Pow256(w)
    ensures rejected == -7 && t.data[..] == Stored(old(t.data[..]), 0, w, v)
  {
    ghost var s := t.data[..];
    RoomForCells(t.ty);
    CellRoundTrip(t.ty, s, 0, 0, w, v);
    var events;
    status, events := SetImpl(t, 0, w, v);
    val, events := Getter(t, 0, Integer(w));
    rejected, events := SetImpl(t, offset, w, v);
  }

  // ---------- Transfers and callbacks ----------

  /** plc_tag_read and plc_tag_write, the lookup apart; the timeout is looked at first. */
  method Transfer(t: TagNode?, kind: Kind, timeout: int) returns (status: int, events: seq<CbEvent>)
    ensures status == if timeout < 0 then -7 else if t == null then -19 else 0
    ensures events == if status == 0 && t.cb then [CbEvent(Started(kind), 0), CbEvent(Completed(kind), 0)] else []
  {
    events := [];
    if timeout < 0 {
      return ERR_BAD_PARAM, events;
    }
    if t == null {
      return ERR_NOT_FOUND, events;
    }
    if t.cb {
      events := [CbEvent(Started(kind), STATUS_OK), CbEvent(Completed(kind), STATUS_OK)];
    }
    status := STATUS_OK;
  }

  /** plc_tag_register_callback and plc_tag_unregister_callback, the lookup apart. */
  method Register(t: TagNode?, cb: bool) returns (status: int)
    modifies if t == null then {} else {t}`cb
    ensures status == if t == null then -19 else 0
    ensures t != null ==> t.cb == cb
  {
    if t == null {
      return ERR_NOT_FOUND;
    }
    t.cb := cb;
    status := STATUS_OK;
  }
}
