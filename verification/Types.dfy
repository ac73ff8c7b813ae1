/**
 Tag types and their sizes (src/types.c).  A type_t is a value here: a simple code,
 an array of a member type, or a struct of named fields.
 */
module Types {

  type byte = b: int | 0 <= b < 256

  datatype Elem = Error | Bool | Sint | Int | Dint | Real | Lint

  datatype Type =
    | Simple(e: Elem)
    | Array(len: nat, member: Type)
    | Struct(fields: seq<Field>)

  datatype Field = Field(name: seq<byte>, ty: Type)

  const SIZE_T := 0x1_0000_0000_0000_0000
  const UINT16 := 0x1_0000
  const INT32 := 0x1_0000_0000

  /** A number assigned to a 32-bit int, as far as it wraps. */
  function ToInt(n: nat): int {
    var m := n % INT32;
    if m < INT32 / 2 then m else m - INT32
  }

  /** The int is the only one that differs from the number by a multiple of 2^32. */
  lemma ToIntExact(n: nat)
    ensures -0x8000_0000 <= ToInt(n) < 0x8000_0000 && (n - ToInt(n)) % 0x1_0000_0000 == 0
    ensures ToInt(n) == n <==> n < 0x8000_0000
  {
  }

  /** Array lengths and field counts are uint16_t throughout the type. */
  predicate WellFormed(t: Type) {
    match t
    case Simple(_) => true
    case Array(len, member) => len < UINT16 && WellFormed(member)
    case Struct(fields) => |fields| < UINT16 && forall f :: f in fields ==> WellFormed(f.ty)
  }

  /** type_new_array: the count is narrowed to uint16_t. */
  function NewArray(cnt: nat, member: Type): (t: Type)
    requires WellFormed(member)
    ensures WellFormed(t)
  {
    Array(cnt % UINT16, member)
  }

  function ElemSize(e: Elem): nat {
    match e
    case Error => 0
    case Bool => 1
    case Sint => 1
    case Int => 2
    case Dint => 4
    case Real => 4
    case Lint => 8
  }

  /** The size in bytes, without a machine bound. */
  function SizeOf(t: Type): nat {
    match t
    case Simple(e) => ElemSize(e)
    case Array(len, member) => SizeOf(member) * len
    case Struct(fields) => FieldsSize(fields)
  }

  function FieldsSize(fields: seq<Field>): nat {
    if fields == [] then 0 else SizeOf(fields[0].ty) + FieldsSize(fields[1..])
  }

  /** The sizes that the library's own test expects. */
  lemma TestedSizes(name: seq<byte>)
    ensures SizeOf(Simple(Error)) == 0 && SizeOf(Simple(Bool)) == 1 && SizeOf(Simple(Sint)) == 1
    ensures SizeOf(Simple(Int)) == 2 && SizeOf(Simple(Dint)) == 4 && SizeOf(Simple(Real)) == 4
    ensures SizeOf(Simple(Lint)) == 8
    ensures SizeOf(NewArray(16, Simple(Bool))) == 16 && SizeOf(NewArray(7, Simple(Dint))) == 28
    ensures var f := Field(name, Simple(Int)); SizeOf(Struct([f, f, f])) == 6
  {
    var f := Field(name, Simple(Int));
    assert [f][1..] == [] && FieldsSize([f]) == 2;
    assert [f, f][1..] == [f] && FieldsSize([f, f]) == 4;
    assert [f, f, f][1..] == [f, f];
  }

  // ---------- Sizes and layouts ----------

  /** The elementary values of a type in the order of their bytes. */
  function Atoms(t: Type): seq<Elem> {
    match t
    case Simple(e) => [e]
    case Array(len, member) => Repeated(Atoms(member), len)
    case Struct(fields) => FieldAtoms(fields)
  }

  function FieldAtoms(fields: seq<Field>): seq<Elem> {
    if fields == [] then [] else Atoms(fields[0].ty) + FieldAtoms(fields[1..])
  }

  function Repeated(s: seq<Elem>, n: nat): seq<Elem> { if n == 0 then [] else Repeated(s, n - 1) + s }

  /** How many elementary values are of one kind. */
  function Count(s: seq<Elem>, e: Elem): nat {
    if s == [] then 0 else Count(s[..|s| - 1], e) + if s[|s| - 1] == e then 1 else 0
  }

  /** The bytes of elementary values that lie one behind the other. */
  function AtomBytes(s: seq<Elem>): nat {
    Count(s, Bool) + Count(s, Sint) + 2 * Count(s, Int) + 4 * Count(s, Dint) + 4 * Count(s, Real) + 8 * Count(s, Lint)
  }

  lemma {:induction false} CountSum(a: seq<Elem>, b: seq<Elem>, e: Elem)
    ensures Count(a + b, e) == Count(a, e) + Count(b, e)
  {
    if b == [] {
      assert a + b == a;
    } else {
      var init := b[..|b| - 1];
      assert (a + b)[..|a + b| - 1] == a + init;
      CountSum(a, init, e);
    }
  }

  lemma AtomBytesSum(a: seq<Elem>, b: seq<Elem>)
    ensures AtomBytes(a + b) == AtomBytes(a) + AtomBytes(b)
  {
    forall e: Elem
      ensures Count(a + b, e) == Count(a, e) + Count(b, e)
    {
      CountSum(a, b, e);
    }
  }

  lemma {:induction false} RepeatedBytes(s: seq<Elem>, n: nat)
    ensures AtomBytes(Repeated(s, n)) == AtomBytes(s) * n
  {
    if n > 0 {
      RepeatedBytes(s, n - 1);
      AtomBytesSum(Repeated(s, n - 1), s);
      assert AtomBytes(s) * n == AtomBytes(s) * (n - 1) + AtomBytes(s);
    }
  }

  /** A type takes as many bytes as its elementary values, without gaps. */
  lemma {:induction false} SizeOfAtoms(t: Type)
    ensures SizeOf(t) == AtomBytes(Atoms(t))
    decreases t
  {
    match t
    case Simple(e) =>
      assert [e][..0] == [];
    case Array(len, member) =>
      SizeOfAtoms(member);
      RepeatedBytes(Atoms(member), len);
    case Struct(fields) => FieldsAtoms(fields);
  }

  lemma {:induction false} FieldsAtoms(fields: seq<Field>)
    ensures FieldsSize(fields) == AtomBytes(FieldAtoms(fields))
    decreases fields
  {
    if fields != [] {
      SizeOfAtoms(fields[0].ty);
      FieldsAtoms(fields[1..]);
      AtomBytesSum(Atoms(fields[0].ty), FieldAtoms(fields[1..]));
    }
  }

  function Depth(t: Type): nat {
    match t
    case Simple(_) => 0
    case Array(_, member) => 1 + Depth(member)
    case Struct(fields) => 1 + FieldsDepth(fields)
  }

  function FieldsDepth(fields: seq<Field>): nat {
    if fields == [] then 0
    else
      var (a, b) := (Depth(fields[0].ty), FieldsDepth(fields[1..]));
      if a < b then b else a
  }

  /** 8 * 65535^d: the largest size at nesting depth d. */
  function MaxSize(d: nat): nat { if d == 0 then 8 else 65535 * MaxSize(d - 1) }

  lemma {:induction false} MaxSizeMonotone(c: nat, d: nat)
    requires c <= d
    ensures MaxSize(c) <= MaxSize(d)
  {
    if c < d {
      MaxSizeMonotone(c, d - 1);
    }
  }

  lemma MulBound(a: nat, b: nat, c: nat, d: nat)
    requires a <= c && b <= d
    ensures a * b <= d * c
  {
    assert a * b <= a * d <= c * d;
  }

  lemma {:induction false} SizeBound(t: Type)
    requires WellFormed(t)
    ensures SizeOf(t) <= MaxSize(Depth(t))
    decreases t
  {
    match t
    case Simple(_) =>
    case Array(len, member) =>
      SizeBound(member);
      MulBound(SizeOf(member), len, MaxSize(Depth(member)), 65535);
    case Struct(fields) =>
      FieldsBound(fields, FieldsDepth(fields));
      MulBound(MaxSize(FieldsDepth(fields)), |fields|, MaxSize(FieldsDepth(fields)), 65535);
  }

  lemma {:induction false} FieldsBound(fields: seq<Field>, d: nat)
    requires forall f :: f in fields ==> WellFormed(f.ty)
    requires FieldsDepth(fields) <= d
    ensures FieldsSize(fields) <= MaxSize(d) * |fields|
    decreases fields
  {
    if fields != [] {
      SizeBound(fields[0].ty);
      MaxSizeMonotone(Depth(fields[0].ty), d);
      FieldsBound(fields[1..], d);
      assert MaxSize(d) * |fields| == MaxSize(d) + MaxSize(d) * (|fields| - 1);
    }
  }

  /** Up to three levels of nesting the size fits a 64-bit size_t. */
  lemma ShallowSizeFits(t: Type)
    requires WellFormed(t) && Depth(t) <= 3
    ensures SizeOf(t) < SIZE_T
  {
    SizeBound(t);
    MaxSizeMonotone(Depth(t), 3);
    assert MaxSize(3) == 65535 * (65535 * (65535 * MaxSize(0)));
  }

  /** At four levels it need not: the deepest array of long integers wraps. */
  lemma DeepSizeWraps()
    ensures exists t :: WellFormed(t) && Depth(t) == 4 && SizeOf(t) % SIZE_T != SizeOf(t)
  {
    var a1 := Array(65535, Simple(Lint));
    var a2 := Array(65535, a1);
    var a3 := Array(65535, a2);
    var a4 := Array(65535, a3);
    assert SizeOf(a1) == 8 * 65535;
    assert SizeOf(a2) == 8 * 65535 * 65535;
    assert SizeOf(a3) == 8 * 65535 * 65535 * 65535;
    assert SizeOf(a4) == 8 * 65535 * 65535 * 65535 * 65535;
    assert Depth(a1) == 1 && Depth(a2) == 2 && Depth(a3) == 3 && Depth(a4) == 4;
    assert WellFormed(a1) && WellFormed(a2) && WellFormed(a3) && WellFormed(a4);
  }

  lemma ModAdd(a: nat, b: nat, m: nat)
    requires m > 0
    ensures (a % m + b % m) % m == (a + b) % m
  {
    var (p, q) := (a / m, b / m);
    assert a + b == (a % m + b % m) + (p + q) * m;
    ModShift(a % m + b % m, p + q, m);
  }

  lemma Distribute(a: int, b: int, m: nat)
    ensures a * m - b * m == (a - b) * m
    ensures a - b >= 1 ==> (a - b) * m >= m
  {
    if a - b >= 1 {
      assert (a - b) * m == m + (a - b - 1) * m;
    }
  }

  lemma RemainderUnique(x: nat, d: nat, r: nat, e: nat, s: nat, m: nat)
    requires r < m && s < m && x == d * m + r && x == e * m + s
    ensures r == s && d == e
  {
    Distribute(d, e, m);
    Distribute(e, d, m);
  }

  lemma ModShift(a: nat, q: nat, m: nat)
    requires m > 0
    ensures (a + q * m) % m == a % m
  {
    assert a + q * m == (a / m + q) * m + a % m;
    var x := a + q * m;
    RemainderUnique(x, a / m + q, a % m, x / m, x % m, m);
  }

  lemma ModMul(a: nat, n: nat, m: nat)
    requires m > 0
    ensures ((a % m) * n) % m == (a * n) % m
  {
    var p := a / m;
    assert a * n == (a % m) * n + (p * n) * m by {
      assert a == a % m + p * m;
      assert (a % m + p * m) * n == (a % m) * n + (p * n) * m;
    }
    ModShift((a % m) * n, p * n, m);
  }

  lemma {:induction false} FieldsSizeSnoc(fields: seq<Field>, i: nat)
    requires i < |fields|
    ensures FieldsSize(fields[..i + 1]) == FieldsSize(fields[..i]) + SizeOf(fields[i].ty)
    decreases i
  {
    if i > 0 {
      assert fields[..i + 1][1..] == fields[1..][..i] && fields[..i][1..] == fields[1..][..i - 1];
      FieldsSizeSnoc(fields[1..], i - 1);
    }
  }

  lemma AddField(fields: seq<Field>, i: nat)
    requires i < |fields|
    ensures (FieldsSize(fields[..i]) % SIZE_T + SizeOf(fields[i].ty) % SIZE_T) % SIZE_T ==
            FieldsSize(fields[..i + 1]) % SIZE_T
  {
    FieldsSizeSnoc(fields, i);
    ModAdd(FieldsSize(fields[..i]), SizeOf(fields[i].ty), SIZE_T);
  }

  /** type_size_bytes: size_t arithmetic, a loop over struct fields. */
  method TypeSizeBytes(t: Type) returns (sz: nat)
    ensures sz == SizeOf(t) % SIZE_T
    decreases t
  {
    match t {
      case Simple(e) =>
        return ElemSize(e);
      case Array(len, member) =>
        var m := TypeSizeBytes(member);
        ModMul(SizeOf(member), len, SIZE_T);
        return (m * len) % SIZE_T;
      case Struct(fields) =>
        sz := 0;
        var i := 0;
        while i < |fields|
          invariant 0 <= i <= |fields|
          invariant sz == FieldsSize(fields[..i]) % SIZE_T
        {
          var f := TypeSizeBytes(fields[i].ty);
          AddField(fields, i);
          sz := (sz + f) % SIZE_T;
          i := i + 1;
        }
        assert fields[..i] == fields;
    }
  }
}
