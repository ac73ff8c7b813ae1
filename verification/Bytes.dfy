/**
 Little-endian numbers in byte buffers.
 */
module Bytes {
  import opened Types

  function Le(n: nat, w: nat): (s: seq<byte>)
    ensures |s| == w
  {
    if w == 0 then [] else [n % 256] + Le(n / 256, w - 1)
  }

  function FromLe(s: seq<byte>): nat {
    if s == [] then 0 else s[0] + 256 * FromLe(s[1..])
  }

  function Pow256(w: nat): nat { if w == 0 then 1 else 256 * Pow256(w - 1) }

  lemma {:induction false} FromLeLe(n: nat, w: nat)
    requires n < Pow256(w)
    ensures FromLe(Le(n, w)) == n
  {
    if w > 0 {
      FromLeLe(n / 256, w - 1);
      assert Le(n, w)[1..] == Le(n / 256, w - 1);
    }
  }

  lemma {:induction false} LeFromLe(s: seq<byte>)
    ensures FromLe(s) < Pow256(|s|)
    ensures Le(FromLe(s), |s|) == s
  {
    if s != [] {
      LeFromLe(s[1..]);
      assert (s[0] + 256 * FromLe(s[1..])) / 256 == FromLe(s[1..]);
      assert s == [s[0]] + s[1..];
    }
  }

  /** The lowest byte comes first. */
  lemma {:induction false} LeDigit(n: nat, w: nat, i: nat)
    requires i < w
    ensures Pow256(i) > 0 && Le(n, w)[i] == n / Pow256(i) % 256
    decreases w
  {
    LeModulo(0, i);
    if i > 0 {
      LeDigit(n / 256, w - 1, i - 1);
      LeModulo(0, i - 1);
      DivideTwice(n, Pow256(i - 1));
    }
  }

  lemma DivideTwice(n: nat, p: nat)
    requires p > 0
    ensures n / 256 / p == n / (256 * p)
  {
    var (q, r) := (n / 256, n % 256);
    Scale(q / p, p, q % p);
    QuotientOf(n, q / p, r + 256 * (q % p), 256 * p);
  }

  lemma QuotientOf(n: nat, d: nat, x: nat, m: nat)
    requires x < m && n == d * m + x
    ensures n / m == d
  {
    RemainderUnique(n, d, x, n / m, n % m, m);
  }

  lemma BytesRegroup(a: seq<byte>, b: seq<byte>, c: seq<byte>)
    ensures a + b + c == a + (b + c)
  {
  }

  /** The buffer s with the w bytes of v at offset o. */
  function Stored(s: seq<byte>, o: nat, w: nat, v: nat): (r: seq<byte>)
    requires o + w <= |s|
    ensures |r| == |s|
  {
    s[..o] + Le(v, w) + s[o + w..]
  }

  function Loaded(s: seq<byte>, o: nat, w: nat): nat
    requires o + w <= |s|
  {
    FromLe(s[o..o + w])
  }

  /** The assignment of a w-byte number. */
  method PutNumber(data: array<byte>, p: nat, n: nat, w: nat) returns (q: nat)
    requires p + w <= data.Length
    modifies data
    ensures q == p + w && data[..q] == old(data[..p]) + Le(n, w)
    ensures data[q..] == old(data[q..])
    decreases w
  {
    q := p;
    if w > 0 {
      data[p] := n % 256;
      ghost var d := data[..p + 1];
      q := PutNumber(data, p + 1, n / 256, w - 1);
      BytesRegroup(old(data[..p]), [n % 256], Le(n / 256, w - 1));
      assert d == old(data[..p]) + [n % 256];
    }
  }

  /** The number read from w bytes. */
  method TakeNumber(data: array<byte>, p: nat, w: nat) returns (n: nat)
    requires p + w <= data.Length
    ensures n == Loaded(data[..], p, w)
    decreases w
  {
    n := 0;
    if w > 0 {
      n := TakeNumber(data, p + 1, w - 1);
      n := data[p] + 256 * n;
      assert data[..][p..p + w][1..] == data[..][p + 1..p + w];
    }
  }

  lemma {:induction false} LeModulo(n: nat, w: nat)
    ensures Pow256(w) > 0 && Le(n, w) == Le(n % Pow256(w), w)
  {
    if w > 0 {
      LeModulo(n / 256, w - 1);
      var (p, m) := (Pow256(w - 1), n % Pow256(w));
      DivideRemainder(n, p);
      LowByte(m, n % 256, n / 256 % p);
    }
  }

  lemma LowByte(m: nat, r: nat, q: nat)
    requires r < 256 && m == r + 256 * q
    ensures m % 256 == r && m / 256 == q
  {
  }

  /** Dropping the lowest byte and cutting the rest to p is cutting to 256 p first. */
  lemma DivideRemainder(n: nat, p: nat)
    requires p > 0
    ensures n % (256 * p) == n % 256 + 256 * (n / 256 % p)
  {
    var (q, r) := (n / 256, n % 256);
    var (d, e) := (q / p, q % p);
    Scale(d, p, e);
    RemainderOf(n, d, r + 256 * e, 256 * p);
  }

  lemma RemainderOf(n: nat, d: nat, x: nat, m: nat)
    requires x < m && n == d * m + x
    ensures n % m == x
  {
    RemainderUnique(n, d, x, n / m, n % m, m);
  }

  lemma Scale(d: nat, p: nat, e: nat)
    ensures 256 * (d * p + e) == d * (256 * p) + 256 * e
  {
  }

  /** A write puts the number's bytes at their place, the lowest first, and leaves every other byte. */
  lemma StoredByte(s: seq<byte>, o: nat, w: nat, v: nat, k: nat)
    requires o + w <= |s| && k < |s|
    ensures o <= k < o + w ==> Pow256(k - o) > 0 && Stored(s, o, w, v)[k] == v / Pow256(k - o) % 256
    ensures k < o || o + w <= k ==> Stored(s, o, w, v)[k] == s[k]
  {
    if o <= k < o + w {
      LeDigit(v, w, k - o);
    }
  }

  /** What is read back from the place just written. */
  lemma LoadStored(s: seq<byte>, o: nat, w: nat, v: nat)
    requires o + w <= |s|
    ensures Pow256(w) > 0 && Loaded(Stored(s, o, w, v), o, w) == v % Pow256(w)
  {
    LeModulo(v, w);
    FromLeLe(v % Pow256(w), w);
    assert Stored(s, o, w, v)[o..o + w] == Le(v, w);
  }

  /** What is read from any other place. */
  lemma LoadElsewhere(s: seq<byte>, o: nat, w: nat, v: nat, p: nat, x: nat)
    requires o + w <= |s| && p + x <= |s|
    requires p + x <= o || o + w <= p
    ensures Loaded(Stored(s, o, w, v), p, x) == Loaded(s, p, x)
  {
    assert Stored(s, o, w, v)[p..p + x] == s[p..p + x];
  }
}
