// Byte-addressed memory. An address that is not a key is not mapped: touching it is a fault.
module Memory {
  import opened Bits

  type u8 = x: int | 0 <= x < 0x100
  type Mem = map<int, u8>

  ghost predicate Mapped(m: Mem, a: int, n: nat)
  {
    forall i :: a <= i < a + n ==> i in m
  }

  // The mapped check in a form that runs
  predicate IsMapped(m: Mem, a: int, n: nat)
    ensures IsMapped(m, a, n) <==> Mapped(m, a, n)
    decreases n
  {
    n == 0 || (a in m && IsMapped(m, a + 1, n - 1))
  }

  function Load(m: Mem, a: int, n: nat): (bs: seq<u8>)
    requires Mapped(m, a, n)
    ensures |bs| == n && forall i :: 0 <= i < n ==> bs[i] == m[a + i]
    decreases n
  {
    if n == 0 then [] else Load(m, a, n - 1) + [m[a + n - 1]]
  }

  function Store(m: Mem, a: int, bs: seq<u8>): (r: Mem)
    requires Mapped(m, a, |bs|)
    ensures r.Keys == m.Keys
  {
    map x | x in m :: if a <= x < a + |bs| then bs[x - a] else m[x]
  }

  // ---- little-endian numbers ----

  function FromBytes(bs: seq<u8>): (v: nat)
  {
    if bs == [] then 0 else bs[0] + 0x100 * FromBytes(bs[1..])
  }

  function ToBytes(v: nat, n: nat): (bs: seq<u8>)
    ensures |bs| == n
  {
    if n == 0 then [] else [v % 0x100] + ToBytes(v / 0x100, n - 1)
  }

  function Read(m: Mem, a: int, n: nat): nat
    requires Mapped(m, a, n)
  {
    FromBytes(Load(m, a, n))
  }

  function Write(m: Mem, a: int, n: nat, v: nat): (r: Mem)
    requires Mapped(m, a, n)
    ensures r.Keys == m.Keys
  {
    Store(m, a, ToBytes(v, n))
  }

  lemma {:induction false} BytesOfNumber(v: nat, n: nat)
    requires v < Pow2(8 * n)
    ensures FromBytes(ToBytes(v, n)) == v
  {
    if n > 0 {
      Pow2Add(8, 8 * (n - 1));
      Powers();
      assert v / 0x100 < Pow2(8 * (n - 1));
      BytesOfNumber(v / 0x100, n - 1);
    }
  }

  lemma {:induction false} NumberOfBytes(bs: seq<u8>)
    ensures FromBytes(bs) < Pow2(8 * |bs|)
    ensures ToBytes(FromBytes(bs), |bs|) == bs
  {
    if bs != [] {
      NumberOfBytes(bs[1..]);
      Pow2Add(8, 8 * (|bs| - 1));
      Powers();
      assert FromBytes(bs) == FromBytes(bs[1..]) * 0x100 + bs[0];
      QuotRem(FromBytes(bs), 0x100, FromBytes(bs[1..]), bs[0]);
      assert [bs[0]] + bs[1..] == bs;
    }
  }

  // ---- what a store keeps ----

  predicate Disjoint(a: int, n: int, b: int, k: int)
  {
    a + n <= b || b + k <= a
  }

  ghost predicate SameOn(m: Mem, r: Mem, a: int, n: nat)
  {
    forall i :: a <= i < a + n ==> (i in m <==> i in r) && (i in m ==> m[i] == r[i])
  }

  // m and r have the same byte at a, or none.
  ghost predicate Same(m: Mem, r: Mem, a: int)
  {
    (a in m <==> a in r) && (a in m ==> m[a] == r[a])
  }

  lemma LoadSame(m: Mem, r: Mem, a: int, n: nat)
    requires Mapped(m, a, n) && SameOn(m, r, a, n)
    ensures Mapped(r, a, n) && Load(r, a, n) == Load(m, a, n)
  {
  }

  lemma StoreElsewhere(m: Mem, a: int, bs: seq<u8>, b: int, k: nat)
    requires Mapped(m, a, |bs|) && Disjoint(a, |bs|, b, k)
    ensures SameOn(m, Store(m, a, bs), b, k)
  {
  }

  lemma LoadStored(m: Mem, a: int, bs: seq<u8>)
    requires Mapped(m, a, |bs|)
    ensures Load(Store(m, a, bs), a, |bs|) == bs
  {
  }

  lemma StoreLoaded(m: Mem, a: int, n: nat)
    requires Mapped(m, a, n)
    ensures Store(m, a, Load(m, a, n)) == m
  {
  }

  lemma ReadWritten(m: Mem, a: int, n: nat, v: nat)
    requires Mapped(m, a, n) && v < Pow2(8 * n)
    ensures Read(Write(m, a, n, v), a, n) == v
  {
    LoadStored(m, a, ToBytes(v, n));
    BytesOfNumber(v, n);
  }

  lemma WriteRead(m: Mem, a: int, n: nat)
    requires Mapped(m, a, n)
    ensures Write(m, a, n, Read(m, a, n)) == m
  {
    NumberOfBytes(Load(m, a, n));
    StoreLoaded(m, a, n);
  }
}
