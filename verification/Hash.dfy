// Hash.c: knuth_hash, a polynomial modulo 2^64.
module Hash {
  import opened Memory
  import opened Words

  const SEED: u64 := 3074457345618258791
  const FACTOR: u64 := 3074457345618258799
  // FACTOR is odd, so it has an inverse modulo 2^64
  const INVERSE: u64 := 11948103334669259663

  function Power(n: nat): nat
  {
    if n == 0 then 1 else FACTOR * Power(n - 1)
  }

  // key[0] * FACTOR^n + key[1] * FACTOR^(n-1) + ... + key[n-1] * FACTOR
  function Terms(key: seq<u8>): nat
  {
    if key == [] then 0 else key[0] * Power(|key|) + Terms(key[1..])
  }

  // one round of the loop
  function Mix(h: u64, c: u8): u64
  {
    Multiply(Add(h, c))
  }

  function MixAll(h: u64, key: seq<u8>): u64
    decreases |key|
  {
    if key == [] then h else MixAll(Mix(h, key[0]), key[1..])
  }

  function KnuthHash(key: seq<u8>): u64
  {
    MixAll(SEED, key)
  }

  // ---- congruence modulo 2^64 ----

  lemma Congruent(x: int, y: int, z: int, w: int)
    requires U64(x) == U64(y)
    ensures U64(x * z + w) == U64(y * z + w)
  {
    var p := x / 0x1_0000_0000_0000_0000 - y / 0x1_0000_0000_0000_0000;
    assert x == y + p * 0x1_0000_0000_0000_0000;
    hide U64;
    Distribute(y, p, z);
    U64Shift(y * z + w, p * z);
  }

  lemma Distribute(y: int, p: int, z: int)
    ensures (y + p * 0x1_0000_0000_0000_0000) * z == y * z + p * z * 0x1_0000_0000_0000_0000
  {
  }

  lemma U64Twice(x: int)
    ensures U64(U64(x)) == U64(x)
  {
  }

  lemma MixIs(h: u64, c: u8)
    ensures Mix(h, c) == U64((h + c) * FACTOR)
  {
    hide U64;
    U64Twice(h + c);
    Congruent(U64(h + c), h + c, FACTOR, 0);
  }

  // ---- closed form ----

  lemma {:induction false} ClosedForm(h: u64, key: seq<u8>)
    ensures MixAll(h, key) == U64(h * Power(|key|) + Terms(key))
    decreases |key|
  {
    if key != [] {
      ClosedForm(Mix(h, key[0]), key[1..]);
      FirstTerm(h, key);
    }
  }

  lemma FirstTerm(h: u64, key: seq<u8>)
    requires key != []
    ensures U64(Mix(h, key[0]) * Power(|key[1..]|) + Terms(key[1..])) == U64(h * Power(|key|) + Terms(key))
  {
    hide Terms, Power, U64, Mix;
    FirstOf(key);
    OneTerm(h, key[0], Power(|key| - 1), Terms(key[1..]), Power(|key|));
  }

  lemma FirstOf(key: seq<u8>)
    requires key != []
    ensures Terms(key) == key[0] * Power(|key|) + Terms(key[1..])
    ensures Power(|key|) == FACTOR * Power(|key| - 1)
  {
  }

  lemma OneTerm(h: u64, c: u8, q: nat, t: nat, p: nat)
    requires p == FACTOR * q
    ensures U64(Mix(h, c) * q + t) == U64(h * p + (c * p + t))
  {
    hide U64, Mix;
    MixIs(h, c);
    U64Twice((h + c) * FACTOR);
    Congruent(Mix(h, c), (h + c) * FACTOR, q, t);
    Regroup(h, c, q);
  }

  lemma Regroup(h: nat, c: nat, q: nat)
    ensures (h + c) * FACTOR * q == h * (FACTOR * q) + c * (FACTOR * q)
  {
  }

  // The numbers of the code: the hash of a single byte
  lemma OfOneByte(c: u8)
    ensures KnuthHash([c]) == U64((3074457345618258791 + c) * 3074457345618258799)
  {
    MixIs(SEED, c);
    var rest := [c][1..];
    assert rest == [] && MixAll(Mix(SEED, c), rest) == Mix(SEED, c);
    assert KnuthHash([c]) == MixAll(Mix(SEED, c), rest);
  }

  // ---- reversibility ----

  function Unmix(g: u64, c: u8): u64
  {
    U64(g * INVERSE - c)
  }

  const CARRY := 1991350555778210071

  lemma InverseIs(x: int)
    ensures x * FACTOR * INVERSE == x + x * CARRY * 0x1_0000_0000_0000_0000
    ensures x * INVERSE * FACTOR == x + x * CARRY * 0x1_0000_0000_0000_0000
  {
    assert FACTOR * INVERSE == 1 + CARRY * 0x1_0000_0000_0000_0000;
  }

  // x, moved by c and whole multiples of the modulus
  lemma MovedBack(x: u64, c: int, p: int, q: int)
    requires p == x + c + q * 0x1_0000_0000_0000_0000
    ensures U64(p + (0 - c)) == x
  {
    hide U64;
    U64Of(p + (0 - c), x, q);
  }

  lemma UnmixMix(h: u64, c: u8)
    ensures Unmix(Mix(h, c), c) == h
  {
    var x := h + c;
    MixIs(h, c);
    hide U64, Mix;
    U64Twice(x * FACTOR);
    Congruent(Mix(h, c), x * FACTOR, INVERSE, 0 - c);
    InverseIs(x);
    MovedBack(h, c, x * FACTOR * INVERSE, x * CARRY);
  }

  lemma MixUnmix(g: u64, c: u8)
    ensures Mix(Unmix(g, c), c) == g
  {
    MixIs(Unmix(g, c), c);
    hide U64, Mix;
    U64Twice(g * INVERSE - c);
    Congruent(Unmix(g, c), g * INVERSE - c, FACTOR, c * FACTOR);
    InverseIs(g);
    MovedBack(g, 0, g * INVERSE * FACTOR, g * CARRY);
  }

  // Each round is a bijection on the state, for every byte, and tells bytes apart for every state.
  lemma MixBijective(h: u64, g: u64, c: u8, d: u8)
    ensures Mix(h, c) == g <==> h == Unmix(g, c)
    ensures Mix(h, c) == Mix(h, d) ==> c == d
  {
    UnmixMix(h, c);
    MixUnmix(g, c);
    if Mix(h, c) == Mix(h, d) {
      UnmixMix(h, d);
      var p := Mix(h, c) * INVERSE;
      assert U64(p - c) == U64(p - d);
      SameDifference(p, c, d);
    }
  }

  lemma SameDifference(p: int, c: u8, d: u8)
    requires U64(p - c) == U64(p - d)
    ensures c == d
  {
  }

  // Equal remainders of the string never merge different states.
  lemma {:induction false} MixAllInjective(h: u64, g: u64, key: seq<u8>)
    requires MixAll(h, key) == MixAll(g, key)
    ensures h == g
    decreases |key|
  {
    if key != [] {
      hide Mix, Unmix;
      MixAllInjective(Mix(h, key[0]), Mix(g, key[0]), key[1..]);
      MixBijective(h, Mix(h, key[0]), key[0], key[0]);
      MixBijective(g, Mix(h, key[0]), key[0], key[0]);
    }
  }

  // Two strings of the same length that differ in exactly one byte never collide.
  lemma {:induction false} OneByteNeverCollides(h: u64, a: seq<u8>, b: seq<u8>, i: nat)
    requires i < |a| == |b| && a[i] != b[i] && forall k :: 0 <= k < |a| && k != i ==> a[k] == b[k]
    ensures MixAll(h, a) != MixAll(h, b)
    decreases |a|
  {
    hide Mix;
    if i > 0 {
      OneByteNeverCollides(Mix(h, a[0]), a[1..], b[1..], i - 1);
    } else {
      assert a[1..] == b[1..];
      MixBijective(h, h, a[0], b[0]);
      if MixAll(h, a) == MixAll(h, b) {
        MixAllInjective(Mix(h, a[0]), Mix(h, b[0]), a[1..]);
      }
    }
  }

  // knuth_hash
  method ComputeHash(key: seq<u8>) returns (hashedValue: u64)
    ensures hashedValue == KnuthHash(key) == U64(SEED * Power(|key|) + Terms(key))
  {
    hide U64, Add, Multiply;
    hashedValue := SEED;
    ClosedForm(SEED, key);
    for i := 0 to |key|
      invariant MixAll(hashedValue, key[i..]) == MixAll(SEED, key)
    {
      assert key[i..][0] == key[i] && key[i..][1..] == key[i + 1..];
      hashedValue := Add(hashedValue, key[i]);
      hashedValue := Multiply(hashedValue);
    }
  }

  // adding a byte to the state, modulo 2^64
  function Add(h: u64, c: u8): u64 { U64(h + c) }

  // scaling the state, modulo 2^64
  function Multiply(h: u64): u64 { U64(h * FACTOR) }
}
