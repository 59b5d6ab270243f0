// Linker.c: the global symbol table over the binary tree, and symbol lookup.
module Linker {
  import opened BinaryTree
  import opened Hash
  import opened Memory
  import opened Objects
  import opened Results
  import opened Words

  // dlsym: an address for every name, 0 for an unknown one
  type System = seq<u8> -> nat

  class Linker {
    var gsyms: Tree<ElfSymbol>
    // the symbols entered
    ghost var entered: set<ElfSymbol>

    ghost predicate Valid()
      reads this, gsyms, gsyms.repr
    {
      gsyms.Valid() && forall k :: k in Globals() ==> Globals()[k] in entered
    }

    ghost function Globals(): map<u64, ElfSymbol>
      reads this, gsyms
    {
      gsyms.Map()
    }

    // Every symbol in the table has its address.
    ghost predicate Defined()
      reads this, gsyms, Globals().Values
    {
      forall k :: k in Globals() ==> Globals()[k].addr != 0
    }

    // the addresses under which symbols are known
    ghost function Addresses(): map<u64, nat>
      reads this, gsyms, Globals().Values
    {
      map k | k in Globals() :: Globals()[k].addr
    }

    // The meaning of a lookup: the global symbols first, the system only on a miss
    ghost function AddressOf(system: System, name: seq<u8>): nat
      reads this, gsyms, Globals().Values
    {
      var h := KnuthHash(name);
      if h in Globals() then Globals()[h].addr else system(name)
    }

    constructor ()
      ensures Valid() && Globals() == map[] && fresh(gsyms) && gsyms.repr == {}
    {
      gsyms := new Tree();
      entered := {};
    }

    // insert_global_symbol. A weak symbol is bound to a system symbol first.
    method Insert(symbol: ElfSymbol, isWeak: bool, system: System) returns (ok: bool)
      requires Valid()
      modifies this`entered, gsyms, gsyms.repr, symbol`addr
      ensures Valid() && fresh(gsyms.repr - old(gsyms.repr))
      ensures ok <==>
        (isWeak ==> old(symbol.addr) != 0 && system(NameOf(symbol.elf)) != 0) && symbol.hash !in old(Globals())
      ensures ok ==> Globals() == old(Globals())[symbol.hash := symbol]
      ensures ok ==> symbol.addr == if isWeak then system(NameOf(symbol.elf)) else old(symbol.addr)
    {
      hide NameOf, BinaryTree.Contents, Linked, Ordered, Nodes;
      if isWeak {
        if symbol.addr == 0 {
          return false;
        }
        symbol.addr := system(NameOf(symbol.elf));
        if symbol.addr == 0 {
          return false;
        }
      }
      ghost var before := Globals();
      ok := gsyms.Insert(symbol.hash, symbol);
      entered := entered + {symbol};
      assert Globals() == if ok then before[symbol.hash := symbol] else before;
    }

    // lookup_global_symbol_
    method LookupGlobal(name: seq<u8>) returns (symbol: Option<ElfSymbol>)
      requires Valid()
      ensures symbol == if KnuthHash(name) in Globals() then Some(Globals()[KnuthHash(name)]) else None
    {
      var h := ComputeHash(name);
      symbol := gsyms.Lookup(h);
    }

    // lookupSymbol_
    method LookupSymbol(system: System, name: seq<u8>) returns (addr: nat)
      requires Valid()
      ensures addr == AddressOf(system, name)
    {
      var symbol := LookupGlobal(name);
      match symbol {
        case Some(s) => return s.addr;
        case None => return system(name);
      }
    }
  }

  // ---- load order ----

  datatype Export<V> = Export(key: u64, value: V)

  // Entering exports one after the other; a key that is already there aborts.
  function EnterAll<V>(m: map<u64, V>, es: seq<Export<V>>): Result<map<u64, V>>
    decreases |es|
  {
    if es == [] then Ok(m)
    else if es[0].key in m then Abort
    else EnterAll(m[es[0].key := es[0].value], es[1..])
  }

  ghost predicate NoDuplicates<V>(es: seq<Export<V>>)
  {
    forall i, j :: 0 <= i < j < |es| ==> es[i].key != es[j].key
  }

  // the exports of several objects, loaded in order
  function Loaded<V>(objects: seq<seq<Export<V>>>): seq<Export<V>>
  {
    if objects == [] then [] else objects[0] + Loaded(objects[1..])
  }

  // Entering succeeds exactly without duplicates, and then yields exactly the pairs entered.
  lemma {:induction false} EnterAllIs<V>(m: map<u64, V>, es: seq<Export<V>>)
    ensures EnterAll(m, es).Ok? <==> NoDuplicates(es) && forall e :: e in es ==> e.key !in m
    ensures EnterAll(m, es).Ok? ==>
      var r := EnterAll(m, es).value;
      && (forall k :: k in r <==> k in m || exists e :: e in es && e.key == k)
      && (forall k :: k in m ==> r[k] == m[k])
      && (forall e :: e in es ==> r[e.key] == e.value)
    decreases |es|
  {
    if es != [] {
      var e, rest := es[0], es[1..];
      assert es == [e] + rest;
      if e.key !in m {
        EnterAllIs(m[e.key := e.value], rest);
        NoDuplicatesTail(es);
      } else {
        assert e in es;
      }
    }
  }

  lemma NoDuplicatesTail<V>(es: seq<Export<V>>)
    requires es != []
    ensures NoDuplicates(es) <==> NoDuplicates(es[1..]) && forall e :: e in es[1..] ==> e.key != es[0].key
  {
    var rest := es[1..];
    if NoDuplicates(es) {
      forall e | e in rest ensures e.key != es[0].key {
        var i :| 0 <= i < |rest| && rest[i] == e;
        assert es[i + 1] == e;
      }
      forall i, j | 0 <= i < j < |rest| ensures rest[i].key != rest[j].key {
        assert rest[i] == es[i + 1] && rest[j] == es[j + 1];
      }
    } else {
      var i, j :| 0 <= i < j < |es| && es[i].key == es[j].key;
      assert es[j] == rest[j - 1];
      if i > 0 {
        assert es[i] == rest[i - 1];
      }
    }
  }

  lemma OnceApart<T>(s: seq<T>, i: nat, j: nat)
    requires i < j < |s| && multiset(s)[s[i]] <= 1
    ensures s[i] != s[j]
  {
    assert s == s[..i] + [s[i]] + s[i + 1..j] + [s[j]] + s[j + 1..];
  }

  lemma TwoPlaces<T>(s: seq<T>, x: T) returns (i: nat, j: nat)
    requires multiset(s)[x] >= 2
    ensures i < j < |s| && s[i] == s[j] == x
  {
    assert x in s;
    i :| i < |s| && s[i] == x;
    assert s == s[..i] + [s[i]] + s[i + 1..];
    if x in s[i + 1..] {
      j :| j < |s[i + 1..]| && s[i + 1..][j] == x;
      j := i + 1 + j;
    } else {
      assert x in multiset(s[..i]);
      j := i;
      i :| i < |s[..j]| && s[..j][i] == x;
    }
  }

  lemma CountedOnce<V>(es: seq<Export<V>>, e: Export<V>)
    requires NoDuplicates(es)
    ensures multiset(es)[e] <= 1
  {
    if multiset(es)[e] >= 2 {
      var i, j := TwoPlaces(es, e);
    }
  }

  lemma KeysApart<V>(es: seq<Export<V>>, e: Export<V>, f: Export<V>)
    requires NoDuplicates(es) && e in es && f in es && e != f
    ensures e.key != f.key
  {
    var k :| 0 <= k < |es| && es[k] == e;
    var l :| 0 <= l < |es| && es[l] == f;
  }

  lemma NoDuplicatesPermuted<V>(es: seq<Export<V>>, fs: seq<Export<V>>)
    requires multiset(es) == multiset(fs) && NoDuplicates(es)
    ensures NoDuplicates(fs)
  {
    forall i, j | 0 <= i < j < |fs| ensures fs[i].key != fs[j].key {
      CountedOnce(es, fs[i]);
      OnceApart(fs, i, j);
      assert fs[i] in multiset(es) && fs[j] in multiset(es);
      KeysApart(es, fs[i], fs[j]);
    }
  }

  // Entering the exports of one object after those of others
  lemma {:induction false} EnterAllAppend<V>(m: map<u64, V>, a: seq<Export<V>>, b: seq<Export<V>>)
    ensures EnterAll(m, a + b) == if EnterAll(m, a).Ok? then EnterAll(EnterAll(m, a).value, b) else Abort
    decreases |a|
  {
    if a == [] {
      assert a + b == b;
    } else {
      assert (a + b)[0] == a[0] && (a + b)[1..] == a[1..] + b;
      if a[0].key !in m {
        EnterAllAppend(m[a[0].key := a[0].value], a[1..], b);
      }
    }
  }

  // Entering the same exports in another order: the same success and the same map.
  lemma OrderDoesNotMatter<V>(es: seq<Export<V>>, fs: seq<Export<V>>)
    requires multiset(es) == multiset(fs)
    ensures EnterAll(map[], es) == EnterAll(map[], fs)
  {
    var m: map<u64, V> := map[];
    EnterAllIs(m, es);
    EnterAllIs(m, fs);
    forall e ensures e in es <==> e in fs {
      assert e in es <==> e in multiset(es);
    }
    if NoDuplicates(es) {
      NoDuplicatesPermuted(es, fs);
      var a, b := EnterAll(m, es).value, EnterAll(m, fs).value;
      forall k | k in a ensures k in b && a[k] == b[k] {
        var e :| e in es && e.key == k;
      }
      forall k | k in b ensures k in a {
        var e :| e in fs && e.key == k;
      }
      assert a == b;
    } else if NoDuplicates(fs) {
      NoDuplicatesPermuted(fs, es);
    }
  }

  lemma {:induction false} LoadedWithout<V>(objects: seq<seq<Export<V>>>, i: nat)
    requires i < |objects|
    ensures multiset(Loaded(objects)) == multiset(objects[i]) + multiset(Loaded(objects[..i] + objects[i + 1..]))
  {
    if i == 0 {
      assert objects[..0] + objects[1..] == objects[1..];
    } else {
      LoadedWithout(objects[1..], i - 1);
      var rest := objects[..i] + objects[i + 1..];
      assert rest[0] == objects[0] && rest[1..] == objects[1..][..i - 1] + objects[1..][i..];
    }
  }

  // Taking the first element of a sequence out of a permutation of it
  lemma TakeOut<T>(xs: seq<T>, ys: seq<T>) returns (i: nat)
    requires xs != [] && multiset(xs) == multiset(ys)
    ensures i < |ys| && ys[i] == xs[0] && multiset(xs[1..]) == multiset(ys[..i] + ys[i + 1..])
  {
    var first, rest := xs[0], xs[1..];
    assert xs == [first] + rest;
    assert first in multiset(ys);
    i :| 0 <= i < |ys| && ys[i] == first;
    assert ys == ys[..i] + [first] + ys[i + 1..];
    assert multiset(rest) == multiset(xs) - multiset{first};
    assert multiset(ys[..i] + ys[i + 1..]) == multiset(ys) - multiset{first};
  }

  lemma {:induction false} LoadedPermuted<V>(objects: seq<seq<Export<V>>>, others: seq<seq<Export<V>>>)
    requires multiset(objects) == multiset(others)
    ensures multiset(Loaded(objects)) == multiset(Loaded(others))
    decreases |objects|
  {
    if objects == [] {
      assert |multiset(others)| == |others|;
    } else {
      var i := TakeOut(objects, others);
      LoadedPermuted(objects[1..], others[..i] + others[i + 1..]);
      LoadedWithout(others, i);
    }
  }

  // Entering whole lists in another order: the same success and the same map
  lemma ListOrderDoesNotMatter<V>(objects: seq<seq<Export<V>>>, others: seq<seq<Export<V>>>)
    requires multiset(objects) == multiset(others)
    ensures EnterAll(map[], Loaded(objects)) == EnterAll(map[], Loaded(others))
  {
    LoadedPermuted(objects, others);
    OrderDoesNotMatter(Loaded(objects), Loaded(others));
  }

  // ---- names ----

  // Each symbol stands in the table under the hash of its name.
  ghost predicate Keyed(g: map<u64, ElfSymbol>)
  {
    forall k :: k in g ==> k == KnuthHash(NameOf(g[k].elf))
  }

  ghost predicate HasName(g: map<u64, ElfSymbol>, k: u64, name: seq<u8>)
  {
    k in g && NameOf(g[k].elf) == name
  }

  // No symbol of another name stands where the name is looked for.
  ghost predicate NoCollision(g: map<u64, ElfSymbol>, name: seq<u8>)
  {
    forall k :: k in g && k == KnuthHash(name) ==> NameOf(g[k].elf) == name
  }

  // Lookup compares hashes only. It answers for names, without a wrong hit or miss, exactly if the name looked up does
  // not collide with another in the table.
  lemma LooksUpNamesIff(g: map<u64, ElfSymbol>, name: seq<u8>)
    requires Keyed(g)
    ensures NoCollision(g, name) <==> (KnuthHash(name) in g <==> exists k :: HasName(g, k, name))
    ensures forall k :: HasName(g, k, name) ==> k == KnuthHash(name)
  {
    hide KnuthHash;
    var h := KnuthHash(name);
    if h in g && NameOf(g[h].elf) == name {
      assert HasName(g, h, name);
    }
  }

  // What a lookup returns: without a collision the address of the symbol of that name, and the system's if there is
  // none; with a collision the address of a symbol of another name.
  lemma LookupReturns(l: Linker, system: System, name: seq<u8>)
    requires l.Valid() && Keyed(l.Globals())
    ensures NoCollision(l.Globals(), name) ==>
      && (forall k :: HasName(l.Globals(), k, name) ==> l.AddressOf(system, name) == l.Globals()[k].addr)
      && ((forall k :: !HasName(l.Globals(), k, name)) ==> l.AddressOf(system, name) == system(name))
    ensures !NoCollision(l.Globals(), name) ==>
      exists k ::
        k in l.Globals() && NameOf(l.Globals()[k].elf) != name && l.AddressOf(system, name) == l.Globals()[k].addr
  {
    hide KnuthHash;
    LooksUpNamesIff(l.Globals(), name);
    var h := KnuthHash(name);
    if h in l.Globals() && NameOf(l.Globals()[h].elf) == name {
      assert HasName(l.Globals(), h, name);
    }
  }
}
