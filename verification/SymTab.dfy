/** The symbol table of utils/sym.c: chained hashing, on the heap.

    The table is an array of chain heads.  The ghost field chains lists each chain, and entries
    is the finite map from names to values that the table stands for.
  */
module SymTabs {
  import Edits
  import opened Powers

  class Sym {
    var forw: Sym?
    const name: Name
    var content: int
    var arg: int

    constructor (name: Name, content: int, arg: int)
      ensures this.name == name && this.content == content && this.arg == arg && forw == null
    {
      this.name, this.content, this.arg, forw := name, content, arg, null;
    }
  }

  /// Hashing

  // The characters of a name as the program reads them: char may be signed, and none is NUL.
  type Code = c: int | -128 <= c < 256 && c != 0 witness 1
  type Name = seq<Code>

  const UINT: nat := 0x1_0000_0000

  function Shifted(c: Code, i: nat): int { c * Pow2(i) }

  // A shift by one bit more doubles the value.
  lemma ShiftDoubles(c: Code, i: nat)
    ensures Shifted(c, 0) == c && Shifted(c, i + 1) == 2 * Shifted(c, i)
  {
    assert Pow2(0) == 1;
    assert c * (2 * Pow2(i)) == 2 * (c * Pow2(i));
  }

  // The character at position k counts shifted by 7 k bits, where shifts go around at 24.
  function Total(s: Name): int {
    if s == [] then 0
    else
      var k := |s| - 1;
      Total(s[..k]) + Shifted(s[k], 7 * k % 24)
  }

  function Bucket(name: Name, hashSize: nat): (b: nat)
    requires hashSize > 0
    ensures b < hashSize
  {
    Total(name) % UINT % hashSize
  }

  lemma AddWraps(a: int, x: int)
    ensures (a % UINT + x) % UINT == (a + x) % UINT
  {
    assert a + x == (a % UINT + x) + UINT * (a / UINT);
  }

  // Shifts of 0, 7, 14 and 21 bits, and around to 4.
  lemma FiveShifts()
    ensures Total([1, 1, 1, 1, 1]) == 1 + 0x80 + 0x4000 + 0x20_0000 + 0x10
  {
    hide Total;
    var s: Name := [1, 1, 1, 1, 1];
    TotalOfNone();
    TotalStep(s, 0);
    TotalStep(s, 1);
    TotalStep(s, 2);
    TotalStep(s, 3);
    TotalStep(s, 4);
    assert s[..0] == [] && s[..5] == s;
    SevenBits(0);
    SevenBits(7);
    SevenBits(14);
    SmallPowers();
    hide Pow2;
  }

  lemma SmallPowers()
    ensures Pow2(0) == 1 && Pow2(4) == 0x10
  {
  }

  lemma SevenBits(i: nat)
    ensures Pow2(i + 7) == 0x80 * Pow2(i)
  {
    assert Pow2(i + 2) == 4 * Pow2(i);
    assert Pow2(i + 4) == 4 * Pow2(i + 2);
    assert Pow2(i + 6) == 4 * Pow2(i + 4);
  }

  lemma TotalOfNone()
    ensures Total([]) == 0
  {
  }

  lemma TotalStep(s: Name, n: nat)
    requires n < |s|
    ensures Total(s[..n + 1]) == Total(s[..n]) + Shifted(s[n], 7 * n % 24)
  {
    hide Shifted;
    assert s[..n + 1][..n] == s[..n];
  }

  lemma ShiftStep(m: nat)
    ensures (m % 24 + 7) % 24 == (m + 7) % 24
  {
    assert m + 7 == (m % 24 + 7) + 24 * (m / 24);
  }

  // The unsigned sum wraps at every step; only its remainder matters.
  method HashIndex(name: Name, hashSize: nat) returns (b: nat)
    requires hashSize > 0
    ensures b == Bucket(name, hashSize) == Total(name) % 0x1_0000_0000 % hashSize < hashSize
  {
    hide Total, Shifted, Pow2;
    var i: nat, sum: nat := 0, 0;
    var n := 0;
    TotalOfNone();
    while n < |name|
      invariant 0 <= n <= |name|
      invariant i == 7 * n % 24 && sum == Total(name[..n]) % UINT
    {
      TotalStep(name, n);
      ShiftStep(7 * n);
      AddWraps(Total(name[..n]), Shifted(name[n], i));
      sum := (sum + Shifted(name[n], i)) % UINT;
      i := (i + 7) % 24;
      n := n + 1;
    }
    assert name[..n] == name;
    b := sum % hashSize;
  }

  // No divisor strictly between 1 and n; the program counts 1 as prime.
  ghost predicate Prime(n: nat) {
    n >= 1 && forall d :: 2 <= d < n ==> n % d != 0
  }

  lemma LargeDivisors(n: nat, d: nat)
    requires n / 2 < d < n
    ensures n % d != 0
  {
    assert n == 1 * d + (n - d);
    assert n / d == 1;
  }

  method IsPrime(n: nat) returns (prime: bool)
    requires n > 0
    ensures prime <==> Prime(n)
    ensures prime <==> forall d :: 2 <= d < n ==> n % d != 0
  {
    var max := n / 2;
    var i := 2;
    while i <= max
      invariant 2 <= i && forall d :: 2 <= d < i && d <= max ==> n % d != 0
      decreases max - i
    {
      if n % i == 0 {
        return false;
      }
      i := i + 1;
    }
    forall d | 2 <= d < n ensures n % d != 0 {
      if d > max {
        LargeDivisors(n, d);
      }
    }
    return true;
  }

  // The largest prime that is not larger than size (the program's own comment says smaller).
  method CalcPrime(size: nat) returns (p: nat)
    requires size > 0
    ensures 0 < p <= size && Prime(p) && forall c :: p < c <= size ==> !Prime(c)
    ensures size >= 2 ==> p >= 2
  {
    assert Prime(1);
    assert size >= 2 ==> Prime(2);
    p := size;
    while p > 0
      invariant 0 < p <= size && (size >= 2 ==> p >= 2)
      invariant forall c :: p < c <= size ==> !Prime(c)
    {
      var prime := IsPrime(p);
      if prime {
        return;
      }
      p := p - 1;
    }
    assert false;
  }

  /// The table

  datatype Value = Value(content: int, arg: int)

  // c is the null-terminated chain that starts at head.
  ghost predicate Linked(head: Sym?, c: seq<Sym>)
    reads c`forw
  {
    && head == (if c == [] then null else c[0])
    && (forall i {:trigger c[i].forw} :: 0 <= i < |c| ==> c[i].forw == if i + 1 < |c| then c[i + 1] else null)
  }

  // The names of c are distinct and hash to b, and entries knows them with their values.
  ghost predicate Agrees(c: seq<Sym>, b: nat, size: nat, entries: map<Name, Value>)
    requires size > 0
    reads c`content, c`arg
  {
    && (forall i {:trigger c[i]} :: 0 <= i < |c| ==>
          && Bucket(c[i].name, size) == b
          && c[i].name in entries && entries[c[i].name] == Value(c[i].content, c[i].arg))
    && (forall i, j :: 0 <= i < j < |c| ==> c[i].name != c[j].name)
  }

  ghost predicate Named(c: seq<Sym>, n: Name)
  {
    exists i :: 0 <= i < |c| && c[i].name == n
  }

  lemma NamedMore(chains: seq<seq<Sym>>, entries: map<Name, Value>, size: nat, sp: Sym)
    requires 0 < size == |chains| && forall n :: n in entries ==> Named(chains[Bucket(n, size)], n)
    ensures var b := Bucket(sp.name, size);
            var more := chains[b := chains[b] + [sp]];
            Named(more[b], sp.name) && forall n :: n in entries ==> Named(more[Bucket(n, size)], n)
  {
    hide Bucket;
    var b := Bucket(sp.name, size);
    var c := chains[b] + [sp];
    assert c[|chains[b]|].name == sp.name;
    forall n | n in entries && Bucket(n, size) == b ensures Named(c, n) {
      assert Named(chains[b], n);
      var i :| 0 <= i < |chains[b]| && chains[b][i].name == n;
      assert c[i].name == n;
    }
  }

  lemma AgreesMore(chains: seq<seq<Sym>>, entries: map<Name, Value>, size: nat, sp: Sym)
    requires 0 < size == |chains| && forall a :: 0 <= a < |chains| ==> Agrees(chains[a], a, size, entries)
    requires sp.name !in entries
    ensures var b := Bucket(sp.name, size);
            var more := chains[b := chains[b] + [sp]];
            forall a :: 0 <= a < |more| ==> Agrees(more[a], a, size, entries[sp.name := Value(sp.content, sp.arg)])
  {
  }

  // A symbol of a chain is nowhere else.
  lemma StandsAlone(chains: seq<seq<Sym>>, entries: map<Name, Value>, size: nat, b: nat, at: nat)
    requires 0 < size == |chains| && forall a :: 0 <= a < |chains| ==> Agrees(chains[a], a, size, entries)
    requires b < |chains| && at < |chains[b]|
    ensures forall i :: 0 <= i < |chains[b]| && i != at ==> chains[b][i] != chains[b][at]
    ensures forall a :: 0 <= a < |chains| && a != b ==> chains[b][at] !in chains[a]
  {
    assert Agrees(chains[b], b, size, entries) && Bucket(chains[b][at].name, size) == b;
    forall a | 0 <= a < |chains| && a != b ensures chains[b][at] !in chains[a] {
      assert Agrees(chains[a], a, size, entries);
    }
  }

  lemma NotThere(chains: seq<seq<Sym>>, entries: map<Name, Value>, size: nat, sp: Sym)
    requires 0 < size == |chains| && forall a :: 0 <= a < |chains| ==> Agrees(chains[a], a, size, entries)
    requires sp.name !in entries
    ensures sp !in chains[Bucket(sp.name, size)]
  {
    assert Agrees(chains[Bucket(sp.name, size)], Bucket(sp.name, size), size, entries);
  }

  lemma HeadIs(head: Sym?, c: seq<Sym>)
    requires Linked(head, c) && c != []
    ensures head == c[0]
  {
  }

  lemma StartChain(sp: Sym)
    requires sp.forw == null
    ensures Linked(sp, [] + [sp])
  {
  }

  // Hangs sp behind the last symbol of the chain c.
  method LinkLast(last: Sym, sp: Sym, ghost head: Sym?, ghost c: seq<Sym>)
    requires Linked(head, c) && c != [] && c[|c| - 1] == last && sp.forw == null && sp !in c
    requires forall i :: 0 <= i < |c| - 1 ==> c[i] != last
    modifies last`forw
    ensures Linked(head, c + [sp])
  {
    last.forw := sp;
  }

  // Takes sp, which stands at position at, out of the chain c behind last.
  method UnlinkNext(last: Sym, sp: Sym, ghost head: Sym?, ghost c: seq<Sym>, ghost at: nat, ghost r: seq<Sym>)
    requires Linked(head, c) && 0 < at < |c| && c[at] == sp && c[at - 1] == last
    requires forall i :: 0 <= i < |c| && i != at - 1 ==> c[i] != last
    requires Edits.Removed(c, at, r)
    modifies last`forw
    ensures Linked(head, r)
  {
    assert sp.forw == if at + 1 < |c| then c[at + 1] else null;
    last.forw := sp.forw;
  }

  lemma UnlinkHead(head: Sym, c: seq<Sym>, r: seq<Sym>)
    requires Linked(head, c) && c != [] && c[0] == head && Edits.Removed(c, 0, r)
    ensures Linked(head.forw, r)
  {
  }

  lemma AgreesLess(chains: seq<seq<Sym>>, entries: map<Name, Value>, size: nat, b: nat, at: nat, r: seq<Sym>)
    requires 0 < size == |chains| && forall a :: 0 <= a < |chains| ==> Agrees(chains[a], a, size, entries)
    requires b < |chains| && at < |chains[b]| && Edits.Removed(chains[b], at, r)
    ensures var fewer := chains[b := r];
            forall a :: 0 <= a < |fewer| ==> Agrees(fewer[a], a, size, entries - {chains[b][at].name})
  {
    assert Agrees(chains[b], b, size, entries);
  }

  lemma NamedLess(chains: seq<seq<Sym>>, entries: map<Name, Value>, size: nat, b: nat, at: nat, r: seq<Sym>)
    requires 0 < size == |chains| && forall n :: n in entries ==> Named(chains[Bucket(n, size)], n)
    requires b < |chains| && at < |chains[b]| && Edits.Removed(chains[b], at, r)
    ensures forall n :: n in entries - {chains[b][at].name} ==> Named(chains[b := r][Bucket(n, size)], n)
  {
    hide Bucket;
    forall n | n in entries && n != chains[b][at].name && Bucket(n, size) == b
      ensures Named(r, n)
    {
      assert Named(chains[b], n);
      var i :| 0 <= i < |chains[b]| && chains[b][i].name == n;
      assert r[if i < at then i else i - 1].name == n;
    }
  }

  // All chains from bucket b on, one after the other.
  ghost function Flat(chains: seq<seq<Sym>>, b: nat): seq<Sym>
    decreases |chains| - b
  {
    if b < |chains| then chains[b] + Flat(chains, b + 1) else []
  }

  // The position of an iteration, shared by all tables.
  class Cursor {
    var htIndex: nat
    var next: Sym?

    constructor () {
      htIndex, next := 0, null;
    }

    // The next symbol is the one at position j of bucket b, or, if there is none, the first after it.
    ghost predicate At(chains: seq<seq<Sym>>, b: nat, j: nat)
      reads this
    {
      && htIndex == b <= |chains|
      && if b < |chains| then (j == 0 || j < |chains[b]|) && next == Nth(chains[b], j) else j == 0
    }
  }

  function HeadOf(s: seq<Sym>): Sym? { if s == [] then null else s[0] }

  function Nth(c: seq<Sym>, j: nat): Sym? { if j < |c| then c[j] else null }

  // What an iteration at position j of bucket b has still to deliver.
  ghost function Rest(chains: seq<seq<Sym>>, b: nat, j: nat): seq<Sym>
    requires b < |chains| ==> j <= |chains[b]|
  {
    if b < |chains| then chains[b][j..] + Flat(chains, b + 1) else []
  }

  lemma FlatStep(chains: seq<seq<Sym>>, b: nat)
    ensures Flat(chains, b) == if b < |chains| then chains[b] + Flat(chains, b + 1) else []
  {
  }

  lemma {:induction false} LastIsEmpty(chains: seq<seq<Sym>>, b: nat)
    requires b < |chains| && Rest(chains, b, 0) == []
    ensures chains[|chains| - 1] == [] && Flat(chains, b + 1) == []
    decreases |chains| - b
  {
    RestStep(chains, b, 0);
    assert |Rest(chains, b, 0)| == |chains[b]| + |Flat(chains, b + 1)|;
    if b + 1 < |chains| {
      LastIsEmpty(chains, b + 1);
    }
  }

  lemma RestStep(chains: seq<seq<Sym>>, b: nat, j: nat)
    requires b < |chains| && j <= |chains[b]|
    ensures j == |chains[b]| ==> Rest(chains, b, j) == Rest(chains, b + 1, 0) == Flat(chains, b + 1)
    ensures j < |chains[b]| ==> Rest(chains, b, j) == [chains[b][j]] + Rest(chains, b, j + 1)
  {
  }

  lemma RestEnd(chains: seq<seq<Sym>>)
    ensures forall j :: Rest(chains, |chains|, j) == []
  {
  }

  lemma RestStart(chains: seq<seq<Sym>>)
    ensures Rest(chains, 0, 0) == Flat(chains, 0)
  {
  }

  // Bucket by bucket, and each chain in its own order.
  lemma {:induction false} FlatInOrder(chains: seq<seq<Sym>>, b: nat, a: nat) returns (front: seq<Sym>)
    requires b <= a < |chains|
    ensures Flat(chains, b) == front + chains[a] + Flat(chains, a + 1)
    ensures forall s :: s in front ==> exists c :: b <= c < a && s in chains[c]
    decreases a - b
  {
    if a == b {
      front := [];
    } else {
      var rest := FlatInOrder(chains, b + 1, a);
      front := chains[b] + rest;
      Edits.Assoc(chains[b], rest, chains[a]);
      Edits.Assoc(chains[b], rest + chains[a], Flat(chains, a + 1));
    }
  }

  lemma NamesApart(c: seq<Sym>, rest: seq<Sym>, b: nat, size: nat)
    requires 0 < size && forall s :: s in c ==> Bucket(s.name, size) == b
    requires forall s :: s in rest ==> b < Bucket(s.name, size)
    requires forall i, j :: 0 <= i < j < |c| ==> c[i].name != c[j].name
    requires forall i, j :: 0 <= i < j < |rest| ==> rest[i].name != rest[j].name
    ensures var all := c + rest;
            forall i, j :: 0 <= i < j < |all| ==> all[i].name != all[j].name
  {
    hide Bucket;
    forall i, j | 0 <= i < |c| && 0 <= j < |rest| ensures c[i].name != rest[j].name {
      assert c[i] in c && rest[j] in rest;
    }
  }

  lemma {:induction false} FlatNames(chains: seq<seq<Sym>>, entries: map<Name, Value>, size: nat, b: nat)
    requires 0 < size == |chains| && b <= |chains|
    requires forall a :: 0 <= a < |chains| ==> Agrees(chains[a], a, size, entries)
    ensures var all := Flat(chains, b);
            forall i, j :: 0 <= i < j < |all| ==> all[i].name != all[j].name
    ensures forall s :: s in Flat(chains, b) ==> s.name in entries && b <= Bucket(s.name, size)
    decreases |chains| - b
  {
    hide Bucket, Agrees, Flat;
    FlatStep(chains, b);
    if b < |chains| {
      FlatNames(chains, entries, size, b + 1);
      ChainNames(chains[b], b, size, entries);
      NamesApart(chains[b], Flat(chains, b + 1), b, size);
    }
  }

  lemma ChainNames(c: seq<Sym>, b: nat, size: nat, entries: map<Name, Value>)
    requires 0 < size && Agrees(c, b, size, entries)
    ensures forall i, j :: 0 <= i < j < |c| ==> c[i].name != c[j].name
    ensures forall s :: s in c ==> s.name in entries && Bucket(s.name, size) == b
  {
    hide Bucket;
  }

  lemma {:induction false} NamedInFlat(chains: seq<seq<Sym>>, b: nat, a: nat, n: Name)
    requires b <= a < |chains| && Named(chains[a], n)
    ensures Named(Flat(chains, b), n)
    decreases a - b
  {
    var rest := Flat(chains, b + 1);
    if a == b {
      var i :| 0 <= i < |chains[a]| && chains[a][i].name == n;
      assert Flat(chains, b)[i].name == n;
    } else {
      NamedInFlat(chains, b + 1, a, n);
      var i :| 0 <= i < |rest| && rest[i].name == n;
      assert Flat(chains, b)[|chains[b]| + i].name == n;
    }
  }

  class SymTable {
    const table: array<Sym?>
    ghost var chains: seq<seq<Sym>>
    ghost var entries: map<Name, Value>

    ghost function Nodes(): set<Sym>
      reads this
    {
      set b, i | 0 <= b < |chains| && 0 <= i < |chains[b]| :: chains[b][i]
    }

    ghost predicate Valid()
      reads this, table, Nodes()
    {
      && 0 < table.Length == |chains|
      && (forall b :: 0 <= b < |chains| ==> Linked(table[b], chains[b]))
      && (forall b :: 0 <= b < |chains| ==> Agrees(chains[b], b, table.Length, entries))
      && (forall n :: n in entries ==> Named(Home(n), n))
    }

    // The chain a name belongs to.
    ghost function Home(n: Name): seq<Sym>
      requires 0 < table.Length == |chains|
      reads this
    {
      chains[Bucket(n, table.Length)]
    }

    constructor (hashSize: nat)
      requires hashSize > 2
      ensures Valid() && fresh(table) && entries == map[]
      ensures Prime(table.Length) && table.Length <= hashSize && forall c :: table.Length < c <= hashSize ==> !Prime(c)
    {
      var size := CalcPrime(hashSize);
      table := new Sym?[size](_ => null);
      chains, entries := seq(size, _ => []), map[];
    }

    lemma NoEntries()
      requires Valid() && entries == map[]
      ensures |chains| == table.Length && forall b :: 0 <= b < |chains| ==> chains[b] == []
    {
      forall b | 0 <= b < |chains| ensures chains[b] == [] {
        assert Agrees(chains[b], b, table.Length, entries);
      }
    }

    // Walks the chain of name; last is the symbol before the found one, or the end of the chain.
    method Find(name: Name) returns (sp: Sym?, last: Sym?, ghost at: nat)
      requires Valid()
      ensures at <= |Home(name)|
      ensures sp == (if at < |Home(name)| then Home(name)[at] else null)
      ensures last == if at > 0 then Home(name)[at - 1] else null
      ensures sp != null ==> sp.name == name
      ensures sp == null <==> name !in entries
      ensures sp == null ==> at == |Home(name)|
    {
      var b := HashIndex(name, table.Length);
      assert Linked(table[b], chains[b]) && Agrees(chains[b], b, table.Length, entries);
      sp, last, at := table[b], null, 0;
      while sp != null
        invariant at <= |Home(name)| && sp == if at < |Home(name)| then Home(name)[at] else null
        invariant last == if at > 0 then Home(name)[at - 1] else null
        invariant forall i :: 0 <= i < at ==> Home(name)[i].name != name
        decreases |Home(name)| - at
      {
        if sp.name == name {
          return;
        }
        last := sp;
        sp := sp.forw;
        at := at + 1;
      }
    }

    // The empty name is never found, even though Enter takes it.
    method Lookup(name: Name) returns (sp: Sym?)
      requires Valid()
      ensures sp == null <==> name == [] || name !in entries
      ensures sp != null ==> sp.name == name && Value(sp.content, sp.arg) == entries[name] && sp in Nodes()
    {
      if name == [] {
        return null;
      }
      var last;
      ghost var at;
      sp, last, at := Find(name);
      if sp != null {
        assert Home(name)[at] in Nodes();
      }
    }

    method Update(sp: Sym, v: int, arg: int, ghost b: nat, ghost at: nat)
      requires Valid() && b < |chains| && at < |chains[b]| && chains[b][at] == sp
      modifies this`entries, sp`content, sp`arg
      ensures Valid() && entries == old(entries)[sp.name := Value(v, arg)]
    {
      hide Bucket, Linked;
      assert Agrees(chains[b], b, table.Length, entries);
      sp.content := v;
      sp.arg := arg;
      entries := entries[sp.name := Value(v, arg)];
      forall a | 0 <= a < |chains|
        ensures Agrees(chains[a], a, table.Length, entries)
      {
        assert old(Agrees(chains[a], a, table.Length, entries));
      }
    }

    // Hangs a new symbol at the end of its chain.
    method Link(sp: Sym, last: Sym?, ghost b: nat)
      requires Valid() && b == Bucket(sp.name, table.Length) && sp.name !in entries && sp.forw == null
      requires last == if chains[b] == [] then null else chains[b][|chains[b]| - 1]
      modifies this`chains, this`entries, table, Nodes()`forw
      ensures Valid() && entries == old(entries)[sp.name := Value(sp.content, sp.arg)]
      ensures chains == old(chains)[b := old(chains)[b] + [sp]]
    {
      hide Bucket, Agrees, Linked;
      ghost var c := chains[b];
      NamedMore(chains, entries, table.Length, sp);
      AgreesMore(chains, entries, table.Length, sp);
      NotThere(chains, entries, table.Length, sp);
      if last != null {
        assert last in Nodes();
        StandsAlone(chains, entries, table.Length, b, |c| - 1);
        LinkLast(last, sp, table[b], c);
      } else {
        StartChain(sp);
        var hindex := HashIndex(sp.name, table.Length);
        table[hindex] := sp;
      }
      chains := chains[b := c + [sp]];
      entries := entries[sp.name := Value(sp.content, sp.arg)];
    }

    // memory says whether a new symbol can be allocated.
    method Enter(name: Name, v: int, arg: int, memory: bool) returns (sp: Sym?)
      requires Valid()
      modifies this, table, Nodes()
      ensures Valid()
      ensures sp == null <==> old(name !in entries) && !memory
      ensures sp == null ==> entries == old(entries)
      ensures sp != null ==> sp.name == name && entries == old(entries)[name := Value(v, arg)]
      ensures sp != null && name !in old(entries) ==> fresh(sp)
      ensures chains == if sp == null || name in old(entries) then old(chains)
                        else old(chains)[Bucket(name, table.Length) := old(Home(name)) + [sp]]
    {
      var last;
      ghost var at;
      sp, last, at := Find(name);
      ghost var b := Bucket(name, table.Length);
      if sp != null {
        assert chains[b][at] in Nodes();
        Update(sp, v, arg, b, at);
      } else if memory {
        sp := new Sym(name, v, arg);
        assert chains[b] != [] ==> chains[b][|chains[b]| - 1] in Nodes();
        Link(sp, last, b);
      }
    }

    // The pointer part of Unlink: chain b becomes r.
    method Bypass(sp: Sym, last: Sym?, ghost b: nat, ghost at: nat, ghost r: seq<Sym>)
      requires Valid() && b == Bucket(sp.name, table.Length) && at < |chains[b]| && chains[b][at] == sp
      requires last == if at > 0 then chains[b][at - 1] else null
      requires Edits.Removed(chains[b], at, r)
      modifies table, Nodes()`forw
      ensures forall a :: 0 <= a < |chains| ==> Linked(table[a], if a == b then r else chains[a])
    {
      hide Bucket, Agrees, Linked, Named, Edits.Removed;
      if last != null {
        assert last in Nodes();
        StandsAlone(chains, entries, table.Length, b, at - 1);
        UnlinkNext(last, sp, table[b], chains[b], at, r);
      } else {
        HeadIs(table[b], chains[b]);
        UnlinkHead(sp, chains[b], r);
        var hindex := HashIndex(sp.name, table.Length);
        table[hindex] := sp.forw;
      }
    }

    // Takes a found symbol out of its chain.
    method Unlink(sp: Sym, last: Sym?, ghost b: nat, ghost at: nat)
      requires Valid() && b == Bucket(sp.name, table.Length) && at < |chains[b]| && chains[b][at] == sp
      requires last == if at > 0 then chains[b][at - 1] else null
      modifies this`chains, this`entries, table, Nodes()`forw
      ensures Valid() && entries == old(entries) - {sp.name}
      ensures Edits.Removed(old(chains)[b], at, chains[b]) && chains == old(chains)[b := chains[b]]
    {
      hide Bucket, Agrees, Linked, Named, Edits.Removed;
      ghost var r := Edits.Remove(chains[b], at);
      NamedLess(chains, entries, table.Length, b, at, r);
      AgreesLess(chains, entries, table.Length, b, at, r);
      Bypass(sp, last, b, at, r);
      chains := chains[b := r];
      entries := entries - {sp.name};
    }

    method Delete(name: Name) returns (rc: int)
      requires Valid() && name != []
      modifies this, table, Nodes()
      ensures Valid() && entries == old(entries) - {name}
      ensures rc == if name in old(entries) then 0 else -1
      ensures rc != 0 ==> chains == old(chains)
      ensures rc == 0 ==> chains == old(chains)[Bucket(name, table.Length) := Home(name)]
      ensures rc == 0 ==> exists at :: 0 <= at < |old(Home(name))| && old(Home(name))[at].name == name
                                       && Home(name) == old(Home(name))[..at] + old(Home(name))[at + 1..]
    {
      var sp, last;
      ghost var at;
      sp, last, at := Find(name);
      if sp == null {
        assert entries - {name} == entries;
        return -1;
      }
      ghost var was := Home(name);
      Unlink(sp, last, Bucket(name, table.Length), at);
      Edits.RemovedIs(was, at, Home(name));
      return 0;
    }

    /// Iterating

    // What the program reads at index i of the table; past its end, that is whatever lies there.
    function Read(i: nat, beyond: Sym?): Sym?
      reads table
    {
      if i < table.Length then table[i] else beyond
    }

    lemma Links(i: nat, j: nat)
      requires Valid() && i < |chains|
      ensures table[i] == Nth(chains[i], 0)
      ensures j < |chains[i]| ==> chains[i][j].forw == Nth(chains[i], j + 1)
    {
      assert Linked(table[i], chains[i]);
    }

    // The cursor points behind the symbol sp of bucket i.
    ghost predicate Left(cursor: Cursor, i: nat, sp: Sym, beyond: Sym?)
      reads cursor, sp, table
    {
      && cursor.htIndex == (if sp.forw == null then i + 1 else i)
      && cursor.next == if sp.forw == null then Read(i + 1, beyond) else sp.forw
    }

    method Advance(cursor: Cursor, i: nat, sp: Sym, beyond: Sym?)
      modifies cursor
      ensures Left(cursor, i, sp, beyond)
    {
      if sp.forw == null {
        cursor.htIndex := i + 1;
        cursor.next := Read(i + 1, beyond);
      } else {
        cursor.htIndex := i;
        cursor.next := sp.forw;
      }
    }

    lemma LeftIsAt(cursor: Cursor, i: nat, sp: Sym, j: nat, beyond: Sym?) returns (b': nat, j': nat)
      requires Valid() && i < |chains| && j < |chains[i]| && chains[i][j] == sp && Left(cursor, i, sp, beyond)
      ensures cursor.At(chains, b', j') && Rest(chains, i, j) == [sp] + Rest(chains, b', j')
      ensures b' == |chains| ==> chains[|chains| - 1] != []
    {
      hide Linked, Agrees, Flat, Rest;
      Links(i, j);
      RestStep(chains, i, j);
      RestStep(chains, i, j + 1);
      if sp.forw == null {
        b', j' := i + 1, 0;
        if i + 1 < |chains| {
          Links(i + 1, 0);
        }
      } else {
        b', j' := i, j + 1;
      }
    }

    // The first symbol, and the position of the iteration behind it.
    method First(cursor: Cursor, beyond: Sym?) returns (sp: Sym?, ghost b': nat, ghost j': nat)
      requires Valid()
      modifies cursor
      ensures sp == null <==> Flat(chains, 0) == []
      ensures sp != null ==> cursor.At(chains, b', j') && Flat(chains, 0) == [sp] + Rest(chains, b', j')
      ensures sp != null && b' == |chains| ==> chains[|chains| - 1] != []
    {
      hide Linked, Agrees, Flat, Rest;
      RestStart(chains);
      RestEnd(chains);
      sp, b', j' := null, 0, 0;
      var i: nat := 0;
      while i < table.Length
        invariant 0 <= i <= table.Length && sp == null && Rest(chains, i, 0) == Flat(chains, 0)
      {
        Links(i, 0);
        RestStep(chains, i, 0);
        sp := table[i];
        if sp != null {
          Advance(cursor, i, sp, beyond);
          b', j' := LeftIsAt(cursor, i, sp, 0, beyond);
          return;
        }
        i := i + 1;
      }
    }

    // From any cursor: what it points to is delivered or, if that is NULL, the first symbol of a
    // later bucket; past the table there is nothing.  i is the bucket the symbol counts to.  Once
    // NULL has been returned, the cursor holds what was read past the table.
    method Next(cursor: Cursor, beyond: Sym?) returns (sp: Sym?, ghost i: nat)
      requires Valid()
      modifies cursor
      ensures var h, x := old(cursor.htIndex), old(cursor.next);
              && sp == (if h >= |chains| then null else if x != null then x else HeadOf(Flat(chains, h + 1)))
              && (sp == null ==> cursor.htIndex == h && cursor.next == if h < |chains| then beyond else x)
              && (sp != null ==> Left(cursor, i, sp, beyond) && if x != null then i == h else Starts(h, i, sp))
    {
      hide Linked, Agrees, Flat;
      sp := null;
      i := cursor.htIndex;
      var n := cursor.htIndex;
      ghost var h, x := i, cursor.next;
      while n < table.Length
        invariant h <= n && (n <= table.Length || n == h) && cursor.htIndex == h && sp == null
        invariant n == h ==> cursor.next == x
        invariant n > h ==> x == null && cursor.next == if n < |chains| then Nth(chains[n], 0) else beyond
        invariant n > h ==> Flat(chains, h + 1) == Flat(chains, n)
        decreases table.Length - n
      {
        FlatStep(chains, n);
        if cursor.next != null {
          sp := cursor.next;
          i := n;
          Advance(cursor, n, sp, beyond);
          return;
        }
        cursor.next := Read(n + 1, beyond);
        n := n + 1;
        if n < table.Length {
          Links(n, 0);
        }
      }
      FlatStep(chains, n);
    }

    // The buckets after h are empty up to bucket i, which starts with sp.
    ghost predicate Starts(h: nat, i: nat, sp: Sym)
      reads this
    {
      h < i < |chains| && chains[i] != [] && chains[i][0] == sp && Flat(chains, h + 1) == Flat(chains, i)
    }

    // What a call of Next at a position of the iteration has done.
    lemma Delivered(cursor: Cursor, b: nat, j: nat, x: Sym?, sp: Sym?, i: nat, beyond: Sym?) returns (b': nat, j': nat)
      requires Valid() && b <= |chains|
      requires if b < |chains| then (j == 0 || j < |chains[b]|) && x == Nth(chains[b], j) else j == 0
      requires sp == if b >= |chains| then null else if x != null then x else HeadOf(Flat(chains, b + 1))
      requires sp != null ==> Left(cursor, i, sp, beyond) && if x != null then i == b else Starts(b, i, sp)
      ensures sp == null ==> Rest(chains, b, j) == []
      ensures sp == null && b < |chains| ==> chains[|chains| - 1] == [] && Flat(chains, b + 1) == []
      ensures sp != null ==> cursor.At(chains, b', j') && Rest(chains, b, j) == [sp] + Rest(chains, b', j')
      ensures sp != null && b' == |chains| ==> chains[|chains| - 1] != []
    {
      hide Linked, Agrees, Flat, Rest, Left;
      b', j' := b, j;
      RestEnd(chains);
      if b < |chains| {
        RestStep(chains, b, j);
        if x != null {
          b', j' := LeftIsAt(cursor, b, x, j, beyond);
        } else if sp != null {
          RestStep(chains, i - 1, |chains[i - 1]|);
          b', j' := LeftIsAt(cursor, i, sp, 0, beyond);
        } else {
          LastIsEmpty(chains, b);
        }
      }
    }

    // First, then Next until NULL: every symbol once, bucket by bucket, whatever lies past the
    // table.  The cursor is left past the table if the last bucket has symbols, else in front of
    // what lies there.
    method Traverse(cursor: Cursor, beyond: Sym?) returns (syms: seq<Sym>)
      requires Valid()
      modifies cursor
      ensures syms == Flat(chains, 0)
      ensures syms != [] ==> (cursor.htIndex >= |chains| <==> chains[|chains| - 1] != [])
      ensures syms != [] && cursor.htIndex < |chains| ==> cursor.next == beyond && Flat(chains, cursor.htIndex + 1) == []
    {
      hide Linked, Agrees, Named, Flat, Rest, Left, Starts, Bucket, Home, Nth, HeadOf;
      syms := [];
      var sp;
      ghost var i, b, j;
      sp, b, j := First(cursor, beyond);
      ghost var left := Flat(chains, 0);
      while sp != null
        invariant Flat(chains, 0) == syms + left
        invariant if sp != null then
                    && cursor.At(chains, b, j) && left == [sp] + Rest(chains, b, j)
                    && (b == |chains| ==> chains[|chains| - 1] != [])
                  else
                    && left == []
                    && (syms != [] ==> (cursor.htIndex >= |chains| <==> chains[|chains| - 1] != []))
                    && (syms != [] && cursor.htIndex < |chains| ==>
                          cursor.next == beyond && Flat(chains, cursor.htIndex + 1) == [])
        decreases |left|
      {
        syms := syms + [sp];
        left := Rest(chains, b, j);
        ghost var x := cursor.next;
        sp, i := Next(cursor, beyond);
        b, j := Delivered(cursor, b, j, x, sp, i, beyond);
      }
    }

    // One more call after the traversal has ended: the answer is NULL exactly when the last bucket
    // has symbols or NULL lies past the table; else it is what lies there.
    method TraverseOnceMore(cursor: Cursor, beyond: Sym?) returns (syms: seq<Sym>, extra: Sym?)
      requires Valid()
      modifies cursor
      ensures syms == Flat(chains, 0)
      ensures syms != [] ==> extra == if chains[|chains| - 1] != [] then null else beyond
      ensures syms != [] ==> (extra == null <==> chains[|chains| - 1] != [] || beyond == null)
    {
      hide Linked, Agrees, Rest, Left, Starts;
      syms := Traverse(cursor, beyond);
      ghost var i;
      extra, i := Next(cursor, beyond);
    }

    // The sweep of symClose: a symbol's successor is read before the symbol is given back, and
    // every symbol is given back once.
    method Release() returns (freed: seq<Sym>)
      requires Valid()
      ensures freed == Flat(chains, 0)
    {
      hide Linked, Agrees, Flat, Rest;
      freed := [];
      RestStart(chains);
      var i := 0;
      while i < table.Length
        invariant 0 <= i <= table.Length && freed + Rest(chains, i, 0) == Flat(chains, 0)
      {
        Links(i, 0);
        var sp := table[i];
        ghost var j: nat := 0;
        while sp != null
          invariant j <= |chains[i]| && sp == Nth(chains[i], j)
          invariant freed + Rest(chains, i, j) == Flat(chains, 0)
          decreases |chains[i]| - j
        {
          Links(i, j);
          RestStep(chains, i, j);
          var forw := sp.forw;
          freed := freed + [sp];
          sp := forw;
          j := j + 1;
        }
        RestStep(chains, i, j);
        i := i + 1;
      }
      RestEnd(chains);
    }

    // The symbols of the traversal are exactly the entries, each once.
    lemma TraversalIsTheMap()
      requires Valid()
      ensures var all := Flat(chains, 0);
              && (forall i, j :: 0 <= i < j < |all| ==> all[i].name != all[j].name)
              && forall n :: n in entries <==> exists i :: 0 <= i < |all| && all[i].name == n
    {
      FlatNames(chains, entries, table.Length, 0);
      forall n | n in entries ensures Named(Flat(chains, 0), n) {
        assert Named(Home(n), n);
        NamedInFlat(chains, 0, Bucket(n, table.Length), n);
      }
    }
  }

  // One symbol in the middle bucket of three: the call after the end gives out what lies past the
  // table.
  method ReadPastTable(beyond: Sym) returns (syms: seq<Sym>, extra: Sym?)
    ensures |syms| == 1 && extra == beyond && beyond !in syms
  {
    hide SymTable.Valid, Prime, Bucket, Flat;
    ThreeIsPrime();
    BucketOfA();
    var t := new SymTable(3);
    var cursor := new Cursor();
    t.NoEntries();
    var sp := t.Enter([97], 1, 0, true);
    FlatOfMiddle(t.chains, sp);
    syms, extra := t.TraverseOnceMore(cursor, beyond);
  }

  lemma FlatOfMiddle(chains: seq<seq<Sym>>, sp: Sym)
    requires |chains| == 3 && chains[0] == [] && chains[1] == [sp] && chains[2] == []
    ensures Flat(chains, 0) == [sp]
  {
    FlatStep(chains, 2);
    FlatStep(chains, 3);
  }

  lemma ThreeIsPrime()
    ensures Prime(3)
  {
  }

  lemma BucketOfA()
    ensures Bucket([97], 3) == 1
  {
    assert Total([97]) == Total([]) + 97 * Pow2(0);
  }
}
