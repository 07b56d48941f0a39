/** The block allocator of utils/balloc.c: one arena carved from the front, one free queue per
    size class, and malloc for what the arena cannot serve.

    Memory is a map from block addresses to the headers the allocator writes there; address 0 is
    NULL.  A header's first word is a union: the capacity while the block is out, the next queued
    block while it is free.
  */
module Balloc {
  import opened BlockClasses
  import opened HighWater

  const B_MALLOCED: bv32 := 0x8000_0000
  const B_FILL_WORD: bv32 := 0x7777_7777
  const B_INTEGRITY: bv32 := 0x0812_4000
  const B_INTEGRITY_MASK: bv32 := 0x0FFF_F000

  datatype Header = Header(u: int, flags: bv32)

  // Where a carved block is: with an owner, or at a place of its class's queue, counted from the
  // bottom.
  datatype Status = Live | Queued(pos: nat)

  // The carved blocks fill the arena from base to next, in order and without gaps.
  ghost predicate Tiled(header: nat, base: int, next: int, carved: seq<Block>) {
    && (forall i {:trigger carved[i]} :: 0 <= i < |carved| ==> carved[i].cls < B_MAX_CLASS)
    && (if carved == [] then next == base else carved[0].addr == base)
    && (forall i {:trigger End(header, carved[i])} :: 0 <= i < |carved| ==>
          End(header, carved[i]) == if i + 1 < |carved| then carved[i + 1].addr else next)
    && (forall i, j :: 0 <= i < j < |carved| ==> End(header, carved[i]) <= carved[j].addr)
  }

  function End(header: nat, b: Block): int { b.addr + Capacity(b.cls) + header }

  // Every carved block is out or at exactly one place of the queue of its own class.
  ghost predicate Placed(carved: seq<Block>, status: seq<Status>, queues: seq<seq<nat>>) {
    && |status| == |carved| && |queues| == B_MAX_CLASS
    && (forall i {:trigger status[i]} :: 0 <= i < |status| && status[i].Queued? ==>
          var c := carved[i].cls;
          c < B_MAX_CLASS && status[i].pos < |queues[c]| && queues[c][status[i].pos] == i)
    && (forall c, p {:trigger queues[c][p]} :: 0 <= c < B_MAX_CLASS && 0 <= p < |queues[c]| ==>
          var i := queues[c][p];
          i < |status| && carved[i].cls == c && status[i] == Queued(p))
  }

  // The headers chain the queue from its top, the last element, down to NULL.
  ghost predicate Linked(carved: seq<Block>, queue: seq<nat>, mem: map<int, Header>) {
    queue == [] ||
    var top, rest := queue[|queue| - 1], queue[..|queue| - 1];
    && AddrOf(carved, top) in mem
    && mem[AddrOf(carved, top)] == Header(Top(carved, rest), B_FILL_WORD)
    && Linked(carved, rest, mem)
  }

  // What the headers of the carved blocks say.
  ghost predicate Noted(carved: seq<Block>, status: seq<Status>, queues: seq<seq<nat>>, mem: map<int, Header>) {
    LiveNoted(carved, status, mem) && QueuesNoted(carved, queues, mem)
  }

  ghost predicate LiveNoted(carved: seq<Block>, status: seq<Status>, mem: map<int, Header>) {
    && |status| == |carved|
    && (forall i {:trigger status[i]} :: 0 <= i < |status| && status[i] == Live ==>
          carved[i].addr in mem && mem[carved[i].addr] == Header(Capacity(carved[i].cls), B_INTEGRITY))
  }

  ghost predicate QueuesNoted(carved: seq<Block>, queues: seq<seq<nat>>, mem: map<int, Header>) {
    |queues| == B_MAX_CLASS && forall c :: 0 <= c < B_MAX_CLASS ==> Linked(carved, queues[c], mem)
  }

  function AddrOf(carved: seq<Block>, i: nat): int { if i < |carved| then carved[i].addr else 0 }

  function Top(carved: seq<Block>, queue: seq<nat>): int {
    if queue == [] then 0 else AddrOf(carved, queue[|queue| - 1])
  }

  // Blocks that came from malloc and are still out, with their capacities.
  ghost predicate Outside(header: nat, base: int, size: int, big: map<int, nat>, mem: map<int, Header>) {
    && (forall a :: a in big ==> a in mem && mem[a] == Header(big[a], B_MALLOCED | B_INTEGRITY))
    && (forall a :: a in big ==> 0 < a && Clear(a, big[a] + header, base, size))
    && (forall a, b :: a in big && b in big && a != b ==> Clear(a, big[a] + header, b, big[b] + header))
  }

  // Two stretches of memory do not overlap.
  predicate Clear(a: int, m: int, b: int, n: int) { a + m <= b || b + n <= a }

  // Two blocks of the arena never share an address, and all lie in the carved part.
  lemma TilesApart(header: nat, base: int, next: int, carved: seq<Block>)
    requires 0 < header && Tiled(header, base, next, carved)
    ensures forall i, j :: 0 <= i < |carved| && 0 <= j < |carved| && i != j ==> carved[i].addr != carved[j].addr
    ensures forall i :: 0 <= i < |carved| ==> base <= carved[i].addr && carved[i].addr + Capacity(carved[i].cls) + header <= next
    ensures forall i, j :: 0 <= i < j < |carved| ==> carved[i].addr + Capacity(carved[i].cls) + header <= carved[j].addr
    ensures base <= next
  {
    if carved != [] {
      assert carved[0].addr == base && End(header, carved[|carved| - 1]) == next;
    }
  }

  // A queue does not notice changes to other blocks, nor new blocks.
  lemma {:induction false} StillLinked(carved: seq<Block>, carved': seq<Block>, queue: seq<nat>, mem: map<int, Header>, mem': map<int, Header>)
    requires Linked(carved, queue, mem)
    requires forall p {:trigger queue[p]} :: 0 <= p < |queue| ==>
      && AddrOf(carved', queue[p]) == AddrOf(carved, queue[p])
      && (AddrOf(carved, queue[p]) in mem ==> AddrOf(carved, queue[p]) in mem' && mem'[AddrOf(carved, queue[p])] == mem[AddrOf(carved, queue[p])])
    ensures Linked(carved', queue, mem') && Top(carved', queue) == Top(carved, queue)
  {
    if queue != [] {
      StillLinked(carved, carved', queue[..|queue| - 1], mem, mem');
    }
  }

  // A queue's top pointer is NULL exactly when the queue is empty.
  lemma TopIsNull(header: nat, base: int, next: int, carved: seq<Block>, status: seq<Status>, queues: seq<seq<nat>>, q: nat)
    requires 0 < header && 0 < base && Tiled(header, base, next, carved) && Placed(carved, status, queues) && q < B_MAX_CLASS
    ensures Top(carved, queues[q]) == 0 <==> queues[q] == []
  {
    TilesApart(header, base, next, carved);
    if queues[q] != [] {
      assert queues[q][|queues[q]| - 1] < |status|;
    }
  }

  /// The three moves of a block, on values

  lemma TakeTopPlaced(carved: seq<Block>, status: seq<Status>, queues: seq<seq<nat>>, q: nat)
    requires Placed(carved, status, queues) && q < B_MAX_CLASS && queues[q] != []
    ensures var i := queues[q][|queues[q]| - 1];
            && i < |carved| && carved[i].cls == q && status[i] == Queued(|queues[q]| - 1)
            && Placed(carved, status[i := Live], queues[q := queues[q][..|queues[q]| - 1]])
  {
    var i := queues[q][|queues[q]| - 1];
    assert status[i] == Queued(|queues[q]| - 1);
  }

  lemma TakeLive(carved: seq<Block>, status: seq<Status>, mem: map<int, Header>, i: nat, mem': map<int, Header>)
    requires LiveNoted(carved, status, mem) && i < |carved|
    requires forall j :: 0 <= j < |carved| && j != i ==> carved[j].addr != carved[i].addr
    requires mem' == mem[carved[i].addr := Header(Capacity(carved[i].cls), B_INTEGRITY)]
    ensures LiveNoted(carved, status[i := Live], mem')
  {
    hide Capacity;
  }

  lemma TakeTop(header: nat, base: int, next: int, carved: seq<Block>, status: seq<Status>, queues: seq<seq<nat>>,
                mem: map<int, Header>, q: nat, i: nat, mem': map<int, Header>)
    requires 0 < header && Tiled(header, base, next, carved)
    requires Placed(carved, status, queues) && Noted(carved, status, queues, mem)
    requires q < B_MAX_CLASS && queues[q] != [] && i == queues[q][|queues[q]| - 1] && i < |carved| && carved[i].cls == q
    requires mem' == mem[carved[i].addr := Header(Capacity(q), B_INTEGRITY)]
    ensures Noted(carved, status[i := Live], queues[q := queues[q][..|queues[q]| - 1]], mem')
    ensures carved[i].addr in mem && mem[carved[i].addr].u == Top(carved, queues[q][..|queues[q]| - 1])
  {
    OthersApart(header, base, next, carved, i);
    TakeLive(carved, status, mem, i, mem');
    var rest := queues[q][..|queues[q]| - 1];
    assert Linked(carved, queues[q], mem);
    assert Linked(carved, rest, mem);
    hide Tiled, LiveNoted, Linked, Capacity;
    forall c | 0 <= c < B_MAX_CLASS
      ensures Linked(carved, if c == q then rest else queues[c], mem')
    {
      OthersQueued(carved, status, queues, q, c);
      StillLinked(carved, carved, if c == q then rest else queues[c], mem, mem');
    }
  }

  // The top of queue q stands nowhere else.
  lemma OthersQueued(carved: seq<Block>, status: seq<Status>, queues: seq<seq<nat>>, q: nat, c: nat)
    requires Placed(carved, status, queues) && q < B_MAX_CLASS && c < B_MAX_CLASS && queues[q] != []
    ensures var rest := if c == q then queues[q][..|queues[q]| - 1] else queues[c];
            && (forall p :: 0 <= p < |rest| ==> rest[p] < |carved| && rest[p] != queues[q][|queues[q]| - 1])
  {
    var top := |queues[q]| - 1;
    assert status[queues[q][top]] == Queued(top);
    forall p | 0 <= p < |queues[c]| && (c == q ==> p < top)
      ensures queues[c][p] < |carved| && queues[c][p] != queues[q][top]
    {
      assert status[queues[c][p]] == Queued(p);
    }
  }

  lemma AddTile(header: nat, base: int, next: int, carved: seq<Block>, q: nat)
    requires 0 < header && Tiled(header, base, next, carved) && q < B_MAX_CLASS
    ensures Tiled(header, base, next + Capacity(q) + header, carved + [Block(next, q)])
  {
    TilesApart(header, base, next, carved);
    var carved' := carved + [Block(next, q)];
    assert forall i :: 0 <= i < |carved| ==> carved'[i] == carved[i];
  }

  lemma AddPlaced(carved: seq<Block>, status: seq<Status>, queues: seq<seq<nat>>, b: Block)
    requires Placed(carved, status, queues)
    ensures Placed(carved + [b], status + [Live], queues)
  {
  }

  lemma AddLive(carved: seq<Block>, status: seq<Status>, mem: map<int, Header>, b: Block, mem': map<int, Header>)
    requires LiveNoted(carved, status, mem) && forall i :: 0 <= i < |carved| ==> carved[i].addr < b.addr
    requires mem' == mem[b.addr := Header(Capacity(b.cls), B_INTEGRITY)]
    ensures LiveNoted(carved + [b], status + [Live], mem')
  {
    hide Capacity;
  }

  lemma AddNoted(header: nat, base: int, next: int, carved: seq<Block>, status: seq<Status>, queues: seq<seq<nat>>,
                 mem: map<int, Header>, q: nat, mem': map<int, Header>)
    requires 0 < header && Tiled(header, base, next, carved)
    requires Placed(carved, status, queues) && Noted(carved, status, queues, mem)
    requires mem' == mem[next := Header(Capacity(q), B_INTEGRITY)]
    ensures Noted(carved + [Block(next, q)], status + [Live], queues, mem')
    ensures forall c :: 0 <= c < B_MAX_CLASS ==> Top(carved + [Block(next, q)], queues[c]) == Top(carved, queues[c])
  {
    TilesApart(header, base, next, carved);
    hide Tiled, LiveNoted, Linked, Top, Capacity;
    AddLive(carved, status, mem, Block(next, q), mem');
    var carved' := carved + [Block(next, q)];
    forall c | 0 <= c < B_MAX_CLASS
      ensures Linked(carved', queues[c], mem') && Top(carved', queues[c]) == Top(carved, queues[c])
    {
      assert forall p :: 0 <= p < |queues[c]| ==> queues[c][p] < |status|;
      StillLinked(carved, carved', queues[c], mem, mem');
    }
  }

  lemma PutBackPlaced(carved: seq<Block>, status: seq<Status>, queues: seq<seq<nat>>, i: nat)
    requires Placed(carved, status, queues)
    requires i < |carved| && status[i] == Live && carved[i].cls < B_MAX_CLASS
    ensures var q := carved[i].cls;
            Placed(carved, status[i := Queued(|queues[q]|)], queues[q := queues[q] + [i]])
  {
  }

  lemma GiveLive(carved: seq<Block>, status: seq<Status>, mem: map<int, Header>, i: nat, pos: nat, h: Header)
    requires LiveNoted(carved, status, mem) && i < |carved|
    requires forall j :: 0 <= j < |carved| && j != i ==> carved[j].addr != carved[i].addr
    ensures LiveNoted(carved, status[i := Queued(pos)], mem[carved[i].addr := h])
  {
    hide Capacity;
  }

  lemma PutBack(header: nat, base: int, next: int, carved: seq<Block>, status: seq<Status>, queues: seq<seq<nat>>,
                mem: map<int, Header>, i: nat, mem': map<int, Header>)
    requires 0 < header && Tiled(header, base, next, carved)
    requires Placed(carved, status, queues) && Noted(carved, status, queues, mem)
    requires i < |carved| && status[i] == Live && carved[i].cls < B_MAX_CLASS
    requires mem' == mem[carved[i].addr := Header(Top(carved, queues[carved[i].cls]), B_FILL_WORD)]
    ensures var q := carved[i].cls;
            Noted(carved, status[i := Queued(|queues[q]|)], queues[q := queues[q] + [i]], mem')
  {
    OthersApart(header, base, next, carved, i);
    var q := carved[i].cls;
    GiveLive(carved, status, mem, i, |queues[q]|, mem'[carved[i].addr]);
    hide Tiled, LiveNoted, Capacity;
    forall c | 0 <= c < B_MAX_CLASS
      ensures Linked(carved, queues[c], mem')
    {
      LiveNotQueued(carved, status, queues, i, c);
      StillLinked(carved, carved, queues[c], mem, mem');
    }
    hide Placed;
    assert (queues[q] + [i])[..|queues[q]|] == queues[q];
    assert Linked(carved, queues[q] + [i], mem');
  }

  lemma {:induction false} LinkedAt(carved: seq<Block>, queue: seq<nat>, mem: map<int, Header>, p: nat)
    requires Linked(carved, queue, mem) && p < |queue|
    ensures AddrOf(carved, queue[p]) in mem && mem[AddrOf(carved, queue[p])].flags == B_FILL_WORD
  {
    if p < |queue| - 1 {
      LinkedAt(carved, queue[..|queue| - 1], mem, p);
    }
  }

  lemma LiveNotQueued(carved: seq<Block>, status: seq<Status>, queues: seq<seq<nat>>, i: nat, c: nat)
    requires Placed(carved, status, queues) && c < B_MAX_CLASS && i < |carved| && status[i] == Live
    ensures forall p :: 0 <= p < |queues[c]| ==> queues[c][p] < |carved| && queues[c][p] != i
  {
    forall p | 0 <= p < |queues[c]|
      ensures queues[c][p] < |carved| && queues[c][p] != i
    {
      assert status[queues[c][p]] == Queued(p);
    }
  }

  lemma OthersApart(header: nat, base: int, next: int, carved: seq<Block>, i: nat)
    requires 0 < header && Tiled(header, base, next, carved) && i < |carved|
    ensures forall j :: 0 <= j < |carved| && j != i ==> carved[j].addr != carved[i].addr
  {
    TilesApart(header, base, next, carved);
  }

  // The arena's headers and the malloced blocks' headers do not disturb each other.
  lemma ArenaWrite(header: nat, base: int, size: int, big: map<int, nat>, mem: map<int, Header>, addr: int, h: Header)
    requires Outside(header, base, size, big, mem) && base <= addr < base + size && 0 < header
    ensures Outside(header, base, size, big, mem[addr := h]) && addr !in big
  {
  }

  lemma OutsideGrows(header: nat, base: int, size: int, big: map<int, nat>, mem: map<int, Header>, addr: int, cap: nat)
    requires Outside(header, base, size, big, mem) && 0 < header && 0 < addr
    requires Clear(addr, cap + header, base, size) && forall a :: a in big ==> Clear(addr, cap + header, a, big[a] + header)
    ensures addr !in big && Outside(header, base, size, big[addr := cap], mem[addr := Header(cap, B_MALLOCED | B_INTEGRITY)])
  {
  }

  lemma LiveElsewhere(carved: seq<Block>, status: seq<Status>, mem: map<int, Header>, mem': map<int, Header>)
    requires LiveNoted(carved, status, mem)
    requires forall i {:trigger carved[i]} :: 0 <= i < |carved| && carved[i].addr in mem ==>
      carved[i].addr in mem' && mem'[carved[i].addr] == mem[carved[i].addr]
    ensures LiveNoted(carved, status, mem')
  {
    hide Capacity;
  }

  // Headers that stay as they were still say the same.
  lemma NotedElsewhere(carved: seq<Block>, status: seq<Status>, queues: seq<seq<nat>>, mem: map<int, Header>, mem': map<int, Header>)
    requires Placed(carved, status, queues) && Noted(carved, status, queues, mem)
    requires forall i {:trigger carved[i]} :: 0 <= i < |carved| && carved[i].addr in mem ==>
      carved[i].addr in mem' && mem'[carved[i].addr] == mem[carved[i].addr]
    ensures Noted(carved, status, queues, mem')
  {
    hide Linked, LiveNoted, Capacity;
    LiveElsewhere(carved, status, mem, mem');
    forall c | 0 <= c < B_MAX_CLASS ensures Linked(carved, queues[c], mem') {
      assert forall p :: 0 <= p < |queues[c]| ==> queues[c][p] < |status|;
      StillLinked(carved, carved, queues[c], mem, mem');
    }
  }

  lemma OutsideWrite(header: nat, base: int, next: int, carved: seq<Block>, status: seq<Status>, queues: seq<seq<nat>>,
                     mem: map<int, Header>, addr: int, h: Header)
    requires 0 < header && Tiled(header, base, next, carved)
    requires Placed(carved, status, queues) && Noted(carved, status, queues, mem)
    requires addr < base || next <= addr
    ensures Noted(carved, status, queues, mem[addr := h]) && Noted(carved, status, queues, mem - {addr})
  {
    TilesApart(header, base, next, carved);
    NotedElsewhere(carved, status, queues, mem, mem[addr := h]);
    NotedElsewhere(carved, status, queues, mem, mem - {addr});
    hide Tiled, Placed, Noted, Capacity;
  }

  // Queue tops and counts follow the history.
  ghost predicate Counted(carved: seq<Block>, queues: seq<seq<nat>>, trace: seq<Event>) {
    |queues| == B_MAX_CLASS && forall q :: 0 <= q < B_MAX_CLASS ==>
      && |queues[q]| + Out(trace, q) == Peak(trace, q)
      && Made(carved, q) == Peak(trace, q)
  }

  lemma CountTake(carved: seq<Block>, queues: seq<seq<nat>>, trace: seq<Event>, q: nat, rest: seq<nat>)
    requires Counted(carved, queues, trace) && q < B_MAX_CLASS && |rest| + 1 == |queues[q]|
    ensures Counted(carved, queues[q := rest], trace + [Took(q)])
  {
    forall c | 0 <= c < B_MAX_CLASS
      ensures Out(trace + [Took(q)], c) == Out(trace, c) + (if c == q then 1 else 0)
      ensures Peak(trace + [Took(q)], c) == Peak(trace, c)
    {
      TraceGrows(trace, Took(q), c);
    }
  }

  lemma CountMake(carved: seq<Block>, queues: seq<seq<nat>>, trace: seq<Event>, b: Block)
    requires Counted(carved, queues, trace) && b.cls < B_MAX_CLASS && queues[b.cls] == []
    ensures Counted(carved + [b], queues, trace + [Took(b.cls)])
  {
    forall c | 0 <= c < B_MAX_CLASS
      ensures Out(trace + [Took(b.cls)], c) == Out(trace, c) + (if c == b.cls then 1 else 0)
      ensures Peak(trace + [Took(b.cls)], c) == Peak(trace, c) + (if c == b.cls then 1 else 0)
      ensures Made(carved + [b], c) == Made(carved, c) + (if c == b.cls then 1 else 0)
    {
      TraceGrows(trace, Took(b.cls), c);
      MadeGrows(carved, b, c);
    }
  }

  lemma CountGive(carved: seq<Block>, queues: seq<seq<nat>>, trace: seq<Event>, q: nat, more: seq<nat>)
    requires Counted(carved, queues, trace) && q < B_MAX_CLASS && |more| == |queues[q]| + 1
    ensures Counted(carved, queues[q := more], trace + [Gave(q)])
  {
    forall c | 0 <= c < B_MAX_CLASS
      ensures Out(trace + [Gave(q)], c) == Out(trace, c) - (if c == q then 1 else 0)
      ensures Peak(trace + [Gave(q)], c) == Peak(trace, c)
    {
      TraceGrows(trace, Gave(q), c);
    }
  }

  ghost function LiveOf(carved: seq<Block>, status: seq<Status>, q: nat): set<nat> {
    set i: nat | i < |carved| && i < |status| && carved[i].cls == q && status[i] == Live
  }

  // A block of a class is live or on the class's queue, but not both.
  lemma LiveOrWaiting(carved: seq<Block>, status: seq<Status>, queues: seq<seq<nat>>, q: nat, i: nat)
    requires Placed(carved, status, queues) && q < B_MAX_CLASS
    ensures i in OfClass(carved, q) <==> i in LiveOf(carved, status, q) || i in queues[q]
    ensures !(i in LiveOf(carved, status, q) && i in queues[q])
  {
    if i in queues[q] {
      var p :| 0 <= p < |queues[q]| && queues[q][p] == i;
      assert status[i] == Queued(p);
    }
    if i < |carved| && carved[i].cls == q && status[i].Queued? {
      assert queues[q][status[i].pos] == i;
    }
  }

  lemma QueueDistinct(carved: seq<Block>, status: seq<Status>, queues: seq<seq<nat>>, q: nat)
    requires Placed(carved, status, queues) && q < B_MAX_CLASS
    ensures forall i, j :: 0 <= i < j < |queues[q]| ==> queues[q][i] != queues[q][j]
  {
    forall i, j | 0 <= i < j < |queues[q]| ensures queues[q][i] != queues[q][j] {
      assert status[queues[q][i]] == Queued(i) && status[queues[q][j]] == Queued(j);
    }
  }

  lemma LiveCount(carved: seq<Block>, status: seq<Status>, queues: seq<seq<nat>>, q: nat)
    requires Placed(carved, status, queues) && q < B_MAX_CLASS
    ensures |LiveOf(carved, status, q)| + |queues[q]| == Made(carved, q)
  {
    var waiting := Elements(queues[q]);
    QueueDistinct(carved, status, queues, q);
    DistinctCount(queues[q]);
    MadeIsCount(carved, q);
    forall i: nat
      ensures i in OfClass(carved, q) <==> i in LiveOf(carved, status, q) || i in waiting
      ensures !(i in LiveOf(carved, status, q) && i in waiting)
    {
      LiveOrWaiting(carved, status, queues, q, i);
    }
    hide *;
    assert OfClass(carved, q) == LiveOf(carved, status, q) + waiting;
    assert LiveOf(carved, status, q) * waiting == {};
  }

  /// Who owns what

  // mp is a pointer that has been given out and not taken back, to cap bytes.
  ghost predicate Owned(header: nat, carved: seq<Block>, status: seq<Status>, big: map<int, nat>, mp: int, cap: nat) {
    || (exists i: nat :: LiveAt(header, carved, status, i, mp, cap))
    || (mp - header in big && cap == big[mp - header])
  }

  ghost predicate LiveAt(header: nat, carved: seq<Block>, status: seq<Status>, i: nat, mp: int, cap: nat) {
    && i < |carved| && i < |status| && status[i] == Live
    && mp == carved[i].addr + header && cap == Capacity(carved[i].cls)
  }

  lemma BigElsewhere(header: nat, base: int, size: int, big: map<int, nat>, mem: map<int, Header>, addr: int, c: nat)
    requires 0 < header && Outside(header, base, size, big, mem) && base <= addr < base + size
    ensures addr !in big && addr + header - header == addr
  {
  }

  lemma LiveMore(header: nat, carved: seq<Block>, status: seq<Status>, i: nat, j: nat, m: int, c: nat)
    requires |status| == |carved| && i < |status|
    ensures LiveAt(header, carved, status[i := Live], j, m, c)
            <==> LiveAt(header, carved, status, j, m, c) || (j == i && m == carved[i].addr + header && c == Capacity(carved[i].cls))
  {
    hide Capacity;
  }

  lemma LiveNew(header: nat, carved: seq<Block>, status: seq<Status>, b: Block, j: nat, m: int, c: nat)
    requires |status| == |carved|
    ensures LiveAt(header, carved + [b], status + [Live], j, m, c)
            <==> LiveAt(header, carved, status, j, m, c) || (j == |carved| && m == b.addr + header && c == Capacity(b.cls))
  {
    hide Capacity;
  }

  lemma NoneLiveAt(header: nat, carved: seq<Block>, status: seq<Status>, addr: int, mp: int, c: nat)
    requires forall k :: 0 <= k < |carved| && k < |status| && carved[k].addr == addr ==> status[k] != Live
    requires mp == addr + header
    ensures forall j: nat :: !LiveAt(header, carved, status, j, mp, c)
  {
    hide Capacity;
  }

  // Making block i live adds exactly its pointer to what is owned.
  lemma OwnedMore(header: nat, base: int, next: int, size: int, carved: seq<Block>, status: seq<Status>, big: map<int, nat>,
                  mem: map<int, Header>, i: nat, m: int, c: nat)
    requires 0 < header && Tiled(header, base, next, carved) && Outside(header, base, size, big, mem) && next <= base + size
    requires |status| == |carved| && i < |status| && status[i] != Live
    ensures Owned(header, carved, status[i := Live], big, m, c)
            <==> Owned(header, carved, status, big, m, c) || (m == carved[i].addr + header && c == Capacity(carved[i].cls))
    ensures !Owned(header, carved, status, big, carved[i].addr + header, c)
  {
    hide Capacity, Tiled, LiveAt, Outside;
    TilesApart(header, base, next, carved);
    var status' := status[i := Live];
    BigElsewhere(header, base, size, big, mem, carved[i].addr, c);
    forall j: nat
      ensures LiveAt(header, carved, status', j, m, c)
              <==> LiveAt(header, carved, status, j, m, c) || (j == i && m == carved[i].addr + header && c == Capacity(carved[i].cls))
    {
      LiveMore(header, carved, status, i, j, m, c);
    }
    NoneLiveAt(header, carved, status, carved[i].addr, carved[i].addr + header, c);
    LiveMore(header, carved, status, i, i, m, c);
  }

  // Taking block i back removes exactly its pointer.
  lemma OwnedLess(header: nat, base: int, next: int, size: int, carved: seq<Block>, status: seq<Status>, big: map<int, nat>,
                  mem: map<int, Header>, i: nat, pos: nat, m: int, c: nat)
    requires 0 < header && Tiled(header, base, next, carved) && Outside(header, base, size, big, mem) && next <= base + size
    requires |status| == |carved| && i < |status| && status[i] == Live
    ensures Owned(header, carved, status[i := Queued(pos)], big, m, c)
            <==> Owned(header, carved, status, big, m, c) && m != carved[i].addr + header
  {
    var status' := status[i := Queued(pos)];
    OwnedMore(header, base, next, size, carved, status', big, mem, i, m, c);
    assert status'[i := Live] == status;
  }

  // A new block with its owner.
  lemma OwnedNew(header: nat, base: int, next: int, size: int, carved: seq<Block>, status: seq<Status>, big: map<int, nat>,
                 mem: map<int, Header>, b: Block, m: int, c: nat)
    requires 0 < header && Tiled(header, base, next, carved) && Outside(header, base, size, big, mem)
    requires |status| == |carved| && b.addr == next && next < base + size
    ensures Owned(header, carved + [b], status + [Live], big, m, c)
            <==> Owned(header, carved, status, big, m, c) || (m == b.addr + header && c == Capacity(b.cls))
    ensures !Owned(header, carved, status, big, b.addr + header, c)
  {
    hide Capacity, Tiled, LiveAt, Outside;
    TilesApart(header, base, next, carved);
    var carved', status' := carved + [b], status + [Live];
    BigElsewhere(header, base, size, big, mem, b.addr, c);
    forall j: nat
      ensures LiveAt(header, carved', status', j, m, c)
              <==> LiveAt(header, carved, status, j, m, c) || (j == |carved| && m == b.addr + header && c == Capacity(b.cls))
    {
      LiveNew(header, carved, status, b, j, m, c);
    }
    NoneLiveAt(header, carved, status, b.addr, b.addr + header, c);
    LiveNew(header, carved, status, b, |carved|, m, c);
  }

  lemma OwnedBig(header: nat, base: int, next: int, size: int, carved: seq<Block>, status: seq<Status>, big: map<int, nat>,
                 a: int, cap: nat, m: int, c: nat)
    requires 0 < header && Tiled(header, base, next, carved) && next <= base + size
    requires a !in big && Clear(a, cap + header, base, size)
    ensures Owned(header, carved, status, big[a := cap], m, c)
            <==> Owned(header, carved, status, big, m, c) || (m == a + header && c == cap)
    ensures !Owned(header, carved, status, big, a + header, c)
  {
    TilesApart(header, base, next, carved);
  }

  lemma QueuedNotOwned(header: nat, base: int, next: int, size: int, carved: seq<Block>, status: seq<Status>, big: map<int, nat>,
                       mem: map<int, Header>, i: nat, mp: int, c: nat)
    requires 0 < header && Tiled(header, base, next, carved) && Outside(header, base, size, big, mem) && next <= base + size
    requires |status| == |carved| && i < |carved| && status[i].Queued? && mp == carved[i].addr + header
    ensures mp - header !in big && !Owned(header, carved, status, big, mp, c)
  {
    OwnedMore(header, base, next, size, carved, status, big, mem, i, 0, c);
    TilesApart(header, base, next, carved);
  }

  lemma QueuedNoted(carved: seq<Block>, status: seq<Status>, queues: seq<seq<nat>>, mem: map<int, Header>, i: nat)
    requires Placed(carved, status, queues) && Noted(carved, status, queues, mem) && i < |carved| && status[i].Queued?
    ensures carved[i].addr in mem && mem[carved[i].addr].flags == B_FILL_WORD
  {
    LinkedAt(carved, queues[carved[i].cls], mem, status[i].pos);
  }

  // A malloced block's pointer is nobody's in the arena.
  lemma BigNotLive(header: nat, base: int, next: int, size: int, carved: seq<Block>, status: seq<Status>, big: map<int, nat>,
                   mem: map<int, Header>, a: int, c: nat)
    requires 0 < header && Tiled(header, base, next, carved) && Outside(header, base, size, big, mem) && next <= base + size
    requires a in big && Owned(header, carved, status, big, a + header, c)
    ensures c == big[a]
  {
    TilesApart(header, base, next, carved);
  }

  lemma OwnedSmall(header: nat, base: int, next: int, size: int, carved: seq<Block>, status: seq<Status>, big: map<int, nat>,
                   mem: map<int, Header>, a: int, m: int, c: nat)
    requires 0 < header && Tiled(header, base, next, carved) && Outside(header, base, size, big, mem) && next <= base + size
    requires a in big
    ensures Owned(header, carved, status, big - {a}, m, c) <==> Owned(header, carved, status, big, m, c) && m != a + header
  {
    TilesApart(header, base, next, carved);
  }

  // A live block of the arena is within its carved part, and two of them do not overlap.
  lemma LiveInside(header: nat, base: int, next: int, carved: seq<Block>, status: seq<Status>, i: nat, m: int, c: nat)
    requires 0 < header && Tiled(header, base, next, carved) && LiveAt(header, carved, status, i, m, c)
    ensures base <= m - header && m + c <= next
  {
    TilesApart(header, base, next, carved);
    hide Capacity, Tiled;
  }

  lemma LiveApart(header: nat, base: int, next: int, carved: seq<Block>, status: seq<Status>, i: nat, m: int, c: nat, j: nat, m': int, c': nat)
    requires 0 < header && Tiled(header, base, next, carved) && m != m'
    requires LiveAt(header, carved, status, i, m, c) && LiveAt(header, carved, status, j, m', c')
    ensures Clear(m - header, c + header, m' - header, c' + header)
  {
    hide Capacity;
    assert i != j;
    if i < j {
      assert End(header, carved[i]) <= carved[j].addr;
    } else {
      assert End(header, carved[j]) <= carved[i].addr;
    }
  }

  lemma BigApart(header: nat, base: int, size: int, big: map<int, nat>, mem: map<int, Header>, a: int, b: int)
    requires Outside(header, base, size, big, mem) && a in big
    ensures Clear(a, big[a] + header, base, size)
    ensures b in big && a != b ==> Clear(a, big[a] + header, b, big[b] + header)
  {
  }

  // Two live pieces of memory, headers included, never overlap.
  lemma OwnersApart(header: nat, base: int, next: int, size: int, carved: seq<Block>, status: seq<Status>, big: map<int, nat>,
                    mem: map<int, Header>, m: int, c: nat, m': int, c': nat)
    requires 0 < header && Tiled(header, base, next, carved) && Outside(header, base, size, big, mem) && next <= base + size
    requires Owned(header, carved, status, big, m, c) && Owned(header, carved, status, big, m', c') && m != m'
    ensures m + c <= m' - header || m' + c' <= m - header
  {
    hide Tiled, Outside, LiveAt, Capacity;
    if m - header in big && c == big[m - header] {
      BigApart(header, base, size, big, mem, m - header, m' - header);
      if !(m' - header in big && c' == big[m' - header]) {
        var j: nat :| LiveAt(header, carved, status, j, m', c');
        LiveInside(header, base, next, carved, status, j, m', c');
      }
    } else {
      var i: nat :| LiveAt(header, carved, status, i, m, c);
      LiveInside(header, base, next, carved, status, i, m, c);
      if m' - header in big && c' == big[m' - header] {
        BigApart(header, base, size, big, mem, m' - header, m - header);
      } else {
        var j: nat :| LiveAt(header, carved, status, j, m', c');
        LiveApart(header, base, next, carved, status, i, m, c, j, m', c');
      }
    }
  }

  /// What the owners write

  // The n bytes at an address.
  ghost function Text(bytes: int -> int, at: int, n: nat): (t: seq<int>)
    ensures |t| == n && forall i {:trigger t[i]} :: 0 <= i < n ==> t[i] == bytes(at + i)
  {
    seq(n, i => bytes(at + i))
  }

  // memcpy of n bytes.
  function Copied(bytes: int -> int, from: int, to: int, n: int): int -> int {
    a => if to <= a < to + n then bytes(a - to + from) else bytes(a)
  }

  lemma CopyTells(bytes: int -> int, from: int, to: int, n: nat)
    ensures Text(Copied(bytes, from, to, n), to, n) == Text(bytes, from, n)
  {
  }

  lemma NotTouched(bytes: int -> int, from: int, to: int, n: nat, at: int, c: nat)
    requires Clear(at, c, to, n)
    ensures Text(Copied(bytes, from, to, n), at, c) == Text(bytes, at, c)
  {
  }

  class Arena {
    const header: nat  // sizeof(bType)
    const useMalloc: bool
    const bFreeBuf: int
    const bFreeSize: int
    const bQhead: array<int>
    var bFreeNext: int
    var bFreeLeft: int
    var mem: map<int, Header>
    var bytes: int -> int  // what the owners have written, by address

    ghost var carved: seq<Block>
    ghost var status: seq<Status>
    ghost var queues: seq<seq<nat>>
    ghost var big: map<int, nat>
    ghost var trace: seq<Event>

    ghost predicate Valid()
      reads this, bQhead
    {
      && 0 < header && 0 < bFreeBuf && 0 <= bFreeLeft
      && bFreeNext + bFreeLeft == bFreeBuf + bFreeSize
      && Tiled(header, bFreeBuf, bFreeNext, carved)
      && Placed(carved, status, queues)
      && Noted(carved, status, queues, mem)
      && Outside(header, bFreeBuf, bFreeSize, big, mem)
      && Counted(carved, queues, trace)
      && bQhead.Length == B_MAX_CLASS
      && (forall q :: 0 <= q < B_MAX_CLASS ==> bQhead[q] == Top(carved, queues[q]))
      && bFreeNext - bFreeBuf == Bill(carved, header, B_MAX_CLASS)
    }

    lemma Shape()
      requires Valid()
      ensures |status| == |carved| && |queues| == B_MAX_CLASS
    {
    }

    // bopen with a buffer at buf.
    constructor (buf: int, bufsize: nat, useMalloc: bool, header: nat)
      requires 0 < buf && 0 < header
      ensures Valid() && fresh(bQhead)
      ensures carved == [] && big == map[] && trace == [] && forall m, c :: !Owns(m, c)
      ensures bFreeBuf == buf && bFreeSize == bufsize && this.useMalloc == useMalloc && this.header == header
    {
      this.header, this.useMalloc := header, useMalloc;
      bFreeBuf, bFreeSize, bFreeNext, bFreeLeft := buf, bufsize, buf, bufsize;
      bQhead := new int[B_MAX_CLASS](_ => 0);
      mem := map[];
      bytes := _ => 0;
      carved, status, queues, big, trace := [], [], seq(B_MAX_CLASS, _ => []), map[], [];
      BillOfNone(header, B_MAX_CLASS);
    }

    ghost predicate Owns(mp: int, cap: nat)
      reads this
    {
      Owned(header, carved, status, big, mp, cap)
    }

    ghost predicate Unowned(mp: int)
      reads this
    {
      forall c :: !Owns(mp, c)
    }

    // The first block of queue q is taken.
    method TakeFromQueue(q: nat) returns (bp: int, ghost i: nat)
      requires Valid() && q < B_MAX_CLASS && queues[q] != []
      modifies this`mem, this`status, this`queues, this`trace, bQhead
      ensures Valid() && trace == old(trace) + [Took(q)] && bp == old(bQhead[q])
      ensures queues == old(queues)[q := old(queues)[q][..|old(queues)[q]| - 1]]
      ensures i < |carved| && carved[i] == Block(bp, q) && old(status[i]) != Live && status == old(status)[i := Live]
    {
      hide Tiled, Placed, Noted, Linked, Outside, Counted, Out, Peak, Made, Bill, Capacity;
      Shape();
      i := queues[q][|queues[q]| - 1];
      ghost var rest := queues[q][..|queues[q]| - 1];
      ghost var h := Header(Capacity(q), B_INTEGRITY);
      TilesApart(header, bFreeBuf, bFreeNext, carved);
      TakeTopPlaced(carved, status, queues, q);
      bp := bQhead[q];
      TakeTop(header, bFreeBuf, bFreeNext, carved, status, queues, mem, q, i, mem[bp := h]);
      ArenaWrite(header, bFreeBuf, bFreeSize, big, mem, bp, h);
      CountTake(carved, queues, trace, q, rest);
      bQhead[q] := mem[bp].u;
      mem := mem[bp := Header(Capacity(q), 0 | B_INTEGRITY)];
      status := status[i := Live];
      queues := queues[q := rest];
      trace := trace + [Took(q)];
    }

    // A new block is carved from the front of the free memory.
    method Carve(q: nat, memSize: nat) returns (bp: int)
      requires Valid() && q < B_MAX_CLASS && queues[q] == [] && memSize == Capacity(q) + header && bFreeLeft > memSize
      modifies this`mem, this`status, this`carved, this`trace, this`bFreeNext, this`bFreeLeft
      ensures Valid() && trace == old(trace) + [Took(q)]
      ensures bp == old(bFreeNext) && carved == old(carved) + [Block(bp, q)] && status == old(status) + [Live]
      ensures bFreeNext == old(bFreeNext) + memSize && bFreeLeft == old(bFreeLeft) - memSize
    {
      hide Tiled, Placed, Noted, Linked, Outside, Counted, Out, Peak, Made, Bill, Capacity;
      bp := bFreeNext;
      ghost var h := Header(Capacity(q), B_INTEGRITY);
      TilesApart(header, bFreeBuf, bFreeNext, carved);
      AddTile(header, bFreeBuf, bFreeNext, carved, q);
      AddPlaced(carved, status, queues, Block(bp, q));
      AddNoted(header, bFreeBuf, bFreeNext, carved, status, queues, mem, q, mem[bp := h]);
      ArenaWrite(header, bFreeBuf, bFreeSize, big, mem, bp, h);
      CountMake(carved, queues, trace, Block(bp, q));
      BillGrows(carved, Block(bp, q), header, B_MAX_CLASS);
      bFreeNext := bFreeNext + memSize;
      bFreeLeft := bFreeLeft - memSize;
      mem := mem[bp := Header(memSize - header, 0 | B_INTEGRITY)];
      carved, status := carved + [Block(bp, q)], status + [Live];
      trace := trace + [Took(q)];
    }

    // What malloc may return: nothing, or memory that overlaps neither the arena nor anything it
    // gave out before.
    ghost predicate MallocGives(got: int, memSize: nat)
      reads this
    {
      got != 0 ==>
        && 0 < got && Clear(got, memSize, bFreeBuf, bFreeSize)
        && forall a :: a in big ==> Clear(got, memSize, a, big[a] + header)
    }

    method TakeMalloced(q: nat, memSize: nat, got: int) returns (bp: int)
      requires Valid() && memSize == Capacity(q) + header && got != 0 && MallocGives(got, memSize)
      modifies this`mem, this`big
      ensures Valid() && bp == got && got !in old(big) && big == old(big)[got := Capacity(q)]
    {
      hide Tiled, Placed, Noted, Linked, Outside, Counted, Out, Peak, Made, Bill, Capacity;
      bp := got;
      TilesApart(header, bFreeBuf, bFreeNext, carved);
      OutsideWrite(header, bFreeBuf, bFreeNext, carved, status, queues, mem, bp, Header(Capacity(q), B_MALLOCED | B_INTEGRITY));
      OutsideGrows(header, bFreeBuf, bFreeSize, big, mem, bp, Capacity(q));
      mem := mem[bp := Header(memSize - header, B_MALLOCED | B_INTEGRITY)];
      big := big[bp := Capacity(q)];
    }

    // A request for a block of class q.  A waiting block is taken first, whatever is left in the
    // arena; then the arena serves, then malloc.
    method Serve(q: nat, memSize: nat, got: int) returns (mp: int)
      requires Valid() && memSize == Capacity(q) + header && MallocGives(got, memSize)
      modifies this, bQhead
      ensures Valid() && bytes == old(bytes) && |old(queues)| == B_MAX_CLASS == bQhead.Length
      ensures q < B_MAX_CLASS && old(queues)[q] != [] ==>
                && mp == old(bQhead[q]) + header && mp != 0 && trace == old(trace) + [Took(q)]
                && queues == old(queues)[q := old(queues)[q][..|old(queues)[q]| - 1]]
                && carved == old(carved) && bFreeNext == old(bFreeNext) && bFreeLeft == old(bFreeLeft)
      ensures q < B_MAX_CLASS && old(queues)[q] == [] && old(bFreeLeft) > memSize ==>
                && mp == old(bFreeNext) + header && mp != 0 && trace == old(trace) + [Took(q)]
                && carved == old(carved) + [Block(old(bFreeNext), q)] && queues == old(queues)
                && bFreeNext == old(bFreeNext) + memSize && bFreeLeft == old(bFreeLeft) - memSize
      ensures q >= B_MAX_CLASS || (old(queues)[q] == [] && old(bFreeLeft) <= memSize) ==>
                && mp == (if useMalloc && got != 0 then got + header else 0) && trace == old(trace) && queues == old(queues)
                && carved == old(carved) && bFreeNext == old(bFreeNext) && bFreeLeft == old(bFreeLeft)
      ensures mp == 0 ==> unchanged(this) && unchanged(bQhead)
      ensures mp != 0 ==> Gained(mp, Capacity(q)) && old(Unowned(mp))
    {
      hide Tiled, Placed, Noted, Linked, Outside, Counted, Out, Peak, Made, Bill, Capacity, Owned, ClassOf, Gained, Unowned;
      Shape();
      TilesApart(header, bFreeBuf, bFreeNext, carved);
      if q >= B_MAX_CLASS {
        if !useMalloc || got == 0 {
          return 0;
        }
        mp := TakeOutside(q, memSize, got);
      } else {
        TopIsNull(header, bFreeBuf, bFreeNext, carved, status, queues, q);
        if bQhead[q] != 0 {
          mp := ServeFromQueue(q);
        } else if bFreeLeft > memSize {
          mp := ServeFromArena(q, memSize);
        } else {
          if !useMalloc || got == 0 {
            return 0;
          }
          mp := TakeOutside(q, memSize, got);
        }
      }
    }

    // got is what malloc answers, should it be asked.
    method Balloc(size: int, got: int) returns (mp: int)
      requires Valid() && (size >= 0 ==> MallocGives(got, Capacity(ClassOf(size)) + header))
      modifies this, bQhead
      ensures Valid() && bytes == old(bytes) && |old(queues)| == B_MAX_CLASS == bQhead.Length
      ensures 0 <= size ==> (size <= MAX_POOLED <==> ClassOf(size) < B_MAX_CLASS)
      ensures size < 0 ==> mp == 0
      ensures 0 <= size <= MAX_POOLED && old(queues)[ClassOf(size)] != [] ==>
                && mp == old(bQhead[ClassOf(size)]) + header && mp != 0 && trace == old(trace) + [Took(ClassOf(size))]
                && queues == old(queues)[ClassOf(size) := old(queues)[ClassOf(size)][..|old(queues)[ClassOf(size)]| - 1]]
                && carved == old(carved) && bFreeNext == old(bFreeNext) && bFreeLeft == old(bFreeLeft)
      ensures 0 <= size <= MAX_POOLED && old(queues)[ClassOf(size)] == [] && old(bFreeLeft) > Capacity(ClassOf(size)) + header ==>
                && mp == old(bFreeNext) + header && mp != 0 && trace == old(trace) + [Took(ClassOf(size))]
                && carved == old(carved) + [Block(old(bFreeNext), ClassOf(size))] && queues == old(queues)
                && bFreeNext == old(bFreeNext) + Capacity(ClassOf(size)) + header
                && bFreeLeft == old(bFreeLeft) - Capacity(ClassOf(size)) - header
      ensures size > MAX_POOLED
              || (size >= 0 && old(queues)[ClassOf(size)] == [] && old(bFreeLeft) <= Capacity(ClassOf(size)) + header) ==>
                && mp == (if useMalloc && got != 0 then got + header else 0) && trace == old(trace) && queues == old(queues)
                && carved == old(carved) && bFreeNext == old(bFreeNext) && bFreeLeft == old(bFreeLeft)
      ensures mp == 0 ==> unchanged(this) && unchanged(bQhead)
      ensures mp != 0 ==> size <= Capacity(ClassOf(size)) && forall c :: !old(Owns(mp, c))
      ensures mp != 0 ==> forall m, c :: Owns(m, c) <==> old(Owns(m, c)) || (m == mp && c == Capacity(ClassOf(size)))
    {
      hide Tiled, Placed, Noted, Linked, Outside, Counted, Out, Peak, Made, Bill, Capacity, Owned, ClassOf;
      if size < 0 {
        Shape();
        return 0;
      }
      PooledSizes(size);
      var memSize, q := GetSize(size, header);
      ClassIsSmallestFit(size, q);
      mp := Serve(q, memSize, got);
    }

    // What is owned grew by exactly one pointer.
    twostate predicate Gained(mp: int, cap: nat)
      reads this
    {
      forall m, c :: Owns(m, c) <==> old(Owns(m, c)) || (m == mp && c == cap)
    }

    method ServeFromQueue(q: nat) returns (mp: int)
      requires Valid() && q < B_MAX_CLASS && queues[q] != []
      modifies this`mem, this`status, this`queues, this`trace, bQhead
      ensures Valid() && trace == old(trace) + [Took(q)] && mp == old(bQhead[q]) + header
      ensures queues == old(queues)[q := old(queues)[q][..|old(queues)[q]| - 1]]
      ensures mp != 0 && Gained(mp, Capacity(q)) && old(Unowned(mp))
    {
      hide Tiled, Placed, Noted, Linked, Outside, Counted, Out, Peak, Made, Bill, Capacity, Owned;
      Shape();
      TilesApart(header, bFreeBuf, bFreeNext, carved);
      ghost var was := status;
      ghost var i;
      var bp;
      bp, i := TakeFromQueue(q);
      mp := bp + header;
      forall m, c
        ensures Owned(header, carved, status, big, m, c)
                <==> Owned(header, carved, was, big, m, c) || (m == mp && c == Capacity(q))
        ensures !Owned(header, carved, was, big, mp, c)
      {
        OwnedMore(header, bFreeBuf, bFreeNext, bFreeSize, carved, was, big, mem, i, m, c);
      }
    }

    method ServeFromArena(q: nat, memSize: nat) returns (mp: int)
      requires Valid() && q < B_MAX_CLASS && queues[q] == [] && memSize == Capacity(q) + header && bFreeLeft > memSize
      modifies this`mem, this`status, this`carved, this`trace, this`bFreeNext, this`bFreeLeft
      ensures Valid() && trace == old(trace) + [Took(q)]
      ensures mp != 0 && Gained(mp, Capacity(q)) && old(Unowned(mp))
      ensures mp == old(bFreeNext) + header && carved == old(carved) + [Block(old(bFreeNext), q)]
      ensures bFreeNext == old(bFreeNext) + memSize && bFreeLeft == old(bFreeLeft) - memSize
    {
      hide Tiled, Placed, Noted, Linked, Outside, Counted, Out, Peak, Made, Bill, Capacity, Owned;
      Shape();
      TilesApart(header, bFreeBuf, bFreeNext, carved);
      ghost var blocks, was, noted := carved, status, mem;
      ghost var next := bFreeNext;
      var bp := Carve(q, memSize);
      mp := bp + header;
      forall m, c
        ensures Owned(header, carved, status, big, m, c)
                <==> Owned(header, blocks, was, big, m, c) || (m == mp && c == Capacity(q))
        ensures !Owned(header, blocks, was, big, mp, c)
      {
        OwnedNew(header, bFreeBuf, next, bFreeSize, blocks, was, big, noted, Block(next, q), m, c);
      }
    }

    method TakeOutside(q: nat, memSize: nat, got: int) returns (mp: int)
      requires Valid() && memSize == Capacity(q) + header && got != 0 && MallocGives(got, memSize)
      modifies this`mem, this`big
      ensures Valid() && mp == got + header
      ensures mp != 0 && Gained(mp, Capacity(q)) && old(Unowned(mp))
    {
      hide Tiled, Placed, Noted, Linked, Outside, Counted, Out, Peak, Made, Bill, Capacity, Owned;
      NotBig(got, memSize);
      TilesApart(header, bFreeBuf, bFreeNext, carved);
      ghost var was := big;
      var bp := TakeMalloced(q, memSize, got);
      mp := bp + header;
      forall m, c
        ensures Owned(header, carved, status, big, m, c)
                <==> Owned(header, carved, status, was, m, c) || (m == mp && c == Capacity(q))
        ensures !Owned(header, carved, status, was, mp, c)
      {
        OwnedBig(header, bFreeBuf, bFreeNext, bFreeSize, carved, status, was, got, Capacity(q), m, c);
      }
    }

    lemma NotBig(got: int, memSize: nat)
      requires Valid() && got != 0 && MallocGives(got, memSize) && memSize >= header
      ensures got !in big
    {
    }

    // What is owned shrank by exactly one pointer.
    twostate predicate Lost(mp: int)
      reads this
    {
      forall m, c :: Owns(m, c) <==> old(Owns(m, c)) && m != mp
    }

    // mp has been given out and taken back: its block waits in a queue.
    ghost predicate IsQueued(mp: int)
      reads this
    {
      exists i :: 0 <= i < |carved| && i < |status| && status[i].Queued? && mp == carved[i].addr + header
    }

    // What the header of a waiting block says.
    lemma KnownQueued(mp: int)
      requires Valid() && IsQueued(mp)
      ensures mp - header in mem && mem[mp - header].flags == B_FILL_WORD
      ensures mp - header !in big && forall c :: !Owns(mp, c)
    {
      hide Tiled, Placed, Noted, Linked, Outside, Counted, Out, Peak, Made, Bill, Capacity, Owned;
      Shape();
      TilesApart(header, bFreeBuf, bFreeNext, carved);
      var i :| 0 <= i < |carved| && i < |status| && status[i].Queued? && mp == carved[i].addr + header;
      QueuedNoted(carved, status, queues, mem, i);
      forall c ensures mp - header !in big && !Owned(header, carved, status, big, mp, c) {
        QueuedNotOwned(header, bFreeBuf, bFreeNext, bFreeSize, carved, status, big, mem, i, mp, c);
      }
      assert !Owned(header, carved, status, big, mp, 0);
    }

    // What the header of a malloced block says.
    lemma KnownBig(bp: int)
      requires Valid() && bp in big
      ensures bp in mem && mem[bp] == Header(big[bp], B_MALLOCED | B_INTEGRITY)
    {
    }

    // What the header of a live block of the arena says.
    lemma KnownLive(mp: int, cap: nat) returns (i: nat)
      requires Valid() && Owns(mp, cap) && mp - header !in big
      ensures i < |carved| && i < |status| && status[i] == Live && mp - header == carved[i].addr
      ensures carved[i].cls < B_MAX_CLASS && cap == Capacity(carved[i].cls)
      ensures mp - header in mem && mem[mp - header] == Header(cap, B_INTEGRITY)
    {
      hide Placed, Linked, Outside, Counted, Out, Peak, Made, Bill, Capacity;
      i :| LiveAt(header, carved, status, i, mp, cap);
    }

    method Release(bp: int)
      requires Valid() && bp in big
      modifies this`mem, this`big
      ensures Valid() && Lost(bp + header)
    {
      hide Tiled, Placed, Noted, Linked, Outside, Counted, Out, Peak, Made, Bill, Capacity, Owned;
      BigIsOutside(bp);
      TilesApart(header, bFreeBuf, bFreeNext, carved);
      OutsideWrite(header, bFreeBuf, bFreeNext, carved, status, queues, mem, bp, mem[bp]);
      ghost var was, noted := big, mem;
      mem := mem - {bp};
      big := big - {bp};
      forall m, c
        ensures Owned(header, carved, status, big, m, c) <==> Owned(header, carved, status, was, m, c) && m != bp + header
      {
        OwnedSmall(header, bFreeBuf, bFreeNext, bFreeSize, carved, status, was, noted, bp, m, c);
      }
    }

    lemma BigIsOutside(bp: int)
      requires Valid() && bp in big
      ensures bp in mem && (bp < bFreeBuf || bFreeNext <= bp)
      ensures Outside(header, bFreeBuf, bFreeSize, big - {bp}, mem - {bp})
    {
      TilesApart(header, bFreeBuf, bFreeNext, carved);
    }

    method ReturnToQueue(bp: int, q: nat, ghost i: nat)
      requires Valid() && q < B_MAX_CLASS && i < |carved| && i < |status| && status[i] == Live && carved[i] == Block(bp, q)
      modifies this`mem, this`status, this`queues, this`trace, bQhead
      ensures Valid() && Lost(bp + header) && trace == old(trace) + [Gave(q)] && bQhead[q] == bp
      ensures q < |old(queues)| && queues == old(queues)[q := old(queues)[q] + [i]]
    {
      hide Tiled, Placed, Noted, Linked, Outside, Counted, Out, Peak, Made, Bill, Capacity, Owned;
      Shape();
      ghost var pos, more := |queues[q]|, queues[q] + [i];
      ghost var h := Header(bQhead[q], B_FILL_WORD);
      TilesApart(header, bFreeBuf, bFreeNext, carved);
      PutBackPlaced(carved, status, queues, i);
      PutBack(header, bFreeBuf, bFreeNext, carved, status, queues, mem, i, mem[bp := h]);
      ArenaWrite(header, bFreeBuf, bFreeSize, big, mem, bp, h);
      CountGive(carved, queues, trace, q, more);
      ghost var was, noted := status, mem;
      mem := mem[bp := Header(bQhead[q], B_FILL_WORD)];
      bQhead[q] := bp;
      status := status[i := Queued(pos)];
      queues := queues[q := more];
      trace := trace + [Gave(q)];
      forall m, c
        ensures Owned(header, carved, status, big, m, c) <==> Owned(header, carved, was, big, m, c) && m != bp + header
      {
        OwnedLess(header, bFreeBuf, bFreeNext, bFreeSize, carved, was, big, noted, i, pos, m, c);
      }
    }

    // q is the class the freed block of the arena went back to; -1 if there was none.
    method Bfree(mp: int, ghost cap: nat) returns (ghost q: int)
      requires Valid() && (Owns(mp, cap) || IsQueued(mp))
      modifies this, bQhead
      ensures Valid() && bytes == old(bytes)
      ensures forall m, c :: Owns(m, c) <==> old(Owns(m, c)) && m != mp
      ensures carved == old(carved) && bFreeNext == old(bFreeNext) && bFreeLeft == old(bFreeLeft)
      ensures old(IsQueued(mp)) ==> unchanged(this) && unchanged(bQhead)
      ensures q < 0 <==> old(IsQueued(mp)) || mp - header in old(big)
      ensures q < 0 ==> trace == old(trace)
      ensures q >= 0 ==>
                && q < B_MAX_CLASS && cap == Capacity(q)
                && trace == old(trace) + [Gave(q)] && bQhead[q] == mp - header
                && q < |old(queues)| && exists i :: queues == old(queues)[q := old(queues)[q] + [i]]
      ensures q < 0 ==> queues == old(queues)
    {
      hide Tiled, Placed, Noted, Linked, Outside, Counted, Out, Peak, Made, Bill, Capacity, ClassOf, Owned, IsQueued;
      q := -1;
      var bp := mp - header;
      ghost var i;
      if IsQueued(mp) {
        KnownQueued(mp);
      } else if bp in big {
        KnownBig(bp);
      } else {
        i := KnownLive(mp, cap);
        ClassOfCapacity(carved[i].cls);
        q := carved[i].cls;
      }
      if mem[bp].flags & B_INTEGRITY_MASK != B_INTEGRITY {
        return;
      }
      var memSize, c := GetSize(mem[bp].u, header);
      if mem[bp].flags & B_MALLOCED != 0 {
        Release(bp);
        return;
      }
      ReturnToQueue(bp, c, i);
    }

    // The first header word of a live block is its capacity.
    lemma HeaderTells(mp: int, cap: nat)
      requires Valid() && Owns(mp, cap)
      ensures mp - header in mem && mem[mp - header].u == cap
    {
      hide Tiled, Placed, Noted, Linked, Outside, Counted, Owned;
      if mp - header in big {
        BigNotLive(header, bFreeBuf, bFreeNext, bFreeSize, carved, status, big, mem, mp - header, cap);
        KnownBig(mp - header);
      } else {
        var _ := KnownLive(mp, cap);
      }
    }

    // The text of a block goes to the start of a larger one, and the block goes back.
    method MoveText(mp: int, ghost cap: nat, newbuf: int, ghost room: nat)
      requires Valid() && Owns(mp, cap) && Owns(newbuf, room) && cap <= room && mp != newbuf
      modifies this, bQhead
      ensures Valid() && Lost(mp)
      ensures Text(bytes, newbuf, cap) == Text(old(bytes), mp, cap)
      ensures forall m, c :: old(Owns(m, c)) && m != newbuf ==> Text(bytes, m, c) == Text(old(bytes), m, c)
    {
      hide Tiled, Placed, Noted, Linked, Outside, Counted, Out, Peak, Made, Bill, Capacity, ClassOf, Owned, IsQueued, Text;
      HeaderTells(mp, cap);
      CopyTells(bytes, mp, newbuf, cap);
      forall m, c | Owns(m, c) && m != newbuf
        ensures Text(Copied(bytes, mp, newbuf, cap), m, c) == Text(bytes, m, c)
      {
        NoOverlap(m, c, newbuf, room);
        NotTouched(bytes, mp, newbuf, cap, m, c);
      }
      bytes := Copied(bytes, mp, newbuf, mem[mp - header].u);
      label Copied:
      ghost var _ := Bfree(mp, cap);
      forall m, c ensures Owns(m, c) <==> old(Owns(m, c)) && m != mp {
        assert Owns(m, c) <==> old@Copied(Owns(m, c)) && m != mp;
      }
    }

    // A block that is large enough is kept; otherwise a new one is taken, the old one's text
    // copied into it, and the old one freed.
    method Brealloc(mp: int, newsize: int, got: int, ghost cap: nat) returns (newbuf: int)
      requires Valid() && (newsize >= 0 ==> MallocGives(got, Capacity(ClassOf(newsize)) + header))
      requires mp != 0 ==> Owns(mp, cap)
      modifies this, bQhead
      ensures Valid()
      ensures mp != 0 && cap >= newsize ==> newbuf == mp
      ensures |old(queues)| == B_MAX_CLASS && (0 <= newsize ==> (newsize <= MAX_POOLED <==> ClassOf(newsize) < B_MAX_CLASS))
      ensures !(mp != 0 && cap >= newsize) ==>
                var none := newsize > MAX_POOLED || (0 <= newsize && old(queues)[ClassOf(newsize)] == []
                                                     && old(bFreeLeft) <= Capacity(ClassOf(newsize)) + header);
                newbuf == 0 <==> newsize < 0 || (none && (!useMalloc || got == 0))
      ensures newbuf == 0 || newbuf == mp ==> unchanged(this) && unchanged(bQhead)
      ensures newbuf != 0 && newbuf != mp ==> newsize >= 0 && forall m, c :: Owns(m, c) <==>
                (mp == 0 || m != mp) && (old(Owns(m, c)) || (m == newbuf && c == Capacity(ClassOf(newsize))))
      ensures mp != 0 && newbuf != 0 ==> Text(bytes, newbuf, cap) == Text(old(bytes), mp, cap)
      ensures forall m, c :: old(Owns(m, c)) ==> Text(bytes, m, c) == Text(old(bytes), m, c)
    {
      hide Tiled, Placed, Noted, Linked, Outside, Counted, Out, Peak, Made, Bill, Capacity, ClassOf, Owned, IsQueued, Text;
      Shape();
      if newsize >= 0 {
        PooledSizes(newsize);
      }
      if mp == 0 {
        newbuf := Balloc(newsize, got);
        return;
      }
      var bp := mp - header;
      HeaderTells(mp, cap);
      if mem[bp].u >= newsize {
        return mp;
      }
      newbuf := Balloc(newsize, got);
      if newbuf != 0 {
        label Taken:
        assert old@Taken(Owns(mp, cap)) && old@Taken(Owns(newbuf, Capacity(ClassOf(newsize))));
        MoveText(mp, cap, newbuf, Capacity(ClassOf(newsize)));
        forall m, c
          ensures Owns(m, c) <==> m != mp && (old(Owns(m, c)) || (m == newbuf && c == Capacity(ClassOf(newsize))))
        {
          assert Owns(m, c) <==> old@Taken(Owns(m, c)) && m != mp;
        }
      }
    }

    /// What every run keeps

    // Any two live pieces of memory, headers included, are disjoint.
    lemma NoOverlap(m: int, c: nat, m': int, c': nat)
      requires Valid() && Owns(m, c) && Owns(m', c') && m != m'
      ensures m + c <= m' - header || m' + c' <= m - header
    {
      TilesApart(header, bFreeBuf, bFreeNext, carved);
      OwnersApart(header, bFreeBuf, bFreeNext, bFreeSize, carved, status, big, mem, m, c, m', c');
    }

    // A carved block has an owner or waits in a queue, and never both.
    lemma OwnedOrQueued(i: nat, mp: int, c: nat)
      requires Valid() && i < |carved| && mp == carved[i].addr + header
      ensures Owns(mp, c) <==> !IsQueued(mp) && c == Capacity(carved[i].cls)
    {
      hide Tiled, Placed, Noted, Linked, Outside, Counted, Out, Peak, Made, Bill, Capacity;
      Shape();
      if Owns(mp, c) {
        OnlyOwner(i, mp, c);
      }
      if IsQueued(mp) {
        KnownQueued(mp);
      } else {
        assert status[i] == Live;
        assert LiveAt(header, carved, status, i, mp, Capacity(carved[i].cls));
      }
    }

    // What is owned at a carved block's address is that block.
    lemma OnlyOwner(i: nat, mp: int, c: nat)
      requires Valid() && i < |carved| && mp == carved[i].addr + header && Owns(mp, c)
      ensures c == Capacity(carved[i].cls)
    {
      hide Placed, Noted, Linked, Counted, Out, Peak, Made, Bill, Capacity;
      TilesApart(header, bFreeBuf, bFreeNext, carved);
      BigElsewhere(header, bFreeBuf, bFreeSize, big, mem, carved[i].addr, c);
      hide Tiled, Outside;
      var j: nat :| LiveAt(header, carved, status, j, mp, c);
    }

    // The events count what is out: the live carved blocks of a class, of all that were made.
    lemma OutIsLive(q: nat)
      requires Valid() && q < B_MAX_CLASS
      ensures Out(trace, q) == |LiveOf(carved, status, q)|
    {
      LiveCount(carved, status, queues, q);
    }

    // The arena has been used up by exactly the peak demand for each class.
    lemma HighWaterLaw()
      requires Valid()
      ensures bFreeSize - bFreeLeft == PeakCost(trace, header, B_MAX_CLASS)
      ensures forall q :: 0 <= q < B_MAX_CLASS ==> Made(carved, q) == Peak(trace, q)
    {
      BillIsPeakCost(carved, trace, header, B_MAX_CLASS);
    }
  }
}
