/** The doubly linked ordered list of utils/list.c, on the heap.

    A header carries the first and last link, the size and the list type; each link carries both
    neighbours and its weight.  The ghost field items is the chain the header owns, and held is
    what that chain holds as a value of OrderedSpec.
  */
module OrderedLists {
  import opened OrderedSpec
  import Edits

  class Link {
    var next: Link?
    var prev: Link?
    var weight: nat

    constructor () {
      next, prev, weight := null, null, 0;
    }
  }

  function HeadOf(s: seq<Link>): Link? { if s == [] then null else s[0] }

  function LastOf(s: seq<Link>): Link? { if s == [] then null else s[|s| - 1] }

  // s is a null-terminated doubly linked chain: prev is the inverse of next.
  ghost predicate Chain(s: seq<Link>)
    reads s
  {
    && (forall i {:trigger s[i].next} :: 0 <= i < |s| ==> s[i].next == if i + 1 < |s| then s[i + 1] else null)
    && (forall i {:trigger s[i].prev} :: 0 <= i < |s| ==> s[i].prev == if i > 0 then s[i - 1] else null)
    && Distinct(s)
  }

  ghost predicate Distinct(s: seq<Link>) {
    forall i, j :: 0 <= i < j < |s| ==> s[i] != s[j]
  }

  ghost predicate Holds(s: seq<Link>, v: seq<Entry<Link>>)
    reads s`weight
  {
    && |v| == |s|
    && forall i {:trigger v[i]} :: 0 <= i < |s| ==> v[i].item == s[i] && v[i].weight == s[i].weight
  }

  ghost predicate Disjoint(s: seq<Link>, t: seq<Link>) {
    forall i, j :: 0 <= i < |s| && 0 <= j < |t| ==> s[i] != t[j]
  }

  lemma HeldAt(s: seq<Link>, v: seq<Entry<Link>>, i: nat)
    requires Holds(s, v) && i < |s|
    ensures |v| == |s| && v[i].weight == s[i].weight
  {
  }

  lemma Lengths(s: seq<Link>, v: seq<Entry<Link>>)
    requires Holds(s, v)
    ensures |v| == |s|
  {
  }

  lemma EmptyChain()
    ensures Chain([]) && Holds([], [])
  {
  }

  lemma DisjointSym(s: seq<Link>, t: seq<Link>)
    requires Disjoint(s, t)
    ensures Disjoint(t, s)
  {
  }

  lemma LastsApart(s: seq<Link>, t: seq<Link>)
    requires Disjoint(s, t) && s != [] && t != []
    ensures LastOf(s) != LastOf(t)
  {
  }

  lemma WithinBoth(s: seq<Link>, t: seq<Link>) returns (all: set<Link>)
    ensures Within(s, all) && Within(t, all)
    ensures all == (set x | x in s) + (set x | x in t)
  {
    all := (set x | x in s) + (set x | x in t);
  }

  lemma NextIs(s: seq<Link>, i: nat)
    requires Chain(s) && i < |s|
    ensures s[i].next == if i + 1 < |s| then s[i + 1] else null
  {
  }

  lemma PrevIs(s: seq<Link>, i: nat)
    requires Chain(s) && i < |s|
    ensures s[i].prev == if i > 0 then s[i - 1] else null
  {
  }

  lemma Distinctly(s: seq<Link>)
    requires Chain(s)
    ensures Distinct(s)
  {
  }

  lemma OneChain(item: Link, e: Entry<Link>)
    requires item.next == null && item.prev == null && e.item == item && e.weight == item.weight
    ensures Chain([item]) && Holds([item], [e])
  {
  }

  // The link at position at is the first or the last of the chain only where it should be.
  lemma LastsDiffer(s: seq<Link>, at: nat)
    requires Chain(s) && at < |s|
    ensures (s[at] == LastOf(s) <==> at == |s| - 1) && (s[at] == HeadOf(s) <==> at == 0)
  {
  }

  // Hooks item into the chain s behind its link at position at.
  method LinkAfter(item: Link, after: Link, last: bool, ghost s: seq<Link>, ghost at: nat) returns (ghost r: seq<Link>)
    requires Chain(s) && item !in s && at < |s| && s[at] == after && (last <==> at == |s| - 1)
    modifies s`next, s`prev, item`next, item`prev
    ensures Edits.Inserted(s, at + 1, item, r) && Chain(r)
  {
    assert after.next == if at + 1 < |s| then s[at + 1] else null;
    item.next := after.next;
    item.prev := after;
    after.next := item;
    if !last {
      item.next.prev := item;
    }
    r := Edits.Insert(s, at + 1, item);
  }

  // Hooks item into the chain s in front of its link at position at.
  method LinkBefore(item: Link, before: Link, first: bool, ghost s: seq<Link>, ghost at: nat) returns (ghost r: seq<Link>)
    requires Chain(s) && item !in s && at < |s| && s[at] == before && (first <==> at == 0)
    modifies s`next, s`prev, item`next, item`prev
    ensures Edits.Inserted(s, at, item, r) && Chain(r)
  {
    assert before.prev == if at > 0 then s[at - 1] else null;
    item.next := before;
    item.prev := before.prev;
    before.prev := item;
    if !first {
      item.prev.next := item;
    }
    r := Edits.Insert(s, at, item);
  }

  lemma AfterInsert(s: seq<Link>, v: seq<Entry<Link>>, at: nat, e: Entry<Link>, r: seq<Link>, w: seq<Entry<Link>>)
    requires Holds(s, v) && s != [] && Edits.Inserted(s, at, e.item, r) && Edits.Inserted(v, at, e, w)
    requires e.weight == e.item.weight
    ensures Holds(r, w)
    ensures HeadOf(r) == (if at == 0 then e.item else HeadOf(s)) && LastOf(r) == if at == |s| then e.item else LastOf(s)
  {
  }

  // Cuts the chain s in two in front of its link at position at.
  method CutLinks(before: Link?, item: Link, ghost s: seq<Link>, ghost at: nat) returns (ghost a: seq<Link>, ghost b: seq<Link>)
    requires Chain(s) && at < |s| && item == s[at] && before == if at > 0 then s[at - 1] else null
    modifies s`next, s`prev
    ensures Edits.Cut(s, at, a, b) && Chain(a) && Chain(b)
  {
    if before != null {
      before.next := null;
    }
    item.prev := null;
    a, b := Edits.CutAt(s, at);
  }

  lemma AfterCut(s: seq<Link>, v: seq<Entry<Link>>, at: nat, a: seq<Link>, b: seq<Link>)
    requires Holds(s, v) && at < |s| && Edits.Cut(s, at, a, b)
    ensures Holds(a, v[..at]) && Holds(b, v[at..])
    ensures HeadOf(a) == (if at > 0 then HeadOf(s) else null) && LastOf(a) == if at > 0 then s[at - 1] else null
    ensures HeadOf(b) == s[at] && LastOf(b) == LastOf(s)
    ensures a == s[..at] && b == s[at..]
  {
    Edits.CutIs(s, at, a, b);
  }

  lemma HoldsSpliced(s: seq<Link>, vs: seq<Entry<Link>>, t: seq<Link>, vt: seq<Entry<Link>>, q: nat, m: nat,
                     r: seq<Link>, v: seq<Entry<Link>>, run: seq<Link>, vrun: seq<Entry<Link>>,
                     rest: seq<Link>, vrest: seq<Entry<Link>>)
    requires Holds(s, vs) && Holds(t, vt)
    requires Edits.Cut(t, m, run, rest) && Edits.Spliced(s, q, run, r)
    requires Edits.Cut(vt, m, vrun, vrest) && Edits.Spliced(vs, q, vrun, v)
    ensures Holds(r, v) && Holds(rest, vrest)
  {
  }

  // Where the ends of the two chains are after a run has moved, and that they stay apart.
  lemma AfterSplice(s: seq<Link>, t: seq<Link>, q: nat, m: nat, r: seq<Link>, run: seq<Link>, rest: seq<Link>, all: set<Link>)
    requires Distinct(t) && Disjoint(s, t) && q < |s| && 0 < m <= |t|
    requires Edits.Cut(t, m, run, rest) && Edits.Spliced(s, q, run, r)
    requires Within(s, all) && Within(t, all)
    ensures Disjoint(r, rest) && Within(r, all) && Within(rest, all)
    ensures HeadOf(r) == (if q == 0 then t[0] else s[0]) && HeadOf(rest) == if m < |t| then t[m] else null
    ensures LastOf(r) == LastOf(s) && (rest != [] ==> LastOf(rest) == LastOf(t))
    ensures q + m < |r| && r[q + m] == s[q]
  {
  }

  lemma AfterAppend(s: seq<Link>, vs: seq<Entry<Link>>, t: seq<Link>, vt: seq<Entry<Link>>, r: seq<Link>, all: set<Link>)
    requires Holds(s, vs) && Holds(t, vt) && Edits.Spliced(s, |s|, t, r)
    ensures Holds(r, vs + vt) && HeadOf(r) == (if s != [] then s[0] else HeadOf(t))
    ensures t != [] ==> LastOf(r) == LastOf(t)
    ensures Within(s, all) && Within(t, all) ==> Within(r, all)
  {
  }

  // Hooks the chain t behind the chain s.
  method LinkEnds(b: Link, f: Link, ghost s: seq<Link>, ghost t: seq<Link>) returns (ghost r: seq<Link>)
    requires Chain(s) && Chain(t) && Disjoint(s, t)
    requires s != [] && t != [] && b == s[|s| - 1] && f == t[0]
    modifies s`next, t`prev
    ensures Edits.Spliced(s, |s|, t, r) && Chain(r)
  {
    b.next := f;
    f.prev := b;
    r := Edits.Splice(s, |s|, t);
  }

  // Moves the run temp2..temp3 from the head of the chain t in front of temp1 in the chain s.
  method LinkRun(temp1: Link, temp2: Link, temp3: Link, ghost s: seq<Link>, ghost t: seq<Link>, ghost p: nat, ghost m: nat, ghost all: set<Link>)
      returns (ghost r: seq<Link>, ghost run: seq<Link>, ghost rest: seq<Link>)
    requires Chain(s) && Chain(t) && Disjoint(s, t)
    requires p < |s| && temp1 == s[p]
    requires m < |t| && temp2 == t[0] && temp3 == t[m]
    requires Within(s, all) && Within(t, all)
    modifies all`next, all`prev
    ensures Edits.Cut(t, m + 1, run, rest) && Edits.Spliced(s, p, run, r)
    ensures Chain(r) && Chain(rest)
  {
    assert temp1.prev == if p > 0 then s[p - 1] else null;
    assert temp3.next == if m + 1 < |t| then t[m + 1] else null;
    run, rest := Edits.CutAt(t, m + 1);
    r := Edits.Splice(s, p, run);
    RunApart(s, t, p, m, r, run, rest);
    hide Disjoint;
    if temp3.next != null {
      temp3.next.prev := null;
    }
    temp2.prev := temp1.prev;
    if temp1.prev != null {
      temp1.prev.next := temp2;
    }
    temp3.next := temp1;
    temp1.prev := temp3;
  }

  lemma RunApart(s: seq<Link>, t: seq<Link>, p: nat, m: nat, r: seq<Link>, run: seq<Link>, rest: seq<Link>)
    requires Distinct(s) && Distinct(t) && Disjoint(s, t) && p < |s| && m < |t|
    requires Edits.Cut(t, m + 1, run, rest) && Edits.Spliced(s, p, run, r)
    ensures Distinct(r) && Distinct(rest) && (rest != [] ==> rest[0] !in r)
    ensures forall i :: 0 <= i < |rest| ==> rest[i] != r[p + m] && rest[i] != r[p + m + 1] && (p > 0 ==> rest[i] != r[p - 1])
    ensures r[p + m + 1] == s[p] && r[p + m] == t[m] && r[p] == t[0] && (p > 0 ==> r[p - 1] == s[p - 1])
  {
  }

  ghost predicate Within(s: seq<Link>, all: set<Link>) {
    forall i :: 0 <= i < |s| ==> s[i] in all
  }

  class OrderedList {
    var front: Link?
    var back: Link?
    var size: nat
    var kind: Kind
    ghost var items: seq<Link>
    ghost var held: seq<Entry<Link>>
    ghost var clock: nat

    // Everything but the tail pointer and the order.
    ghost predicate Linked()
      reads this, items
    {
      && Chain(items)
      && Holds(items, held)
      && front == HeadOf(items)
      && size == |items|
    }

    ghost predicate TailRight()
      reads this
    {
      back == LastOf(items)
    }

    ghost predicate Valid()
      reads this, items
    {
      Linked() && TailRight() && Sorted(kind, held)
    }

    ghost function State(): ListState<Link>
      reads this
    {
      ListState(clock, held)
    }

    constructor (kind: Kind)
      ensures Valid() && fresh(this)
      ensures this.kind == kind && State() == ListState(0, [])
    {
      front, back, size, this.kind := null, null, 0, kind;
      items, held, clock := [], [], 0;
    }

    // Writes the header, and what it is known to own.
    method SetEnds(front: Link?, back: Link?, size: nat, ghost items: seq<Link>, ghost held: seq<Entry<Link>>)
      modifies this`front, this`back, this`size, this`items, this`held
      ensures this.front == front && this.back == back && this.size == size && this.items == items && this.held == held
    {
      this.front, this.back, this.size := front, back, size;
      this.items, this.held := items, held;
    }

    method SetFront(front: Link?, ghost items: seq<Link>, ghost held: seq<Entry<Link>>)
      modifies this`front, this`items, this`held
      ensures this.front == front && this.items == items && this.held == held
    {
      this.front := front;
      this.items, this.held := items, held;
    }

    /// Pushing

    method PushAfter(item: Link, after: Link, ghost at: nat)
      requires Linked() && TailRight()
      requires item !in items && at < |items| && items[at] == after
      modifies this`front, this`back, this`size, this`items, this`held, items`next, items`prev, item`next, item`prev
      ensures Edits.Inserted(old(items), at + 1, item, items)
      ensures Edits.Inserted(old(held), at + 1, Entry(item, item.weight, clock), held)
      ensures Linked() && TailRight()
    {
      LastsDiffer(items, at);
      hide Chain, Holds;
      Lengths(items, held);
      ghost var e := Entry(item, item.weight, clock);
      ghost var v := Edits.Insert(held, at + 1, e);
      ghost var r := LinkAfter(item, after, back == after, items, at);
      AfterInsert(items, held, at + 1, e, r, v);
      SetEnds(front, if back == after then item else back, size + 1, r, v);
    }

    method PushBefore(item: Link, before: Link, ghost at: nat)
      requires Linked() && TailRight()
      requires item !in items && at < |items| && items[at] == before
      modifies this`front, this`back, this`size, this`items, this`held, items`next, items`prev, item`next, item`prev
      ensures Edits.Inserted(old(items), at, item, items)
      ensures Edits.Inserted(old(held), at, Entry(item, item.weight, clock), held)
      ensures Linked() && TailRight()
    {
      LastsDiffer(items, at);
      hide Chain, Holds;
      Lengths(items, held);
      ghost var e := Entry(item, item.weight, clock);
      ghost var v := Edits.Insert(held, at, e);
      ghost var r := LinkBefore(item, before, front == before, items, at);
      AfterInsert(items, held, at, e, r, v);
      SetEnds(if front == before then item else front, back, size + 1, r, v);
    }

    // Walks to the first link a push of that weight does not pass, which is at position p.
    method FindPlace(weight: nat, ghost p: nat) returns (temp: Link)
      requires Linked() && p < |held|
      requires (forall i :: 0 <= i < p ==> Passes(kind, held[i].weight, weight)) && !Passes(kind, held[p].weight, weight)
      ensures temp == items[p]
    {
      Lengths(items, held);
      temp := front;
      ghost var i := 0;
      HeldAt(items, held, i);
      while Passes(kind, temp.weight, weight)
        invariant i <= p && temp == items[i] && held[i].weight == temp.weight
        decreases p - i
      {
        NextIs(items, i);
        temp := temp.next;
        i := i + 1;
        HeldAt(items, held, i);
      }
    }

    // p is where the item goes: behind everything it passes, in front of everything else.
    method Push(item: Link, weight: nat) returns (ghost p: nat)
      requires Valid() && item !in items
      modifies this, items, item
      ensures Valid() && kind == old(kind)
      ensures State() == Step(kind, old(State()), OrderedSpec.Push(item, weight))
      ensures p <= |old(items)| == |old(held)| && items == old(items)[..p] + [item] + old(items)[p..]
      ensures held == old(held)[..p] + [Entry(item, weight, old(clock))] + old(held)[p..]
      ensures forall i :: 0 <= i < |old(held)| ==> (Passes(kind, old(held)[i].weight, weight) <==> i < p)
    {
      hide Chain, Holds, Sorted, Insert, Edits.Inserted;
      ghost var e := Entry(item, weight, clock);
      ghost var s := held;
      item.weight := weight;
      ghost var was := items;
      p := InsertPlace(kind, s, e);
      InsertSorted(kind, s, e);
      Lengths(items, held);
      if size == 0 {
        item.next, item.prev := null, null;
        OneChain(item, e);
        InsertFirst(kind, e);
        SetEnds(item, item, size + 1, [item], [e]);
      } else {
        HeldAt(items, held, |items| - 1);
        if Passes(kind, back.weight, weight) {
          PushAfter(item, back, |items| - 1);
        } else {
          var temp := FindPlace(weight, p);
          PushBefore(item, temp, p);
        }
        Edits.InsertedIs(was, p, item, items);
        Edits.InsertedOnce(s, p, e, held, Insert(kind, s, e));
        Edits.InsertedIs(s, p, e, held);
      }
      clock := clock + 1;
    }

    /// Popping

    method PopFront() returns (ret: Link?)
      requires Valid()
      modifies this, items
      ensures Valid() && kind == old(kind)
      ensures State() == Step(kind, old(State()), OrderedSpec.PopFront)
      ensures old(items) == [] ==> ret == null && items == [] && held == []
      ensures old(items) != [] ==> ret == old(items)[0] && items == old(items)[1..] && held == old(held)[1..]
    {
      ret := null;
      if size > 0 {
        ret := front;
        front := ret.next;
        if front == null {
          back := null;
        } else {
          front.prev := null;
        }
        size := size - 1;
        items, held := items[1..], held[1..];
      }
    }

    method PopBack() returns (ret: Link?)
      requires Valid()
      modifies this, items
      ensures Valid() && kind == old(kind)
      ensures State() == Step(kind, old(State()), OrderedSpec.PopBack)
      ensures old(items) == [] ==> ret == null && items == [] && held == []
      ensures old(items) != [] ==>
                && ret == old(items)[|old(items)| - 1]
                && items == old(items)[..|old(items)| - 1] && held == old(held)[..|old(held)| - 1]
    {
      ret := null;
      if size > 0 {
        ret := back;
        back := ret.prev;
        if back == null {
          front := null;
        } else {
          back.next := null;
        }
        size := size - 1;
        items, held := items[..|items| - 1], held[..|held| - 1];
      }
    }

    // The pointer part of PopItem.
    method Unlink(item: Link, ghost at: nat)
      requires Chain(items) && front == HeadOf(items) && TailRight()
      requires at < |items| && items[at] == item
      modifies this`front, this`back, this`items, items`next, items`prev
      ensures Edits.Removed(old(items), at, items)
      ensures Chain(items) && front == HeadOf(items) && TailRight()
    {
      assert at > 0 ==> item.prev == items[at - 1];
      assert at + 1 < |items| ==> item.next == items[at + 1];
      if item == front {
        front := item.next;
      } else {
        item.prev.next := item.next;
      }
      if item == back {
        back := item.prev;
      } else {
        item.next.prev := item.prev;
      }
      items := Edits.Remove(items, at);
    }

    method PopItem(item: Link, ghost at: nat)
      requires Valid() && at < |items| && items[at] == item
      modifies this, items
      ensures Valid() && kind == old(kind)
      ensures State() == Step(kind, old(State()), OrderedSpec.PopAt(at))
      ensures items == old(items)[..at] + old(items)[at + 1..] && held == old(held)[..at] + old(held)[at + 1..]
    {
      ghost var was, s := items, held;
      Unlink(item, at);
      Edits.RemovedIs(was, at, items);
      size := size - 1;
      held := Edits.Remove(held, at);
      Edits.RemovedIs(s, at, held);
      StepPopAt(kind, old(State()), at, held);
    }

    /// Merging

    method Append(other: OrderedList)
      requires this != other && Disjoint(items, other.items)
      requires Linked() && TailRight() && other.Linked() && other.TailRight()
      modifies this`front, this`back, this`size, this`items, this`held
      modifies other`front, other`back, other`size, other`items, other`held
      modifies items`next, other.items`prev
      ensures Linked() && other.Linked() && other.TailRight()
      ensures held == old(held + other.held) && other.held == []
      ensures back == old(other.back)
      ensures TailRight() <==> old(items) == [] || old(other.items) != []
    {
      ghost var whole := other.items;
      Lengths(items, held);
      Lengths(other.items, other.held);
      EmptyChain();
      if size > 0 && other.size > 0 {
        whole := LinkEnds(back, other.front, items, other.items);
        AfterAppend(items, held, other.items, other.held, whole, {});
      } else if size > 0 {
        back.next := other.front;
        whole := items;
      } else if other.size > 0 {
        other.front.prev := back;
      }
      hide Chain, Holds;
      SetEnds(if size > 0 then front else other.front, other.back, size + other.size, whole, held + other.held);
      other.SetEnds(null, null, 0, [], []);
    }

    method Swap(other: OrderedList)
      requires this != other
      modifies this, other
      ensures front == old(other.front) && back == old(other.back) && size == old(other.size) && kind == old(other.kind)
      ensures items == old(other.items) && held == old(other.held) && clock == old(other.clock)
      ensures other.front == old(front) && other.back == old(back) && other.size == old(size) && other.kind == old(kind)
      ensures other.items == old(items) && other.held == old(held) && other.clock == old(clock)
    {
      front, back, size, kind, other.front, other.back, other.size, other.kind :=
        other.front, other.back, other.size, other.kind, front, back, size, kind;
      items, held, clock, other.items, other.held, other.clock :=
        other.items, other.held, other.clock, items, held, clock;
    }

    // The list while it is being spliced: sizes and the tail pointer are behind.
    ghost predicate HalfLinked(all: set<Link>)
      reads this, items
    {
      && Chain(items)
      && Holds(items, held)
      && front == HeadOf(items)
      && Within(items, all)
    }

    // temp1 moves on to the first link the second list's head has to go in front of.
    method ScanAhead(temp: Link, w: nat, ghost p: nat, ghost all: set<Link>) returns (temp1: Link, ghost q: nat)
      requires HalfLinked(all) && p < |items| && temp == items[p]
      requires !StaysAhead(kind, held[|held| - 1].weight, w)
      ensures p <= q < |items| && temp1 == items[q]
      ensures forall i :: p <= i < q ==> StaysAhead(kind, held[i].weight, w)
      ensures !StaysAhead(kind, held[q].weight, w)
    {
      temp1, q := temp, p;
      while StaysAhead(kind, temp1.weight, w)
        invariant p <= q < |items| && temp1 == items[q]
        invariant forall i :: p <= i < q ==> StaysAhead(kind, held[i].weight, w)
        decreases |items| - q
      {
        assert held[q].weight == temp1.weight;
        temp1 := temp1.next;
        q := q + 1;
      }
      assert held[q].weight == temp1.weight;
    }

    // temp3 moves on to the last link that goes in front of a link of weight w.
    method ScanRun(k: Kind, w: nat, ghost all: set<Link>) returns (temp3: Link, ghost m: nat)
      requires HalfLinked(all) && items != [] && back == LastOf(items) && Sorted(k, held)
      requires !StaysAhead(k, w, held[0].weight)
      ensures m < |items| && temp3 == items[m]
      ensures forall i :: 0 <= i <= m ==> !StaysAhead(k, w, held[i].weight)
      ensures m + 1 < |items| ==> StaysAhead(k, w, held[m + 1].weight)
    {
      temp3, m := front, 0;
      assert held[|held| - 1].weight == back.weight;
      if !StaysAhead(k, w, back.weight) {
        temp3, m := back, |items| - 1;
        NotAheadOfAll(k, w, held);
      } else {
        assert temp3.next != null ==> temp3.next == items[1] && held[1].weight == temp3.next.weight;
        while !StaysAhead(k, w, temp3.next.weight)
          invariant m + 1 < |items| && temp3 == items[m]
          invariant temp3.next == items[m + 1] && held[m + 1].weight == temp3.next.weight
          invariant forall i :: 0 <= i <= m ==> !StaysAhead(k, w, held[i].weight)
          decreases |items| - m
        {
          assert m + 2 < |items| ==> items[m + 1].next == items[m + 2] && held[m + 2].weight == items[m + 2].weight;
          temp3 := temp3.next;
          m := m + 1;
        }
      }
    }

    // The run temp2..temp3 at the head of the second list goes in front of temp1.
    method SpliceRun(other: OrderedList, temp1: Link, temp2: Link, temp3: Link, ghost q: nat, ghost m: nat, ghost all: set<Link>,
                     ghost v: seq<Entry<Link>>, ghost vrun: seq<Entry<Link>>, ghost vrest: seq<Entry<Link>>)
      requires this != other && Disjoint(items, other.items) && HalfLinked(all) && other.HalfLinked(all)
      requires q < |items| && temp1 == items[q]
      requires m < |other.items| && temp2 == other.items[0] && temp3 == other.items[m]
      requires Edits.Cut(other.held, m + 1, vrun, vrest) && Edits.Spliced(held, q, vrun, v)
      modifies this`front, this`items, this`held, other`front, other`items, other`held, all`next, all`prev
      ensures Disjoint(items, other.items) && HalfLinked(all) && other.HalfLinked(all)
      ensures held == v && other.held == vrest && |items| == |v| && |other.items| == |vrest|
      ensures q + m + 1 < |items| && temp1 == items[q + m + 1]
      ensures LastOf(items) == old(LastOf(items)) && (other.items != [] ==> LastOf(other.items) == old(LastOf(other.items)))
    {
      hide Chain, Holds, Within, Disjoint, Edits.Cut, Edits.Spliced;
      NextIs(other.items, m);
      PrevIs(items, q);
      Distinctly(other.items);
      var first, tail := if temp1.prev == null then temp2 else front, temp3.next;
      ghost var r, run, rest := LinkRun(temp1, temp2, temp3, items, other.items, q, m, all);
      AfterSplice(items, other.items, q, m + 1, r, run, rest, all);
      HoldsSpliced(items, held, other.items, other.held, q, m + 1, r, v, run, vrun, rest, vrest);
      Lengths(r, v);
      Lengths(rest, vrest);
      SetFront(first, r, v);
      other.SetFront(tail, rest, vrest);
    }

    // What holds of the two lists between two passes of the splicing loop.
    ghost predicate Splicing(other: OrderedList, temp1: Link?, p: nat, wa: nat, wb: nat, all: set<Link>)
      reads this, items, other, other.items
    {
      && HalfLinked(all) && other.HalfLinked(all) && Disjoint(items, other.items)
      && other.back == LastOf(other.items) && other.items != [] && Sorted(kind, other.held)
      && other.held[|other.held| - 1].weight == wb
      && p < |items| && temp1 == items[p] && Sorted(kind, held[p..])
      && back == LastOf(items) && held[|held| - 1].weight == wa
    }

    // The loop has emptied the second list: is its old tail now the last of the first?
    ghost predicate SplicedAll(other: OrderedList, tail: Link?, wa: nat, wb: nat, all: set<Link>)
      reads this, items, other, other.items
    {
      && HalfLinked(all) && other.items == [] && Chain(other.items) && other.held == [] && other.front == null
      && (LastOf(items) == tail <==> StaysAhead(kind, wa, wb))
    }

    method AppendRest(other: OrderedList, ghost temp1: Link?, ghost p: nat, ghost wa: nat, ghost wb: nat,
                      ghost goal: seq<Entry<Link>>, ghost all: set<Link>)
      requires this != other && Splicing(other, temp1, p, wa, wb, all)
      requires Merging(kind, held, p, other.held, goal)
      requires StaysAhead(kind, back.weight, other.front.weight)
      modifies this`front, this`back, this`items, this`held, other`front, other`items, other`held, all`next, all`prev
      ensures SplicedAll(other, old(other.back), wa, wb, all) && held == goal
    {
      hide OrderedSpec.Merge, Merging, Sorted, StaysAhead, Chain, Holds, Disjoint;
      EmptyChain();
      HeldAt(items, held, |items| - 1);
      HeldAt(other.items, other.held, 0);
      AheadOfLast(kind, back.weight, other.held);
      MergingAppends(kind, held, p, other.held, goal);
      ghost var whole := LinkEnds(back, other.front, items, other.items);
      AfterAppend(items, held, other.items, other.held, whole, all);
      back := other.back;
      SetFront(front, whole, held + other.held);
      other.SetFront(null, [], []);
    }

    // The two scans of a pass.
    method FindRun(other: OrderedList, temp: Link, ghost p: nat, ghost wa: nat, ghost wb: nat, ghost all: set<Link>)
        returns (temp1: Link, temp3: Link, ghost q: nat, ghost m: nat)
      requires this != other && Splicing(other, temp, p, wa, wb, all)
      requires !StaysAhead(kind, back.weight, other.front.weight)
      ensures p <= q < |items| == |held| && temp1 == items[q]
      ensures m < |other.items| == |other.held| && temp3 == other.items[m]
      ensures forall i :: p <= i < q ==> StaysAhead(kind, held[i].weight, other.held[0].weight)
      ensures forall i :: 0 <= i < m + 1 ==> !StaysAhead(kind, held[q].weight, other.held[i].weight)
    {
      hide Chain, Holds, Within, Disjoint, Sorted, StaysAhead;
      HeldAt(items, held, |items| - 1);
      HeldAt(other.items, other.held, 0);
      temp1, q := ScanAhead(temp, other.front.weight, p, all);
      HeldAt(items, held, q);
      temp3, m := other.ScanRun(kind, temp1.weight, all);
    }

    method SpliceOnce(other: OrderedList, temp: Link, ghost p: nat, ghost wa: nat, ghost wb: nat,
                      ghost goal: seq<Entry<Link>>, ghost all: set<Link>)
        returns (temp1: Link, ghost p': nat)
      requires this != other && Splicing(other, temp, p, wa, wb, all)
      requires Merging(kind, held, p, other.held, goal)
      requires !StaysAhead(kind, back.weight, other.front.weight)
      modifies this`front, this`items, this`held, other`front, other`items, other`held, all`next, all`prev
      ensures |other.items| < old(|other.items|)
      ensures Merging(kind, held, p', other.held, goal)
      ensures if other.items == [] then SplicedAll(other, other.back, wa, wb, all) && held == goal
              else Splicing(other, temp1, p', wa, wb, all)
    {
      hide OrderedSpec.Merge, Chain, Merging, Holds, Within, Disjoint, Sorted, Edits.Cut, Edits.Spliced, StaysAhead;
      LastsApart(items, other.items);
      var temp3;
      ghost var q, m;
      temp1, temp3, q, m := FindRun(other, temp, p, wa, wb, all);
      ghost var v, vrun, vrest := PassKeeps(kind, held, p, q, other.held, m + 1, goal);
      SpliceRun(other, temp1, other.front, temp3, q, m, all, v, vrun, vrest);
      p' := q + (m + 1);
    }

    // The splicing loop of the merge.  The tail pointer only moves when the rest of the second
    // list is appended; sizes and the second list's tail pointer are left to Merge.
    method SpliceLoop(other: OrderedList, ghost all: set<Link>)
      requires this != other && Disjoint(items, other.items)
      requires Valid() && other.Valid() && kind == other.kind && HalfLinked(all) && other.HalfLinked(all)
      requires items != [] && other.items != []
      modifies this`front, this`back, this`items, this`held, other`front, other`items, other`held, all`next, all`prev
      ensures SplicedAll(other, old(other.back), old(held[|held| - 1].weight), old(other.held[|other.held| - 1].weight), all)
      ensures held == OrderedSpec.Merge(kind, old(held), old(other.held))
    {
      hide OrderedSpec.Merge, Merging, Chain, Holds, Sorted, Disjoint, Within, StaysAhead;
      Lengths(items, held);
      Lengths(other.items, other.held);
      MergingStarts(kind, held, other.held);
      ghost var goal := OrderedSpec.Merge(kind, held, other.held);
      ghost var wa, wb := held[|held| - 1].weight, other.held[|other.held| - 1].weight;
      var temp1: Link? := front;
      ghost var p: nat := 0;
      while other.front != null
        invariant other.front == HeadOf(other.items)
        invariant if other.items == [] then SplicedAll(other, other.back, wa, wb, all) && held == goal
                  else Splicing(other, temp1, p, wa, wb, all) && Merging(kind, held, p, other.held, goal)
        decreases |other.items|
      {
        if StaysAhead(kind, back.weight, other.front.weight) {
          AppendRest(other, temp1, p, wa, wb, goal, all);
        } else {
          temp1, p := SpliceOnce(other, temp1, p, wa, wb, goal, all);
        }
      }
    }

    // The splice case of a merge.
    method SpliceIn(other: OrderedList)
      requires this != other && Valid() && other.Valid() && Disjoint(items, other.items)
      requires items != [] && other.items != [] && kind == other.kind
      modifies this, other, items, other.items
      ensures kind == old(kind) && other.kind == old(other.kind) && Linked() && other.Linked() && other.TailRight()
      ensures held == OrderedSpec.Merge(kind, old(held), old(other.held)) && other.held == []
      ensures back == old(other.back)
      ensures TailRight() <==> StaysAhead(kind, old(held[|held| - 1].weight), old(other.held[|other.held| - 1].weight))
    {
      hide OrderedSpec.Merge, Chain, Holds, Sorted, Disjoint, Within, StaysAhead;
      EmptyChain();
      Lengths(items, held);
      Lengths(other.items, other.held);
      MergeKeepsAll(kind, held, other.held);
      ghost var all := WithinBoth(items, other.items);
      SpliceLoop(other, all);
      Lengths(items, held);
      SetEnds(front, other.back, size + other.size, items, held);
      other.SetEnds(other.front, null, 0, other.items, other.held);
    }

    // A merge of two sorted lists.  It splices if neither list is empty, the types agree, and
    // neither append shortcut applies; then the tail pointer ends up on the second list's old tail.
    method Merge(other: OrderedList)
      requires this != other && Valid() && other.Valid() && Disjoint(items, other.items)
      modifies this, other, items, other.items
      ensures kind == old(kind) && other.kind == old(other.kind)
      ensures multiset(held) + multiset(other.held) == multiset(old(held)) + multiset(old(other.held))
      ensures old(held) == [] ==> held == old(other.held) && items == old(other.items) && other.held == []
      ensures old(held) != [] && (old(other.held) == [] || kind != other.kind) ==>
                && held == old(held) && items == old(items) && other.held == old(other.held) && other.items == old(other.items)
      ensures old(held) != [] && old(other.held) != [] && kind == other.kind ==>
                held == OrderedSpec.Merge(kind, old(held), old(other.held)) && other.held == []
      ensures Linked() && other.Linked() && other.TailRight()
      ensures Sorted(kind, held) <==> old(held) != [] || kind.order == other.kind.order || OneWeight(held)
      ensures var splices := old(held != [] && other.held != [] && kind == other.kind
                                 && !StaysAhead(kind, held[|held| - 1].weight, other.held[0].weight)
                                 && StaysAhead(kind, held[0].weight, other.held[|other.held| - 1].weight));
              && (splices ==> back == old(other.back))
              && (TailRight() <==> (splices ==> old(StaysAhead(kind, held[|held| - 1].weight, other.held[|other.held| - 1].weight))))
    {
      hide OrderedSpec.Merge, Chain, Holds, Sorted, Disjoint, Within, StaysAhead, OneWeight;
      EmptyChain();
      Lengths(items, held);
      Lengths(other.items, other.held);
      if size == 0 {
        SortedBothWays(kind, other.kind, other.held);
        SetEnds(other.front, other.back, other.size, other.items, other.held);
        other.SetEnds(null, null, 0, [], []);
      } else if other.size != 0 && kind == other.kind {
        MergeSorted(kind, held, other.held);
        MergeKeepsAll(kind, held, other.held);
        HeldAt(items, held, 0);
        HeldAt(items, held, |items| - 1);
        HeldAt(other.items, other.held, 0);
        HeldAt(other.items, other.held, |other.items| - 1);
        if StaysAhead(kind, back.weight, other.front.weight) {
          MergeAppends(kind, held, other.held);
          Append(other);
        } else if !StaysAhead(kind, front.weight, other.back.weight) {
          MergePrepends(kind, held, other.held);
          DisjointSym(items, other.items);
          Swap(other);
          Append(other);
        } else {
          SpliceIn(other);
        }
      }
    }

    /// Splitting

    // Counts the links in front of item and finds the last of them.
    method FindBefore(item: Link, ghost at: nat) returns (temp: Link?, count: nat)
      requires Chain(items) && front == HeadOf(items) && at < |items| && items[at] == item
      ensures count == at && temp == if at > 0 then items[at - 1] else null
    {
      temp, count := null, 0;
      if front != item {
        count := count + 1;
        temp := front;
        while temp.next != item
          invariant 0 < count <= at && temp == items[count - 1]
          decreases at - count
        {
          assert temp.next == items[count];
          temp := temp.next;
          count := count + 1;
        }
        assert temp.next == items[count];
      }
    }

    // The item at position at and what follows goes to the other list, which is overwritten.
    method Split(item: Link, other: OrderedList, ghost at: nat)
      requires this != other && Valid() && at < |items| && items[at] == item
      modifies this, other, items
      ensures kind == old(kind) && other.kind == old(other.kind)
      ensures Valid() && other.Linked() && other.TailRight() && Sorted(kind, other.held)
      ensures held == old(held[..at]) && other.held == old(held[at..])
      ensures items == old(items[..at]) && other.items == old(items[at..])
    {
      hide Chain, Holds, Sorted, HeadOf, LastOf, Edits.Cut;
      var total := size;
      var temp, count := FindBefore(item, at);
      HeldAt(items, held, at);
      SplitSorted(kind, held, at);
      ghost var a, b := CutLinks(temp, item, items, at);
      AfterCut(items, held, at, a, b);
      other.SetEnds(item, back, total - count, b, held[at..]);
      SetEnds(if temp == null then null else front, temp, count, a, held[..at]);
    }
  }

  lemma HeldDistinct(s: seq<Link>, v: seq<Entry<Link>>)
    requires Chain(s) && Holds(s, v)
    ensures |v| == |s| && forall i, j :: 0 <= i < j < |v| ==> v[i] != v[j]
  {
  }

  lemma CutDisjoint(s: seq<Link>, at: nat)
    requires Chain(s) && at <= |s|
    ensures Disjoint(s[..at], s[at..])
  {
  }

  // A split followed by a merge: what the two operations leave of the list they started from.
  method SplitAndMerge(list: OrderedList, other: OrderedList, item: Link, ghost at: nat)
    requires list != other && list.Valid() && other.kind == list.kind
    requires at < |list.items| && list.items[at] == item
    modifies list, other, list.items
    ensures list.Linked() && other.held == [] && |list.held| == old(|list.held|)
    ensures list.held == old(list.held)
            <==> list.kind.tie.Slt? || at == 0 || old(list.held[at - 1].weight) != old(list.held[at].weight)
    ensures list.held == old(list.held) ==> list.TailRight()
  {
    HeldDistinct(list.items, list.held);
    CutDisjoint(list.items, at);
    hide Chain, Holds, Sorted, OrderedSpec.Merge, StaysAhead;
    ghost var s := list.held;
    list.Split(item, other, at);
    CutParts(list.kind, s, at, list.held, other.held);
    list.Merge(other);
  }

  lemma ItemsAre(s: seq<Link>, v: seq<Entry<Link>>)
    requires Holds(s, v)
    ensures |s| == |v| && forall i {:trigger s[i]} :: 0 <= i < |s| ==> s[i] == v[i].item
  {
  }

  lemma SecondPasses<T>(k: Kind, x: Entry<T>, y: Entry<T>)
    requires Passes(k, x.weight, y.weight)
    ensures Insert(k, [], x) == [x] && Insert(k, [x], y) == [x, y]
  {
    assert Insert(k, [x][1..], y) == [y];
  }

  // A new list with one link, and one with a second behind it.
  method OneLink(k: Kind, w: nat) returns (list: OrderedList)
    ensures list.Valid() && list.kind == k && fresh(list) && fresh(list.items)
    ensures |list.held| == 1 && list.held[0].weight == w
  {
    hide Chain, Holds, Sorted;
    list := new OrderedList(k);
    var item := new Link();
    Lengths(list.items, list.held);
    ghost var _ := list.Push(item, w);
    ItemsAre(list.items, list.held);
  }

  method TwoLinks(k: Kind, w: nat, w': nat) returns (list: OrderedList)
    requires Passes(k, w, w')
    ensures list.Valid() && list.kind == k && fresh(list) && fresh(list.items)
    ensures |list.held| == 2 && list.held[0].weight == w && list.held[1].weight == w'
  {
    hide Chain, Holds, Sorted, Insert;
    list := OneLink(k, w);
    var item := new Link();
    ghost var x := list.held[0];
    SecondPasses(k, x, Entry(item, w', list.clock));
    assert list.held == [x];
    ItemsAre(list.items, list.held);
    ghost var _ := list.Push(item, w');
    ItemsAre(list.items, list.held);
  }

  // Merging 3 into 1, 5 leaves the tail pointer on 3.
  method TailLost() returns (list: OrderedList)
    ensures list.Linked() && |list.items| == 3 && !list.TailRight()
  {
    hide Chain, Holds, Sorted, OrderedSpec.Merge;
    list := TwoLinks(Kind(Ascending, Slt), 1, 5);
    var other := OneLink(Kind(Ascending, Slt), 3);
    MergeKeepsAll(list.kind, list.held, other.held);
    list.Merge(other);
    Lengths(list.items, list.held);
  }

  // An empty ascending list takes over 5, 1 as it is.
  method WrongOrder() returns (list: OrderedList)
    ensures list.Linked() && list.TailRight() && |list.items| == 2 && !Sorted(list.kind, list.held)
  {
    hide Chain, Holds, OrderedSpec.Merge;
    list := new OrderedList(Kind(Ascending, Slt));
    var other := TwoLinks(Kind(Descending, Slt), 5, 1);
    Lengths(list.items, list.held);
    list.Merge(other);
    Lengths(list.items, list.held);
  }
}
