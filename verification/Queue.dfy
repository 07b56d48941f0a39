/** The circular queue with a sentinel of utils/queue.c (the build with double links and no
    self pointers), on the heap.

    A queue's own link closes the circle: its next is the head item, its prev the tail item.
    Moving a whole queue with MovePut leaves one prev pointer behind, so there are two levels of
    well-formedness: Forward (next pointers, tail pointer and count) and Full (every prev as
    well).  Stale() is the exact set of positions whose prev is wrong.
  */
module Queues {
  import Edits

  class Link {
    var next: Link?
    var prev: Link?

    constructor ()
      ensures next == null && prev == null
    {
      next, prev := null, null;
    }
  }

  // Two circles, each a sentinel with its items, that share no link.
  ghost predicate Separate(l: Link, s: seq<Link>, m: Link, t: seq<Link>) {
    && l != m
    && (forall i :: 0 <= i < |s| ==> s[i] != m)
    && (forall i :: 0 <= i < |t| ==> t[i] != l)
    && (forall i, j :: 0 <= i < |s| && 0 <= j < |t| ==> s[i] != t[j])
  }

  class Queue {
    const link: Link
    var cnt: nat
    ghost var items: seq<Link>

    // The link at position i of the circle; the sentinel stands at both ends.
    ghost function At(i: int): Link
      reads this
    {
      if 0 <= i < |items| then items[i] else link
    }

    ghost predicate Forward()
      reads this, link, items
    {
      && (forall i {:trigger items[i].next} :: 0 <= i < |items| ==> items[i].next == At(i + 1))
      && link.next == At(0)
      && link.prev == At(|items| - 1)
      && cnt == |items|
      && Distinct()
    }

    ghost predicate Distinct()
      reads this
    {
      && (forall i :: 0 <= i < |items| ==> items[i] != link)
      && (forall i, j :: 0 <= i < j < |items| ==> items[i] != items[j])
    }

    ghost predicate Wrong(i: int)
      reads this, items
    {
      0 <= i < |items| && items[i].prev != At(i - 1)
    }

    ghost function Stale(): (s: set<int>)
      reads this, items
      ensures forall i :: i in s <==> Wrong(i)
    {
      set i | 0 <= i < |items| && Wrong(i)
    }

    ghost predicate Full()
      reads this, link, items
    {
      Forward() && forall i :: !Wrong(i)
    }

    constructor ()
      ensures Full() && items == [] && fresh(link)
    {
      link := new Link();
      cnt, items := 0, [];
      new;
      link.next, link.prev := link, link;
    }

    method Init()
      modifies this, link
      ensures Full() && items == []
      ensures link.next == link.prev == link && cnt == 0
    {
      link.next, link.prev := link, link;
      cnt, items := 0, [];
    }

    method Put(item: Link)
      requires Forward() && item !in items && item != link
      modifies this, link, items, item
      ensures Forward() && items == old(items) + [item]
      ensures Stale() == old(Stale())
    {
      item.next := link;
      item.prev := link.prev;
      link.prev.next := item;
      link.prev := item;
      cnt := cnt + 1;
      items := items + [item];
      assert forall i :: Wrong(i) <==> old(Wrong(i));
    }

    method Get() returns (ret: Link?)
      requires Forward()
      modifies this, link, items
      ensures Forward()
      ensures ret == if old(items) == [] then null else old(items)[0]
      ensures items == if old(items) == [] then [] else old(items)[1..]
      ensures forall i :: Wrong(i) <==> i >= 1 && old(Wrong(i + 1))
      ensures ret != null ==> ret.next == null
    {
      ret := null;
      var first := link.next;
      if cnt > 0 {
        assert first.next == At(1);
        link.next := first.next;
        first.next.prev := link;
        cnt := cnt - 1;
        first.next := null;
        ret := first;
        items := items[1..];
      }
    }

    // Moves everything from source to the tail of this queue.  The old head of source keeps
    // its prev, which is source's own link.
    method MovePut(source: Queue)
      requires this != source && Forward() && source.Forward() && Apart(source)
      modifies this, link, items, source, source.link, source.items
      ensures Forward() && source.Full()
      ensures items == old(items + source.items) && source.items == []
      ensures forall i :: 0 <= i < old(|items|) ==> (Wrong(i) <==> old(Wrong(i)))
      ensures forall i {:trigger Wrong(i)} :: i > old(|items|) ==> (Wrong(i) <==> old(source.Wrong(i - |items|)))
      ensures old(source.items) != [] && !old(source.Wrong(0)) ==> Wrong(old(|items|))
    {
      if source.cnt != 0 {
        var tail := source.link.prev;
        tail.next := link;
        var head := source.link.next;
        link.prev.next := head;
        link.prev := tail;
        cnt := cnt + source.cnt;
        items := items + source.items;
        source.Init();
      }
    }

    ghost predicate Apart(other: Queue)
      reads this, other
    {
      Separate(link, items, other.link, other.items)
    }

    method LastGet() returns (ret: Link?)
      requires Forward() && !Wrong(|items| - 1)
      modifies this, link, items
      ensures Forward() && forall i :: Wrong(i) <==> i < |items| && old(Wrong(i))
      ensures ret == if old(items) == [] then null else old(items)[|old(items)| - 1]
      ensures items == if old(items) == [] then [] else old(items)[..|old(items)| - 1]
      ensures ret != null ==> ret.next == null
    {
      ret := null;
      var last := link.prev;
      if cnt > 0 {
        assert last.prev == At(|items| - 2);
        link.prev := last.prev;
        last.prev.next := link;
        cnt := cnt - 1;
        last.next := null;
        ret := last;
        items := items[..|items| - 1];
      }
    }

    method Insert(insert: Link, item: Link, ghost at: nat)
      requires Forward() && insert !in items && insert != link
      requires at < |items| && items[at] == item && !Wrong(at)
      modifies this, link, items, insert
      ensures Forward() && Edits.Inserted(old(items), at, insert, items)
      ensures forall i :: Wrong(i) <==> if i < at then old(Wrong(i)) else i > at + 1 && old(Wrong(i - 1))
    {
      assert item.prev == At(at - 1);
      insert.next := item;
      insert.prev := item.prev;
      item.prev.next := insert;
      item.prev := insert;
      cnt := cnt + 1;
      items := Edits.Insert(items, at, insert);
    }

    method Delete(item: Link, ghost at: nat)
      requires Forward() && at < |items| && items[at] == item && !Wrong(at)
      modifies this, link, items
      ensures Forward() && Edits.Removed(old(items), at, items) && item.next == null
      ensures forall i :: Wrong(i) <==> if i < at then old(Wrong(i)) else i > at && old(Wrong(i + 1))
    {
      assert item.prev == At(at - 1) && item.next == At(at + 1);
      item.prev.next := item.next;
      item.next.prev := item.prev;
      cnt := cnt - 1;
      item.next := null;
      items := Edits.Remove(items, at);
    }

    // The first item the caller's test accepts.
    method LinearSearch(accepts: Link -> bool) returns (ret: Link?)
      requires Forward()
      ensures ret == null ==> forall i :: 0 <= i < |items| ==> !accepts(items[i])
      ensures ret != null ==> exists i ::
        && 0 <= i < |items| && items[i] == ret && accepts(items[i])
        && forall j :: 0 <= j < i ==> !accepts(items[j])
    {
      ret := if cnt > 0 then link.next else null;
      ghost var i := 0;
      while ret != null
        invariant 0 <= i <= |items| && ret == if i < |items| then items[i] else null
        invariant forall j :: 0 <= j < i ==> !accepts(items[j])
        decreases |items| - i
      {
        if accepts(ret) {
          return;
        }
        assert ret.next == At(i + 1);
        ret := if ret.next != link then ret.next else null;
        i := i + 1;
      }
    }
  }

  function Drop<T>(s: seq<T>, n: nat): seq<T> { if n < |s| then s[n..] else [] }

  // Some Gets on a queue with one stale link, at position k.
  method GetMany(q: Queue, gets: nat, ghost k: nat)
    requires q.Forward() && k < |q.items| && forall i :: q.Wrong(i) <==> i == k
    modifies q, q.link, q.items
    ensures q.Forward() && q.items == Drop(old(q.items), gets)
    ensures q.Full() <==> gets >= 1 && gets >= k
  {
    var n := 0;
    ghost var all := q.items;
    while n < gets
      invariant n <= gets && q.Forward()
      invariant q.items == Drop(all, n)
      invariant forall i :: q.Wrong(i) <==> i == k - n && (n == 0 || i >= 1)
    {
      var _ := q.Get();
      n := n + 1;
    }
    assert q.Wrong(k - n) <==> n == 0 || k - n >= 1;
  }

  // One MovePut between fully linked queues, then some Gets: the target is fully linked again
  // after exactly max(1, k) of them, where k is the number of items it had.
  method MoveThenGet(target: Queue, source: Queue, gets: nat)
    requires target != source && target.Full() && source.Full() && target.Apart(source)
    requires source.items != []
    modifies target, target.link, target.items, source, source.link, source.items
    ensures target.Forward() && target.items == Drop(old(target.items + source.items), gets)
    ensures target.Full() <==> gets >= 1 && gets >= old(|target.items|)
  {
    ghost var k := |target.items|;
    target.MovePut(source);
    GetMany(target, gets, k);
  }
}
