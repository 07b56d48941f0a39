/** The singly linked unordered list of utils/list.c, on the heap.

    A link knows only its successor, so removing a link, or inserting in front of one, walks the
    chain from the front.
  */
module PlainLists {
  import Edits

  class Link {
    var next: Link?

    constructor () {
      next := null;
    }
  }

  function HeadOf(s: seq<Link>): Link? { if s == [] then null else s[0] }

  function LastOf(s: seq<Link>): Link? { if s == [] then null else s[|s| - 1] }

  ghost predicate Chain(s: seq<Link>)
    reads s
  {
    && (forall i {:trigger s[i].next} :: 0 <= i < |s| ==> s[i].next == if i + 1 < |s| then s[i + 1] else null)
    && (forall i, j :: 0 <= i < j < |s| ==> s[i] != s[j])
  }

  ghost predicate Disjoint(s: seq<Link>, t: seq<Link>) {
    forall i, j :: 0 <= i < |s| && 0 <= j < |t| ==> s[i] != t[j]
  }

  class PlainList {
    var front: Link?
    var back: Link?
    var size: nat
    ghost var items: seq<Link>

    // Everything but the tail pointer.
    ghost predicate Linked()
      reads this, items
    {
      Chain(items) && front == HeadOf(items) && size == |items|
    }

    ghost predicate Valid()
      reads this, items
    {
      Linked() && back == LastOf(items)
    }

    constructor ()
      ensures Valid() && items == []
    {
      front, back, size, items := null, null, 0, [];
    }

    method PushFront(item: Link)
      requires Valid() && item !in items
      modifies this, items, item
      ensures Valid() && items == [item] + old(items)
    {
      item.next := front;
      front := item;
      if back == null {
        back := item;
      }
      size := size + 1;
      items := [item] + items;
    }

    method PopFront() returns (ret: Link?)
      requires Valid()
      modifies this
      ensures Valid()
      ensures old(items) == [] ==> ret == null && items == []
      ensures old(items) != [] ==> ret == old(items)[0] && items == old(items)[1..]
    {
      ret := null;
      if size > 0 {
        ret := front;
        front := ret.next;
        if front == null {
          back := null;
        }
        size := size - 1;
        items := items[1..];
      }
    }

    method PushBack(item: Link)
      requires Valid() && item !in items
      modifies this, items, item
      ensures Valid() && items == old(items) + [item]
    {
      item.next := null;
      if size == 0 {
        front := item;
      } else {
        back.next := item;
      }
      back := item;
      size := size + 1;
      items := items + [item];
    }

    // The link in front of item, which is not the first.
    method WalkTo(item: Link, ghost at: nat) returns (temp: Link)
      requires Linked() && 0 < at < |items| && items[at] == item
      ensures temp == items[at - 1]
    {
      temp := front;
      ghost var i := 0;
      while temp.next != item
        invariant 0 <= i < at && temp == items[i]
        decreases at - i
      {
        assert temp.next == items[i + 1];
        temp := temp.next;
        i := i + 1;
      }
      assert temp.next == items[i + 1];
    }

    method PopBack() returns (ret: Link?)
      requires Valid()
      modifies this, items
      ensures Valid()
      ensures old(items) == [] ==> ret == null && items == []
      ensures old(items) != [] ==> ret == old(items)[|old(items)| - 1] && items == old(items)[..|old(items)| - 1]
    {
      ret := null;
      if size > 0 {
        ret := back;
        if front == ret {
          front, back := null, null;
        } else {
          var temp := WalkTo(ret, |items| - 1);
          back := temp;
          temp.next := null;
        }
        size := size - 1;
        items := items[..|items| - 1];
      }
    }

    method PushBefore(item: Link, before: Link, ghost at: nat)
      requires Valid() && item !in items && at < |items| && items[at] == before
      modifies this, items, item
      ensures Valid() && Edits.Inserted(old(items), at, item, items)
    {
      item.next := before;
      if front == before {
        front := item;
      } else {
        var temp := WalkTo(before, at);
        temp.next := item;
      }
      size := size + 1;
      items := Edits.Insert(items, at, item);
    }

    method PushAfter(item: Link, after: Link, ghost at: nat)
      requires Valid() && item !in items && at < |items| && items[at] == after
      modifies this, items, item
      ensures Valid() && Edits.Inserted(old(items), at + 1, item, items)
    {
      assert after.next == if at + 1 < |items| then items[at + 1] else null;
      item.next := after.next;
      after.next := item;
      if back == after {
        back := item;
      }
      size := size + 1;
      items := Edits.Insert(items, at + 1, item);
    }

    method PopItem(item: Link, ghost at: nat)
      requires Valid() && at < |items| && items[at] == item
      modifies this, items
      ensures Valid() && Edits.Removed(old(items), at, items)
    {
      assert item.next == if at + 1 < |items| then items[at + 1] else null;
      if front == item {
        front := item.next;
        if back == item {
          back := null;
        }
      } else {
        var temp := WalkTo(item, at);
        temp.next := item.next;
        if back == item {
          back := temp;
        }
      }
      size := size - 1;
      items := Edits.Remove(items, at);
    }

    // Appends the other list.  The tail pointer is lost exactly when there is nothing to append
    // to a list that has links.
    method Merge(other: PlainList)
      requires this != other && Valid() && other.Valid() && Disjoint(items, other.items)
      modifies this, other, items
      ensures Linked() && other.Valid()
      ensures items == old(items) + old(other.items) && other.items == []
      ensures Valid() <==> old(items) == [] || old(other.items) != []
      ensures back == old(other.back)
    {
      if size > 0 {
        back.next := other.front;
      } else {
        front := other.front;
      }
      back := other.back;
      size := size + other.size;
      other.front, other.back := null, null;
      other.size := 0;
      items, other.items := items + other.items, [];
    }

    // The item at position at and what follows goes to the other list, which is overwritten.
    method Split(item: Link, other: PlainList, ghost at: nat)
      requires this != other && Valid() && at < |items| && items[at] == item
      modifies this, other, items
      ensures Valid() && other.Valid()
      ensures items == old(items)[..at] && other.items == old(items)[at..]
    {
      var total := size;
      var temp: Link?, count := null, 0;
      if front != item {
        count := 1;
        temp := front;
        while temp.next != item
          invariant 0 < count <= at && temp == items[count - 1]
          decreases at - count
        {
          assert temp.next == items[count];
          temp := temp.next;
          count := count + 1;
        }
        assert temp.next == items[count];
        temp.next := null;
      } else {
        front := null;
      }
      other.front := item;
      other.back := back;
      other.size := total - count;
      back := temp;
      size := count;
      other.items := items[at..];
      items := items[..at];
    }
  }

  // Splitting at any member and merging back restores the list.
  method SplitAndMerge(list: PlainList, other: PlainList, item: Link, ghost at: nat)
    requires list != other && list.Valid() && at < |list.items| && list.items[at] == item
    modifies list, other, list.items
    ensures list.Valid() && list.items == old(list.items) && other.Valid() && other.items == []
  {
    list.Split(item, other, at);
    list.Merge(other);
  }

  // Merging an empty list into a list with a link loses the tail pointer.
  method TailLost() returns (list: PlainList)
    ensures list.Linked() && |list.items| == 1 && list.back == null
  {
    list := new PlainList();
    var other := new PlainList();
    var item := new Link();
    list.PushBack(item);
    list.Merge(other);
  }
}
