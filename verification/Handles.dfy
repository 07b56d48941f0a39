/** The growable handle list of utils/h.c, and the list of symbol tables of utils/sym.c that is
    kept in it.

    A slot holds 0 (NULL) or a reference.  A new handle's slot is still NULL: it is the caller
    who stores a reference there, and only then does the count of used handles fit again.
  */
module Handles {
  const H_INCR := 16

  function Used(s: seq<int>): nat {
    if s == [] then 0 else Used(s[..|s| - 1]) + if s[|s| - 1] != 0 then 1 else 0
  }

  // One past the greatest index in use, or 0.
  function Top(s: seq<int>): nat {
    if s == [] then 0 else if s[|s| - 1] != 0 then |s| else Top(s[..|s| - 1])
  }

  // Beyond the end of the list, every handle is free.
  function Slot(s: seq<int>, h: nat): int { if h < |s| then s[h] else 0 }

  lemma {:induction false} UsedStore(s: seq<int>, h: nat, v: int)
    requires h < |s|
    ensures Used(s[h := v]) == Used(s) - (if s[h] != 0 then 1 else 0) + if v != 0 then 1 else 0
  {
    var n := |s| - 1;
    if h < n {
      UsedStore(s[..n], h, v);
      assert s[h := v][..n] == s[..n][h := v];
    } else {
      assert s[h := v][..n] == s[..n];
    }
  }

  lemma {:induction false} UsedAll(s: seq<int>)
    ensures Used(s) <= |s|
    ensures Used(s) == |s| <==> forall h :: 0 <= h < |s| ==> s[h] != 0
    ensures Used(s) == 0 <==> forall h :: 0 <= h < |s| ==> s[h] == 0
  {
    if s != [] {
      UsedAll(s[..|s| - 1]);
    }
  }

  lemma {:induction false} UsedPadded(s: seq<int>, n: nat)
    ensures Used(s + seq(n, _ => 0)) == Used(s) && Top(s + seq(n, _ => 0)) == Top(s)
  {
    var zeros := seq(n, _ => 0);
    if n == 0 {
      assert s + zeros == s;
    } else {
      UsedPadded(s, n - 1);
      assert (s + zeros)[..|s| + n - 1] == s + seq(n - 1, _ => 0);
    }
  }

  // Top is the least bound of the live handles.
  lemma {:induction false} TopBounds(s: seq<int>)
    ensures forall h :: Top(s) <= h < |s| ==> s[h] == 0
    ensures Top(s) <= |s| && (Top(s) > 0 ==> s[Top(s) - 1] != 0)
  {
    if s != [] {
      TopBounds(s[..|s| - 1]);
    }
  }

  lemma TopIs(s: seq<int>, t: nat)
    requires t <= |s| && (t > 0 ==> s[t - 1] != 0) && forall h :: t <= h < |s| ==> s[h] == 0
    ensures Top(s) == t
  {
    TopBounds(s);
  }

  lemma TopStore(s: seq<int>, h: nat, v: int)
    requires h < |s| && v != 0
    ensures Top(s[h := v]) == if h >= Top(s) then h + 1 else Top(s)
  {
    TopBounds(s);
    TopIs(s[h := v], if h >= Top(s) then h + 1 else Top(s));
  }

  // Free slots at the end do not count.
  lemma SameTop(s: seq<int>, t: seq<int>)
    requires forall h: nat :: Slot(s, h) == Slot(t, h)
    ensures Top(s) == Top(t)
  {
    TopBounds(s);
    TopBounds(t);
    if Top(t) > 0 {
      assert Slot(s, Top(t) - 1) == Slot(t, Top(t) - 1);
    }
    if Top(s) > 0 {
      assert Slot(t, Top(s) - 1) == Slot(s, Top(s) - 1);
    }
  }

  class HandleList {
    var slots: array<int>  // the slots; empty while the list pointer is NULL
    var len: nat
    var used: nat

    // pending handles are given out but not stored into yet.
    ghost predicate Valid(pending: nat)
      reads this, slots
    {
      && slots.Length == len && (len == 0 || len >= H_INCR)
      && used == Used(slots[..]) + pending
    }

    constructor ()
      ensures Valid(0) && slots[..] == [] && fresh(slots)
    {
      slots := new int[0];
      len, used := 0, 0;
    }

    method Grow(extra: nat)
      requires slots.Length == len
      modifies this`slots, this`len
      ensures slots.Length == len == old(len) + extra && fresh(slots)
      ensures slots[..] == old(slots[..]) + seq(extra, _ => 0)
    {
      var more := new int[len + extra](_ => 0);
      forall h | 0 <= h < len {
        more[h] := slots[h];
      }
      slots := more;
      len := len + extra;
    }

    // The least free handle; memory says whether the list can be allocated or grown.
    method HAlloc(memory: bool) returns (handle: int)
      requires Valid(0)
      modifies this, slots
      ensures slots == old(slots) || fresh(slots)
      ensures handle < 0 ==> handle == -1 && !memory && unchanged(this) && Valid(0) && Used(slots[..]) == |slots[..]|
      ensures handle >= 0 ==> Valid(1) && handle < |slots[..]| && slots[handle] == 0
      ensures handle >= 0 ==> forall h :: 0 <= h < handle ==> slots[h] != 0
      ensures |slots[..]| == old(|slots[..]|) + if handle >= old(|slots[..]|) then 16 else 0
      ensures slots[..old(slots.Length)] == old(slots[..])
      ensures forall h :: old(|slots[..]|) <= h < |slots[..]| ==> slots[h] == 0
      ensures forall h: nat :: Slot(slots[..], h) == old(Slot(slots[..], h))
      ensures Top(slots[..]) == old(Top(slots[..]))
    {
      ghost var was := slots[..];
      UsedAll(was);
      if len == 0 {
        if !memory {
          return -1;
        }
        Grow(H_INCR);
        UsedPadded(was, H_INCR);
      }
      UsedAll(slots[..]);
      if used < len {
        handle := 0;
        while handle < len
          invariant 0 <= handle <= len
          invariant forall h :: 0 <= h < handle ==> slots[h] != 0
        {
          if slots[handle] == 0 {
            used := used + 1;
            return;
          }
          handle := handle + 1;
        }
        assert false;
      } else {
        handle := len;
        if !memory {
          return -1;
        }
        UsedPadded(slots[..], H_INCR);
        Grow(H_INCR);
        used := used + 1;
      }
    }

    method Store(handle: nat, v: int)
      requires Valid(1) && handle < len && slots[handle] == 0 && v != 0
      modifies slots
      ensures Valid(0) && slots[..] == old(slots[..])[handle := v]
    {
      UsedStore(slots[..], handle, v);
      slots[handle] := v;
    }

    // Gives a handle back, stored into or still pending, and tells one past the greatest that is
    // left.
    method HFree(handle: nat) returns (max: int)
      requires handle < slots.Length && Valid(if slots[handle] != 0 then 0 else 1)
      modifies this, slots
      ensures Valid(0) && (slots == old(slots) || fresh(slots))
      ensures var left := old(slots[..])[handle := 0];
              slots[..] == if forall h :: 0 <= h < |left| ==> left[h] == 0 then [] else left
      ensures forall h: nat :: Slot(slots[..], h) == if h == handle then 0 else old(Slot(slots[..], h))
      ensures max == Top(slots[..])
    {
      UsedStore(slots[..], handle, 0);
      UsedAll(slots[..]);
      slots[handle] := 0;
      used := used - 1;
      UsedAll(slots[..]);
      assert forall h: nat :: Slot(slots[..], h) == if h == handle then 0 else old(Slot(slots[..], h));
      if used == 0 {
        slots := new int[0];
        len := 0;
      }
      if len == 0 {
        return 0;
      }
      var h: int := len;
      if used < len {
        h := len - 1;
        while h >= 0 && slots[h] == 0
          invariant -1 <= h < len && forall k :: h < k < len ==> slots[k] == 0
        {
          h := h - 1;
        }
      }
      TopIs(slots[..], h + 1);
      return h + 1;
    }
  }

  // The table list of utils/sym.c: symMax always is one past the greatest open table.
  class SymTables {
    const sym: HandleList
    var symMax: nat

    ghost predicate Valid()
      reads this, sym, sym.slots
    {
      sym.Valid(0) && symMax == Top(sym.slots[..])
    }

    constructor ()
      ensures Valid() && fresh(sym) && fresh(sym.slots) && symMax == 0
    {
      sym := new HandleList();
      symMax := 0;
    }

    // handles and table say whether the handle list and the table's descriptor can be allocated.
    method SymOpen(tp: int, handles: bool, table: bool) returns (sd: int)
      requires Valid() && tp != 0
      modifies this, sym, sym.slots
      ensures Valid() && (sym.slots == old(sym.slots) || fresh(sym.slots))
      ensures sd < 0 ==> sd == -1 && !(handles && table) && symMax == old(symMax)
      ensures !table ==> sd < 0
      ensures forall h: nat :: Slot(sym.slots[..], h) == if h == sd then tp else old(Slot(sym.slots[..], h))
      ensures sd >= 0 ==> old(Slot(sym.slots[..], sd)) == 0 && forall h: nat :: h < sd ==> old(Slot(sym.slots[..], h)) != 0
    {
      hide Used, Top;
      sd := sym.HAlloc(handles);
      if sd < 0 {
        return;
      }
      if !table {
        symMax := sym.HFree(sd);
        ghost var now, was := sym.slots[..], old(sym.slots[..]);
        SameTop(now, was);
        return -1;
      }
      if sd >= symMax {
        symMax := sd + 1;
      }
      TopStore(sym.slots[..], sd, tp);
      sym.Store(sd, tp);
    }

    method SymClose(sd: nat)
      requires Valid() && sd < symMax && Slot(sym.slots[..], sd) != 0
      modifies this, sym, sym.slots
      ensures Valid() && (sym.slots == old(sym.slots) || fresh(sym.slots))
      ensures forall h: nat :: Slot(sym.slots[..], h) == if h == sd then 0 else old(Slot(sym.slots[..], h))
    {
      var max := sym.HFree(sd);
      symMax := max;
    }
  }
}
