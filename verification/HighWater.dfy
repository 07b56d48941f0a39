/** Counting blocks: what a history of takes and returns says about how many blocks of a class
    were out at once, and how the bytes carved from the arena add up.
  */
module HighWater {
  import opened BlockClasses

  // A block of class q is handed out, or comes back.
  datatype Event = Took(q: nat) | Gave(q: nat)

  function Out(trace: seq<Event>, q: nat): int {
    if trace == [] then 0
    else
      var e := trace[|trace| - 1];
      Out(trace[..|trace| - 1], q) + if e == Took(q) then 1 else if e == Gave(q) then -1 else 0
  }

  // The most blocks of class q that were out at one time.
  function Peak(trace: seq<Event>, q: nat): int {
    if trace == [] then 0
    else
      var before := Peak(trace[..|trace| - 1], q);
      if Out(trace, q) > before then Out(trace, q) else before
  }

  lemma {:induction false} PeakIsTheMaximum(trace: seq<Event>, q: nat)
    ensures forall n :: 0 <= n <= |trace| ==> Out(trace[..n], q) <= Peak(trace, q)
    ensures exists n :: 0 <= n <= |trace| && Out(trace[..n], q) == Peak(trace, q)
  {
    assert trace[..|trace|] == trace;
    if trace == [] {
      assert Out(trace[..0], q) == Peak(trace, q);
    } else {
      var before := trace[..|trace| - 1];
      PeakIsTheMaximum(before, q);
      assert forall n :: 0 <= n < |trace| ==> before[..n] == trace[..n];
      var n :| 0 <= n <= |before| && Out(before[..n], q) == Peak(before, q);
      assert Out(trace[..n], q) == Peak(before, q);
      assert Out(trace[..|trace|], q) <= Peak(trace, q);
    }
  }

  lemma TraceGrows(trace: seq<Event>, e: Event, q: nat)
    ensures Out(trace + [e], q) == Out(trace, q) + if e == Took(q) then 1 else if e == Gave(q) then -1 else 0
    ensures Peak(trace + [e], q) == if Out(trace + [e], q) > Peak(trace, q) then Out(trace + [e], q) else Peak(trace, q)
  {
    assert (trace + [e])[..|trace|] == trace;
  }

  datatype Block = Block(addr: int, cls: nat)

  function Made(carved: seq<Block>, q: nat): nat {
    if carved == [] then 0
    else Made(carved[..|carved| - 1], q) + if carved[|carved| - 1].cls == q then 1 else 0
  }

  // The bytes of the carved blocks of the classes below n.
  function Bill(carved: seq<Block>, header: nat, n: nat): int {
    if n == 0 then 0 else Bill(carved, header, n - 1) + Made(carved, n - 1) * (Capacity(n - 1) + header)
  }

  // The bytes the peak demand for the classes below n takes.
  function PeakCost(trace: seq<Event>, header: nat, n: nat): int {
    if n == 0 then 0 else PeakCost(trace, header, n - 1) + Peak(trace, n - 1) * (Capacity(n - 1) + header)
  }

  lemma MadeGrows(carved: seq<Block>, b: Block, q: nat)
    ensures Made(carved + [b], q) == Made(carved, q) + if b.cls == q then 1 else 0
  {
    assert (carved + [b])[..|carved|] == carved;
  }

  ghost function OfClass(carved: seq<Block>, q: nat): set<nat> {
    set i: nat | i < |carved| && carved[i].cls == q
  }

  lemma {:induction false} MadeIsCount(carved: seq<Block>, q: nat)
    ensures |OfClass(carved, q)| == Made(carved, q)
  {
    if carved == [] {
      assert OfClass(carved, q) == {};
    } else {
      var k := |carved| - 1;
      MadeIsCount(carved[..k], q);
      assert OfClass(carved, q) == OfClass(carved[..k], q) + if carved[k].cls == q then {k} else {};
    }
  }

  ghost function Elements(s: seq<nat>): set<nat> { set x | x in s }

  lemma {:induction false} DistinctCount(s: seq<nat>)
    requires forall i, j :: 0 <= i < j < |s| ==> s[i] != s[j]
    ensures |Elements(s)| == |s|
  {
    if s == [] {
      assert Elements(s) == {};
    } else {
      var k := |s| - 1;
      DistinctCount(s[..k]);
      assert Elements(s) == Elements(s[..k]) + {s[k]};
    }
  }

  lemma {:induction false} BillGrows(carved: seq<Block>, b: Block, header: nat, n: nat)
    ensures Bill(carved + [b], header, n) == Bill(carved, header, n) + if b.cls < n then Capacity(b.cls) + header else 0
  {
    if n > 0 {
      BillGrows(carved, b, header, n - 1);
      MadeGrows(carved, b, n - 1);
      if b.cls == n - 1 {
        assert (Made(carved, n - 1) + 1) * (Capacity(n - 1) + header)
            == Made(carved, n - 1) * (Capacity(n - 1) + header) + (Capacity(n - 1) + header);
      }
    }
  }

  lemma {:induction false} BillOfNone(header: nat, n: nat)
    ensures Bill([], header, n) == 0
  {
    if n > 0 {
      BillOfNone(header, n - 1);
    }
  }

  lemma {:induction false} BillIsPeakCost(carved: seq<Block>, trace: seq<Event>, header: nat, n: nat)
    requires forall q :: 0 <= q < n ==> Made(carved, q) == Peak(trace, q)
    ensures Bill(carved, header, n) == PeakCost(trace, header, n)
  {
    if n > 0 {
      BillIsPeakCost(carved, trace, header, n - 1);
    }
  }
}
