/** Size classes of the block allocator of utils/balloc.c: class q serves requests of up to
    16 * 2^q bytes.
  */
module BlockClasses {
  import opened Powers

  const B_MAX_CLASS := 13
  const MAX_POOLED := 65536  // the largest request that has a queue

  // Bytes a block of class q offers to its owner.
  function Capacity(q: nat): nat { 16 * Pow2(q) }

  lemma CapacityDoubles(q: nat)
    ensures Capacity(0) == 16 && Capacity(q + 1) == 2 * Capacity(q)
  {
  }

  // The number of times mask can be halved before it is zero.
  function Halvings(mask: nat): nat {
    if mask == 0 then 0 else 1 + Halvings(mask / 2)
  }

  function ClassOf(size: nat): nat {
    Halvings(if size == 0 then 0 else (size - 1) / 16)
  }

  const INT_MAX: nat := 0x7FFF_FFFF
  const MAX_REQUEST: nat := 0x4000_0000

  // The program computes the size in an int, which is large enough exactly up to MAX_REQUEST.
  method GetSize(size: nat, header: nat) returns (memSize: nat, q: nat)
    ensures q == ClassOf(size) && memSize == Capacity(q) + header
    ensures header < MAX_REQUEST ==> (memSize <= INT_MAX <==> size <= MAX_REQUEST)
  {
    if header < MAX_REQUEST {
      FitsInt(size, header);
    }
    var mask: nat := if size == 0 then 0 else (size - 1) / 16;
    q := 0;
    var bytes := 16;
    while mask != 0
      invariant q + Halvings(mask) == ClassOf(size) && bytes == Capacity(q)
      decreases mask
    {
      q := q + 1;
      bytes := 2 * bytes;
      mask := mask / 2;
    }
    memSize := bytes + header;
  }

  lemma {:induction false} HalvingsBounds(mask: nat)
    ensures mask < Pow2(Halvings(mask))
    ensures mask > 0 ==> Pow2(Halvings(mask) - 1) <= mask
  {
    if mask > 0 {
      HalvingsBounds(mask / 2);
    }
  }

  lemma {:induction false} HalvingsOfFull(q: nat)
    ensures Halvings(Pow2(q) - 1) == q
  {
    if q > 0 {
      HalvingsOfFull(q - 1);
      assert (Pow2(q) - 1) / 2 == Pow2(q - 1) - 1;
    }
  }

  lemma {:induction false} Pow2Monotone(a: nat, b: nat)
    requires a <= b
    ensures Pow2(a) <= Pow2(b)
  {
    if a < b {
      Pow2Monotone(a, b - 1);
    }
  }

  // The class is the smallest whose blocks are large enough.
  lemma ClassIsSmallestFit(size: nat, q: nat)
    ensures size <= Capacity(q) <==> ClassOf(size) <= q
  {
    var mask := if size == 0 then 0 else (size - 1) / 16;
    HalvingsBounds(mask);
    var c := ClassOf(size);
    if c <= q {
      Pow2Monotone(c, q);
    } else {
      Pow2Monotone(q, c - 1);
    }
  }

  // The queues serve requests of up to 65536 bytes.
  lemma PooledSizes(size: nat)
    ensures ClassOf(size) < 13 == B_MAX_CLASS <==> size <= 65536 == MAX_POOLED
  {
    assert Pow2(6) == 64;
    assert Capacity(12) == 65536;
    ClassIsSmallestFit(size, 12);
  }

  lemma FitsInt(size: nat, header: nat)
    requires header < MAX_REQUEST
    ensures Capacity(ClassOf(size)) + header <= 0x7FFF_FFFF == INT_MAX <==> size <= 0x4000_0000 == MAX_REQUEST
  {
    var q := ClassOf(size);
    assert Pow2(13) == 8192;
    assert Pow2(26) == 67108864;
    ClassIsSmallestFit(size, 26);
    hide ClassOf;
    if q <= 26 {
      Pow2Monotone(q, 26);
    } else {
      Pow2Monotone(27, q);
    }
  }

  // Freeing looks the class up again from the size noted in the header: it finds the class the
  // block was made for.
  lemma ClassOfCapacity(q: nat)
    ensures ClassOf(Capacity(q)) == q
  {
    HalvingsOfFull(q);
    assert (Capacity(q) - 1) / 16 == Pow2(q) - 1;
  }
}
