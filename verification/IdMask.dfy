/** The four 32-bit words in which module/voice/voice_core.c keeps the record ids in use. */
module IdMask {
  function Place(k: nat): bv32
    requires k < 32
  {
    (k as bv5) as bv32
  }

  function One(k: bv32): bv32
    requires k < 32
  {
    (1 as bv32) << k
  }

  // The mask of bit k is 1 shifted k times.
  lemma OneDoubles(k: bv32)
    requires k < 31
    ensures One(0) == 1 && One(k + 1) == One(k) + One(k)
  {
  }

  predicate Meet(a: bv32, b: bv32) { a & b != 0 }

  function Join(w: bv32, a: bv32): bv32 { w | a }

  function Strip(w: bv32, a: bv32): bv32 { w & !a }

  predicate BitIn(w: bv32, k: bv32) {
    k < 32 && Meet(w, One(k))
  }

  function SetIn(w: bv32, k: bv32): bv32
    requires k < 32
  {
    Join(w, One(k))
  }

  function ClearIn(w: bv32, k: bv32): bv32
    requires k < 32
  {
    Strip(w, One(k))
  }

  lemma OnesApart(k: bv32, j: bv32)
    requires k < 32 && j < 32
    ensures k != j ==> !Meet(One(k), One(j))
  {
  }

  lemma OneNotZero(k: bv32)
    requires k < 32
    ensures One(k) != 0
  {
  }

  lemma Own(w: bv32, a: bv32)
    requires a != 0
    ensures Meet(Join(w, a), a) && !Meet(Strip(w, a), a)
  {
  }

  lemma SetOther(w: bv32, a: bv32, b: bv32)
    requires !Meet(a, b)
    ensures Meet(Join(w, a), b) == Meet(w, b)
  {
  }

  lemma ClearOther(w: bv32, a: bv32, b: bv32)
    requires !Meet(a, b)
    ensures Meet(Strip(w, a), b) == Meet(w, b)
  {
  }

  lemma WordBit(w: bv32, k: bv32, j: bv32)
    requires k < 32 && j < 32
    ensures BitIn(SetIn(w, k), j) <==> j == k || BitIn(w, j)
    ensures BitIn(ClearIn(w, k), j) <==> j != k && BitIn(w, j)
  {
    OneNotZero(k);
    OnesApart(k, j);
    hide One, Meet, Join, Strip;
    if k == j {
      Own(w, One(k));
    } else {
      SetOther(w, One(k), One(j));
      ClearOther(w, One(k), One(j));
    }
  }

  lemma PlaceBack(k: nat)
    requires k < 32
    ensures (k as bv5) as int == k
  {
  }

  lemma Widens(a: bv5, b: bv5)
    ensures a as bv32 == b as bv32 <==> a == b
  {
  }

  lemma PlaceSmall(k: nat)
    requires k < 32
    ensures Place(k) < 32
  {
  }

  lemma PlacesApart(k: nat, j: nat)
    requires k < 32 && j < 32
    ensures Place(k) == Place(j) <==> k == j
  {
    PlaceBack(k);
    PlaceBack(j);
    Widens(k as bv5, j as bv5);
  }

  // JRD_VOICE_ID_MASK_BIT_SET
  predicate Bit(words: seq<bv32>, id: nat)
    requires |words| == 4 && id < 128
  {
    BitIn(words[id / 32], Place(id % 32))
  }

  function Set(words: seq<bv32>, id: nat): seq<bv32>
    requires |words| == 4 && id < 128
  {
    PlaceSmall(id % 32);
    words[id / 32 := SetIn(words[id / 32], Place(id % 32))]
  }

  function Clear(words: seq<bv32>, id: nat): seq<bv32>
    requires |words| == 4 && id < 128
  {
    PlaceSmall(id % 32);
    words[id / 32 := ClearIn(words[id / 32], Place(id % 32))]
  }

  // An id has its bit in the word it is divided to, and no other word changes.
  lemma OnlyThatWord(words: seq<bv32>, id: nat, w: nat)
    requires |words| == 4 && id < 128 && w < 4
    ensures Place(id % 32) < 32
    ensures Set(words, id)[w] == if w == id / 32 then SetIn(words[w], Place(id % 32)) else words[w]
    ensures Clear(words, id)[w] == if w == id / 32 then ClearIn(words[w], Place(id % 32)) else words[w]
  {
    PlaceSmall(id % 32);
    hide SetIn, ClearIn, Place;
  }

  // Setting or clearing one id leaves every other alone.
  lemma OnlyThatBit(words: seq<bv32>, id: nat, j: nat)
    requires |words| == 4 && id < 128 && j < 128
    ensures Bit(Set(words, id), j) <==> j == id || Bit(words, j)
    ensures Bit(Clear(words, id), j) <==> j != id && Bit(words, j)
  {
    hide BitIn, SetIn, ClearIn, Place;
    var k, i := id % 32, j % 32;
    PlaceSmall(k);
    PlaceSmall(i);
    PlacesApart(k, i);
    WordBit(words[id / 32], Place(k), Place(i));
  }

  lemma EmptyMask(words: seq<bv32>, j: nat)
    requires |words| == 4 && j < 128 && forall i :: 0 <= i < 4 ==> words[i] == 0
    ensures !Bit(words, j)
  {
    assert words[j / 32] == 0;
    hide Place;
  }
}
