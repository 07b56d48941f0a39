/** The call-record index of module/voice/voice_core.c: one list of all records, one list per call
    type whose entries point into it, and a mask of the ids in use.

    All four lists are ascending LTE lists whose entries all have weight 0, so a push appends;
    they are fields here, and a removal takes one entry out and keeps the order.
  */
module VoiceRecords {
  import opened IdMask
  import Edits
  import OrderedSpec

  const MAX_NUM := 100

  datatype CallType = Unknown | Incoming | Outgoing | Missed

  class Record {
    const id: nat
    const callType: CallType

    constructor (id: nat, callType: CallType)
      ensures this.id == id && this.callType == callType
    {
      this.id, this.callType := id, callType;
    }
  }

  // Among equal weights an LTE push is an append.
  lemma {:induction false} EqualWeightsAppend<T>(s: seq<OrderedSpec.Entry<T>>, e: OrderedSpec.Entry<T>)
    requires e.weight == 0 && forall i :: 0 <= i < |s| ==> s[i].weight == 0
    ensures OrderedSpec.Insert(OrderedSpec.Kind(OrderedSpec.Ascending, OrderedSpec.Lte), s, e) == s + [e]
  {
    if s != [] {
      EqualWeightsAppend(s[1..], e);
    }
  }

  /// Lists

  function OfType(s: seq<Record>, t: CallType): seq<Record> {
    if s == [] then []
    else OfType(s[..|s| - 1], t) + if s[|s| - 1].callType == t then [s[|s| - 1]] else []
  }

  function Without(s: seq<Record>, x: Record): seq<Record> {
    if s == [] then []
    else Without(s[..|s| - 1], x) + if s[|s| - 1] == x then [] else [s[|s| - 1]]
  }

  lemma {:induction false} OfTypeWithout(s: seq<Record>, x: Record, t: CallType)
    ensures OfType(Without(s, x), t) == Without(OfType(s, t), x)
  {
    if s != [] {
      var n := |s| - 1;
      OfTypeWithout(s[..n], x, t);
      var w, o := Without(s[..n], x), OfType(s[..n], t);
      assert w + [] == w && Without(o, x) + [] == Without(o, x);
      if s[n] != x {
        assert (w + [s[n]])[..|w|] == w;
      }
      if s[n].callType == t {
        assert (o + [s[n]])[..|o|] == o;
      } else {
        assert o + [] == o && OfType(w, t) + [] == OfType(w, t);
      }
    }
  }

  lemma {:induction false} InOfType(s: seq<Record>, t: CallType)
    ensures forall x :: x in OfType(s, t) <==> x in s && x.callType == t
  {
    if s != [] {
      InOfType(s[..|s| - 1], t);
    }
  }

  lemma {:induction false} TypedIn(s: seq<Record>, t: CallType, x: Record)
    requires x in OfType(s, t)
    ensures x in s && x.callType == t
  {
    var n := |s| - 1;
    if x in OfType(s[..n], t) {
      TypedIn(s[..n], t, x);
    }
  }

  lemma {:induction false} InWithout(s: seq<Record>, x: Record)
    ensures forall y :: y in Without(s, x) <==> y in s && y != x
  {
    if s != [] {
      InWithout(s[..|s| - 1], x);
    }
  }

  // Taking the only occurrence of x out.
  lemma {:induction false} WithoutIs(s: seq<Record>, i: nat)
    requires i < |s| && forall j :: 0 <= j < |s| && j != i ==> s[j] != s[i]
    ensures Without(s, s[i]) == s[..i] + s[i + 1..]
  {
    var n := |s| - 1;
    if i == n {
      WithoutNone(s[..n], s[n]);
    } else {
      WithoutIs(s[..n], i);
      assert s[..n][i + 1..] + [s[n]] == s[i + 1..];
    }
  }

  lemma {:induction false} WithoutNone(s: seq<Record>, x: Record)
    requires x !in s
    ensures Without(s, x) == s
  {
    if s != [] {
      WithoutNone(s[..|s| - 1], x);
    }
  }

  ghost predicate Unique(s: seq<Record>) {
    forall i, j :: 0 <= i < j < |s| ==> s[i].id != s[j].id
  }

  // Every known record is on exactly one of the three lists.
  lemma {:induction false} ThreeKinds(s: seq<Record>)
    requires forall x :: x in s ==> x.callType != Unknown
    ensures |s| == |OfType(s, Missed)| + |OfType(s, Incoming)| + |OfType(s, Outgoing)|
  {
    if s != [] {
      assert forall x :: x in s[..|s| - 1] ==> x in s;
      ThreeKinds(s[..|s| - 1]);
    }
  }

  ghost function Ids(s: seq<Record>): set<nat> {
    if s == [] then {} else Ids(s[..|s| - 1]) + {s[|s| - 1].id}
  }

  lemma {:induction false} InIds(s: seq<Record>, k: nat)
    ensures k in Ids(s) <==> exists i :: 0 <= i < |s| && s[i].id == k
  {
    if s != [] {
      InIds(s[..|s| - 1], k);
    }
  }

  lemma {:induction false} IdCount(s: seq<Record>)
    requires Unique(s)
    ensures |Ids(s)| == |s|
  {
    if s != [] {
      var r := s[..|s| - 1];
      IdCount(r);
      InIds(r, s[|s| - 1].id);
    }
  }

  ghost function UpTo(n: nat): (s: set<nat>)
    ensures forall k :: k in s <==> 1 <= k <= n
  {
    if n == 0 then {} else UpTo(n - 1) + {n}
  }

  lemma {:induction false} UpToCount(n: nat)
    ensures |UpTo(n)| == n
  {
    if n > 0 {
      UpToCount(n - 1);
    }
  }

  lemma SubsetCount(a: set<nat>, b: set<nat>)
    requires a <= b
    ensures |a| <= |b| && (|a| == |b| ==> a == b)
  {
    assert b == a + (b - a);
    assert |b| == |a| + |b - a|;
  }

  // All of 1..100 are in use exactly when there are 100 records.
  lemma AllIdsUsed(s: seq<Record>)
    requires Unique(s) && forall x :: x in s ==> 1 <= x.id <= MAX_NUM
    ensures |s| <= MAX_NUM
    ensures |s| == MAX_NUM <==> forall k :: 1 <= k <= MAX_NUM ==> k in Ids(s)
  {
    IdCount(s);
    UpToCount(MAX_NUM);
    assert Ids(s) <= UpTo(MAX_NUM) by {
      forall k | k in Ids(s) ensures k in UpTo(MAX_NUM) {
        InIds(s, k);
        var i :| 0 <= i < |s| && s[i].id == k;
        assert s[i] in s;
      }
    }
    SubsetCount(Ids(s), UpTo(MAX_NUM));
    if forall k :: 1 <= k <= MAX_NUM ==> k in Ids(s) {
      assert UpTo(MAX_NUM) <= Ids(s);
      SubsetCount(UpTo(MAX_NUM), Ids(s));
    }
  }

  // A new record with an unused id keeps the lists consistent.
  lemma AddConsistent(total: seq<Record>, missed: seq<Record>, incoming: seq<Record>, outgoing: seq<Record>, x: Record)
    requires Consistent(total, missed, incoming, outgoing)
    requires x.callType != Unknown && 1 <= x.id <= MAX_NUM && x.id !in Ids(total)
    ensures Consistent(total + [x],
                       if x.callType == Missed then missed + [x] else missed,
                       if x.callType == Incoming then incoming + [x] else incoming,
                       if x.callType == Outgoing then outgoing + [x] else outgoing)
    ensures Ids(total + [x]) == Ids(total) + {x.id}
  {
    var all := total + [x];
    assert all[..|total|] == total;
    InIds(total, x.id);
    assert forall i :: 0 <= i < |total| ==> all[i] == total[i];
    assert missed + [] == missed && incoming + [] == incoming && outgoing + [] == outgoing;
    assert all[|total|] == x;
  }

  lemma RemoveConsistent(total: seq<Record>, missed: seq<Record>, incoming: seq<Record>, outgoing: seq<Record>, x: Record)
    requires Consistent(total, missed, incoming, outgoing) && x in total
    ensures Consistent(Without(total, x), Without(missed, x), Without(incoming, x), Without(outgoing, x))
    ensures Ids(Without(total, x)) == Ids(total) - {x.id}
  {
    hide Without, OfType, Unique, Ids;
    WithoutUnique(total, x);
    InWithout(total, x);
    OfTypeWithout(total, x, Missed);
    OfTypeWithout(total, x, Incoming);
    OfTypeWithout(total, x, Outgoing);
    assert Unique(Without(total, x));
    assert forall y :: y in Without(total, x) ==> y in total && 1 <= y.id <= MAX_NUM && y.callType != Unknown;
    assert Without(missed, x) == OfType(Without(total, x), Missed);
  }

  lemma IdAt(s: seq<Record>, k: nat) returns (i: nat)
    requires k in Ids(s)
    ensures i < |s| && s[i].id == k
  {
    InIds(s, k);
    i :| i < |s| && s[i].id == k;
  }

  lemma HasId(s: seq<Record>, i: nat)
    requires i < |s|
    ensures s[i].id in Ids(s)
  {
    InIds(s, s[i].id);
  }

  lemma CutUnique(s: seq<Record>, i: nat, r: seq<Record>)
    requires Unique(s) && Edits.Removed(s, i, r)
    ensures Unique(r) && Ids(r) == Ids(s) - {s[i].id}
  {
    hide Ids;
    forall k: nat | k in Ids(r) ensures k in Ids(s) && k != s[i].id {
      var j := IdAt(r, k);
      HasId(s, if j < i then j else j + 1);
    }
    forall k: nat | k in Ids(s) && k != s[i].id ensures k in Ids(r) {
      var j := IdAt(s, k);
      HasId(r, if j < i then j else j - 1);
    }
  }

  lemma WithoutUnique(s: seq<Record>, x: Record)
    requires Unique(s) && x in s
    ensures Unique(Without(s, x)) && Ids(Without(s, x)) == Ids(s) - {x.id}
  {
    hide Ids, Without;
    var i :| 0 <= i < |s| && s[i] == x;
    WithoutIs(s, i);
    hide Unique;
    CutUnique(s, i, s[..i] + s[i + 1..]);
  }

  datatype ListName = Total | OfMissed | OfIncoming | OfOutgoing

  class VoiceData {
    var total: seq<Record>
    var missed: seq<Record>
    var incoming: seq<Record>
    var outgoing: seq<Record>
    const idMask: array<bv32>

    ghost predicate Valid()
      reads this, idMask
    {
      && Consistent(total, missed, incoming, outgoing) && idMask.Length == 4 && MaskAgrees(total, idMask[..])
    }

    constructor ()
      ensures Valid() && fresh(idMask) && total == missed == incoming == outgoing == []
    {
      total, missed, incoming, outgoing := [], [], [], [];
      idMask := new bv32[4](_ => 0);
      new;
      forall k: nat | k < 128 ensures !Bit(idMask[..], k) {
        EmptyMask(idMask[..], k);
      }
    }

    // The first id that is free, or 100 if none below it is.
    method FreeId() returns (id: nat)
      requires idMask.Length == 4
      ensures 1 <= id <= MAX_NUM
      ensures forall k :: 1 <= k < id ==> Bit(idMask[..], k)
      ensures id < MAX_NUM ==> !Bit(idMask[..], id)
    {
      id := 1;
      while Bit(idMask[..], id)
        invariant 1 <= id < MAX_NUM && forall k :: 1 <= k < id ==> Bit(idMask[..], k)
        decreases MAX_NUM - id
      {
        id := id + 1;
        if id >= MAX_NUM {
          break;
        }
      }
    }

    method SetBit(id: nat)
      requires idMask.Length == 4 && id < 128
      modifies idMask
      ensures forall k: nat :: k < 128 ==> (Bit(idMask[..], k) <==> k == id || old(Bit(idMask[..], k)))
    {
      ghost var words := idMask[..];
      PlaceSmall(id % 32);
      idMask[id / 32] := SetIn(idMask[id / 32], Place(id % 32));
      assert idMask[..] == Set(words, id);
      forall k: nat | k < 128 ensures Bit(Set(words, id), k) <==> k == id || Bit(words, k) {
        OnlyThatBit(words, id, k);
      }
    }

    method ClearBit(id: nat)
      requires idMask.Length == 4 && id < 128
      modifies idMask
      ensures forall k: nat :: k < 128 ==> (Bit(idMask[..], k) <==> k != id && old(Bit(idMask[..], k)))
    {
      ghost var words := idMask[..];
      PlaceSmall(id % 32);
      idMask[id / 32] := ClearIn(idMask[id / 32], Place(id % 32));
      assert idMask[..] == Clear(words, id);
      forall k: nat | k < 128 ensures Bit(Clear(words, id), k) <==> k != id && Bit(words, k) {
        OnlyThatBit(words, id, k);
      }
    }

    // Drops records from the front of the total list, and nowhere else.
    method RecordLimit(limit: nat)
      modifies this`total
      ensures total == if |old(total)| > limit then old(total)[|old(total)| - limit..] else old(total)
    {
      while |total| > limit
        invariant |total| <= |old(total)| && total == old(total)[|old(total)| - |total|..]
        invariant |old(total)| > limit ==> |total| >= limit
        invariant |old(total)| <= limit ==> total == old(total)
      {
        total := total[1..];
      }
    }

    // A new record of the given type, with the first free id, which is taken.  With 99 or fewer records and a known type everything
    // stays consistent; a known type with 100 records, or an unknown type with fewer, breaks it.
    method AddRecord(callType: CallType) returns (ghost node: Record?, ghost taken: nat)
      requires Valid()
      modifies this, idMask
      ensures Valid() <==> (callType == Unknown <==> old(|total|) == MAX_NUM)
      ensures 1 <= taken <= MAX_NUM && (taken < MAX_NUM ==> !old(Bit(idMask[..], taken)))
      ensures forall k :: 1 <= k < taken ==> old(Bit(idMask[..], k))
      ensures forall k: nat :: k < 128 ==> (Bit(idMask[..], k) <==> k == taken || old(Bit(idMask[..], k)))
      ensures node != null <==> callType != Unknown
      ensures node == null ==> unchanged(this)
      ensures node != null ==>
                && fresh(node) && node.callType == callType && node.id == taken && (node.id in Ids(old(total)) <==> old(|total|) == MAX_NUM)
                && total == (if old(|total|) < MAX_NUM then old(total) else old(total)[1..]) + [node]
                && missed == (if callType == Missed then old(missed) + [node] else old(missed))
                && incoming == (if callType == Incoming then old(incoming) + [node] else old(incoming))
                && outgoing == (if callType == Outgoing then old(outgoing) + [node] else old(outgoing))
    {
      hide Consistent, MaskAgrees, Bit, Unique, Ids, OfType, Set, Clear;
      node := null;
      ghost var was, m, i, o := total, missed, incoming, outgoing;
      AtMost(total, missed, incoming, outgoing);
      var id := FreeId();
      taken := id;
      Leftover(total, missed, incoming, outgoing, idMask[..], id);
      ghost var words := idMask[..];
      SetBit(id);
      ghost var words' := idMask[..];
      MaskAdd(was, words, words', id);
      if callType == Unknown {
        return;
      }
      var x := new Record(id, callType);
      node := x;
      assert x !in was;
      total := total + [x];
      match callType {
        case Missed => missed := missed + [x];
        case Incoming => incoming := incoming + [x];
        case Outgoing => outgoing := outgoing + [x];
      }
      RecordLimit(MAX_NUM);
      if |was| < MAX_NUM {
        AddConsistent(was, m, i, o, x);
        MaskFollows(was, words, words', id, total);
        assert idMask[..] == words';
      } else {
        assert (was + [x])[1..] == was[1..] + [x];
        Orphan(was, m, i, o, x);
      }
    }

    // The first record with the id on a list.
    method FindId(s: seq<Record>, id: int) returns (at: int)
      ensures -1 <= at < |s|
      ensures at >= 0 ==> s[at].id == id
      ensures at < 0 ==> forall i :: 0 <= i < |s| ==> s[i].id != id
    {
      at := 0;
      while at < |s|
        invariant 0 <= at <= |s| && forall i :: 0 <= i < at ==> s[i].id != id
      {
        if s[at].id == id {
          return;
        }
        at := at + 1;
      }
      return -1;
    }

    // The entry of a list that points to the given record.
    method FindMember(s: seq<Record>, x: Record) returns (at: int)
      ensures -1 <= at < |s|
      ensures at >= 0 ==> s[at] == x
      ensures at < 0 ==> x !in s
    {
      at := 0;
      while at < |s|
        invariant 0 <= at <= |s| && x !in s[..at]
      {
        if s[at] == x {
          return;
        }
        at := at + 1;
      }
      return -1;
    }

    ghost function ListOf(name: ListName): seq<Record>
      reads this
    {
      match name
      case Total => total
      case OfMissed => missed
      case OfIncoming => incoming
      case OfOutgoing => outgoing
    }

    // Takes an entry out of the list of the given name.
    method PopItem(name: ListName, at: nat)
      requires at < |ListOf(name)|
      modifies this
      ensures var cut := old(ListOf(name)[..at] + ListOf(name)[at + 1..]);
              && total == (if name == Total then cut else old(total))
              && missed == (if name == OfMissed then cut else old(missed))
              && incoming == (if name == OfIncoming then cut else old(incoming))
              && outgoing == (if name == OfOutgoing then cut else old(outgoing))
    {
      match name
      case Total => total := total[..at] + total[at + 1..];
      case OfMissed => missed := missed[..at] + missed[at + 1..];
      case OfIncoming => incoming := incoming[..at] + incoming[at + 1..];
      case OfOutgoing => outgoing := outgoing[..at] + outgoing[at + 1..];
    }

    // The four counts reported to the user.
    method RecordCounts() returns (totalCount: nat, missedCount: nat, incomingCount: nat, outgoingCount: nat)
      requires Valid()
      ensures totalCount == |total| && missedCount == |missed| && incomingCount == |incoming| && outgoingCount == |outgoing|
      ensures totalCount == missedCount + incomingCount + outgoingCount
    {
      totalCount, missedCount, incomingCount, outgoingCount := |total|, |missed|, |incoming|, |outgoing|;
      ThreeKinds(total);
    }

    // Deletes the record with the given id through any of the four lists; tells whether the list
    // had it.
    method DeleteRecord(list: ListName, id: int) returns (ok: bool)
      requires Valid()
      modifies this, idMask
      ensures Valid()
      ensures !ok ==> unchanged(this) && unchanged(idMask)
      ensures var s := old(match list case Total => total case OfMissed => missed case OfIncoming => incoming case OfOutgoing => outgoing);
              ok <==> exists i :: 0 <= i < |s| && s[i].id == id
      ensures ok ==> exists x :: x in old(total) && x.id == id
                                 && total == Without(old(total), x) && missed == Without(old(missed), x)
                                 && incoming == Without(old(incoming), x) && outgoing == Without(old(outgoing), x)
      ensures ok ==> forall k: nat :: k < 128 ==> (Bit(idMask[..], k) <==> k != id && old(Bit(idMask[..], k)))
    {
      hide Consistent, MaskAgrees, Bit, Unique, Ids, OfType, Without, Set, Clear;
      ghost var was, m, i, o, words := total, missed, incoming, outgoing, idMask[..];
      var s := match list case Total => total case OfMissed => missed case OfIncoming => incoming case OfOutgoing => outgoing;
      var at := FindId(s, id);
      if at < 0 {
        return false;
      }
      var x := s[at];
      Entry(was, m, i, o, list, x);
      if list == Total {
        var other := match x.callType case Incoming => OfIncoming case Outgoing => OfOutgoing case _ => OfMissed;
        var entry := FindMember(match other case OfIncoming => incoming case OfOutgoing => outgoing case _ => missed, x);
        PopItem(other, entry);
        PopItem(Total, at);
        TakenOut(was, m, i, o, x, at, entry);
      } else {
        var entry := FindMember(total, x);
        PopItem(Total, entry);
        PopItem(list, at);
        TakenOut(was, m, i, o, x, entry, at);
      }
      RemoveConsistent(was, m, i, o, x);
      assert idMask[..] == words;
      ClearBit(x.id);
      MaskLess(was, words, idMask[..], x.id, total);
      ok := true;
    }
  }

  function Select(name: ListName, total: seq<Record>, missed: seq<Record>, incoming: seq<Record>, outgoing: seq<Record>): seq<Record> {
    match name
    case Total => total
    case OfMissed => missed
    case OfIncoming => incoming
    case OfOutgoing => outgoing
  }

  // The list of a call type.
  function NameOf(t: CallType): ListName {
    match t
    case Incoming => OfIncoming
    case Outgoing => OfOutgoing
    case _ => OfMissed
  }

  // What is known of a record found on some list.
  lemma Entry(total: seq<Record>, missed: seq<Record>, incoming: seq<Record>, outgoing: seq<Record>, name: ListName, x: Record)
    requires Consistent(total, missed, incoming, outgoing) && x in Select(name, total, missed, incoming, outgoing)
    ensures x in total && 1 <= x.id <= MAX_NUM && x.callType != Unknown
    ensures x in Select(NameOf(x.callType), total, missed, incoming, outgoing)
    ensures name == Total || name == NameOf(x.callType)
  {
    InOfType(total, Missed);
    InOfType(total, Incoming);
    InOfType(total, Outgoing);
    hide OfType;
  }

  lemma OnlyOnce(s: seq<Record>, at: nat)
    requires at < |s| && forall i :: 0 <= i < |s| && i != at ==> s[i] != s[at]
    ensures s[..at] + s[at + 1..] == Without(s, s[at])
  {
    WithoutIs(s, at);
  }

  lemma {:induction false} OfTypeUnique(s: seq<Record>, t: CallType)
    requires Unique(s)
    ensures Unique(OfType(s, t))
  {
    if s != [] {
      var r := s[..|s| - 1];
      OfTypeUnique(r, t);
      InOfType(r, t);
      forall i | 0 <= i < |OfType(r, t)| ensures OfType(r, t)[i].id != s[|s| - 1].id {
        var x := OfType(r, t)[i];
        assert x in OfType(r, t);
        TypedIn(r, t, x);
      }
    }
  }

  // Unlinking the one entry of x from the total list and from the list of its type takes x out
  // of all four lists.
  lemma TakenOut(total: seq<Record>, missed: seq<Record>, incoming: seq<Record>, outgoing: seq<Record>, x: Record, at: nat, entry: nat)
    requires Consistent(total, missed, incoming, outgoing)
    requires at < |total| && total[at] == x
    requires var own := Select(NameOf(x.callType), total, missed, incoming, outgoing);
             entry < |own| && own[entry] == x
    ensures total[..at] + total[at + 1..] == Without(total, x)
    ensures Without(missed, x) == if x.callType == Missed then missed[..entry] + missed[entry + 1..] else missed
    ensures Without(incoming, x) == if x.callType == Incoming then incoming[..entry] + incoming[entry + 1..] else incoming
    ensures Without(outgoing, x) == if x.callType == Outgoing then outgoing[..entry] + outgoing[entry + 1..] else outgoing
  {
    assert x in total;
    Entry(total, missed, incoming, outgoing, Total, x);
    OnlyOnce(total, at);
    OneList(total, x, Missed, entry);
    OneList(total, x, Incoming, entry);
    OneList(total, x, Outgoing, entry);
  }

  lemma OneList(total: seq<Record>, x: Record, t: CallType, entry: nat)
    requires Unique(total) && (x.callType == t ==> entry < |OfType(total, t)| && OfType(total, t)[entry] == x)
    ensures var s := OfType(total, t);
            Without(s, x) == if x.callType == t then s[..entry] + s[entry + 1..] else s
  {
    var s := OfType(total, t);
    if x.callType == t {
      OfTypeUnique(total, t);
      OnlyOnce(s, entry);
    } else {
      if x in s {
        TypedIn(total, t, x);
      }
      WithoutNone(s, x);
    }
  }

  lemma AtMost(total: seq<Record>, missed: seq<Record>, incoming: seq<Record>, outgoing: seq<Record>)
    requires Consistent(total, missed, incoming, outgoing)
    ensures |total| <= MAX_NUM
  {
    AllIdsUsed(total);
  }

  lemma AllUsed(total: seq<Record>, missed: seq<Record>, incoming: seq<Record>, outgoing: seq<Record>)
    requires Consistent(total, missed, incoming, outgoing)
    ensures |total| == MAX_NUM <==> forall k :: 1 <= k <= MAX_NUM ==> k in Ids(total)
  {
    AllIdsUsed(total);
  }

  lemma UsedBit(total: seq<Record>, words: seq<bv32>, k: nat)
    requires MaskAgrees(total, words) && k < 128
    ensures |words| == 4 && (Bit(words, k) <==> k in Ids(total))
  {
    hide Bit, Ids;
  }

  // The id found is free unless there are already 100 records.
  lemma Leftover(total: seq<Record>, missed: seq<Record>, incoming: seq<Record>, outgoing: seq<Record>, words: seq<bv32>, id: nat)
    requires Consistent(total, missed, incoming, outgoing) && MaskAgrees(total, words)
    requires 1 <= id <= MAX_NUM && (forall k :: 1 <= k < id ==> Bit(words, k)) && (id < MAX_NUM ==> !Bit(words, id))
    ensures id in Ids(total) <==> |total| == MAX_NUM
  {
    hide Bit, Ids, Consistent, MaskAgrees;
    AllUsed(total, missed, incoming, outgoing);
    UsedBit(total, words, id);
    if id in Ids(total) {
      forall k: nat | 1 <= k <= MAX_NUM ensures k in Ids(total) {
        UsedBit(total, words, k);
      }
    }
  }

  // The mask with one more id fits the same records only if they had it already.
  lemma MaskAdd(total: seq<Record>, words: seq<bv32>, words': seq<bv32>, id: nat)
    requires MaskAgrees(total, words) && |words'| == 4 && id < 128
    requires forall k: nat :: k < 128 ==> (Bit(words', k) <==> k == id || Bit(words, k))
    ensures MaskAgrees(total, words') <==> id in Ids(total)
  {
    hide Bit, Ids;
    assert Bit(words', id);
  }

  lemma MaskFollows(total: seq<Record>, words: seq<bv32>, words': seq<bv32>, id: nat, more: seq<Record>)
    requires MaskAgrees(total, words) && |words'| == 4 && id < 128 && Ids(more) == Ids(total) + {id}
    requires forall k: nat :: k < 128 ==> (Bit(words', k) <==> k == id || Bit(words, k))
    ensures MaskAgrees(more, words')
  {
    hide Bit, Ids;
  }

  lemma MaskLess(total: seq<Record>, words: seq<bv32>, words': seq<bv32>, id: nat, fewer: seq<Record>)
    requires MaskAgrees(total, words) && |words'| == 4 && id < 128 && Ids(fewer) == Ids(total) - {id}
    requires forall k: nat :: k < 128 ==> (Bit(words', k) <==> k != id && Bit(words, k))
    ensures MaskAgrees(fewer, words')
  {
    hide Bit, Ids;
  }

  // The first of 100 records drops off the total list when another comes, but stays on the list
  // of its type.
  lemma Orphan(total: seq<Record>, missed: seq<Record>, incoming: seq<Record>, outgoing: seq<Record>, x: Record)
    requires Consistent(total, missed, incoming, outgoing) && total != [] && x !in total
    ensures !Consistent(total[1..] + [x],
                        if x.callType == Missed then missed + [x] else missed,
                        if x.callType == Incoming then incoming + [x] else incoming,
                        if x.callType == Outgoing then outgoing + [x] else outgoing)
  {
    var first, t := total[0], total[0].callType;
    var rest := total[1..] + [x];
    assert first in total;
    InOfType(total, t);
    InOfType(rest, t);
    hide OfType;
    assert first in OfType(total, t) && first !in rest;
  }

  // The lists per type hold exactly the records of the total list of that type, in its order;
  // ids are unique and within 1..100.
  ghost predicate Consistent(total: seq<Record>, missed: seq<Record>, incoming: seq<Record>, outgoing: seq<Record>) {
    && Unique(total)
    && (forall x :: x in total ==> 1 <= x.id <= MAX_NUM && x.callType != Unknown)
    && missed == OfType(total, Missed)
    && incoming == OfType(total, Incoming)
    && outgoing == OfType(total, Outgoing)
  }

  // The mask has exactly the ids of the records.
  ghost predicate MaskAgrees(total: seq<Record>, words: seq<bv32>) {
    |words| == 4 && forall k: nat :: k < 128 ==> (Bit(words, k) <==> k in Ids(total))
  }

  // A call of unknown type takes an id but no record: the mask no longer fits.
  method UnknownBreaks() returns (data: VoiceData)
    ensures data.total == [] && !data.Valid()
  {
    data := new VoiceData();
    ghost var _, _ := data.AddRecord(Unknown);
  }

  // A hundred missed calls fill the index; the next one breaks it.
  method OneTooMany() returns (data: VoiceData)
    ensures |data.total| == 100 && |data.missed| == 101 && !data.Valid()
  {
    hide VoiceData.Valid;
    data := new VoiceData();
    var n := 0;
    while n < MAX_NUM
      invariant 0 <= n <= MAX_NUM && data.Valid() && fresh(data) && fresh(data.idMask)
      invariant |data.total| == |data.missed| == n
    {
      ghost var _, _ := data.AddRecord(Missed);
      n := n + 1;
    }
    ghost var _, _ := data.AddRecord(Missed);
  }
}
