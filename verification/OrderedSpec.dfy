/** What an ordered list holds, as a value.

    An entry is an item with the weight it was pushed with and the number of the push (its
    stamp).  The four list types differ in two tests, and the same two tests drive every
    operation: Passes decides where a push stops, StaysAhead decides who comes first in a
    merge.  The tie rules of the two are opposite: an LTE push goes behind its equals, while an
    LTE merge puts the second list's equals in front.
  */
module OrderedSpec {
  import Edits

  datatype SortOrder = Ascending | Descending
  datatype TieRule = Slt | Lte
  datatype Kind = Kind(order: SortOrder, tie: TieRule)

  datatype Entry<T> = Entry(item: T, weight: nat, stamp: nat)

  predicate InOrder(order: SortOrder, a: nat, b: nat) {
    if order.Ascending? then a <= b else a >= b
  }

  predicate Strictly(order: SortOrder, a: nat, b: nat) {
    if order.Ascending? then a < b else a > b
  }

  // A push of weight w walks past an item of weight held.
  predicate Passes(k: Kind, held: nat, w: nat) {
    if k.tie.Slt? then Strictly(k.order, held, w) else InOrder(k.order, held, w)
  }

  // In a merge, an item of the first list (weight w1) stays ahead of one of the second (w2).
  predicate StaysAhead(k: Kind, w1: nat, w2: nat) {
    if k.tie.Slt? then InOrder(k.order, w1, w2) else Strictly(k.order, w1, w2)
  }

  // The comparisons of the four list types, as the program writes them.
  lemma FourTypes(a: nat, b: nat)
    ensures Passes(Kind(Ascending, Slt), a, b) <==> a < b
    ensures Passes(Kind(Ascending, Lte), a, b) <==> a <= b
    ensures Passes(Kind(Descending, Slt), a, b) <==> a > b
    ensures Passes(Kind(Descending, Lte), a, b) <==> a >= b
    ensures StaysAhead(Kind(Ascending, Slt), a, b) <==> a <= b
    ensures StaysAhead(Kind(Ascending, Lte), a, b) <==> a < b
    ensures StaysAhead(Kind(Descending, Slt), a, b) <==> a >= b
    ensures StaysAhead(Kind(Descending, Lte), a, b) <==> a > b
  {
  }

  ghost predicate Sorted<T>(k: Kind, s: seq<Entry<T>>) {
    forall i, j :: 0 <= i < j < |s| ==> InOrder(k.order, s[i].weight, s[j].weight)
  }

  ghost predicate OneWeight<T>(s: seq<Entry<T>>) {
    forall i, j :: 0 <= i < j < |s| ==> s[i].weight == s[j].weight
  }

  // What is sorted one way is sorted the other way only if all weights are equal.
  lemma SortedBothWays<T>(k: Kind, k': Kind, s: seq<Entry<T>>)
    requires Sorted(k', s)
    ensures Sorted(k, s) <==> k.order == k'.order || OneWeight(s)
  {
    if Sorted(k, s) && k.order != k'.order {
      forall i, j | 0 <= i < j < |s| ensures s[i].weight == s[j].weight {
        assert InOrder(k.order, s[i].weight, s[j].weight) && InOrder(k'.order, s[i].weight, s[j].weight);
      }
    }
  }

  /// Merging

  function Merge<T>(k: Kind, a: seq<Entry<T>>, b: seq<Entry<T>>): seq<Entry<T>> {
    if a == [] then b
    else if b == [] then a
    else if StaysAhead(k, a[0].weight, b[0].weight) then [a[0]] + Merge(k, a[1..], b)
    else [b[0]] + Merge(k, a, b[1..])
  }

  // The elements of r that src marks as coming from the given side, in order.
  function Pick<T>(r: seq<Entry<T>>, src: seq<bool>, side: bool): seq<Entry<T>>
    requires |src| == |r|
  {
    if r == [] then []
    else (if src[0] == side then [r[0]] else []) + Pick(r[1..], src[1..], side)
  }

  // r is an order-keeping interleaving of a (marked true) and b (marked false) that respects
  // the tie rule between any two elements of different origin.
  ghost predicate InterleavesBy<T>(k: Kind, a: seq<Entry<T>>, b: seq<Entry<T>>, r: seq<Entry<T>>, src: seq<bool>) {
    && |src| == |r|
    && Pick(r, src, true) == a
    && Pick(r, src, false) == b
    && Tied(k, r, src)
  }

  ghost predicate Tied<T>(k: Kind, r: seq<Entry<T>>, src: seq<bool>) {
    && |src| == |r|
    && (forall i, j :: 0 <= i < j < |r| && src[i] && !src[j] ==> StaysAhead(k, r[i].weight, r[j].weight))
    && (forall i, j :: 0 <= i < j < |r| && !src[i] && src[j] ==> !StaysAhead(k, r[j].weight, r[i].weight))
  }

  // Where the elements of Merge come from.
  function Origins<T>(k: Kind, a: seq<Entry<T>>, b: seq<Entry<T>>): (src: seq<bool>)
    ensures |src| == |Merge(k, a, b)|
  {
    if a == [] then seq(|b|, _ => false)
    else if b == [] then seq(|a|, _ => true)
    else if StaysAhead(k, a[0].weight, b[0].weight) then [true] + Origins(k, a[1..], b)
    else [false] + Origins(k, a, b[1..])
  }

  lemma {:induction false} PickAll<T>(r: seq<Entry<T>>, src: seq<bool>, side: bool)
    requires |src| == |r| && forall i :: 0 <= i < |src| ==> src[i] == side
    ensures Pick(r, src, side) == r && Pick(r, src, !side) == []
  {
    if r != [] {
      PickAll(r[1..], src[1..], side);
    }
  }

  lemma {:induction false} PickNone<T>(r: seq<Entry<T>>, src: seq<bool>, side: bool)
    requires |src| == |r| && Pick(r, src, side) == []
    ensures Pick(r, src, !side) == r && forall i :: 0 <= i < |src| ==> src[i] != side
  {
    if r != [] {
      PickNone(r[1..], src[1..], side);
    }
  }

  // Every picked element stands somewhere in r under its mark.
  lemma {:induction false} PickedAt<T>(r: seq<Entry<T>>, src: seq<bool>, side: bool, p: nat) returns (i: nat)
    requires |src| == |r| && p < |Pick(r, src, side)|
    ensures i < |r| && src[i] == side && r[i] == Pick(r, src, side)[p]
  {
    if src[0] == side && p == 0 {
      i := 0;
    } else {
      i := PickedAt(r[1..], src[1..], side, if src[0] == side then p - 1 else p);
      i := i + 1;
    }
  }

  // ... and every marked element of r is picked.
  lemma {:induction false} PickedFrom<T>(r: seq<Entry<T>>, src: seq<bool>, i: nat) returns (p: nat)
    requires |src| == |r| && i < |r|
    ensures p < |Pick(r, src, src[i])| && Pick(r, src, src[i])[p] == r[i]
  {
    if i == 0 {
      p := 0;
    } else {
      p := PickedFrom(r[1..], src[1..], i - 1);
      p := if src[0] == src[i] then p + 1 else p;
    }
  }

  lemma HeadAgainstAll<T>(k: Kind, a: seq<Entry<T>>, b: seq<Entry<T>>)
    requires Sorted(k, a) && Sorted(k, b) && a != [] && b != []
    ensures StaysAhead(k, a[0].weight, b[0].weight) ==> forall p :: 0 <= p < |b| ==> StaysAhead(k, a[0].weight, b[p].weight)
    ensures !StaysAhead(k, a[0].weight, b[0].weight) ==> forall p :: 0 <= p < |a| ==> !StaysAhead(k, a[p].weight, b[0].weight)
  {
  }

  lemma PickCons<T>(x: Entry<T>, side: bool, r: seq<Entry<T>>, src: seq<bool>, want: bool)
    requires |src| == |r|
    ensures Pick([x] + r, [side] + src, want) == (if side == want then [x] else []) + Pick(r, src, want)
  {
    assert ([x] + r)[1..] == r && ([side] + src)[1..] == src;
  }

  // The head of one list fits in front of every element of the other.
  lemma HeadFits<T>(k: Kind, a: seq<Entry<T>>, b: seq<Entry<T>>, side: bool, r: seq<Entry<T>>, src: seq<bool>, j: nat)
    requires Sorted(k, a) && Sorted(k, b) && a != [] && b != []
    requires side == StaysAhead(k, a[0].weight, b[0].weight)
    requires |src| == |r| && Pick(r, src, !side) == (if side then b else a) && j < |r| && src[j] != side
    ensures if side then StaysAhead(k, a[0].weight, r[j].weight) else !StaysAhead(k, r[j].weight, b[0].weight)
  {
    HeadAgainstAll(k, a, b);
    var p := PickedFrom(r, src, j);
  }

  lemma TiedCons<T>(k: Kind, x: Entry<T>, side: bool, r: seq<Entry<T>>, src: seq<bool>)
    requires Tied(k, r, src)
    requires forall j :: 0 <= j < |r| && src[j] != side ==>
      if side then StaysAhead(k, x.weight, r[j].weight) else !StaysAhead(k, r[j].weight, x.weight)
    ensures Tied(k, [x] + r, [side] + src)
  {
    hide StaysAhead;
    var r', src' := [x] + r, [side] + src;
    assert forall j :: 0 < j < |r'| ==> r'[j] == r[j - 1] && src'[j] == src[j - 1];
  }

  // Putting the smaller head in front of an interleaving of the rest.
  lemma ConsInterleaves<T>(k: Kind, a: seq<Entry<T>>, b: seq<Entry<T>>, side: bool, r: seq<Entry<T>>, src: seq<bool>)
    requires Sorted(k, a) && Sorted(k, b) && a != [] && b != []
    requires side == StaysAhead(k, a[0].weight, b[0].weight)
    requires InterleavesBy(k, if side then a[1..] else a, if side then b else b[1..], r, src)
    ensures InterleavesBy(k, a, b, [if side then a[0] else b[0]] + r, [side] + src)
  {
    hide StaysAhead, Sorted, Pick, Tied;
    var x := if side then a[0] else b[0];
    PickCons(x, side, r, src, true);
    PickCons(x, side, r, src, false);
    forall j: nat | j < |r| && src[j] != side
      ensures if side then StaysAhead(k, x.weight, r[j].weight) else !StaysAhead(k, r[j].weight, x.weight)
    {
      HeadFits(k, a, b, side, r, src, j);
    }
    TiedCons(k, x, side, r, src);
    assert (if side then [a[0]] + a[1..] else a) == a && (if side then b else [b[0]] + b[1..]) == b;
  }

  lemma {:induction false} MergeInterleaves<T>(k: Kind, a: seq<Entry<T>>, b: seq<Entry<T>>)
    requires Sorted(k, a) && Sorted(k, b)
    ensures InterleavesBy(k, a, b, Merge(k, a, b), Origins(k, a, b))
  {
    if a == [] {
      PickAll(b, Origins(k, a, b), false);
    } else if b == [] {
      PickAll(a, Origins(k, a, b), true);
    } else if StaysAhead(k, a[0].weight, b[0].weight) {
      MergeInterleaves(k, a[1..], b);
      ConsInterleaves(k, a, b, true, Merge(k, a[1..], b), Origins(k, a[1..], b));
    } else {
      MergeInterleaves(k, a, b[1..]);
      ConsInterleaves(k, a, b, false, Merge(k, a, b[1..]), Origins(k, a, b[1..]));
    }
  }

  lemma {:induction false} InterleavingUnique<T>(k: Kind, a: seq<Entry<T>>, b: seq<Entry<T>>, r: seq<Entry<T>>, src: seq<bool>)
    requires InterleavesBy(k, a, b, r, src)
    ensures r == Merge(k, a, b)
    decreases |r|
  {
    if a == [] {
      PickNone(r, src, true);
    } else if b == [] {
      PickNone(r, src, false);
    } else {
      var rest, srcRest := r[1..], src[1..];
      assert forall i :: 0 <= i < |rest| ==> rest[i] == r[i + 1] && srcRest[i] == src[i + 1];
      if src[0] {
        var j := PickedAt(r, src, false, 0);
        assert a[1..] == Pick(rest, srcRest, true);
        InterleavingUnique(k, a[1..], b, rest, srcRest);
      } else {
        var j := PickedAt(r, src, true, 0);
        assert b[1..] == Pick(rest, srcRest, false);
        InterleavingUnique(k, a, b[1..], rest, srcRest);
      }
    }
  }

  // The merge of two sorted lists is their stable merge, and nothing else is.
  lemma MergeIsTheStableMerge<T>(k: Kind, a: seq<Entry<T>>, b: seq<Entry<T>>, r: seq<Entry<T>>)
    requires Sorted(k, a) && Sorted(k, b)
    ensures r == Merge(k, a, b) <==> exists src :: InterleavesBy(k, a, b, r, src)
  {
    MergeInterleaves(k, a, b);
    if src :| InterleavesBy(k, a, b, r, src) {
      InterleavingUnique(k, a, b, r, src);
    }
  }

  // Nothing is lost or duplicated, and the result is sorted.
  lemma {:induction false} MergeKeepsAll<T>(k: Kind, a: seq<Entry<T>>, b: seq<Entry<T>>)
    ensures multiset(Merge(k, a, b)) == multiset(a) + multiset(b)
    ensures |Merge(k, a, b)| == |a| + |b|
  {
    if a == [] || b == [] {
    } else if StaysAhead(k, a[0].weight, b[0].weight) {
      MergeKeepsAll(k, a[1..], b);
      assert a == [a[0]] + a[1..];
      assert Merge(k, a, b) == [a[0]] + Merge(k, a[1..], b);
    } else {
      MergeKeepsAll(k, a, b[1..]);
      assert b == [b[0]] + b[1..];
      assert Merge(k, a, b) == [b[0]] + Merge(k, a, b[1..]);
    }
  }

  lemma MergeSorted<T>(k: Kind, a: seq<Entry<T>>, b: seq<Entry<T>>)
    requires Sorted(k, a) && Sorted(k, b)
    ensures Sorted(k, Merge(k, a, b))
  {
    var r, src := Merge(k, a, b), Origins(k, a, b);
    MergeInterleaves(k, a, b);
    forall i, j | 0 <= i < j < |r| ensures InOrder(k.order, r[i].weight, r[j].weight) {
      if src[i] == src[j] {
        SameSideInOrder(k, r, src, i, j);
      }
    }
  }

  lemma {:induction false} SameSideInOrder<T>(k: Kind, r: seq<Entry<T>>, src: seq<bool>, i: nat, j: nat)
    requires |src| == |r| && i < j < |r| && src[i] == src[j]
    requires Sorted(k, Pick(r, src, src[i]))
    ensures InOrder(k.order, r[i].weight, r[j].weight)
  {
    if i == 0 {
      var p := PickedFrom(r[1..], src[1..], j - 1);
      var whole := Pick(r, src, src[0]);
      assert whole[0] == r[0] && whole[p + 1] == r[j];
    } else {
      var whole, rest := Pick(r, src, src[i]), Pick(r[1..], src[1..], src[i]);
      assert rest == whole || rest == whole[1..];
      SameSideInOrder(k, r[1..], src[1..], i - 1, j - 1);
    }
  }

  /// The three moves of the splicing loop, as facts about Merge

  // temp1 skips the items of list 1 that stay ahead of list 2's first.
  lemma {:induction false} MergeSkips<T>(k: Kind, a: seq<Entry<T>>, b: seq<Entry<T>>, d: nat)
    requires b != [] && d <= |a|
    requires forall i :: 0 <= i < d ==> StaysAhead(k, a[i].weight, b[0].weight)
    ensures Merge(k, a, b) == a[..d] + Merge(k, a[d..], b)
  {
    if d > 0 {
      MergeSkips(k, a[1..], b, d - 1);
      assert a[1..][d - 1..] == a[d..];
      assert a[..d] == [a[0]] + a[1..][..d - 1];
    }
  }

  // temp3 covers a run of list 2 that goes before list 1's first.
  lemma {:induction false} MergeTakes<T>(k: Kind, a: seq<Entry<T>>, b: seq<Entry<T>>, m: nat)
    requires a != [] && m <= |b|
    requires forall i :: 0 <= i < m ==> !StaysAhead(k, a[0].weight, b[i].weight)
    ensures Merge(k, a, b) == b[..m] + Merge(k, a, b[m..])
  {
    if m > 0 {
      MergeTakes(k, a, b[1..], m - 1);
      assert b[1..][m - 1..] == b[m..];
      assert b[..m] == [b[0]] + b[1..][..m - 1];
    }
  }

  // All of list 2 can follow all of list 1.
  lemma MergeAppends<T>(k: Kind, a: seq<Entry<T>>, b: seq<Entry<T>>)
    requires Sorted(k, a) && a != [] && b != []
    requires StaysAhead(k, a[|a| - 1].weight, b[0].weight)
    ensures Merge(k, a, b) == a + b
  {
    MergeSkips(k, a, b, |a|);
    assert a[|a|..] == [];
  }

  // All of list 2 goes before all of list 1.
  lemma MergePrepends<T>(k: Kind, a: seq<Entry<T>>, b: seq<Entry<T>>)
    requires Sorted(k, b) && a != [] && b != []
    requires !StaysAhead(k, a[0].weight, b[|b| - 1].weight)
    ensures Merge(k, a, b) == b + a
  {
    MergeTakes(k, a, b, |b|);
    assert b[|b|..] == [];
  }

  // Up to position p the list h is merged; from there it still has to be merged with b.
  ghost predicate Merging<T>(k: Kind, h: seq<Entry<T>>, p: nat, b: seq<Entry<T>>, goal: seq<Entry<T>>) {
    p <= |h| && h[..p] + Merge(k, h[p..], b) == goal
  }

  lemma MergingStarts<T>(k: Kind, h: seq<Entry<T>>, b: seq<Entry<T>>)
    ensures Merging(k, h, 0, b, Merge(k, h, b)) && h[0..] == h
  {
    assert h[0..] == h;
  }

  lemma MergingEnds<T>(k: Kind, h: seq<Entry<T>>, p: nat, goal: seq<Entry<T>>)
    requires Merging(k, h, p, [], goal)
    ensures h == goal
  {
    assert h[..p] + h[p..] == h;
  }

  // The rest of the second list can follow all of the first.
  lemma MergingAppends<T>(k: Kind, h: seq<Entry<T>>, p: nat, b: seq<Entry<T>>, goal: seq<Entry<T>>)
    requires Merging(k, h, p, b, goal) && p < |h| && b != [] && Sorted(k, h[p..])
    requires StaysAhead(k, h[|h| - 1].weight, b[0].weight)
    ensures h + b == goal
  {
    assert h[p..][|h| - p - 1] == h[|h| - 1];
    MergeAppends(k, h[p..], b);
    hide Merge, Sorted;
    assert h == h[..p] + h[p..];
    Edits.Assoc(h[..p], h[p..], b);
  }

  lemma SameLast<T>(h: seq<T>, q: nat, r: seq<T>, p: nat)
    requires q < |h| && p <= |r| && r[p..] == h[q..]
    ensures p < |r| && r[|r| - 1] == h[|h| - 1]
  {
    assert h[q..][|h| - q - 1] == h[|h| - 1];
    assert |r[p..]| == |r| - p;
  }

  lemma SkipTo<T>(k: Kind, h: seq<Entry<T>>, p: nat, q: nat, b: seq<Entry<T>>)
    requires p <= q < |h| && b != []
    requires forall i :: p <= i < q ==> StaysAhead(k, h[i].weight, b[0].weight)
    ensures Merge(k, h[p..], b) == h[p..q] + Merge(k, h[q..], b)
  {
    MergeSkips(k, h[p..], b, q - p);
    hide Merge;
    Edits.TwoCuts(h, p, q);
  }

  lemma TakeRun<T>(k: Kind, h: seq<Entry<T>>, q: nat, b: seq<Entry<T>>, m: nat)
    requires q < |h| && m <= |b|
    requires forall i :: 0 <= i < m ==> !StaysAhead(k, h[q].weight, b[i].weight)
    ensures Merge(k, h[q..], b) == b[..m] + Merge(k, h[q..], b[m..])
  {
    MergeTakes(k, h[q..], b, m);
  }

  // One pass of the splicing loop: skip to position q, take m elements off the second list.
  lemma MergePass<T>(k: Kind, h: seq<Entry<T>>, p: nat, q: nat, b: seq<Entry<T>>, m: nat, goal: seq<Entry<T>>)
      returns (r: seq<Entry<T>>, run: seq<Entry<T>>, rest: seq<Entry<T>>)
    requires p <= q < |h| && 0 < m <= |b| && Merging(k, h, p, b, goal)
    requires forall i :: p <= i < q ==> StaysAhead(k, h[i].weight, b[0].weight)
    requires forall i :: 0 <= i < m ==> !StaysAhead(k, h[q].weight, b[i].weight)
    ensures Edits.Cut(b, m, run, rest) && Edits.Spliced(h, q, run, r)
    ensures Merging(k, r, q + m, rest, goal) && q + m < |r| && r[q + m..] == h[q..] && rest == b[m..]
  {
    hide Merge, StaysAhead;
    SkipTo(k, h, p, q, b);
    TakeRun(k, h, q, b, m);
    run, rest := Edits.CutAt(b, m);
    r := Edits.Splice(h, q, run);
    Edits.CutIs(b, m, run, rest);
    Edits.SplicedParts(h, q, run, r);
    Edits.TwoCuts(h, p, q);
    var left := Merge(k, h[q..], rest);
    Edits.Assoc(h[..q], run, left);
    Edits.Assoc(h[..p], h[p..q], run + left);
    hide Edits.Cut, Edits.Spliced;
  }

  // What holds of one weight against the last of a sorted run holds against all of it.
  lemma NotAheadOfAll<T>(k: Kind, w: nat, b: seq<Entry<T>>)
    requires Sorted(k, b) && b != [] && !StaysAhead(k, w, b[|b| - 1].weight)
    ensures forall i :: 0 <= i < |b| ==> !StaysAhead(k, w, b[i].weight)
  {
  }

  lemma AheadOfLast<T>(k: Kind, w: nat, b: seq<Entry<T>>)
    requires Sorted(k, b) && b != [] && StaysAhead(k, w, b[0].weight)
    ensures StaysAhead(k, w, b[|b| - 1].weight)
  {
  }

  // If the first list's link at q does not stay ahead of wb, neither does its last.
  lemma NorDoesTheLast<T>(k: Kind, h: seq<Entry<T>>, p: nat, q: nat, wb: nat)
    requires p <= q < |h| && Sorted(k, h[p..]) && !StaysAhead(k, h[q].weight, wb)
    ensures !StaysAhead(k, h[|h| - 1].weight, wb) && Sorted(k, h[q..])
  {
    assert h[p..][q - p] == h[q] && h[p..][|h| - 1 - p] == h[|h| - 1];
    assert forall i :: 0 <= i < |h| - q ==> h[q..][i] == h[p..][q - p + i];
  }

  lemma SortedRest<T>(k: Kind, b: seq<Entry<T>>, m: nat)
    requires Sorted(k, b) && m < |b|
    ensures Sorted(k, b[m..]) && b[m..][|b| - m - 1] == b[|b| - 1]
  {
  }

  // What one pass leaves behind, beside the merge itself.
  lemma PassKeeps<T>(k: Kind, h: seq<Entry<T>>, p: nat, q: nat, b: seq<Entry<T>>, m: nat, goal: seq<Entry<T>>)
      returns (r: seq<Entry<T>>, run: seq<Entry<T>>, rest: seq<Entry<T>>)
    requires p <= q < |h| && 0 < m <= |b| && Merging(k, h, p, b, goal) && Sorted(k, h[p..]) && Sorted(k, b)
    requires forall i :: p <= i < q ==> StaysAhead(k, h[i].weight, b[0].weight)
    requires forall i :: 0 <= i < m ==> !StaysAhead(k, h[q].weight, b[i].weight)
    ensures Edits.Cut(b, m, run, rest) && Edits.Spliced(h, q, run, r) && |rest| == |b| - m
    ensures q + m < |r| && r[|r| - 1] == h[|h| - 1] && Sorted(k, r[q + m..]) && Merging(k, r, q + m, rest, goal)
    ensures rest != [] ==> Sorted(k, rest) && rest[|rest| - 1] == b[|b| - 1]
    ensures rest == [] ==> r == goal && !StaysAhead(k, h[|h| - 1].weight, b[|b| - 1].weight)
  {
    hide Merge, Merging, StaysAhead, Edits.Cut, Edits.Spliced;
    r, run, rest := MergePass(k, h, p, q, b, m, goal);
    NorDoesTheLast(k, h, p, q, b[m - 1].weight);
    SameLast(h, q, r, q + m);
    if m < |b| {
      SortedRest(k, b, m);
    } else {
      MergingEnds(k, r, q + m, goal);
    }
  }

  /// Splitting and merging back

  lemma SplitMergeBack<T>(k: Kind, s: seq<Entry<T>>, at: nat)
    requires Sorted(k, s) && at < |s|
    requires forall i, j :: 0 <= i < j < |s| ==> s[i] != s[j]
    ensures Merge(k, s[..at], s[at..]) == s
            <==> k.tie.Slt? || at == 0 || s[at - 1].weight != s[at].weight
  {
    var a, b := s[..at], s[at..];
    assert a + b == s;
    if at > 0 {
      if StaysAhead(k, a[at - 1].weight, b[0].weight) {
        MergeAppends(k, a, b);
      } else {
        var d := FirstNotAhead(k, a, b[0].weight);
        MergeSkips(k, a, b, d);
        assert Merge(k, a[d..], b)[0] == b[0];
        assert Merge(k, a, b)[d] == b[0] == s[at];
      }
    }
  }

  // Two equal weights come back from a split in the other order under LTE.
  lemma LteSplitReorders<T>(x: T, y: T)
    ensures var k, a, b := Kind(Ascending, Lte), [Entry(x, 1, 0)], [Entry(y, 1, 1)];
            Sorted(k, a + b) && Merge(k, a, b) == b + a != a + b
  {
    var k, a, b := Kind(Ascending, Lte), [Entry(x, 1, 0)], [Entry(y, 1, 1)];
    assert Merge(k, a, []) == a;
    assert (b + a)[0] != (a + b)[0];
  }

  // The two parts of a cut, and what merging them needs to know.
  lemma CutParts<T>(k: Kind, s: seq<Entry<T>>, at: nat, a: seq<Entry<T>>, b: seq<Entry<T>>)
    requires Sorted(k, s) && at < |s| && a == s[..at] && b == s[at..]
    requires forall i, j :: 0 <= i < j < |s| ==> s[i] != s[j]
    ensures b != [] && (a == [] <==> at == 0) && (at == 0 ==> b == s)
    ensures |Merge(k, a, b)| == |s|
    ensures Merge(k, a, b) == s <==> k.tie.Slt? || at == 0 || s[at - 1].weight != s[at].weight
    ensures at > 0 && Merge(k, a, b) == s ==> StaysAhead(k, a[|a| - 1].weight, b[0].weight)
  {
    SplitMergeBack(k, s, at);
    MergeKeepsAll(k, a, b);
    hide Merge;
  }

  lemma SplitSorted<T>(k: Kind, s: seq<Entry<T>>, at: nat)
    requires Sorted(k, s) && at <= |s|
    ensures Sorted(k, s[..at]) && Sorted(k, s[at..])
  {
  }

  lemma FirstNotAhead<T>(k: Kind, a: seq<Entry<T>>, w: nat) returns (d: nat)
    requires a != [] && !StaysAhead(k, a[|a| - 1].weight, w)
    ensures d < |a| && !StaysAhead(k, a[d].weight, w)
    ensures forall i :: 0 <= i < d ==> StaysAhead(k, a[i].weight, w)
  {
    d := 0;
    while StaysAhead(k, a[d].weight, w)
      invariant d < |a|
      invariant forall i :: 0 <= i < d ==> StaysAhead(k, a[i].weight, w)
      decreases |a| - d
    {
      d := d + 1;
    }
  }

  /// Runs of pushes and pops

  datatype Op<T> = Push(item: T, weight: nat) | PopFront | PopBack | PopAt(index: nat)

  // What a list has seen: the number of pushes so far, and what it holds now.
  datatype ListState<T> = ListState(clock: nat, held: seq<Entry<T>>)

  function Insert<T>(k: Kind, s: seq<Entry<T>>, e: Entry<T>): seq<Entry<T>> {
    if s == [] then [e]
    else if Passes(k, s[0].weight, e.weight) then [s[0]] + Insert(k, s[1..], e)
    else [e] + s
  }

  function Step<T>(k: Kind, st: ListState<T>, op: Op<T>): ListState<T> {
    var s := st.held;
    match op
    case Push(item, weight) => ListState(st.clock + 1, Insert(k, s, Entry(item, weight, st.clock)))
    case PopFront => if s == [] then st else st.(held := s[1..])
    case PopBack => if s == [] then st else st.(held := s[..|s| - 1])
    case PopAt(i) => if i < |s| then st.(held := s[..i] + s[i + 1..]) else st
  }

  function Run<T>(k: Kind, ops: seq<Op<T>>): ListState<T> {
    if ops == [] then ListState(0, [])
    else Step(k, Run(k, ops[..|ops| - 1]), ops[|ops| - 1])
  }

  // x comes before y: by weight, and among equals by arrival for LTE, against arrival for SLT.
  predicate Before<T>(k: Kind, x: Entry<T>, y: Entry<T>) {
    || Strictly(k.order, x.weight, y.weight)
    || (x.weight == y.weight && if k.tie.Lte? then x.stamp < y.stamp else x.stamp > y.stamp)
  }

  ghost predicate ArrivalOrdered<T>(k: Kind, st: ListState<T>) {
    && (forall i, j :: 0 <= i < j < |st.held| ==> Before(k, st.held[i], st.held[j]))
    && (forall i :: 0 <= i < |st.held| ==> st.held[i].stamp < st.clock)
  }

  // Insert puts e at the one place where everything before it is passed and nothing after is.
  lemma {:induction false} InsertAt<T>(k: Kind, s: seq<Entry<T>>, e: Entry<T>, p: nat)
    requires p <= |s|
    requires forall i :: 0 <= i < p ==> Passes(k, s[i].weight, e.weight)
    requires p < |s| ==> !Passes(k, s[p].weight, e.weight)
    ensures Edits.Inserted(s, p, e, Insert(k, s, e))
  {
    if p > 0 {
      InsertAt(k, s[1..], e, p - 1);
    }
  }

  lemma InsertPlace<T>(k: Kind, s: seq<Entry<T>>, e: Entry<T>) returns (p: nat)
    requires Sorted(k, s)
    ensures p <= |s| && Edits.Inserted(s, p, e, Insert(k, s, e))
    ensures forall i :: 0 <= i < p ==> Passes(k, s[i].weight, e.weight)
    ensures forall i :: p <= i < |s| ==> !Passes(k, s[i].weight, e.weight)
  {
    p := 0;
    while p < |s| && Passes(k, s[p].weight, e.weight)
      invariant p <= |s|
      invariant forall i :: 0 <= i < p ==> Passes(k, s[i].weight, e.weight)
    {
      p := p + 1;
    }
    InsertAt(k, s, e, p);
  }

  lemma InsertFirst<T>(k: Kind, e: Entry<T>)
    ensures Insert(k, [], e) == [e]
  {
  }

  lemma InsertSorted<T>(k: Kind, s: seq<Entry<T>>, e: Entry<T>)
    requires Sorted(k, s)
    ensures Sorted(k, Insert(k, s, e))
  {
    var p := InsertPlace(k, s, e);
  }

  // What a step does to what is held: a push adds its entry and nothing else, a pop takes the
  // first, the last or the given one, and an empty list stays as it is.
  lemma StepTells<T>(k: Kind, st: ListState<T>, op: Op<T>)
    requires Sorted(k, st.held)
    ensures var s, r := st.held, Step(k, st, op).held;
            match op
            case Push(item, weight) => Step(k, st, op).clock == st.clock + 1
                                       && multiset(r) == multiset(s) + multiset{Entry(item, weight, st.clock)}
            case PopFront => if s == [] then r == [] else [s[0]] + r == s
            case PopBack => if s == [] then r == [] else r + [s[|s| - 1]] == s
            case PopAt(i) => if i < |s| then Edits.Removed(s, i, r) else r == s
  {
    if op.Push? {
      var e := Entry(op.item, op.weight, st.clock);
      var p := InsertPlace(k, st.held, e);
      Edits.InsertedIs(st.held, p, e, Insert(k, st.held, e));
      assert st.held == st.held[..p] + st.held[p..];
    }
  }

  lemma StepPopAt<T>(k: Kind, st: ListState<T>, at: nat, r: seq<Entry<T>>)
    requires Sorted(k, st.held) && Edits.Removed(st.held, at, r)
    ensures Step(k, st, PopAt(at)) == ListState(st.clock, r) && Sorted(k, r)
  {
    Edits.RemovedIs(st.held, at, r);
  }

  lemma StepArrivalOrdered<T>(k: Kind, st: ListState<T>, op: Op<T>)
    requires ArrivalOrdered(k, st)
    ensures ArrivalOrdered(k, Step(k, st, op))
  {
    if op.Push? {
      var e := Entry(op.item, op.weight, st.clock);
      var p := InsertPlace(k, st.held, e);
    }
  }

  // Over every run from the empty list, the list is sorted, and equal weights stand in arrival
  // order under LTE and in reverse arrival order under SLT.
  lemma {:induction false} RunArrivalOrdered<T>(k: Kind, ops: seq<Op<T>>)
    ensures ArrivalOrdered(k, Run(k, ops))
    ensures Sorted(k, Run(k, ops).held)
  {
    if ops != [] {
      RunArrivalOrdered(k, ops[..|ops| - 1]);
      StepArrivalOrdered(k, Run(k, ops[..|ops| - 1]), ops[|ops| - 1]);
    }
  }
}
