/** Edits of a sequence, described element by element.

    The lists prove what they did to their chain in this form: it says which old element stands
    at each new place, and nothing else.
  */
module Edits {
  // r is s with x put in at position at.
  ghost predicate Inserted<T>(s: seq<T>, at: nat, x: T, r: seq<T>) {
    && at <= |s|
    && |r| == |s| + 1
    && forall i {:trigger r[i]} :: 0 <= i < |r| ==> r[i] == if i < at then s[i] else if i == at then x else s[i - 1]
  }

  // r is s without the element at position at.
  ghost predicate Removed<T>(s: seq<T>, at: nat, r: seq<T>) {
    && at < |s|
    && |r| == |s| - 1
    && forall i {:trigger r[i]} :: 0 <= i < |r| ==> r[i] == if i < at then s[i] else s[i + 1]
  }

  // r is s with the whole of run put in at position at.
  ghost predicate Spliced<T>(s: seq<T>, at: nat, run: seq<T>, r: seq<T>) {
    && at <= |s|
    && |r| == |s| + |run|
    && forall i {:trigger r[i]} :: 0 <= i < |r| ==>
         r[i] == if i < at then s[i] else if i < at + |run| then run[i - at] else s[i - |run|]
  }

  // s falls apart into its first m elements and the rest.
  ghost predicate Cut<T>(s: seq<T>, m: nat, a: seq<T>, b: seq<T>) {
    && m == |a| <= |s|
    && |b| == |s| - m
    && (forall i {:trigger a[i]} :: 0 <= i < |a| ==> a[i] == s[i])
    && (forall i {:trigger b[i]} :: 0 <= i < |b| ==> b[i] == s[i + m])
  }

  lemma Insert<T>(s: seq<T>, at: nat, x: T) returns (r: seq<T>)
    requires at <= |s|
    ensures Inserted(s, at, x, r)
  {
    r := s[..at] + [x] + s[at..];
  }

  lemma Remove<T>(s: seq<T>, at: nat) returns (r: seq<T>)
    requires at < |s|
    ensures Removed(s, at, r)
  {
    r := s[..at] + s[at + 1..];
  }

  lemma Splice<T>(s: seq<T>, at: nat, run: seq<T>) returns (r: seq<T>)
    requires at <= |s|
    ensures Spliced(s, at, run, r)
  {
    r := s[..at] + run + s[at..];
  }

  lemma CutAt<T>(s: seq<T>, m: nat) returns (a: seq<T>, b: seq<T>)
    requires m <= |s|
    ensures Cut(s, m, a, b)
  {
    a, b := s[..m], s[m..];
  }

  lemma InsertedIs<T>(s: seq<T>, at: nat, x: T, r: seq<T>)
    requires Inserted(s, at, x, r)
    ensures r == s[..at] + [x] + s[at..]
  {
  }

  lemma RemovedIs<T>(s: seq<T>, at: nat, r: seq<T>)
    requires Removed(s, at, r)
    ensures r == s[..at] + s[at + 1..]
  {
  }

  lemma InsertedOnce<T>(s: seq<T>, at: nat, x: T, r: seq<T>, r': seq<T>)
    requires Inserted(s, at, x, r) && Inserted(s, at, x, r')
    ensures r == r'
  {
  }

  lemma CutIs<T>(s: seq<T>, m: nat, a: seq<T>, b: seq<T>)
    requires Cut(s, m, a, b)
    ensures a == s[..m] && b == s[m..]
  {
  }

  lemma SplicedParts<T>(s: seq<T>, at: nat, run: seq<T>, r: seq<T>)
    requires Spliced(s, at, run, r)
    ensures r[..at + |run|] == s[..at] + run && r[at + |run|..] == s[at..]
  {
  }

  lemma TwoCuts<T>(s: seq<T>, p: nat, q: nat)
    requires p <= q <= |s|
    ensures s[p..][..q - p] == s[p..q] && s[p..][q - p..] == s[q..] && s[..q] == s[..p] + s[p..q]
  {
  }

  lemma Assoc<T>(a: seq<T>, b: seq<T>, c: seq<T>)
    ensures a + b + c == a + (b + c) && a + [] == a
  {
  }
}
