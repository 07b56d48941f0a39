/** Runs of Put, Get and MovePut over several queues.

    The value model is what each queue holds.  What went into a queue and what came out of it are
    read off the operations of the run.
  */
module QueueRuns {
  import Edits
  import opened Queues

  datatype Op<T> = Put(queue: nat, item: T) | Get(queue: nat) | MovePut(target: nat, source: nat)

  ghost predicate Allowed<T>(n: nat, op: Op<T>) {
    match op
    case Put(q, _) => q < n
    case Get(q) => q < n
    case MovePut(target, source) => target < n && source < n && target != source
  }

  function Step<T>(held: seq<seq<T>>, op: Op<T>): seq<seq<T>>
    requires Allowed(|held|, op)
  {
    match op
    case Put(q, x) => held[q := held[q] + [x]]
    case Get(q) => if held[q] == [] then held else held[q := held[q][1..]]
    case MovePut(t, s) => held[t := held[t] + held[s]][s := []]
  }

  function Run<T>(n: nat, ops: seq<Op<T>>): (held: seq<seq<T>>)
    requires forall i :: 0 <= i < |ops| ==> Allowed(n, ops[i])
    ensures |held| == n
  {
    if ops == [] then seq(n, _ => []) else Step(Run(n, ops[..|ops| - 1]), ops[|ops| - 1])
  }

  // What one operation puts into queue q, when the queues hold held: the item that is put there, or
  // all its source holds.
  function Added<T>(held: seq<seq<T>>, op: Op<T>, q: nat): seq<T>
    requires Allowed(|held|, op)
  {
    match op
    case Put(q', x) => if q' == q then [x] else []
    case Get(_) => []
    case MovePut(t, s) => if t == q then held[s] else []
  }

  // What it takes out: the head, or everything.
  function Taken<T>(held: seq<seq<T>>, op: Op<T>, q: nat): seq<T>
    requires Allowed(|held|, op) && q < |held|
  {
    match op
    case Put(_, _) => []
    case Get(q') => if q' == q && held[q] != [] then [held[q][0]] else []
    case MovePut(t, s) => if s == q then held[q] else []
  }

  function Arrived<T>(n: nat, ops: seq<Op<T>>, q: nat): seq<T>
    requires forall i :: 0 <= i < |ops| ==> Allowed(n, ops[i])
  {
    if ops == [] then []
    else
      var k := |ops| - 1;
      Arrived(n, ops[..k], q) + Added(Run(n, ops[..k]), ops[k], q)
  }

  function Gone<T>(n: nat, ops: seq<Op<T>>, q: nat): seq<T>
    requires q < n && forall i :: 0 <= i < |ops| ==> Allowed(n, ops[i])
  {
    if ops == [] then []
    else
      var k := |ops| - 1;
      Gone(n, ops[..k], q) + Taken(Run(n, ops[..k]), ops[k], q)
  }

  // What one operation does to queue q, and how that agrees with what it puts in and takes out.
  lemma StepFlows<T>(held: seq<seq<T>>, op: Op<T>, q: nat)
    requires Allowed(|held|, op) && q < |held|
    ensures |Step(held, op)| == |held|
    ensures op.Put? ==> Step(held, op)[q] == held[q] + if op.queue == q then [op.item] else []
    ensures op.Get? ==> if op.queue != q || held[q] == [] then Step(held, op)[q] == held[q]
                        else held[q] == [held[q][0]] + Step(held, op)[q]
    ensures op.MovePut? ==> Step(held, op)[q] == if op.source == q then [] else held[q] + if op.target == q then held[op.source] else []
    ensures held[q] + Added(held, op, q) == Taken(held, op, q) + Step(held, op)[q]
  {
  }

  lemma Flows<T>(a: seq<T>, g: seq<T>, h: seq<T>, more: seq<T>, less: seq<T>, h': seq<T>)
    requires a == g + h && h + more == less + h'
    ensures a + more == g + less + h'
  {
    Edits.Assoc(g, h, more);
    Edits.Assoc(g, less, h');
  }

  // Over every run, what came out of a queue followed by what it holds is what went in: nothing
  // overtakes, nothing is lost, nothing appears.
  lemma {:induction false} FirstInFirstOut<T>(n: nat, ops: seq<Op<T>>, q: nat)
    requires q < n && forall i :: 0 <= i < |ops| ==> Allowed(n, ops[i])
    ensures Arrived(n, ops, q) == Gone(n, ops, q) + Run(n, ops)[q]
  {
    if ops != [] {
      hide Added, Taken, Step;
      var k := |ops| - 1;
      var was := Run(n, ops[..k]);
      FirstInFirstOut(n, ops[..k], q);
      StepFlows(was, ops[k], q);
      Flows(Arrived(n, ops[..k], q), Gone(n, ops[..k], q), was[q],
            Added(was, ops[k], q), Taken(was, ops[k], q), Step(was, ops[k])[q]);
    }
  }

  // Several queues on one heap that share no link.
  ghost predicate Pool(qs: seq<Queue>)
    reads *
  {
    && (forall a :: 0 <= a < |qs| ==> qs[a].Forward())
    && (forall a, b :: 0 <= a < |qs| && 0 <= b < |qs| && a != b ==> qs[a] != qs[b] && qs[a].Apart(qs[b]))
  }

  ghost predicate Within(qs: seq<Queue>, all: set<object>)
    reads qs
  {
    forall a :: 0 <= a < |qs| ==>
      && qs[a] in all && qs[a].link in all
      && forall i :: 0 <= i < |qs[a].items| ==> qs[a].items[i] in all
  }

  // The item of a Put is not in a queue yet, and is not a queue's own link.
  ghost predicate Fresh(qs: seq<Queue>, op: Op<Link>)
    reads qs
  {
    op.Put? ==> forall a :: 0 <= a < |qs| ==> op.item !in qs[a].items && op.item != qs[a].link
  }

  ghost predicate Holds(qs: seq<Queue>, held: seq<seq<Link>>)
    reads qs
  {
    |held| == |qs| && forall a :: 0 <= a < |qs| ==> qs[a].items == held[a]
  }

  method PerformPut(qs: seq<Queue>, q: nat, x: Link, ghost all: set<object>, ghost held: seq<seq<Link>>)
    requires Pool(qs) && Within(qs, all) && q < |qs| && Fresh(qs, Put(q, x)) && x in all
    requires Holds(qs, held)
    modifies all
    ensures Pool(qs) && Within(qs, all) && Holds(qs, Step(held, Put(q, x)))
  {
    hide Queue.Forward;
    qs[q].Put(x);
    forall a, b | 0 <= a < |qs| && 0 <= b < |qs| && a != b
      ensures qs[a].Apart(qs[b])
    {
      assert old(qs[a].Apart(qs[b]));
    }
  }

  function HeadOf(s: seq<Link>): Link? { if s == [] then null else s[0] }

  method PerformGet(qs: seq<Queue>, q: nat, ghost all: set<object>, ghost held: seq<seq<Link>>) returns (ret: Link?)
    requires Pool(qs) && Within(qs, all) && q < |qs|
    requires Holds(qs, held)
    modifies all
    ensures Pool(qs) && Within(qs, all) && Holds(qs, Step(held, Op<Link>.Get(q)))
    ensures ret == HeadOf(held[q])
  {
    hide Queue.Forward;
    ret := qs[q].Get();
    forall a, b | 0 <= a < |qs| && 0 <= b < |qs| && a != b
      ensures qs[a].Apart(qs[b])
    {
      assert old(qs[a].Apart(qs[b]));
    }
  }

  // The queues with these items share no link.
  ghost predicate Separated(qs: seq<Queue>, held: seq<seq<Link>>) {
    |held| == |qs| && forall a, b {:trigger qs[a], qs[b]} :: 0 <= a < |qs| && 0 <= b < |qs| && a != b ==>
      qs[a] != qs[b] && Separate(qs[a].link, held[a], qs[b].link, held[b])
  }

  lemma PoolSeparated(qs: seq<Queue>, held: seq<seq<Link>>)
    requires Pool(qs) && Holds(qs, held)
    ensures Separated(qs, held) && forall a :: 0 <= a < |qs| ==> qs[a].link !in held[a]
  {
    assert forall a :: 0 <= a < |qs| ==> qs[a].Distinct() && qs[a].items == held[a];
    hide Queue.Forward, Separate;
    forall a, b | 0 <= a < |qs| && 0 <= b < |qs| && a != b
      ensures Separate(qs[a].link, held[a], qs[b].link, held[b])
    {
      assert qs[a].Apart(qs[b]);
    }
  }

  lemma SeparatedPool(qs: seq<Queue>, held: seq<seq<Link>>)
    requires Separated(qs, held) && Holds(qs, held) && forall a :: 0 <= a < |qs| ==> qs[a].Forward()
    ensures Pool(qs)
  {
    hide Queue.Forward, Separate;
  }

  lemma MoveSeparated(qs: seq<Queue>, held: seq<seq<Link>>, t: nat, s: nat)
    requires t < |qs| && s < |qs| && t != s && |held| == |qs|
    requires Separated(qs, held) && qs[s].link !in held[s]
    ensures Separated(qs, Step(held, Op<Link>.MovePut(t, s)))
  {
    forall a, b | 0 <= a < |qs| && 0 <= b < |qs| && a != b
      ensures Separate(qs[a].link, Step(held, Op<Link>.MovePut(t, s))[a], qs[b].link, Step(held, Op<Link>.MovePut(t, s))[b])
    {
      assert Separate(qs[a].link, held[a], qs[b].link, held[b]);
      assert b != s ==> Separate(qs[s].link, held[s], qs[b].link, held[b]);
      assert a != s ==> Separate(qs[a].link, held[a], qs[s].link, held[s]);
    }
  }

  lemma MoveHeld<T>(held: seq<seq<T>>, t: nat, s: nat)
    requires Allowed(|held|, Op<T>.MovePut(t, s))
    ensures var after := Step(held, Op<T>.MovePut(t, s));
            |after| == |held| && forall a :: 0 <= a < |after| ==>
              after[a] == if a == s then [] else if a == t then held[t] + held[s] else held[a]
  {
  }

  // MovePut, seen from all queues: the others keep their items and stay forward-correct.
  method MoveAlone(qs: seq<Queue>, t: nat, s: nat)
    requires Pool(qs) && t < |qs| && s < |qs| && t != s
    modifies qs[t], qs[t].link, qs[t].items, qs[s], qs[s].link, qs[s].items
    ensures qs[t].items == old(qs[t].items + qs[s].items) && qs[s].items == []
    ensures forall a :: 0 <= a < |qs| ==> qs[a].Forward()
    ensures forall a :: 0 <= a < |qs| && a != t && a != s ==> qs[a].items == old(qs[a].items)
  {
    hide Queue.Forward;
    forall a | 0 <= a < |qs| && a != t && a != s
      ensures qs[a].Apart(qs[t]) && qs[a].Apart(qs[s])
    {
    }
    qs[t].MovePut(qs[s]);
  }

  method PerformMove(qs: seq<Queue>, t: nat, s: nat, ghost all: set<object>, ghost held: seq<seq<Link>>)
    requires Pool(qs) && Within(qs, all) && t < |qs| && s < |qs| && t != s
    requires Holds(qs, held)
    modifies all
    ensures Pool(qs) && Within(qs, all) && Holds(qs, Step(held, Op<Link>.MovePut(t, s)))
  {
    hide Queue.Forward, Step, Separated, Pool, Separate;
    PoolSeparated(qs, held);
    MoveSeparated(qs, held, t, s);
    MoveHeld(held, t, s);
    ghost var after := Step(held, Op<Link>.MovePut(t, s));
    MoveAlone(qs, t, s);
    SeparatedPool(qs, after);
  }

  // Every Put of the run puts an item that no queue holds at that point.
  ghost predicate Disciplined(qs: seq<Queue>, ops: seq<Op<Link>>, all: set<object>) {
    && (forall i :: 0 <= i < |ops| ==> Allowed(|qs|, ops[i]))
    && forall i :: 0 <= i < |ops| && ops[i].Put? ==>
         && ops[i].item in all
         && forall a :: 0 <= a < |qs| ==> ops[i].item !in Run(|qs|, ops[..i])[a] && ops[i].item != qs[a].link
  }

  method Perform(qs: seq<Queue>, op: Op<Link>, ghost all: set<object>, ghost held: seq<seq<Link>>) returns (ret: Link?)
    requires Pool(qs) && Within(qs, all) && Allowed(|qs|, op) && Fresh(qs, op) && (op.Put? ==> op.item in all)
    requires Holds(qs, held)
    modifies all
    ensures Pool(qs) && Within(qs, all) && Holds(qs, Step(held, op))
    ensures op.Get? ==> ret == HeadOf(held[op.queue])
  {
    hide Pool, Within, Holds, Step;
    ret := null;
    match op {
      case Put(q, x) => PerformPut(qs, q, x, all, held);
      case Get(q) => ret := PerformGet(qs, q, all, held);
      case MovePut(t, s) => PerformMove(qs, t, s, all, held);
    }
  }

  // got has, for every Get of the run, what its queue held first at that point, or NULL.
  ghost predicate Answers(n: nat, ops: seq<Op<Link>>, got: seq<Link?>)
    requires forall i :: 0 <= i < |ops| ==> Allowed(n, ops[i])
  {
    |got| == |ops| && forall i :: 0 <= i < |ops| ==> AnswerAt(n, ops, i, got[i])
  }

  ghost predicate AnswerAt(n: nat, ops: seq<Op<Link>>, i: nat, ret: Link?)
    requires i < |ops| && forall k :: 0 <= k < |ops| ==> Allowed(n, ops[k])
  {
    ops[i].Get? ==>
      assert Allowed(n, ops[i]);
      ret == HeadOf(Run(n, ops[..i])[ops[i].queue])
  }

  lemma StepRuns(n: nat, ops: seq<Op<Link>>, k: nat)
    requires k < |ops| && forall i :: 0 <= i < |ops| ==> Allowed(n, ops[i])
    ensures Run(n, ops[..k + 1]) == Step(Run(n, ops[..k]), ops[k])
  {
    hide Step, Allowed;
    assert ops[..k + 1][..k] == ops[..k];
  }

  lemma StepAllowed(qs: seq<Queue>, ops: seq<Op<Link>>, all: set<object>, n: nat)
    requires Disciplined(qs, ops, all) && n < |ops| && Holds(qs, Run(|qs|, ops[..n]))
    ensures Allowed(|qs|, ops[n]) && Fresh(qs, ops[n]) && (ops[n].Put? ==> ops[n].item in all)
    ensures Run(|qs|, ops[..n + 1]) == Step(Run(|qs|, ops[..n]), ops[n])
  {
    StepRuns(|qs|, ops, n);
    hide Run, Step, Allowed;
  }

  lemma AnswerIs(n: nat, ops: seq<Op<Link>>, i: nat, ret: Link?)
    requires i < |ops| && forall k :: 0 <= k < |ops| ==> Allowed(n, ops[k])
    requires Allowed(n, ops[i]) && (ops[i].Get? ==> ret == HeadOf(Run(n, ops[..i])[ops[i].queue]))
    ensures AnswerAt(n, ops, i, ret)
  {
  }

  // Any run on the heap leaves every queue forward-correct and holding what the value model says;
  // got is what its Gets returned.
  method Execute(qs: seq<Queue>, ops: seq<Op<Link>>, ghost all: set<object>) returns (got: seq<Link?>)
    requires Pool(qs) && Within(qs, all) && Disciplined(qs, ops, all)
    requires forall a :: 0 <= a < |qs| ==> qs[a].items == []
    modifies all
    ensures forall a :: 0 <= a < |qs| ==> qs[a].Forward() && qs[a].items == Run(|qs|, ops)[a]
    ensures Pool(qs) && Answers(|qs|, ops, got)
  {
    hide Pool, Within, Step, AnswerAt;
    var n := 0;
    got := [];
    assert Holds(qs, Run(|qs|, ops[..n]));
    hide Holds, Run;
    while n < |ops|
      invariant 0 <= n <= |ops| && Pool(qs) && Within(qs, all) && Holds(qs, Run(|qs|, ops[..n]))
      invariant |got| == n && forall i :: 0 <= i < n ==> AnswerAt(|qs|, ops, i, got[i])
    {
      StepAllowed(qs, ops, all, n);
      var ret := Perform(qs, ops[n], all, Run(|qs|, ops[..n]));
      AnswerIs(|qs|, ops, n, ret);
      got := got + [ret];
      n := n + 1;
    }
    assert ops[..n] == ops;
    PoolHolds(qs, Run(|qs|, ops));
  }

  lemma PoolHolds(qs: seq<Queue>, held: seq<seq<Link>>)
    requires Pool(qs) && Holds(qs, held)
    ensures forall a :: 0 <= a < |qs| ==> qs[a].Forward() && qs[a].items == held[a]
  {
  }

  // What the Gets of a run returned from queue q, and what was moved away from it.
  ghost function Departed(n: nat, ops: seq<Op<Link>>, got: seq<Link?>, q: nat): seq<Link>
    requires |got| == |ops| && q < n && forall i :: 0 <= i < |ops| ==> Allowed(n, ops[i])
  {
    if ops == [] then []
    else
      var k := |ops| - 1;
      Departed(n, ops[..k], got[..k], q)
      + if ops[k] == Get(q) then (if got[k] == null then [] else [got[k]])
        else if ops[k].MovePut? && ops[k].source == q then Run(n, ops[..k])[q]
        else []
  }

  lemma AnswerTaken(n: nat, ops: seq<Op<Link>>, k: nat, ret: Link?, q: nat)
    requires k < |ops| && q < n && (forall i :: 0 <= i < |ops| ==> Allowed(n, ops[i])) && AnswerAt(n, ops, k, ret)
    ensures Allowed(n, ops[k])
    ensures var was := Run(n, ops[..k]);
            Taken(was, ops[k], q)
            == if ops[k] == Get(q) then (if ret == null then [] else [ret])
               else if ops[k].MovePut? && ops[k].source == q then was[q]
               else []
  {
    hide Run;
  }

  lemma {:induction false} DepartedIsGone(n: nat, ops: seq<Op<Link>>, got: seq<Link?>, q: nat)
    requires (forall i :: 0 <= i < |ops| ==> Allowed(n, ops[i])) && Answers(n, ops, got) && q < n
    ensures Departed(n, ops, got, q) == Gone(n, ops, q)
  {
    if ops != [] {
      var k := |ops| - 1;
      forall i | 0 <= i < k ensures AnswerAt(n, ops[..k], i, got[i]) {
        assert AnswerAt(n, ops, i, got[i]) && ops[..k][..i] == ops[..i];
      }
      DepartedIsGone(n, ops[..k], got[..k], q);
      AnswerTaken(n, ops, k, got[k], q);
      hide Run, Taken, AnswerAt;
    }
  }

  // The returned items themselves come out in the order in which items were put in.
  lemma AnswersInOrder(n: nat, ops: seq<Op<Link>>, got: seq<Link?>, q: nat)
    requires (forall i :: 0 <= i < |ops| ==> Allowed(n, ops[i])) && Answers(n, ops, got) && q < n
    ensures Arrived(n, ops, q) == Departed(n, ops, got, q) + Run(n, ops)[q]
  {
    FirstInFirstOut(n, ops, q);
    DepartedIsGone(n, ops, got, q);
  }

  // A Get returns NULL only if everything that went in is out again.
  lemma EmptyAnswer(n: nat, ops: seq<Op<Link>>, got: seq<Link?>, k: nat, q: nat)
    requires (forall i :: 0 <= i < |ops| ==> Allowed(n, ops[i])) && Answers(n, ops, got)
    requires q < n && k < |ops| && ops[k] == Get(q)
    ensures got[k] == null <==> Arrived(n, ops[..k], q) == Departed(n, ops[..k], got[..k], q)
  {
    forall i | 0 <= i < k ensures AnswerAt(n, ops[..k], i, got[i]) {
      assert AnswerAt(n, ops, i, got[i]) && ops[..k][..i] == ops[..i];
    }
    AnswersInOrder(n, ops[..k], got[..k], q);
    assert AnswerAt(n, ops, k, got[k]);
    hide Arrived, Departed, Run;
  }
}
