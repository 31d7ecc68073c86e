/** The behavior-tree evaluation engine: the three-valued status every node
    returns, the cursor state machines of Sequence and Selector, and the
    stateless Repeater and Condition nodes. */
module BehaviorTree {

  datatype Status = Success | Failure | Running

  /** Sequence and Selector run the same loop; they differ only in which child
      status makes them stop early. */
  datatype Kind = SequenceKind | SelectorKind

  /** The child status on which a composite returns at once with its cursor
      reset: FAILURE for a Sequence, SUCCESS for a Selector. */
  function Decisive(kind: Kind): Status {
    match kind
    case SequenceKind => Failure
    case SelectorKind => Success
  }

  /** The child status on which a composite moves on to the next child; it is
      also what the composite returns once no child is left. */
  function Advancing(kind: Kind): Status {
    match kind
    case SequenceKind => Success
    case SelectorKind => Failure
  }

  lemma StatusesOfKind(kind: Kind, s: Status)
    ensures Decisive(kind) != Advancing(kind)
    ensures Running != Decisive(kind) && Running != Advancing(kind)
    ensures s == Running || s == Decisive(kind) || s == Advancing(kind)
  {
  }

  /** The indices lo, lo + 1, ..., hi - 1. */
  function Range(lo: nat, hi: nat): (r: seq<nat>)
    decreases hi - lo
    ensures |r| == if lo <= hi then hi - lo else 0
    ensures forall k :: 0 <= k < |r| ==> r[k] == lo + k
  {
    if lo >= hi then [] else [lo] + Range(lo + 1, hi)
  }

  /** What one tick of a composite does: the status it returns, where it
      leaves its cursor, and which children it ticked, in order. */
  datatype Pass = Pass(status: Status, cursor: nat, ticked: seq<nat>)

  function Extend(done: seq<nat>, p: Pass): Pass {
    p.(ticked := done + p.ticked)
  }

  lemma ExtendTwice(a: seq<nat>, b: seq<nat>, p: Pass)
    ensures Extend(a, Extend(b, p)) == Extend(a + b, p)
  {
    assert a + (b + p.ticked) == (a + b) + p.ticked;
  }

  /** One tick of a composite of the given kind whose cursor is `from`, where
      results[i] is the status child i returns if this tick reaches it (each
      child is ticked at most once per tick, so this fixes the whole run). */
  function CompositePass(kind: Kind, results: seq<Status>, from: nat): (p: Pass)
    decreases |results| - from
    // ticking resumes at the cursor and visits consecutive children, never one below it
    ensures p.ticked == Range(from, from + |p.ticked|)
    ensures p.ticked != [] ==> from + |p.ticked| <= |results|
    ensures p.ticked == [] <==> from >= |results|
    // the cursor is left on a child, and away from 0 only while RUNNING
    ensures p.cursor != 0 ==> p.status == Running && p.cursor < |results|
    // a RUNNING tick leaves the cursor on the child that is still running
    ensures p.status == Running ==> p.ticked != [] && p.cursor == from + |p.ticked| - 1 && results[p.cursor] == Running
  {
    if from >= |results| then
      Pass(Advancing(kind), 0, [])
    else if results[from] == Running then
      Pass(Running, from, [from])
    else if results[from] == Decisive(kind) then
      Pass(results[from], 0, [from])
    else
      Extend([from], CompositePass(kind, results, from + 1))
  }

  /** A tick reads only the results from its cursor on. */
  lemma {:induction false} PassFrame(kind: Kind, a: seq<Status>, b: seq<Status>, from: nat)
    requires |a| == |b|
    requires forall j :: from <= j < |a| ==> a[j] == b[j]
    ensures CompositePass(kind, a, from) == CompositePass(kind, b, from)
    decreases |a| - from
  {
    if from < |a| {
      assert a[from] == b[from];
      PassFrame(kind, a, b, from + 1);
    }
  }

  /** A tick stops at the first child, from the cursor on, whose status is
      not the advancing one, and returns that child's status. */
  lemma {:induction false} PassStopsAt(kind: Kind, results: seq<Status>, from: nat, k: nat)
    requires from <= k < |results|
    requires forall j :: from <= j < k ==> results[j] == Advancing(kind)
    requires results[k] != Advancing(kind)
    ensures CompositePass(kind, results, from)
         == Pass(results[k], if results[k] == Running then k else 0, Range(from, k + 1))
    decreases k - from
  {
    if from < k {
      PassStopsAt(kind, results, from + 1, k);
      assert [from] + Range(from + 1, k + 1) == Range(from, k + 1);
    }
  }

  /** A tick in which every child from the cursor on advances ticks all of
      them and returns the advancing status with the cursor back at 0. */
  lemma {:induction false} PassExhausts(kind: Kind, results: seq<Status>, from: nat)
    requires forall j :: from <= j < |results| ==> results[j] == Advancing(kind)
    ensures CompositePass(kind, results, from) == Pass(Advancing(kind), 0, Range(from, |results|))
    decreases |results| - from
  {
    if from < |results| {
      PassExhausts(kind, results, from + 1);
      assert [from] + Range(from + 1, |results|) == Range(from, |results|);
    }
  }

  /** Sequence: the first failing child makes the tick fail and resets the cursor. */
  lemma SequenceFails(results: seq<Status>, from: nat, k: nat)
    requires from <= k < |results| && results[k] == Failure
    requires forall j :: from <= j < k ==> results[j] == Success
    ensures CompositePass(SequenceKind, results, from) == Pass(Failure, 0, Range(from, k + 1))
  {
    PassStopsAt(SequenceKind, results, from, k);
  }

  /** Sequence: when every child from the cursor on succeeds, so does the
      tick, with the cursor back at 0; with no children it succeeds at once. */
  lemma SequenceSucceeds(results: seq<Status>, from: nat)
    requires forall j :: from <= j < |results| ==> results[j] == Success
    ensures CompositePass(SequenceKind, results, from) == Pass(Success, 0, Range(from, |results|))
  {
    PassExhausts(SequenceKind, results, from);
  }

  /** Selector: the first succeeding child makes the tick succeed and resets the cursor. */
  lemma SelectorSucceeds(results: seq<Status>, from: nat, k: nat)
    requires from <= k < |results| && results[k] == Success
    requires forall j :: from <= j < k ==> results[j] == Failure
    ensures CompositePass(SelectorKind, results, from) == Pass(Success, 0, Range(from, k + 1))
  {
    PassStopsAt(SelectorKind, results, from, k);
  }

  /** Selector: when every child from the cursor on fails, so does the tick,
      with the cursor back at 0; with no children it fails at once. */
  lemma SelectorFails(results: seq<Status>, from: nat)
    requires forall j :: from <= j < |results| ==> results[j] == Failure
    ensures CompositePass(SelectorKind, results, from) == Pass(Failure, 0, Range(from, |results|))
  {
    PassExhausts(SelectorKind, results, from);
  }

  /** Either composite: a RUNNING child makes the tick return RUNNING with the
      cursor left on that child. */
  lemma RunningPassesThrough(kind: Kind, results: seq<Status>, from: nat, k: nat)
    requires from <= k < |results| && results[k] == Running
    requires forall j :: from <= j < k ==> results[j] == Advancing(kind)
    ensures CompositePass(kind, results, from) == Pass(Running, k, Range(from, k + 1))
  {
    PassStopsAt(kind, results, from, k);
  }

  /** Over two consecutive ticks of the same composite: the second starts at the
      child the first left RUNNING, and from child 0 after any other outcome. */
  lemma NextTickStart(kind: Kind, first: seq<Status>, second: seq<Status>, from: nat)
    requires |first| == |second| > 0
    ensures var p := CompositePass(kind, first, from);
            var q := CompositePass(kind, second, p.cursor);
            q.ticked != [] && q.ticked[0] == (if p.status == Running then p.cursor else 0)
  {
  }

  /** A Sequence node: `size` children, and the cursor `current` of the child
      at which the next tick resumes. */
  class Sequence {
    const size: nat
    var current: nat

    ghost predicate Valid()
      reads this
    {
      current == 0 || current < size
    }

    constructor (size: nat)
      ensures this.size == size && current == 0 && Valid()
    {
      this.size := size;
      current := 0;
    }

    /** Ticks the children from the cursor on; results[i] is what child i
        returns when ticked, and `ticked` lists the children ticked, in order. */
    method Tick(results: seq<Status>) returns (status: Status, ticked: seq<nat>)
      requires Valid() && |results| == size
      modifies this
      ensures Valid()
      ensures Pass(status, current, ticked) == CompositePass(SequenceKind, results, old(current))
    {
      ghost var from := current;
      ticked := [];
      while current < |results|
        invariant CompositePass(SequenceKind, results, from)
               == Extend(ticked, CompositePass(SequenceKind, results, current))
        decreases |results| - current
      {
        var s := results[current];
        if s == Running {
          ticked := ticked + [current];
          status := Running;
          return;
        }
        if s == Failure {
          ticked := ticked + [current];
          current := 0;
          status := Failure;
          return;
        }
        ExtendTwice(ticked, [current], CompositePass(SequenceKind, results, current + 1));
        ticked := ticked + [current];
        current := current + 1;
      }
      current := 0;
      status := Success;
    }
  }

  /** A Selector node: `size` children, and the cursor `current` of the child
      at which the next tick resumes. */
  class Selector {
    const size: nat
    var current: nat

    ghost predicate Valid()
      reads this
    {
      current == 0 || current < size
    }

    constructor (size: nat)
      ensures this.size == size && current == 0 && Valid()
    {
      this.size := size;
      current := 0;
    }

    /** Ticks the children from the cursor on; results[i] is what child i
        returns when ticked, and `ticked` lists the children ticked, in order. */
    method Tick(results: seq<Status>) returns (status: Status, ticked: seq<nat>)
      requires Valid() && |results| == size
      modifies this
      ensures Valid()
      ensures Pass(status, current, ticked) == CompositePass(SelectorKind, results, old(current))
    {
      ghost var from := current;
      ticked := [];
      while current < |results|
        invariant CompositePass(SelectorKind, results, from)
               == Extend(ticked, CompositePass(SelectorKind, results, current))
        decreases |results| - current
      {
        var s := results[current];
        if s == Running {
          ticked := ticked + [current];
          status := Running;
          return;
        }
        if s == Success {
          ticked := ticked + [current];
          current := 0;
          status := Success;
          return;
        }
        ExtendTwice(ticked, [current], CompositePass(SelectorKind, results, current + 1));
        ticked := ticked + [current];
        current := current + 1;
      }
      current := 0;
      status := Failure;
    }
  }

  /** A Repeater ticks its only child and reports RUNNING whatever the child
      returned. */
  function RepeaterTick(child: Status): (s: Status)
    ensures s == Running
  {
    Running
  }

  /** A Condition reports SUCCESS exactly when its predicate holds. */
  function ConditionTick(holds: bool): (s: Status)
    ensures s == Success <==> holds
    ensures s != Running
  {
    if holds then Success else Failure
  }
}
