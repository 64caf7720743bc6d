/** The order in which any interleaving hands slots out: last in, first out, with growing ids. */
module PoolOrder {
  import opened Words
  import opened PoolModel
  import opened PoolSteps
  import opened PoolCounts
  import PoolIds

  datatype Event = Pushed(slot: nat) | Popped

  /** What one step does to the free stack. */
  function EventOf(s: State, l: Label): seq<Event> {
    if !Enabled(s, l) then []
    else match l
      case AcquireCall(_, _) => if s.pool.free == [] then [] else [Popped]
      case Run(t) => if Todo(s, t)[0].Push? then [Pushed(Todo(s, t)[0].slot)] else []
      case _ => []
  }

  /** The pushes that the constructor makes. */
  function Initial(n: nat): (log: seq<Event>) {
    if n == 0 then [] else Initial(n - 1) + [Pushed(n - 1)]
  }

  /** Every push and pop so far, the constructor's first. */
  function Log(n: nat, ls: seq<Label>): seq<Event> {
    if ls == [] then Initial(n)
    else Log(n, ls[..|ls| - 1]) + EventOf(Exec(Start(n), ls[..|ls| - 1]), ls[|ls| - 1])
  }

  /**
   The slot pushed most recently and not popped since, read off the log alone: going back in time,
   every pop met cancels the next push. `pops` is how many pops are still to be cancelled.
   */
  function LatestNotPopped(log: seq<Event>, pops: nat): Option<nat> {
    if log == [] then None
    else
      var before := log[..|log| - 1];
      match log[|log| - 1]
      case Popped => LatestNotPopped(before, pops + 1)
      case Pushed(i) => if pops == 0 then Some(i) else LatestNotPopped(before, pops - 1)
  }

  /** The stack `f` holds, from the top, what the log says was pushed and not popped. */
  ghost predicate Agrees(f: seq<nat>, log: seq<Event>) {
    forall d: nat :: LatestNotPopped(log, d) == if d < |f| then Some(f[|f| - 1 - d]) else None
  }

  lemma AgreesAfterPush(f: seq<nat>, log: seq<Event>, i: nat)
    requires Agrees(f, log)
    ensures Agrees(f + [i], log + [Pushed(i)])
  {
    var log' := log + [Pushed(i)];
    assert log'[..|log'| - 1] == log;
  }

  lemma AgreesAfterPop(f: seq<nat>, log: seq<Event>)
    requires Agrees(f, log) && f != []
    ensures Agrees(f[..|f| - 1], log + [Popped])
  {
    var log' := log + [Popped];
    assert log'[..|log'| - 1] == log;
    forall d: nat
      ensures LatestNotPopped(log', d) == LatestNotPopped(log, d + 1)
    {
    }
  }

  lemma {:induction false} InitialAgrees(n: nat)
    ensures Agrees(seq(n, i => i), Initial(n))
  {
    if n == 0 {
      assert seq(n, i => i) == [];
    } else {
      InitialAgrees(n - 1);
      AgreesAfterPush(seq(n - 1, i => i), Initial(n - 1), n - 1);
      assert seq(n, i => i) == seq(n - 1, i => i) + [n - 1];
    }
  }

  lemma StepEvent(s: State, l: Label)
    ensures |EventOf(s, l)| <= 1 && (EventOf(s, l) == [Popped] ==> s.pool.free != [])
    ensures EventOf(s, l) == [] ==> Apply(s, l).pool.free == s.pool.free
    ensures EventOf(s, l) == [Popped] ==> Apply(s, l).pool.free == s.pool.free[..|s.pool.free| - 1]
    ensures EventOf(s, l) != [] && EventOf(s, l)[0].Pushed?
        ==> Apply(s, l).pool.free == s.pool.free + [EventOf(s, l)[0].slot]
  {
  }

  lemma {:induction false} FreeAgrees(n: nat, ls: seq<Label>)
    ensures Agrees(Exec(Start(n), ls).pool.free, Log(n, ls))
  {
    hide Agrees, Apply, EventOf;
    if ls == [] {
      InitialAgrees(n);
    } else {
      var before, l := ls[..|ls| - 1], ls[|ls| - 1];
      var s := Exec(Start(n), before);
      FreeAgrees(n, before);
      StepEvent(s, l);
      if EventOf(s, l) == [] {
        assert Log(n, ls) == Log(n, before);
      } else if EventOf(s, l) == [Popped] {
        AgreesAfterPop(s.pool.free, Log(n, before));
      } else {
        var i := EventOf(s, l)[0].slot;
        assert EventOf(s, l) == [Pushed(i)];
        AgreesAfterPush(s.pool.free, Log(n, before), i);
      }
    }
  }

  /**
   After any run of any threads, permitted or not, the slot that Acquire hands out is the one pushed
   most recently and not popped since.
   */
  lemma LastInFirstOut(n: nat, ls: seq<Label>)
    ensures Top(Exec(Start(n), ls).pool) == LatestNotPopped(Log(n, ls), 0)
  {
    hide Exec, Log, LatestNotPopped;
    FreeAgrees(n, ls);
  }

  // ---------------------------------------------------------------- ids

  lemma {:induction false} BegunGrows(s: State, ls: seq<Label>, p: nat)
    requires p <= |ls|
    ensures Begun(s, ls[..p]) <= Begun(s, ls)
  {
    hide Exec, Enabled;
    if p == |ls| {
      assert ls[..p] == ls;
    } else {
      BegunGrows(s, ls[..|ls| - 1], p);
      assert ls[..|ls| - 1][..p] == ls[..p];
    }
  }

  lemma BegunByStep(s: State, ls: seq<Label>, p: nat, i: nat)
    requires p < |ls| && HandsOut(Exec(s, ls[..p]), ls[p], i)
    ensures Begun(s, ls[..p + 1]) == Begun(s, ls[..p]) + 1
  {
    hide Exec;
    assert ls[..p + 1][..p] == ls[..p];
  }

  /**
   Of two acquisitions in one run, permitted or not, the later gets the larger id, and both ids are
   nonzero, before the counter wraps.
   */
  lemma IdsIncrease(n: nat, ls: seq<Label>, p: nat, i: nat, q: nat, j: nat)
    requires p < q < |ls|
    requires HandsOut(Exec(Start(n), ls[..p]), ls[p], i) && HandsOut(Exec(Start(n), ls[..q]), ls[q], j)
    requires Begun(Start(n), ls[..q]) + 1 < TWO_64
    ensures 0 < Exec(Start(n), ls[..p]).pool.nextId < Exec(Start(n), ls[..q]).pool.nextId
  {
    hide Exec, Start, HandsOut, Begun;
    PoolIds.NextIdCounts(n, ls[..p]);
    PoolIds.NextIdCounts(n, ls[..q]);
    BegunByStep(Start(n), ls, p, i);
    BegunGrows(Start(n), ls[..q], p + 1);
    assert ls[..q][..p + 1] == ls[..p + 1];
  }
}
