/** What every permitted run of the session pool conserves: slots, sockets and distinct ids. */
module PoolCounts {
  import opened Words
  import opened PoolModel
  import opened PoolSteps

  // ---------------------------------------------------------------- slots

  function Below(n: nat): (r: set<nat>)
    ensures forall i: nat :: i in r <==> i < n
    ensures |r| == n
  {
    if n == 0 then {} else Below(n - 1) + {n - 1}
  }

  function Elements(f: seq<nat>): (r: set<nat>)
    ensures forall i :: i in r <==> i in f
  {
    set i | i in f
  }

  function FreeSlots(s: State): set<nat> {
    Elements(s.pool.free)
  }

  /** Thread `t` has a push of slot `i` still to do, or to hear from an owner that will have it pushed. */
  predicate WillPush(s: State, t: nat, i: nat)
    requires i < |s.pool.slots|
  {
    var w := Todo(s, t);
    && w != [] && w[|w| - 1].slot == i
    && (w[|w| - 1].Push? || (w[|w| - 1].Notify? && s.pool.slots[i].Returns()))
  }

  /** The slot is on its way back to the stack. */
  ghost predicate BeingPushed(s: State, i: nat)
    requires i < |s.pool.slots|
  {
    exists t :: t in s.threads && WillPush(s, t, i)
  }

  /** A tenancy holds the slot: one has begun, the session carries its id, and no thread will push it. */
  ghost predicate HeldByTenancy(s: State, i: nat)
    requires Shaped(s) && i < |s.pool.slots|
  {
    && i !in s.pool.free
    && s.tenant[i] > 0 && s.pool.slots[i].id == Mod64(s.tenant[i])
    && !BeingPushed(s, i)
  }

  ghost function Releasing(s: State): (r: set<nat>)
    ensures forall i: nat :: i in r <==> i < |s.pool.slots| && BeingPushed(s, i)
  {
    set i: nat | i in Below(|s.pool.slots|) && BeingPushed(s, i)
  }

  ghost function InUse(s: State): (r: set<nat>)
    requires Shaped(s)
    ensures forall i: nat :: i in r <==> i < |s.pool.slots| && HeldByTenancy(s, i)
  {
    set i: nat | i in Below(|s.pool.slots|) && HeldByTenancy(s, i)
  }

  /** No two threads will push one slot. */
  ghost predicate OnePusherEach(s: State) {
    forall i, t, u ::
      (0 <= i < |s.pool.slots| && t in s.threads && u in s.threads && WillPush(s, t, i) && WillPush(s, u, i)) ==> t == u
  }

  lemma {:induction false} CountDistinct(f: seq<nat>)
    requires NoDuplicates(f)
    ensures |Elements(f)| == |f|
  {
    if f == [] {
      assert Elements(f) == {};
    } else {
      var n := |f| - 1;
      CountDistinct(f[..n]);
      assert f[n] !in f[..n];
      assert f == f[..n] + [f[n]];
      assert Elements(f) == Elements(f[..n]) + {f[n]};
    }
  }

  lemma CountParts(all: set<nat>, f: set<nat>, u: set<nat>, r: set<nat>)
    requires f !! u !! r && f + u + r == all
    ensures |f| + |u| + |r| == |all|
  {
    assert |f + u| == |f| + |u|;
  }

  /** A thread that will push a slot is that slot's keeper. */
  lemma PusherIsKeeper(s: State, t: nat, i: nat)
    requires Inv(s) && i < |s.pool.slots| && t in s.threads && WillPush(s, t, i)
    ensures s.keeper[i] == Some(t) && i !in s.pool.free
  {
    var w := Todo(s, t);
    assert ThreadInv(s, t);
    assert SlotInv(s, w[0].slot);
    assert SlotInv(s, i);
  }

  /** Each slot is free, held or being pushed, and only one of these. */
  lemma SlotIsOneOfThree(s: State, i: nat)
    requires Inv(s) && i < |s.pool.slots|
    ensures i in s.pool.free || HeldByTenancy(s, i) || BeingPushed(s, i)
    ensures !(i in s.pool.free && BeingPushed(s, i))
    ensures HeldByTenancy(s, i) ==> i !in s.pool.free && !BeingPushed(s, i)
  {
    assert SlotInv(s, i);
    if BeingPushed(s, i) {
      var t :| t in s.threads && WillPush(s, t, i);
      PusherIsKeeper(s, t, i);
    } else if s.keeper[i].Some? {
      var t := s.keeper[i].value;
      assert IsReset(Todo(s, t)) ==> WillPush(s, t, i);
    }
  }

  lemma FreeIsStack(s: State)
    requires Inv(s)
    ensures NoDuplicates(s.pool.free) && forall i :: i in s.pool.free ==> i < |s.pool.slots|
  {
  }

  lemma Partition(s: State)
    requires Inv(s)
    ensures FreeSlots(s) !! InUse(s) !! Releasing(s)
    ensures FreeSlots(s) + InUse(s) + Releasing(s) == Below(|s.pool.slots|)
    ensures |s.pool.free| + |InUse(s)| + |Releasing(s)| == |s.pool.slots|
  {
    hide Inv, BeingPushed, HeldByTenancy, InUse, Releasing, Elements, Below;
    var n, f, u, r := |s.pool.slots|, FreeSlots(s), InUse(s), Releasing(s);
    assert NoDuplicates(s.pool.free) && forall i :: i in s.pool.free ==> i < n by {
      FreeIsStack(s);
    }
    CountDistinct(s.pool.free);
    forall i: nat | i < n
      ensures i in f || i in u || i in r
      ensures !(i in f && i in r) && !(i in f && i in u) && !(i in u && i in r)
    {
      SlotIsOneOfThree(s, i);
    }
    assert f !! u !! r;
    assert f + u + r == Below(n);
    CountParts(Below(n), f, u, r);
  }

  lemma OnePusher(s: State)
    requires Inv(s)
    ensures OnePusherEach(s)
  {
    forall i, t, u |
      0 <= i < |s.pool.slots| && t in s.threads && u in s.threads && WillPush(s, t, i) && WillPush(s, u, i)
      ensures t == u
    {
      PusherIsKeeper(s, t, i);
      PusherIsKeeper(s, u, i);
    }
  }

  lemma StartCapacity(n: nat)
    ensures |Start(n).pool.slots| == n
  {
  }

  lemma CapacityStaysInStep(s: State, l: Label)
    ensures |Apply(s, l).pool.slots| == |s.pool.slots|
  {
  }

  lemma {:induction false} CapacityStays(s: State, ls: seq<Label>)
    ensures |Exec(s, ls).pool.slots| == |s.pool.slots|
  {
    hide Apply;
    if ls == [] {
      assert Exec(s, ls) == s;
    } else {
      CapacityStays(s, ls[..|ls| - 1]);
      CapacityStaysInStep(Exec(s, ls[..|ls| - 1]), ls[|ls| - 1]);
    }
  }

  lemma RunFromStart(n: nat, ls: seq<Label>)
    requires PermittedRun(Start(n), ls)
    ensures Inv(Exec(Start(n), ls)) && |Exec(Start(n), ls).pool.slots| == n
  {
    hide Inv, Apply, Start;
    StartInv(n);
    RunInv(Start(n), ls);
    CapacityStays(Start(n), ls);
    assert |Start(n).pool.slots| == n by { StartCapacity(n); }
  }

  /**
   After every permitted run, each slot is free, held by a tenancy, or being pushed by exactly one
   thread, only one of these, and the free count and the two others add up to the capacity.
   */
  lemma Conservation(n: nat, ls: seq<Label>)
    requires PermittedRun(Start(n), ls)
    ensures
      var s := Exec(Start(n), ls);
      && Shaped(s) && |s.pool.slots| == n
      && FreeSlots(s) !! InUse(s) !! Releasing(s)
      && FreeSlots(s) + InUse(s) + Releasing(s) == Below(n)
      && |s.pool.free| + |InUse(s)| + |Releasing(s)| == n
      && OnePusherEach(s)
  {
    hide Inv, Exec, PermittedRun, Start, OnePusherEach;
    RunFromStart(n, ls);
    Partition(Exec(Start(n), ls));
    OnePusher(Exec(Start(n), ls));
  }

  /**
   When no call is under way, every slot that is not free is held: by a tenancy that has begun, with
   its id, its socket open exactly while it is connected, and connected if its owner returns sessions.
   */
  lemma QuiescentSound(s: State)
    requires Inv(s) && forall t :: t in s.threads ==> s.threads[t] == []
    ensures Sound(s.pool) && Releasing(s) == {}
    ensures forall i :: 0 <= i < |s.pool.slots| && i !in s.pool.free ==> HeldSlot(s, i)
  {
    forall i | 0 <= i < |s.pool.slots|
      ensures s.keeper[i] == None
      ensures s.pool.slots[i].Returns() ==> s.pool.slots[i].connected
      ensures if i in s.pool.free then s.pool.slots[i] == IdleSlot() else HeldSlot(s, i)
    {
      assert SlotInv(s, i);
      if s.keeper[i].Some? {
        IdleKeepsNothing(s, s.keeper[i].value, i);
      }
    }
  }

  // ---------------------------------------------------------------- what Acquire hands out

  /** Whether step `l` from `s` hands out slot `i`. */
  predicate HandsOut(s: State, l: Label, i: nat) {
    l.AcquireCall? && Enabled(s, l) && Top(s.pool) == Some(i)
  }

  /** Acquire's slot is idle and kept by no thread, and becomes held by the next tenancy. */
  lemma AcquiredSlot(s: State, handle: nat, owner: Owner)
    requires Inv(s) && s.pool.free != []
    ensures
      var i, s' := s.pool.free[|s.pool.free| - 1], AfterAcquire(s, handle, owner);
      && Shaped(s') && i < |s.pool.slots| == |s'.pool.slots|
      && s.pool.slots[i] == IdleSlot() && s.keeper[i] == None && HeldByTenancy(s', i)
      && s'.tenant[i] == s'.issued == s.issued + 1
      && s'.pool.slots[i] == Slot(s.pool.nextId, true, owner, Socket(handle))
      && s'.pool.free == s.pool.free[..|s.pool.free| - 1] && s'.threads == s.threads
      && (forall j :: 0 <= j < |s.pool.slots| && j != i ==> s'.pool.slots[j] == s.pool.slots[j])
  {
    var i, s' := s.pool.free[|s.pool.free| - 1], AfterAcquire(s, handle, owner);
    AcquireKeepsInv(s, handle, owner);
    assert SlotInv(s, i);
    if BeingPushed(s', i) {
      var t :| t in s'.threads && WillPush(s', t, i);
      PusherIsKeeper(s', t, i);
    }
  }

  lemma NothingToAcquire(s: State, handle: nat, owner: Owner)
    requires s.pool.free == []
    ensures Apply(s, AcquireCall(handle, owner)) == s
  {
  }

  /**
   After every permitted run, Acquire hands out an idle slot that no thread is ending, and gives it the
   next id; it hands out none exactly when every slot is held or on its way back.
   */
  lemma AcquireGivesIdle(n: nat, ls: seq<Label>, handle: nat, owner: Owner)
    requires PermittedRun(Start(n), ls)
    ensures
      var s := Exec(Start(n), ls);
      var s' := Apply(s, AcquireCall(handle, owner));
      && Shaped(s) && Shaped(s') && |s'.pool.slots| == |s.pool.slots| == n
      && (Top(s.pool).None? <==> |InUse(s)| + |Releasing(s)| == n)
      && (Top(s.pool).Some? ==>
            var i := Top(s.pool).value;
            && i < n && s.pool.slots[i] == IdleSlot() && s.keeper[i] == None
            && HeldByTenancy(s', i) && s'.tenant[i] == s'.issued == s.issued + 1
            && s'.pool.slots[i] == Slot(s.pool.nextId, true, owner, Socket(handle))
            && s'.pool.free == s.pool.free[..|s.pool.free| - 1] && s'.threads == s.threads
            && (forall j :: 0 <= j < n && j != i ==> s'.pool.slots[j] == s.pool.slots[j]))
  {
    hide Exec, PermittedRun, Start, Inv, InUse, Releasing, HeldByTenancy, AfterAcquire;
    var s := Exec(Start(n), ls);
    RunFromStart(n, ls);
    Partition(s);
    if s.pool.free != [] {
      AcquiredSlot(s, handle, owner);
    } else {
      assert Apply(s, AcquireCall(handle, owner)) == s by { NothingToAcquire(s, handle, owner); }
    }
  }

  // ---------------------------------------------------------------- sockets

  /** How many tenancies a run began: its successful acquisitions. */
  function Begun(s: State, ls: seq<Label>): nat {
    if ls == [] then 0
    else
      var before := Exec(s, ls[..|ls| - 1]);
      var l := ls[|ls| - 1];
      Begun(s, ls[..|ls| - 1]) + if l.AcquireCall? && Enabled(before, l) && before.pool.free != [] then 1 else 0
  }

  predicate ClosesSocket(s: State, l: Label) {
    && l.Run? && Enabled(s, l)
    && Todo(s, l.thread)[0].Close? && s.pool.slots[Todo(s, l.thread)[0].slot].sock.Socket?
  }

  /** How many sockets a run closed. */
  function Closings(s: State, ls: seq<Label>): nat {
    if ls == [] then 0
    else Closings(s, ls[..|ls| - 1]) + if ClosesSocket(Exec(s, ls[..|ls| - 1]), ls[|ls| - 1]) then 1 else 0
  }

  lemma HistoryCountsInStep(s: State, l: Label)
    ensures Apply(s, l).issued == s.issued + if l.AcquireCall? && Enabled(s, l) && s.pool.free != [] then 1 else 0
    ensures Apply(s, l).closed == s.closed + if ClosesSocket(s, l) then 1 else 0
  {
  }

  lemma {:induction false} HistoryCounts(n: nat, ls: seq<Label>)
    ensures Exec(Start(n), ls).issued == Begun(Start(n), ls)
    ensures Exec(Start(n), ls).closed == Closings(Start(n), ls)
  {
    hide Apply, ClosesSocket;
    if ls == [] {
      assert Exec(Start(n), ls) == Start(n);
    } else {
      HistoryCounts(n, ls[..|ls| - 1]);
      HistoryCountsInStep(Exec(Start(n), ls[..|ls| - 1]), ls[|ls| - 1]);
    }
  }

  /**
   After every permitted run, the tenancies begun are the sockets closed and those still open; every
   close finds its tenancy's socket open, every reset finds it closed, and no free slot has one.
   */
  lemma SocketsAreClosedOnce(n: nat, ls: seq<Label>, t: nat)
    requires PermittedRun(Start(n), ls)
    ensures
      var s := Exec(Start(n), ls);
      var w := Todo(s, t);
      && Begun(Start(n), ls) == Closings(Start(n), ls) + |OpenSockets(s)|
      && (w != [] ==> w[0].slot < |s.pool.slots|)
      && (w != [] && w[0].Close? ==> s.pool.slots[w[0].slot].sock.Socket?)
      && (w != [] && w[0].Reset? ==> s.pool.slots[w[0].slot].sock.InvalidSocket?)
      && (forall i :: i in s.pool.free ==> i !in OpenSockets(s))
  {
    var s := Exec(Start(n), ls);
    RunFromStart(n, ls);
    HistoryCounts(n, ls);
    hide Exec, PermittedRun, Start;
    if Todo(s, t) != [] {
      assert ThreadInv(s, t) && SlotInv(s, Todo(s, t)[0].slot);
    }
    forall i | i in s.pool.free
      ensures i !in OpenSockets(s)
    {
      assert SlotInv(s, i);
    }
  }
}
