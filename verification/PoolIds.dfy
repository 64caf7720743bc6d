/** Session ids: new until the counter wraps, a map from tenancies to slots, and generations of a slot. */
module PoolIds {
  import opened Words
  import opened PoolModel
  import opened PoolSteps
  import opened PoolCounts

  // ---------------------------------------------------------------- new ids

  /** Whether slot `i` is handed out and its session not reset yet. */
  predicate Live(s: State, i: nat)
    requires Shaped(s)
  {
    i < |s.pool.slots| && i !in s.pool.free && (s.keeper[i].Some? ==> !IsReset(Todo(s, s.keeper[i].value)))
  }

  lemma LiveId(s: State, i: nat)
    requires Inv(s) && i < |s.pool.slots|
    ensures s.tenant[i] <= s.issued
    ensures if Live(s, i) then s.tenant[i] > 0 && s.pool.slots[i].id == Mod64(s.tenant[i]) else s.pool.slots[i].id == 0
  {
    assert SlotInv(s, i);
  }

  lemma FirstId(n: nat)
    ensures Start(n).pool.nextId == Mod64(1)
  {
  }

  lemma NextIdInStep(s: State, l: Label)
    ensures Apply(s, l).pool.nextId
         == if l.AcquireCall? && Enabled(s, l) && s.pool.free != [] then Mod64(s.pool.nextId + 1) else s.pool.nextId
  {
  }

  /** The next id in any run, permitted or not: one more than the tenancies begun, modulo 2^64. */
  lemma {:induction false} NextIdCounts(n: nat, ls: seq<Label>)
    ensures Exec(Start(n), ls).pool.nextId == Mod64(Begun(Start(n), ls) + 1)
  {
    hide Apply, Mod64;
    if ls == [] {
      FirstId(n);
    } else {
      AddMod64(Begun(Start(n), ls[..|ls| - 1]) + 1, 1);
      NextIdCounts(n, ls[..|ls| - 1]);
      NextIdInStep(Exec(Start(n), ls[..|ls| - 1]), ls[|ls| - 1]);
    }
  }

  lemma LiveInRange(s: State, i: nat)
    requires Shaped(s) && Live(s, i)
    ensures i < |s.pool.slots|
  {
  }

  /** A live session has the next id exactly when its tenancy is a multiple of 2^64 before the next one. */
  lemma NextIdMeets(s: State, i: nat)
    requires Inv(s) && Live(s, i)
    ensures i < |s.pool.slots| == |s.tenant| && s.tenant[i] <= s.issued
    ensures s.pool.slots[i].id == s.pool.nextId <==> Mod64(s.tenant[i]) == Mod64(s.issued + 1)
    ensures s.issued + 1 < TWO_64 ==> s.pool.slots[i].id != s.pool.nextId
  {
    LiveInRange(s, i);
    LiveId(s, i);
  }

  /**
   After every permitted run the next id numbers the next tenancy modulo 2^64. A live session already has
   it exactly when their tenancies are congruent; before the counter wraps, none has, and it is not 0.
   */
  lemma IdsAreNew(n: nat, ls: seq<Label>, i: nat)
    requires PermittedRun(Start(n), ls)
    ensures
      var s, next := Exec(Start(n), ls), Begun(Start(n), ls) + 1;
      && Shaped(s) && s.pool.nextId == Mod64(next)
      && (next < TWO_64 ==> s.pool.nextId == next)
      && (Live(s, i) ==>
            && i < |s.pool.slots|
            && (s.pool.slots[i].id == s.pool.nextId <==> Mod64(s.tenant[i]) == Mod64(next))
            && (next < TWO_64 ==> s.pool.slots[i].id != s.pool.nextId))
  {
    hide Exec, PermittedRun, Start, Inv, Live, Begun;
    NextIdCounts(n, ls);
    HistoryCounts(n, ls);
    RunFromStart(n, ls);
    if Live(Exec(Start(n), ls), i) {
      NextIdMeets(Exec(Start(n), ls), i);
    }
  }

  /**
   Before the id counter wraps, `GetById` is the map from the ids of live tenancies to their slots:
   it finds a slot exactly when that slot's tenancy has the id and is held and not yet reset.
   */
  lemma GetByIdFindsTenancy(s: State, id: uint64, i: nat)
    requires Inv(s) && s.issued < TWO_64
    ensures GetById(s.pool, id) == Some(i) <==> id != 0 && Live(s, i) && s.tenant[i] == id
  {
    if GetById(s.pool, id) == Some(i) {
      LiveId(s, i);
    } else if id != 0 && Live(s, i) && s.tenant[i] == id {
      LiveId(s, i);
      var r := GetById(s.pool, id);
      assert s.pool.slots[i].id == id;
      LiveId(s, r.value);
    }
  }

  /** Two live sessions carry one id exactly when their tenancies are 2^64 apart, or a multiple. */
  lemma SharedIdIff(s: State, i: nat, j: nat)
    requires Inv(s) && Live(s, i) && Live(s, j)
    ensures s.pool.slots[i].id == s.pool.slots[j].id <==> Mod64(s.tenant[i]) == Mod64(s.tenant[j])
    ensures s.issued < TWO_64 ==> (s.pool.slots[i].id == s.pool.slots[j].id <==> i == j)
  {
    LiveId(s, i);
    LiveId(s, j);
  }

  // ---------------------------------------------------------------- a scan with steps in between

  /** Steps that take the pool's lock: Acquire, and the push of Release. */
  predicate TakesLock(s: State, l: Label) {
    Enabled(s, l) && (l.AcquireCall? || (l.Run? && Todo(s, l.thread)[0].Push?))
  }

  /** A permitted run while another thread holds the lock. */
  ghost predicate LockedRun(s: State, ls: seq<Label>) {
    ls == [] ||
    (var before := Exec(s, ls[..|ls| - 1]);
     LockedRun(s, ls[..|ls| - 1]) && Permitted(before, ls[|ls| - 1]) && !TakesLock(before, ls[|ls| - 1]))
  }

  predicate Carries(s: State, i: nat, id: uint64) {
    i < |s.pool.slots| && s.pool.slots[i].id == id
  }

  predicate ReadsId(s: State, ls: seq<Label>, at: seq<nat>, i: nat, id: uint64)
    requires i < |at| && at[i] <= |ls|
  {
    Carries(Exec(s, ls[..at[i]]), i, id)
  }

  /**
   The scan of `GetById` as separate reads: session `i` is read after the first `at[i]` steps of the
   run, and the first session read to carry `id` is the answer.
   */
  function Scan(s: State, ls: seq<Label>, at: seq<nat>, id: uint64, from: nat): (r: Option<nat>)
    requires from <= |at| && forall i :: 0 <= i < |at| ==> at[i] <= |ls|
    ensures r.Some? ==> from <= r.value < |at| && ReadsId(s, ls, at, r.value, id)
    ensures forall i :: from <= i < (if r.Some? then r.value else |at|) ==> !ReadsId(s, ls, at, i, id)
    decreases |at| - from
  {
    if from == |at| then None
    else if ReadsId(s, ls, at, from, id) then Some(from)
    else Scan(s, ls, at, id, from + 1)
  }

  /** While the lock is held a session's id changes only by being reset. */
  lemma IdOnlyReset(s: State, l: Label, i: nat)
    requires Inv(s) && Permitted(s, l) && !TakesLock(s, l) && i < |s.pool.slots|
    ensures |Apply(s, l).pool.slots| == |s.pool.slots| && Apply(s, l).issued == s.issued
    ensures Apply(s, l).pool.slots[i].id in {0, s.pool.slots[i].id}
  {
  }

  lemma {:induction false} IdOnlyResetInRun(s: State, ls: seq<Label>, p: nat, i: nat)
    requires Inv(s) && LockedRun(s, ls) && p <= |ls| && i < |s.pool.slots|
    ensures
      var a, b := Exec(s, ls[..p]), Exec(s, ls);
      && Inv(a) && Inv(b) && a.issued == b.issued == s.issued
      && |a.pool.slots| == |b.pool.slots| == |s.pool.slots|
      && b.pool.slots[i].id in {0, a.pool.slots[i].id}
  {
    hide Inv, Apply, Permitted, TakesLock;
    if ls == [] {
      assert ls[..p] == [];
    } else {
      var m := |ls| - 1;
      var before := ls[..m];
      if p == |ls| {
        IdOnlyResetInRun(s, before, 0, i);
        assert ls[..p] == ls;
      } else {
        IdOnlyResetInRun(s, before, p, i);
        assert before[..p] == ls[..p];
      }
      StepKeepsInv(Exec(s, before), ls[m]);
      IdOnlyReset(Exec(s, before), ls[m], i);
    }
  }

  /** A live tenancy with the nonzero id `id`, before the counter wraps, is a session that carries it. */
  lemma LiveIffCarries(s: State, i: nat, id: uint64)
    requires Inv(s) && i < |s.pool.slots| && s.issued < TWO_64 && id != 0
    ensures Live(s, i) && s.tenant[i] == id <==> s.pool.slots[i].id == id
  {
    LiveId(s, i);
  }

  lemma {:induction false} LockedPrefix(s: State, ls: seq<Label>, p: nat)
    requires LockedRun(s, ls) && p <= |ls|
    ensures LockedRun(s, ls[..p])
  {
    if p == |ls| {
      assert ls[..p] == ls;
    } else {
      LockedPrefix(s, ls[..|ls| - 1], p);
      assert ls[..|ls| - 1][..p] == ls[..p];
    }
  }

  /** A session that carries a nonzero id at some moment under the lock carried it from the start. */
  lemma CarriedAtStart(s: State, ls: seq<Label>, p: nat, i: nat, id: uint64)
    requires Inv(s) && LockedRun(s, ls) && p <= |ls| && id != 0 && i < |s.pool.slots|
    requires i < |Exec(s, ls[..p]).pool.slots| && Exec(s, ls[..p]).pool.slots[i].id == id
    ensures s.pool.slots[i].id == id
    ensures s.issued < TWO_64 ==> forall j :: 0 <= j < |s.pool.slots| && s.pool.slots[j].id == id ==> j == i
  {
    LockedPrefix(s, ls, p);
    IdOnlyResetInRun(s, ls[..p], 0, i);
    assert ls[..p][..0] == [] && Exec(s, []) == s;
    if s.issued < TWO_64 {
      forall j | 0 <= j < |s.pool.slots| && s.pool.slots[j].id == id
        ensures j == i
      {
        LiveIffCarries(s, i, id);
        LiveIffCarries(s, j, id);
      }
    }
  }

  /**
   `GetById` under the lock, with exchanges, closes, reports and resets of any threads between its reads,
   in whatever order the reads are made. A slot it returns held the id's tenancy when it was read. If the
   tenancy still holds a slot at the end, that slot is returned; so None means that no slot held it throughout.
   */
  lemma GetByIdScan(s: State, ls: seq<Label>, at: seq<nat>, id: uint64, i: nat)
    requires Inv(s) && LockedRun(s, ls) && s.issued < TWO_64 && id != 0 && i < |s.pool.slots|
    requires |at| == |s.pool.slots| && forall j :: 0 <= j < |at| ==> at[j] <= |ls|
    ensures Shaped(Exec(s, ls[..at[i]])) && Shaped(Exec(s, ls))
    ensures Scan(s, ls, at, id, 0) == Some(i)
       <==> Live(Exec(s, ls[..at[i]]), i) && Exec(s, ls[..at[i]]).tenant[i] == id
    ensures Live(Exec(s, ls), i) && Exec(s, ls).tenant[i] == id ==> Scan(s, ls, at, id, 0) == Some(i)
  {
    hide Exec, Inv, Live, LockedRun, Scan;
    var r := Scan(s, ls, at, id, 0);
    IdOnlyResetInRun(s, ls, at[i], i);
    LiveIffCarries(Exec(s, ls[..at[i]]), i, id);
    LiveIffCarries(Exec(s, ls), i, id);
    assert ReadsId(s, ls, at, i, id) <==> Exec(s, ls[..at[i]]).pool.slots[i].id == id;
    if ReadsId(s, ls, at, i, id) && r != Some(i) {
      assert r.Some?;
      CarriedAtStart(s, ls, at[i], i, id);
      CarriedAtStart(s, ls, at[r.value], r.value, id);
    }
  }

  // ---------------------------------------------------------------- ids of any run, permitted or not

  /** What holds of a slot's id: it is cleared, or that of the slot's latest tenancy. */
  predicate SlotIds(s: State, i: nat)
    requires Shaped(s) && i < |s.pool.slots|
  {
    && s.tenant[i] <= s.issued
    && (s.pool.slots[i].id == 0 || (s.tenant[i] > 0 && s.pool.slots[i].id == Mod64(s.tenant[i])))
  }

  /** The part of the invariant about ids, which no step needs permission to keep. */
  ghost predicate IdsKept(s: State)
    ensures IdsKept(s) ==> Shaped(s)
  {
    && Shaped(s)
    && s.pool.nextId == Mod64(s.issued + 1)
    && (forall i :: 0 <= i < |s.pool.slots| ==> SlotIds(s, i))
    && (forall i, j :: 0 <= i < j < |s.tenant| && s.tenant[i] == s.tenant[j] ==> s.tenant[i] == 0)
  }

  lemma StartKeepsIds(n: nat)
    ensures IdsKept(Start(n))
  {
  }

  lemma AcquireKeepsIds(s: State, handle: nat, owner: Owner)
    requires IdsKept(s)
    ensures IdsKept(AfterAcquire(s, handle, owner))
  {
    hide Mod64;
    var s' := AfterAcquire(s, handle, owner);
    if s.pool.free != [] {
      AddMod64(s.issued + 1, 1);
      forall j | 0 <= j < |s'.pool.slots|
        ensures SlotIds(s', j)
      {
        assert SlotIds(s, j);
      }
      forall j, k | 0 <= j < k < |s'.tenant| && s'.tenant[j] == s'.tenant[k]
        ensures s'.tenant[j] == 0
      {
        assert SlotIds(s, j) && SlotIds(s, k);
      }
    }
  }

  lemma RunKeepsIds(s: State, t: nat)
    requires IdsKept(s) && Enabled(s, Run(t))
    ensures IdsKept(AfterRun(s, t))
  {
    hide Mod64;
    var s' := AfterRun(s, t);
    forall j | 0 <= j < |s'.pool.slots|
      ensures SlotIds(s', j)
    {
      assert SlotIds(s, j);
    }
  }

  /** Beginning a call leaves ids and tenancies alone. */
  lemma CallKeepsIds(s: State, s': State)
    requires IdsKept(s) && Shaped(s') && s'.pool == s.pool && s'.issued == s.issued && s'.tenant == s.tenant
    ensures IdsKept(s')
  {
    hide Mod64;
    forall j | 0 <= j < |s.pool.slots|
      ensures SlotIds(s', j)
    {
      assert SlotIds(s, j);
    }
  }

  lemma StepKeepsIds(s: State, l: Label)
    requires IdsKept(s)
    ensures IdsKept(Apply(s, l))
  {
    hide Mod64, AfterAcquire, AfterRun, IdsKept;
    if Enabled(s, l) {
      match l
      case AcquireCall(handle, owner) => AcquireKeepsIds(s, handle, owner);
      case DisconnectCall(_, _, _) => CallKeepsIds(s, Apply(s, l));
      case ReleaseCall(_, _, _) => CallKeepsIds(s, Apply(s, l));
      case Run(t) => RunKeepsIds(s, t);
    }
  }

  lemma {:induction false} RunKeepsIdsThroughout(s: State, ls: seq<Label>)
    requires IdsKept(s)
    ensures IdsKept(Exec(s, ls))
  {
    hide IdsKept, Apply;
    if ls == [] {
      assert Exec(s, ls) == s;
    } else {
      RunKeepsIdsThroughout(s, ls[..|ls| - 1]);
      StepKeepsIds(Exec(s, ls[..|ls| - 1]), ls[|ls| - 1]);
    }
  }

  lemma SharedIdMeans(s: State, i: nat, j: nat)
    requires IdsKept(s) && i < |s.pool.slots| && j < |s.pool.slots|
    requires s.pool.slots[i].id != 0 && s.pool.slots[j].id != 0
    ensures s.pool.slots[i].id == s.pool.slots[j].id <==> Mod64(s.tenant[i]) == Mod64(s.tenant[j])
    ensures s.issued < TWO_64 ==> (s.pool.slots[i].id == s.pool.slots[j].id <==> i == j)
  {
    assert SlotIds(s, i) && SlotIds(s, j);
  }

  /**
   Ids are unique after every run, double pushes and stale disconnections included: two slots carry one
   nonzero id exactly when their latest tenancies are congruent modulo 2^64, and before the counter wraps
   exactly when they are the same slot.
   */
  lemma UniqueIds(n: nat, ls: seq<Label>, i: nat, j: nat)
    requires i < |Exec(Start(n), ls).pool.slots| && j < |Exec(Start(n), ls).pool.slots|
    requires Exec(Start(n), ls).pool.slots[i].id != 0 && Exec(Start(n), ls).pool.slots[j].id != 0
    ensures
      var s := Exec(Start(n), ls);
      && Shaped(s)
      && (s.pool.slots[i].id == s.pool.slots[j].id <==> Mod64(s.tenant[i]) == Mod64(s.tenant[j]))
      && (Begun(Start(n), ls) < TWO_64 ==> (s.pool.slots[i].id == s.pool.slots[j].id <==> i == j))
  {
    hide Exec, Start, Begun, IdsKept;
    StartKeepsIds(n);
    RunKeepsIdsThroughout(Start(n), ls);
    HistoryCounts(n, ls);
    SharedIdMeans(Exec(Start(n), ls), i, j);
  }

  /** So `GetById` finds the one slot that carries the id, after any run before the counter wraps. */
  lemma GetByIdFindsCarrier(n: nat, ls: seq<Label>, id: uint64, i: nat)
    requires Begun(Start(n), ls) < TWO_64
    ensures GetById(Exec(Start(n), ls).pool, id) == Some(i) <==> id != 0 && Carries(Exec(Start(n), ls), i, id)
  {
    hide Exec, Start, Begun;
    var r := GetById(Exec(Start(n), ls).pool, id);
    if id != 0 && Carries(Exec(Start(n), ls), i, id) {
      UniqueIds(n, ls, i, r.value);
    }
  }

  // ---------------------------------------------------------------- generations

  lemma TenantsGrow(s: State, l: Label, i: nat)
    requires IdsKept(s) && i < |s.pool.slots|
    ensures |Apply(s, l).pool.slots| == |s.pool.slots| && |Apply(s, l).tenant| == |s.tenant|
    ensures if HandsOut(s, l, i) then s.tenant[i] < Apply(s, l).tenant[i] else Apply(s, l).tenant[i] == s.tenant[i]
  {
    assert SlotIds(s, i);
  }

  /** A slot's tenancy only grows from step `p` of any run on, and stays exactly if the slot is not handed out. */
  lemma {:induction false} TenantsGrowInRun(s: State, ls: seq<Label>, p: nat, i: nat)
    requires IdsKept(s) && p <= |ls| && i < |s.pool.slots|
    ensures
      var a, b := Exec(s, ls[..p]), Exec(s, ls);
      && Shaped(a) && Shaped(b) && |a.pool.slots| == |b.pool.slots| == |s.pool.slots|
      && a.tenant[i] <= b.tenant[i]
      && (a.tenant[i] == b.tenant[i] <==> forall k :: p <= k < |ls| ==> !HandsOut(Exec(s, ls[..k]), ls[k], i))
  {
    hide IdsKept, Apply, HandsOut;
    RunKeepsIdsThroughout(s, ls);
    CapacityStays(s, ls);
    if p == |ls| {
      assert ls[..p] == ls;
    } else {
      var m := |ls| - 1;
      var before := ls[..m];
      TenantsGrowInRun(s, before, p, i);
      assert before[..p] == ls[..p];
      assert forall k :: p <= k < m ==> before[..k] == ls[..k] && before[k] == ls[k];
      RunKeepsIdsThroughout(s, before);
      TenantsGrow(Exec(s, before), ls[m], i);
    }
  }

  /** A nonzero id of a slot is the number of its latest tenancy, before the counter wraps. */
  lemma IdOfTenant(n: nat, ls: seq<Label>, i: nat)
    requires i < n
    ensures Shaped(Exec(Start(n), ls)) && |Exec(Start(n), ls).pool.slots| == n
    ensures
      var s := Exec(Start(n), ls);
      && s.tenant[i] <= Begun(Start(n), ls)
      && s.pool.slots[i].id in {0, Mod64(s.tenant[i])}
  {
    hide Exec, Start, Begun, Mod64;
    StartKeepsIds(n);
    StartCapacity(n);
    CapacityStays(Start(n), ls);
    RunKeepsIdsThroughout(Start(n), ls);
    HistoryCounts(n, ls);
    assert SlotIds(Exec(Start(n), ls), i);
  }

  /**
   Ids are generations: of two moments of any run at which a slot's id is not cleared, the ids are the same
   exactly when the slot was not handed out in between, as long as the id counter has not wrapped.
   */
  lemma SameIdSameTenancy(n: nat, ls: seq<Label>, p: nat, q: nat, i: nat)
    requires p <= q <= |ls| && Begun(Start(n), ls[..q]) < TWO_64 && i < n
    ensures
      var a, b := Exec(Start(n), ls[..p]), Exec(Start(n), ls[..q]);
      && |a.pool.slots| == |b.pool.slots| == n
      && (a.pool.slots[i].id != 0 && b.pool.slots[i].id != 0 ==>
            (a.pool.slots[i].id == b.pool.slots[i].id
             <==> forall k :: p <= k < q ==> !HandsOut(Exec(Start(n), ls[..k]), ls[k], i)))
  {
    hide Exec, Start, Begun, HandsOut;
    var to := ls[..q];
    assert to[..p] == ls[..p];
    assert forall k :: p <= k < q ==> to[..k] == ls[..k] && to[k] == ls[k];
    StartKeepsIds(n);
    StartCapacity(n);
    TenantsGrowInRun(Start(n), to, p, i);
    IdOfTenant(n, to, i);
    IdOfTenant(n, ls[..p], i);
  }
}
