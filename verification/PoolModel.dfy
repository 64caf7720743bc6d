/**
 The session pool and its sessions on values, with every call run to completion before the next
 one starts. PoolSteps interleaves the same calls; SessionPool.dfy holds the classes.
 */
module PoolModel {
  import opened Words

  datatype Option<T> = None | Some(value: T)

  datatype Socket = InvalidSocket | Socket(handle: nat)

  /**
   The server a session reports its disconnection to. What its `ReleaseSession` does is left to
   the concrete server: it returns the session to the pool, or it does not.
   */
  datatype Owner = NoOwner | Server(returnsToPool: bool)

  datatype Slot = Slot(id: uint64, connected: bool, owner: Owner, sock: Socket) {
    predicate Returns() {
      owner.Server? && owner.returnsToPool
    }
  }

  /** The sessions by index, the stack of free indices with its top last, and the next id. */
  datatype Pool = Pool(slots: seq<Slot>, free: seq<nat>, nextId: uint64) {
    predicate InRange() {
      forall k :: 0 <= k < |free| ==> free[k] < |slots|
    }
  }

  /** A session as constructed and as `ResetForReuse` leaves it. */
  function IdleSlot(): Slot {
    Slot(0, false, NoOwner, InvalidSocket)
  }

  function Fresh(n: nat): (p: Pool)
    ensures p.InRange()
  {
    Pool(seq(n, _ => IdleSlot()), seq(n, i => i), 1)
  }

  // ---------------------------------------------------------------- calls

  /** The slot that `Acquire` hands out. */
  function Top(p: Pool): Option<nat> {
    if p.free == [] then None else Some(p.free[|p.free| - 1])
  }

  function Acquire(p: Pool, handle: nat, owner: Owner): (p': Pool)
    requires p.InRange()
    ensures p'.InRange() && |p'.slots| == |p.slots|
  {
    if p.free == [] then p
    else
      var n := |p.free| - 1;
      Pool(p.slots[p.free[n] := Slot(p.nextId, true, owner, Socket(handle))], p.free[..n], Mod64(p.nextId + 1))
  }

  function HangUp(p: Pool, i: nat): (p': Pool)
    requires i < |p.slots|
    ensures |p'.slots| == |p.slots| && p'.free == p.free
  {
    p.(slots := p.slots[i := p.slots[i].(connected := false, sock := InvalidSocket)])
  }

  /** Closes a connected session once, and reports that to its owner. */
  function Disconnect(p: Pool, i: nat): (p': Pool)
    requires i < |p.slots|
    ensures |p'.slots| == |p.slots|
    decreases p.slots[i].connected, 0
  {
    if !p.slots[i].connected then p
    else if p.slots[i].Returns() then Release(HangUp(p, i), i)
    else HangUp(p, i)
  }

  /** Disconnects, resets and pushes. */
  function Release(p: Pool, i: nat): (p': Pool)
    requires i < |p.slots|
    ensures |p'.slots| == |p.slots|
    decreases p.slots[i].connected, 1
  {
    var q := Disconnect(p, i);
    q.(slots := q.slots[i := IdleSlot()], free := q.free + [i])
  }

  /** The first session, from index `from` on, that carries `id`. */
  function FirstWithId(slots: seq<Slot>, id: uint64, from: nat): (r: Option<nat>)
    requires from <= |slots|
    ensures r.Some? ==> from <= r.value < |slots| && slots[r.value].id == id
    ensures r.Some? ==> forall j :: from <= j < r.value ==> slots[j].id != id
    ensures r.None? ==> forall j :: from <= j < |slots| ==> slots[j].id != id
    decreases |slots| - from
  {
    if from == |slots| then None
    else if slots[from].id == id then Some(from)
    else FirstWithId(slots, id, from + 1)
  }

  function GetById(p: Pool, id: uint64): Option<nat> {
    if id == 0 then None else FirstWithId(p.slots, id, 0)
  }

  // ---------------------------------------------------------------- the stack

  ghost predicate NoDuplicates(s: seq<nat>) {
    forall j, k :: 0 <= j < k < |s| ==> s[j] != s[k]
  }

  /** Acquires `n` times, each time with the next socket handle. */
  function AcquireMany(p: Pool, handle: nat, owner: Owner, n: nat): (p': Pool)
    requires p.InRange()
    ensures p'.InRange() && |p'.slots| == |p.slots|
  {
    if n == 0 then p else Acquire(AcquireMany(p, handle, owner, n - 1), handle + n - 1, owner)
  }

  lemma {:induction false} AcquireManyPops(p: Pool, handle: nat, owner: Owner, n: nat)
    requires p.InRange() && n <= |p.free|
    ensures AcquireMany(p, handle, owner, n).free == p.free[..|p.free| - n]
  {
    if n == 0 {
      assert p.free[..|p.free|] == p.free;
    } else {
      AcquireManyPops(p, handle, owner, n - 1);
    }
  }

  /** A fresh pool of `n` sessions hands out slots n-1, n-2, ..., 0, and then none. */
  lemma FreshHandsOutDownwards(n: nat, handle: nat, owner: Owner, k: nat)
    requires k <= n
    ensures Top(AcquireMany(Fresh(n), handle, owner, k)) == if k < n then Some(n - 1 - k) else None
  {
    AcquireManyPops(Fresh(n), handle, owner, k);
  }

  // ---------------------------------------------------------------- when a call is sound

  /** What the pool promises between calls. */
  ghost predicate Sound(p: Pool) {
    && p.InRange()
    && NoDuplicates(p.free)
    && (forall i :: i in p.free ==> p.slots[i] == IdleSlot())
    && (forall i :: 0 <= i < |p.slots| && p.slots[i].Returns() ==> p.slots[i].connected)
  }

  lemma AcquireSound(p: Pool, handle: nat, owner: Owner)
    requires Sound(p)
    ensures Sound(Acquire(p, handle, owner))
    ensures Top(p).Some? ==> Top(p).value !in Acquire(p, handle, owner).free
  {
  }

  /** What a disconnection does, its report to the owner included. */
  lemma DisconnectIs(p: Pool, i: nat)
    requires i < |p.slots|
    ensures Disconnect(p, i)
         == if !p.slots[i].connected then p
            else if p.slots[i].Returns() then p.(slots := p.slots[i := IdleSlot()], free := p.free + [i])
            else p.(slots := p.slots[i := p.slots[i].(connected := false, sock := InvalidSocket)])
  {
    var q := HangUp(p, i);
    assert Disconnect(q, i) == q;
    assert Release(q, i) == q.(slots := q.slots[i := IdleSlot()], free := q.free + [i]);
  }

  /** Disconnecting is always sound, any session, any number of times. */
  lemma DisconnectSound(p: Pool, i: nat)
    requires Sound(p) && i < |p.slots|
    ensures Sound(Disconnect(p, i))
    ensures Disconnect(p, i).free == if p.slots[i].Returns() then p.free + [i] else p.free
  {
    hide Disconnect;
    DisconnectIs(p, i);
  }

  /** How many times `Release` pushes the slot: twice when the disconnection already returned it. */
  lemma ReleasePushes(p: Pool, i: nat)
    requires i < |p.slots|
    ensures Release(p, i).free
         == if p.slots[i].connected && p.slots[i].Returns() then p.free + [i, i] else p.free + [i]
    ensures Release(p, i).slots == p.slots[i := IdleSlot()] && Release(p, i).nextId == p.nextId
  {
    hide Disconnect;
    DisconnectIs(p, i);
  }

  /**
   Releasing keeps the pool sound exactly when the slot is held and its owner does not itself
   return it on disconnection.
   */
  lemma ReleaseSoundIff(p: Pool, i: nat)
    requires Sound(p) && i < |p.slots|
    ensures Sound(Release(p, i)) <==> i !in p.free && !p.slots[i].Returns()
    ensures NoDuplicates(Release(p, i).free) <==> i !in p.free && !p.slots[i].Returns()
  {
    hide Release;
    ReleasePushes(p, i);
    var q := Release(p, i);
    if i in p.free {
      var k :| 0 <= k < |p.free| && p.free[k] == i;
      assert q.free[k] == q.free[|q.free| - 1];
    } else if p.slots[i].Returns() {
      assert q.free[|p.free|] == q.free[|p.free| + 1];
    }
  }

  /**
   The failure path of both connection handlers: disconnect the session, and then have the same
   server release it, which returns it to the pool if that server ever does.
   */
  function Abandon(p: Pool, i: nat): Pool
    requires i < |p.slots|
  {
    if p.slots[i].Returns() then Release(Disconnect(p, i), i) else Disconnect(p, i)
  }

  /** It is sound exactly when the server does not return sessions; else the slot is pushed twice. */
  lemma AbandonSoundIff(p: Pool, i: nat)
    requires Sound(p) && i < |p.slots| && i !in p.free
    ensures Sound(Abandon(p, i)) <==> !p.slots[i].Returns()
    ensures Abandon(p, i).free == if p.slots[i].Returns() then p.free + [i, i] else p.free
  {
    DisconnectSound(p, i);
    ReleaseSoundIff(Disconnect(p, i), i);
    ReleasePushes(Disconnect(p, i), i);
    if p.slots[i].Returns() {
      assert Disconnect(p, i).free[|p.free|] == i;
      DisconnectIs(p, i);
    }
  }

  /** Either way the session is disconnected and closed, and no other slot is touched. */
  lemma AbandonIs(p: Pool, i: nat)
    requires i < |p.slots|
    ensures Abandon(p, i).nextId == p.nextId && |Abandon(p, i).slots| == |p.slots|
    ensures forall j :: 0 <= j < |p.slots| && j != i ==> Abandon(p, i).slots[j] == p.slots[j]
    ensures
      var before, after := p.slots[i], Abandon(p, i).slots[i];
      if before.Returns() then after == Slot(0, false, NoOwner, InvalidSocket)
      else after == Slot(before.id, false, before.owner, if before.connected then InvalidSocket else before.sock)
  {
    hide Release;
    DisconnectIs(p, i);
    ReleasePushes(Disconnect(p, i), i);
  }

  /** After a slot was pushed twice, two acquisitions in a row get the same session. */
  lemma DoublePushSharesSlot(p: Pool, i: nat, handle: nat, owner: Owner)
    requires p.InRange() && i < |p.slots| && p.slots[i].connected && p.slots[i].Returns()
    ensures
      var q := Release(p, i);
      q.InRange() && Top(q) == Some(i) && Top(Acquire(q, handle, owner)) == Some(i)
  {
    ReleasePushes(p, i);
    assert forall k :: 0 <= k < |p.free + [i, i]| ==> (p.free + [i, i])[k] < |p.slots|;
  }
}
