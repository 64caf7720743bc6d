/**
 The classes of IOCP/SessionPool.h and the parts of IOCP/Session.cpp and IOCP/IocpServerBase.cpp that
 they call: sessions updated in place, a stack of free indices, and the path by which disconnecting
 a session comes back to the pool. Calls run to completion; PoolSteps interleaves them.
 */
module SessionPool {
  import opened Words
  import opened PoolModel

  datatype SessionRole = Unknown | Client | MainServer | LoginServer | DbServer | ChatServer | WorldServer

  class Session {
    var sock: Socket
    var owner: IocpServer?
    var id: uint64
    var role: SessionRole
    var connected: bool
    var sending: bool
    var closing: bool
    /** The bytes in the receive ring, and the messages waiting to be sent. */
    var received: seq<byte>
    var sendQueue: seq<seq<byte>>

    predicate IsIdle()
      reads this
    {
      && id == 0 && role == Unknown && owner == null && sock == InvalidSocket
      && !connected && !sending && !closing
      && received == [] && sendQueue == []
    }

    constructor ()
      ensures IsIdle()
      ensures id == 0 && role == Unknown && owner == null && sock == InvalidSocket
      ensures !connected && !sending && !closing
      ensures received == [] && sendQueue == []
    {
      sock, owner, id, role := InvalidSocket, null, 0, Unknown;
      connected, sending, closing := false, false, false;
      received, sendQueue := [], [];
    }

    /** Starts a tenancy. What is still waiting to be sent stays; ResetForReuse has emptied it. */
    method Init(handle: nat, owner: IocpServer?, role: SessionRole, id: uint64)
      modifies this
      ensures sock == Socket(handle) && this.owner == owner && this.role == role && this.id == id
      ensures connected && !sending && !closing
      ensures received == [] && sendQueue == old(sendQueue)
    {
      sock := Socket(handle);
      this.owner := owner;
      this.role := role;
      this.id := id;
      connected := true;
      sending := false;
      closing := false;
      received := [];
    }

    method ResetForReuse()
      modifies this
      ensures IsIdle()
      ensures id == 0 && role == Unknown && owner == null && sock == InvalidSocket
      ensures !connected && !sending && !closing
      ensures received == [] && sendQueue == []
    {
      sock := InvalidSocket;
      owner := null;
      connected := false;
      sending := false;
      closing := false;
      role := Unknown;
      id := 0;
      received := [];
      sendQueue := [];
    }

    /** The pool that the session's owner, if any, returns it to. */
    function ReturnPool(): SessionPool?
      reads this
    {
      if owner == null then null else owner.PoolFor(this)
    }

    /** Only the first disconnection of a connected session does anything; its owner hears of it. */
    method Disconnect()
      requires ReturnPool() != null ==> ReturnPool().Valid()
      modifies this, if ReturnPool() == null then {} else {ReturnPool()}
      ensures !old(connected) ==> unchanged(this)
      ensures old(connected && ReturnPool() == null) ==>
                && !connected && sock == InvalidSocket
                && unchanged(`owner, `id, `role, `sending, `closing, `received, `sendQueue)
      ensures old(connected && ReturnPool() != null) ==> IsIdle()
      ensures old(ReturnPool()) != null ==>
                var pool := old(ReturnPool());
                && pool.Valid() && pool.nextId == old(pool.nextId)
                && pool.freeIndices == old(pool.freeIndices) + (if old(connected) then pool.IndicesOf(this) else [])
                && (old(pool.Ready()) ==> pool.Ready())
      decreases if connected then 1 else 0, 1
    {
      if !connected {
        return;
      }
      connected := false;
      sock := InvalidSocket;
      if owner != null {
        owner.NotifySessionDisconnect(this);
      }
    }
  }

  /**
   A server, as far as sessions see it. It may serve several pools: for each session, `choose` says to
   which of them its `ReleaseSession` returns that session; an index that is none of them, to none.
   */
  class IocpServer {
    const pools: seq<SessionPool>
    const choose: Session -> nat

    constructor (pools: seq<SessionPool>, choose: Session -> nat)
      ensures this.pools == pools && this.choose == choose
    {
      this.pools := pools;
      this.choose := choose;
    }

    function PoolFor(session: Session): SessionPool? {
      if choose(session) < |pools| then pools[choose(session)] else null
    }

    method NotifySessionDisconnect(session: Session)
      requires session.owner == this && !session.connected
      requires PoolFor(session) != null ==> PoolFor(session).Valid()
      modifies session, if PoolFor(session) == null then {} else {PoolFor(session)}
      ensures PoolFor(session) == null ==> unchanged(session)
      ensures PoolFor(session) != null ==>
                var pool := PoolFor(session);
                && session.IsIdle() && pool.Valid() && pool.nextId == old(pool.nextId)
                && pool.freeIndices == old(pool.freeIndices) + pool.IndicesOf(session)
                && (old(pool.Ready()) ==> pool.Ready())
      decreases 0, 4
    {
      var pool := PoolFor(session);
      if pool != null {
        pool.Release(session);
      }
    }
  }

  class SessionPool {
    const sessions: seq<Session>
    var freeIndices: seq<nat>
    var nextId: uint64

    /** The sessions are distinct objects, and the free indices are indices of sessions. */
    ghost predicate Valid()
      reads this
    {
      && (forall i, j :: 0 <= i < j < |sessions| ==> sessions[i] != sessions[j])
      && (forall k :: 0 <= k < |freeIndices| ==> freeIndices[k] < |sessions|)
    }

    /** What a pool is meant to keep: each free index is free once, and its session is idle. */
    ghost predicate Ready()
      reads this, sessions
    {
      && NoDuplicates(freeIndices)
      && (forall i :: i in freeIndices && i < |sessions| ==> sessions[i].IsIdle())
    }

    /** What `owner` does with `session` when it is disconnected, seen from this pool. */
    function OwnerOf(owner: IocpServer?, session: Session): Owner {
      if owner == null then NoOwner else Server(owner.PoolFor(session) == this)
    }

    function SlotOf(session: Session): Slot
      reads session
    {
      Slot(session.id, session.connected, OwnerOf(session.owner, session), session.sock)
    }

    function View(): (p: Pool)
      reads this, sessions
      ensures |p.slots| == |sessions|
    {
      Pool(seq(|sessions|, i requires 0 <= i < |sessions| reads sessions => SlotOf(sessions[i])), freeIndices, nextId)
    }

    /** The index of `session`, as a list; empty for a session of another pool. */
    ghost function IndicesOf(session: Session): (r: seq<nat>)
      ensures session !in sessions ==> r == []
      ensures session in sessions ==> |r| == 1 && r[0] < |sessions| && sessions[r[0]] == session
    {
      if session in sessions then
        var i: nat :| i < |sessions| && sessions[i] == session;
        [i]
      else []
    }

    lemma IndicesOfAt(i: nat)
      requires Valid() && i < |sessions|
      ensures IndicesOf(sessions[i]) == [i]
    {
      var r := IndicesOf(sessions[i]);
      assert sessions[r[0]] == sessions[i];
    }

    constructor (maxSessions: nat)
      ensures Valid() && View() == Fresh(maxSessions)
      ensures Ready() && forall i :: 0 <= i < |sessions| ==> fresh(sessions[i]) && sessions[i].IsIdle()
    {
      var made: seq<Session>, free: seq<nat> := [], [];
      for i := 0 to maxSessions
        invariant |made| == i && free == seq(i, k => k)
        invariant forall j :: 0 <= j < i ==> fresh(made[j]) && made[j].IsIdle()
        invariant forall j, k :: 0 <= j < k < i ==> made[j] != made[k]
      {
        var session := new Session();
        made := made + [session];
        free := free + [i];
      }
      sessions := made;
      freeIndices := free;
      nextId := 1;
    }

    method Acquire(handle: nat, owner: IocpServer?, role: SessionRole) returns (session: Session?)
      requires Valid()
      modifies this, sessions
      ensures Valid()
      ensures match Top(old(View()))
              case None => session == null && View() == old(View())
              case Some(i) =>
                && i < |sessions| && session == sessions[i] && session.role == role && session.owner == owner
                && session.connected && !session.sending && !session.closing && session.received == []
                && session.sendQueue == old(sessions[i].sendQueue)
                && (forall other :: other in sessions && other != session ==> unchanged(other))
                && View() == PoolModel.Acquire(old(View()), handle, OwnerOf(owner, session))
      ensures old(Ready()) ==> Ready() && (session != null ==> session.sendQueue == [])
    {
      if freeIndices == [] {
        return null;
      }
      var index := freeIndices[|freeIndices| - 1];
      freeIndices := freeIndices[..|freeIndices| - 1];
      session := sessions[index];
      var id := nextId;
      nextId := Mod64(nextId + 1);
      session.Init(handle, owner, role, id);
    }

    lemma ViewAfterReset(before: Pool, i: nat)
      requires |before.slots| == |sessions| && i < |sessions| && sessions[i].IsIdle()
      requires forall j :: 0 <= j < |sessions| && j != i ==> SlotOf(sessions[j]) == before.slots[j]
      ensures View().slots == before.slots[i := IdleSlot()]
    {
    }

    /** The part of `Release` outside the lock. */
    method EndTenancy(session: Session)
      requires Valid()
      requires session.ReturnPool() != null ==> session.ReturnPool().Valid()
      modifies session, if session.ReturnPool() == null then {} else {session.ReturnPool()}
      ensures Valid() && nextId == old(nextId) && session.IsIdle()
      ensures old(session.ReturnPool()) != this ==> unchanged(this)
      ensures old(session.ReturnPool()) != null ==>
                var pool := old(session.ReturnPool());
                && pool.Valid() && pool.nextId == old(pool.nextId)
                && pool.freeIndices
                     == old(pool.freeIndices) + (if old(session.connected) then pool.IndicesOf(session) else [])
                && (old(pool.Ready()) ==> pool.Ready())
      ensures old(Ready()) ==> Ready()
      decreases if session.connected then 1 else 0, 2
    {
      session.Disconnect();
      session.ResetForReuse();
    }

    /** The end of `Release`, under the lock: finds the session by its address and pushes its index. */
    method PushIndexOf(session: Session)
      requires Valid()
      modifies `freeIndices
      ensures Valid() && freeIndices == old(freeIndices) + IndicesOf(session)
      ensures old(Ready()) && session.IsIdle() ==>
                (Ready() <==> forall i :: i in IndicesOf(session) ==> i !in old(freeIndices))
    {
      var i := 0;
      while i < |sessions| && sessions[i] != session
        invariant 0 <= i <= |sessions|
        invariant session !in sessions[..i]
      {
        i := i + 1;
      }
      if i < |sessions| {
        IndicesOfAt(i);
        ghost var before := freeIndices;
        freeIndices := freeIndices + [i];
        if i in before {
          var k :| 0 <= k < |before| && before[k] == i;
          assert freeIndices[k] == freeIndices[|before|];
        }
      } else {
        assert session !in sessions;
      }
    }

    /**
     Disconnects and resets the session, then pushes its index. The disconnection may itself have come
     back to this pool and pushed it already, or have returned it to another pool.
     */
    method Release(session: Session?)
      requires Valid()
      requires session != null && session.ReturnPool() != null ==> session.ReturnPool().Valid()
      modifies this, if session == null then {} else {session}
      modifies if session == null || session.ReturnPool() == null then {} else {session.ReturnPool()}
      ensures Valid() && nextId == old(nextId)
      ensures session == null ==> unchanged(this)
      ensures session != null ==>
                && session.IsIdle()
                && freeIndices == old(freeIndices)
                     + (if old(session.connected && session.ReturnPool() == this) then IndicesOf(session) else [])
                     + IndicesOf(session)
      ensures session != null && old(session.ReturnPool()) != null && old(session.ReturnPool()) != this ==>
                var pool := old(session.ReturnPool());
                && pool.Valid() && pool.nextId == old(pool.nextId)
                && pool.freeIndices
                     == old(pool.freeIndices) + (if old(session.connected) then pool.IndicesOf(session) else [])
                && (old(pool.Ready()) ==> pool.Ready())
      ensures session != null && session in sessions ==>
                View() == PoolModel.Release(old(View()), IndicesOf(session)[0])
      ensures session == null || session !in sessions ==> View() == old(View()) && (old(Ready()) ==> Ready())
      ensures session != null && session in sessions && old(Ready()) ==>
                (Ready() <==> IndicesOf(session)[0] !in old(freeIndices)
                              && !old(session.connected && session.ReturnPool() == this))
      decreases if session != null && session.connected then 1 else 0, 3
    {
      hide PoolModel.Release, IndicesOf, Ready;
      if session == null {
        return;
      }
      ghost var before := View();
      ghost var returned := session.connected && session.ReturnPool() == this;
      EndTenancy(session);
      ghost var free := freeIndices;
      PushIndexOf(session);
      if session in sessions {
        ghost var i := IndicesOf(session)[0];
        assert IndicesOf(session) == [i];
        assert free == before.free + if returned then [i] else [];
        assert old(Ready()) ==> (Ready() <==> i !in free);
        ReleasePushes(before, i);
        ViewAfterReset(before, i);
      }
    }

    method GetById(id: uint64) returns (session: Session?)
      requires Valid()
      ensures match PoolModel.GetById(View(), id)
              case None => session == null
              case Some(i) => i < |sessions| && session == sessions[i]
    {
      if id == 0 {
        return null;
      }
      for i := 0 to |sessions|
        invariant FirstWithId(View().slots, id, 0) == FirstWithId(View().slots, id, i)
      {
        if sessions[i].id == id {
          return sessions[i];
        }
      }
      return null;
    }

    method FreeCount() returns (n: nat)
      ensures n == |View().free|
    {
      n := |freeIndices|;
    }

    method Capacity() returns (n: nat)
      ensures n == |View().slots|
    {
      n := |sessions|;
    }
  }
}
