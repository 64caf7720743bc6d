/**
 The session pool under any number of threads. A call is the list of its atomic operations; threads
 run theirs one operation at a time, in any order. Acquire holds the lock throughout and is one
 step; Release holds it only for its last operation.
 */
module PoolSteps {
  import opened Words
  import opened PoolModel

  /**
   One atomic operation on a slot. `tenancy` is history: the tenancy that the operation is meant for.
   In a call it is the one in which the caller got its reference to the session; what the call then
   sets off is meant for the tenancy that it found. No operation depends on it.
   */
  datatype Op =
    | Exchange(slot: nat, tenancy: nat)  // connected_.exchange(false)
    | Close(slot: nat, tenancy: nat)     // closesocket, sock_ = INVALID_SOCKET
    | Notify(slot: nat, tenancy: nat)    // owner_->NotifySessionDisconnect
    | Reset(slot: nat, tenancy: nat)     // ResetForReuse
    | Push(slot: nat, tenancy: nat)      // freeIndices_.push, under the lock

  /**
   The pool, what each thread has still to do, and four pieces of history: how many tenancies have
   begun, the latest tenancy of each slot, how many sockets were closed, and which thread, if any,
   is ending each slot's tenancy.
   */
  datatype State = State(
    pool: Pool, threads: map<nat, seq<Op>>,
    issued: nat, tenant: seq<nat>, closed: nat, keeper: seq<Option<nat>>)

  datatype Label =
    | AcquireCall(handle: nat, owner: Owner)
    | DisconnectCall(thread: nat, slot: nat, tenancy: nat)
    | ReleaseCall(thread: nat, slot: nat, tenancy: nat)
    | Run(thread: nat)

  function Start(n: nat): State {
    State(PoolModel.Fresh(n), map[], 0, seq(n, _ => 0), 0, seq(n, _ => None))
  }

  function Todo(s: State, t: nat): seq<Op> {
    if t in s.threads then s.threads[t] else []
  }

  function ReleaseOps(i: nat, k: nat): seq<Op> {
    [Exchange(i, k), Reset(i, k), Push(i, k)]
  }

  predicate Shaped(s: State) {
    |s.tenant| == |s.pool.slots| == |s.keeper| && s.pool.InRange()
  }

  predicate Enabled(s: State, l: Label) {
    && Shaped(s)
    && match l
       case AcquireCall(_, _) => true
       case DisconnectCall(t, i, _) => i < |s.pool.slots| && Todo(s, t) == []
       case ReleaseCall(t, i, _) => i < |s.pool.slots| && Todo(s, t) == []
       case Run(t) => Todo(s, t) != [] && Todo(s, t)[0].slot < |s.pool.slots|
  }

  // ---------------------------------------------------------------- steps

  function AfterAcquire(s: State, handle: nat, owner: Owner): State
    requires Shaped(s)
  {
    if s.pool.free == [] then s
    else
      var i := s.pool.free[|s.pool.free| - 1];
      s.(pool := PoolModel.Acquire(s.pool, handle, owner), issued := s.issued + 1,
         tenant := s.tenant[i := s.issued + 1])
  }

  function AfterExchange(s: State, t: nat, i: nat, rest: seq<Op>): State
    requires Shaped(s) && i < |s.pool.slots|
  {
    var slot := s.pool.slots[i];
    if slot.connected then
      s.(pool := s.pool.(slots := s.pool.slots[i := slot.(connected := false)]),
         keeper := s.keeper[i := Some(t)],
         threads := s.threads[t := [Close(i, s.tenant[i]), Notify(i, s.tenant[i])] + rest])
    else
      s.(threads := s.threads[t := rest])
  }

  function AfterClose(s: State, t: nat, i: nat, rest: seq<Op>): State
    requires Shaped(s) && i < |s.pool.slots|
  {
    var slot := s.pool.slots[i];
    s.(pool := s.pool.(slots := s.pool.slots[i := slot.(sock := InvalidSocket)]),
       closed := if slot.sock.Socket? then s.closed + 1 else s.closed,
       threads := s.threads[t := rest])
  }

  function AfterNotify(s: State, t: nat, i: nat, rest: seq<Op>): State
    requires Shaped(s) && i < |s.pool.slots|
  {
    if s.pool.slots[i].Returns() then
      s.(threads := s.threads[t := ReleaseOps(i, s.tenant[i]) + rest])
    else
      s.(keeper := if rest == [] then s.keeper[i := None] else s.keeper,
         threads := s.threads[t := rest])
  }

  function AfterReset(s: State, t: nat, i: nat, rest: seq<Op>): State
    requires Shaped(s) && i < |s.pool.slots|
  {
    s.(pool := s.pool.(slots := s.pool.slots[i := IdleSlot()]), threads := s.threads[t := rest])
  }

  function AfterPush(s: State, t: nat, i: nat, rest: seq<Op>): State
    requires Shaped(s) && i < |s.pool.slots|
  {
    s.(pool := s.pool.(free := s.pool.free + [i]), keeper := s.keeper[i := None], threads := s.threads[t := rest])
  }

  function AfterRun(s: State, t: nat): State
    requires Enabled(s, Run(t))
  {
    var op, rest := Todo(s, t)[0], Todo(s, t)[1..];
    match op
    case Exchange(i, _) => AfterExchange(s, t, i, rest)
    case Close(i, _) => AfterClose(s, t, i, rest)
    case Notify(i, _) => AfterNotify(s, t, i, rest)
    case Reset(i, _) => AfterReset(s, t, i, rest)
    case Push(i, _) => AfterPush(s, t, i, rest)
  }

  /** One step; a label that is not enabled changes nothing. */
  function Apply(s: State, l: Label): State {
    if !Enabled(s, l) then s
    else match l
      case AcquireCall(handle, owner) => AfterAcquire(s, handle, owner)
      case DisconnectCall(t, i, k) => s.(threads := s.threads[t := [Exchange(i, k)]])
      case ReleaseCall(t, i, k) =>
        s.(keeper := s.keeper[i := Some(t)], threads := s.threads[t := ReleaseOps(i, k)])
      case Run(t) => AfterRun(s, t)
  }

  /** The state after a run, a list of steps of any threads in any order. */
  function Exec(s: State, ls: seq<Label>): State {
    if ls == [] then s else Apply(Exec(s, ls[..|ls| - 1]), ls[|ls| - 1])
  }

  // ---------------------------------------------------------------- which calls clients may make

  predicate Tries(w: seq<Op>, i: nat) {
    |w| == 1 && w[0].Exchange? && w[0].slot == i
  }

  /** Whether a thread other than `t` is about to disconnect slot `i`. */
  ghost predicate OthersTry(s: State, t: nat, i: nat) {
    exists u :: u in s.threads && u != t && Tries(s.threads[u], i)
  }

  /**
   Any thread may disconnect any session at any time, unless another thread is just releasing it
   while it is still connected. A session may be released by a call of Release only while it is
   held, by a caller whose reference is from the present tenancy, if its owner does not return it
   and no one else is ending it.
   */
  ghost predicate Permitted(s: State, l: Label) {
    Enabled(s, l) ==>
      match l
      case AcquireCall(_, _) => true
      case DisconnectCall(_, i, _) => s.pool.slots[i].connected ==> s.keeper[i] == None
      case ReleaseCall(t, i, k) =>
        && k == s.tenant[i]
        && i !in s.pool.free
        && !s.pool.slots[i].Returns()
        && s.keeper[i] == None
        && (s.pool.slots[i].connected ==> !OthersTry(s, t, i))
      case Run(_) => true
  }

  ghost predicate PermittedRun(s: State, ls: seq<Label>) {
    ls == [] || (PermittedRun(s, ls[..|ls| - 1]) && Permitted(Exec(s, ls[..|ls| - 1]), ls[|ls| - 1]))
  }

  // ---------------------------------------------------------------- the invariant

  /** Of these, a disconnection whose owner may still hand the session back, or leave it held. */
  predicate Quitting(w: seq<Op>, i: nat, k: nat) {
    w == [Close(i, k), Notify(i, k)] || w == [Notify(i, k)]
  }

  /** The operations left to a thread that is ending tenancy `k` of slot `i`. */
  predicate Ending(w: seq<Op>, i: nat, k: nat) {
    || Quitting(w, i, k)
    || w == ReleaseOps(i, k)
    || w == [Close(i, k), Notify(i, k), Reset(i, k), Push(i, k)]
    || w == [Notify(i, k), Reset(i, k), Push(i, k)]
    || w == [Reset(i, k), Push(i, k)]
    || w == [Push(i, k)]
  }

  predicate HeadIsClose(w: seq<Op>) {
    w != [] && w[0].Close?
  }

  predicate IsReset(w: seq<Op>) {
    |w| == 1 && w[0].Push?
  }

  /** What holds of a slot that is handed out and that no thread is ending. */
  predicate HeldSlot(s: State, i: nat)
    requires Shaped(s) && i < |s.pool.slots|
  {
    var slot := s.pool.slots[i];
    && slot.id == Mod64(s.tenant[i]) && s.tenant[i] > 0
    && (slot.Returns() ==> slot.connected)
    && (slot.sock.Socket? <==> slot.connected)
  }

  /** What holds of a slot whose tenancy thread `t` is ending. */
  ghost predicate KeptSlot(s: State, i: nat, t: nat)
    requires Shaped(s) && i < |s.pool.slots|
  {
    var slot, w := s.pool.slots[i], Todo(s, t);
    && i !in s.pool.free
    && s.tenant[i] > 0
    && Ending(w, i, s.tenant[i])
    && (if IsReset(w) then slot == IdleSlot() else slot.id == Mod64(s.tenant[i]))
    && (slot.connected ==> w == ReleaseOps(i, s.tenant[i]) && !slot.Returns() && !OthersTry(s, t, i))
    && (slot.sock.Socket? <==> slot.connected || HeadIsClose(w))
    && (slot.Returns() ==> Quitting(w, i, s.tenant[i]) || !(w[0].Close? || w[0].Notify?))
  }

  ghost predicate SlotInv(s: State, i: nat)
    requires Shaped(s) && i < |s.pool.slots|
  {
    && s.tenant[i] <= s.issued
    && match s.keeper[i]
       case None => if i in s.pool.free then s.pool.slots[i] == IdleSlot() else HeldSlot(s, i)
       case Some(t) => KeptSlot(s, i, t)
  }

  /** A thread is idle, about to disconnect some slot, or the keeper of the one slot it is ending. */
  predicate ThreadInv(s: State, t: nat)
    requires Shaped(s)
  {
    var w := Todo(s, t);
    w != [] ==>
      && w[0].slot < |s.pool.slots|
      && (s.keeper[w[0].slot] == Some(t) || Tries(w, w[0].slot))
  }

  function OpenSockets(s: State): set<nat> {
    set i | 0 <= i < |s.pool.slots| && s.pool.slots[i].sock.Socket?
  }

  ghost predicate Inv(s: State)
    ensures Inv(s) ==> Shaped(s)
  {
    && Shaped(s)
    && NoDuplicates(s.pool.free)
    && (forall i :: 0 <= i < |s.pool.slots| ==> SlotInv(s, i))
    && (forall t :: t in s.threads ==> ThreadInv(s, t))
    && (forall i, j :: 0 <= i < j < |s.tenant| && s.tenant[i] == s.tenant[j] ==> s.tenant[i] == 0)
    && s.pool.nextId == Mod64(s.issued + 1)
    && s.issued == s.closed + |OpenSockets(s)|
  }

  // ---------------------------------------------------------------- the invariant is kept

  /** The step by thread `t` on slot `i` left everything about other slots and threads alone. */
  ghost predicate Local(s: State, s': State, t: nat, i: nat)
    ensures Local(s, s', t, i) ==> Shaped(s) && Shaped(s') && i < |s.pool.slots| == |s'.pool.slots|
  {
    && Shaped(s) && Shaped(s')
    && |s'.pool.slots| == |s.pool.slots| && i < |s.pool.slots|
    && s'.threads == s.threads[t := Todo(s', t)]
    && s'.pool.nextId == s.pool.nextId && s'.issued == s.issued && s'.tenant == s.tenant
    && (forall j :: 0 <= j < |s.pool.slots| && j != i ==>
          && s'.pool.slots[j] == s.pool.slots[j]
          && s'.keeper[j] == s.keeper[j]
          && (j in s'.pool.free <==> j in s.pool.free))
  }

  lemma OtherSlot(s: State, s': State, t: nat, i: nat, j: nat)
    requires Inv(s) && Local(s, s', t, i) && j < |s.pool.slots| && j != i
    requires s.keeper[j] != Some(t)
    requires !Tries(Todo(s', t), j)
    ensures SlotInv(s', j)
  {
    assert SlotInv(s, j);
    match s.keeper[j]
    case None =>
    case Some(u) =>
      assert Todo(s', u) == Todo(s, u);
      if OthersTry(s', u, j) {
        var v :| v in s'.threads && v != u && Tries(s'.threads[v], j);
        assert v != t;
        assert v in s.threads && Tries(s.threads[v], j);
      }
  }

  /** A thread with something to do keeps no slot but the one it works on. */
  lemma KeepsOneSlot(s: State, t: nat, j: nat)
    requires Inv(s) && Todo(s, t) != [] && j < |s.pool.slots| && j != Todo(s, t)[0].slot
    ensures s.keeper[j] != Some(t)
  {
    assert SlotInv(s, j);
  }

  lemma IdleKeepsNothing(s: State, t: nat, j: nat)
    requires Inv(s) && Todo(s, t) == [] && j < |s.pool.slots|
    ensures s.keeper[j] != Some(t)
  {
    assert SlotInv(s, j);
  }

  lemma CountWithout(a: set<nat>, i: nat)
    ensures |a| == |a - {i}| + (if i in a then 1 else 0)
  {
    if i in a {
      assert a == (a - {i}) + {i};
    } else {
      assert a == a - {i};
    }
  }

  lemma ClosedCount(s: State, s': State, i: nat)
    requires Shaped(s) && Shaped(s') && i < |s.pool.slots| == |s'.pool.slots|
    requires forall j :: 0 <= j < |s.pool.slots| && j != i ==> s'.pool.slots[j] == s.pool.slots[j]
    ensures |OpenSockets(s')| + (if s.pool.slots[i].sock.Socket? then 1 else 0)
         == |OpenSockets(s)| + (if s'.pool.slots[i].sock.Socket? then 1 else 0)
  {
    var a, b := OpenSockets(s), OpenSockets(s');
    forall j
      ensures j in a - {i} <==> j in b - {i}
    {
      if 0 <= j < |s.pool.slots| && j != i {
        assert s'.pool.slots[j] == s.pool.slots[j];
      }
    }
    assert a - {i} == b - {i};
    CountWithout(a, i);
    CountWithout(b, i);
  }

  /** From one slot's invariant to the whole state's. */
  lemma LocalStep(s: State, s': State, t: nat, i: nat)
    requires Inv(s) && Local(s, s', t, i)
    requires forall j :: 0 <= j < |s.pool.slots| && j != i ==> s.keeper[j] != Some(t) && !Tries(Todo(s', t), j)
    requires SlotInv(s', i) && ThreadInv(s', t) && NoDuplicates(s'.pool.free)
    requires s'.keeper[i] == s.keeper[i] || (s.keeper[i] in {None, Some(t)})
    requires s'.closed + (if s'.pool.slots[i].sock.Socket? then 1 else 0)
          == s.closed + (if s.pool.slots[i].sock.Socket? then 1 else 0)
    ensures Inv(s')
  {
    forall j | 0 <= j < |s'.pool.slots|
      ensures SlotInv(s', j)
    {
      if j != i {
        OtherSlot(s, s', t, i, j);
      }
    }
    forall u | u in s'.threads
      ensures ThreadInv(s', u)
    {
      if u != t {
        assert Todo(s', u) == Todo(s, u) && ThreadInv(s, u);
      }
    }
    ClosedCount(s, s', i);
  }

  lemma AcquireOtherSlot(s: State, handle: nat, owner: Owner, j: nat)
    requires Inv(s) && s.pool.free != [] && j < |s.pool.slots| && j != s.pool.free[|s.pool.free| - 1]
    ensures Shaped(AfterAcquire(s, handle, owner)) && j < |AfterAcquire(s, handle, owner).pool.slots|
    ensures SlotInv(AfterAcquire(s, handle, owner), j)
  {
    var s' := AfterAcquire(s, handle, owner);
    assert SlotInv(s, j);
    assert j in s'.pool.free <==> j in s.pool.free by {
      assert s.pool.free == s'.pool.free + [s.pool.free[|s.pool.free| - 1]];
    }
    assert forall t :: Todo(s', t) == Todo(s, t);
    assert forall t :: OthersTry(s', t, j) <==> OthersTry(s, t, j);
  }

  lemma AcquireTopSlot(s: State, handle: nat, owner: Owner)
    requires Inv(s) && s.pool.free != []
    ensures
      var i, s' := s.pool.free[|s.pool.free| - 1], AfterAcquire(s, handle, owner);
      && Shaped(s') && i < |s.pool.slots| == |s'.pool.slots| && SlotInv(s', i)
      && |OpenSockets(s')| == |OpenSockets(s)| + 1
  {
    hide Mod64;
    var i, s' := s.pool.free[|s.pool.free| - 1], AfterAcquire(s, handle, owner);
    assert SlotInv(s, i);
    assert i !in s'.pool.free;
    AddMod64(s.issued, 1);
    ClosedCount(s, s', i);
  }

  lemma AcquireKeepsInv(s: State, handle: nat, owner: Owner)
    requires Inv(s)
    ensures Inv(AfterAcquire(s, handle, owner))
  {
    hide Mod64, OpenSockets, KeptSlot, HeldSlot;
    var s' := AfterAcquire(s, handle, owner);
    if s.pool.free != [] {
      var i := s.pool.free[|s.pool.free| - 1];
      AcquireTopSlot(s, handle, owner);
      AddMod64(s.issued + 1, 1);
      forall j | 0 <= j < |s'.pool.slots|
        ensures SlotInv(s', j)
      {
        if j != i {
          AcquireOtherSlot(s, handle, owner, j);
        }
      }
      forall t | t in s'.threads
        ensures ThreadInv(s', t)
      {
        assert ThreadInv(s, t);
      }
      forall j, k | 0 <= j < k < |s'.tenant| && s'.tenant[j] == s'.tenant[k]
        ensures s'.tenant[j] == 0
      {
        assert SlotInv(s, j) && SlotInv(s, k);
      }
    }
  }

  lemma DisconnectCallKeepsInv(s: State, t: nat, i: nat, k: nat)
    requires Inv(s) && Enabled(s, DisconnectCall(t, i, k)) && Permitted(s, DisconnectCall(t, i, k))
    ensures Inv(Apply(s, DisconnectCall(t, i, k)))
  {
    var s' := Apply(s, DisconnectCall(t, i, k));
    forall j | 0 <= j < |s.pool.slots|
      ensures s.keeper[j] != Some(t)
    {
      IdleKeepsNothing(s, t, j);
    }
    assert SlotInv(s, i);
    if s.keeper[i].Some? {
      assert Todo(s', s.keeper[i].value) == Todo(s, s.keeper[i].value);
      assert !s.pool.slots[i].connected;
    }
    LocalStep(s, s', t, i);
  }

  lemma ReleaseCallKeepsInv(s: State, t: nat, i: nat, k: nat)
    requires Inv(s) && Enabled(s, ReleaseCall(t, i, k)) && Permitted(s, ReleaseCall(t, i, k))
    ensures Inv(Apply(s, ReleaseCall(t, i, k)))
  {
    var s' := Apply(s, ReleaseCall(t, i, k));
    forall j | 0 <= j < |s.pool.slots|
      ensures s.keeper[j] != Some(t)
    {
      IdleKeepsNothing(s, t, j);
    }
    assert SlotInv(s, i);
    if OthersTry(s', t, i) {
      var v :| v in s'.threads && v != t && Tries(s'.threads[v], i);
      assert v in s.threads && Tries(s.threads[v], i);
    }
    LocalStep(s, s', t, i);
  }

  /** What one operation of thread `t` on slot `i` has to establish. */
  ghost predicate GoodStep(s: State, s': State, t: nat, i: nat) {
    && Local(s, s', t, i)
    && SlotInv(s', i) && ThreadInv(s', t) && NoDuplicates(s'.pool.free)
    && (forall j :: 0 <= j < |s.pool.slots| && j != i ==> !Tries(Todo(s', t), j))
    && (s'.keeper[i] == s.keeper[i] || s.keeper[i] in {None, Some(t)})
    && s'.closed + (if s'.pool.slots[i].sock.Socket? then 1 else 0)
    == s.closed + (if s.pool.slots[i].sock.Socket? then 1 else 0)
  }

  lemma ExchangeStep(s: State, t: nat)
    requires Inv(s) && Enabled(s, Run(t)) && Todo(s, t)[0].Exchange?
    ensures GoodStep(s, AfterRun(s, t), t, Todo(s, t)[0].slot)
  {
    var w, s' := Todo(s, t), AfterRun(s, t);
    var i := w[0].slot;
    assert ThreadInv(s, t) && SlotInv(s, i);
    if s.keeper[i] == Some(t) {
      assert w == ReleaseOps(i, s.tenant[i]);
    } else {
      assert w[1..] == [];
      if s.keeper[i].Some? {
        var u := s.keeper[i].value;
        assert OthersTry(s, u, i);
        assert Todo(s', u) == Todo(s, u);
      }
    }
  }

  lemma CloseStep(s: State, t: nat)
    requires Inv(s) && Enabled(s, Run(t)) && Todo(s, t)[0].Close?
    ensures GoodStep(s, AfterRun(s, t), t, Todo(s, t)[0].slot)
  {
    assert ThreadInv(s, t) && SlotInv(s, Todo(s, t)[0].slot);
  }

  lemma NotifyStep(s: State, t: nat)
    requires Inv(s) && Enabled(s, Run(t)) && Todo(s, t)[0].Notify?
    ensures GoodStep(s, AfterRun(s, t), t, Todo(s, t)[0].slot)
  {
    var w := Todo(s, t);
    assert ThreadInv(s, t) && SlotInv(s, w[0].slot);
    if w[1..] == [] {
      assert ReleaseOps(w[0].slot, w[0].tenancy) + w[1..] == ReleaseOps(w[0].slot, w[0].tenancy);
    }
  }

  lemma ResetStep(s: State, t: nat)
    requires Inv(s) && Enabled(s, Run(t)) && Todo(s, t)[0].Reset?
    ensures GoodStep(s, AfterRun(s, t), t, Todo(s, t)[0].slot)
  {
    assert ThreadInv(s, t) && SlotInv(s, Todo(s, t)[0].slot);
  }

  lemma PushStep(s: State, t: nat)
    requires Inv(s) && Enabled(s, Run(t)) && Todo(s, t)[0].Push?
    ensures GoodStep(s, AfterRun(s, t), t, Todo(s, t)[0].slot)
  {
    assert ThreadInv(s, t) && SlotInv(s, Todo(s, t)[0].slot);
  }

  lemma RunKeepsInv(s: State, t: nat)
    requires Inv(s) && Enabled(s, Run(t))
    ensures Inv(AfterRun(s, t))
  {
    hide AfterRun, Inv, SlotInv, ThreadInv;
    var w, s' := Todo(s, t), AfterRun(s, t);
    var i := w[0].slot;
    match w[0] {
      case Exchange(_, _) => ExchangeStep(s, t);
      case Close(_, _) => CloseStep(s, t);
      case Notify(_, _) => NotifyStep(s, t);
      case Reset(_, _) => ResetStep(s, t);
      case Push(_, _) => PushStep(s, t);
    }
    forall j | 0 <= j < |s.pool.slots| && j != i
      ensures s.keeper[j] != Some(t)
    {
      KeepsOneSlot(s, t, j);
    }
    LocalStep(s, s', t, i);
  }

  /** Every permitted step keeps the invariant ... */
  lemma StepKeepsInv(s: State, l: Label)
    requires Inv(s) && Permitted(s, l)
    ensures Inv(Apply(s, l))
  {
    hide Inv, AfterAcquire, AfterRun;
    if Enabled(s, l) {
      match l
      case AcquireCall(handle, owner) => AcquireKeepsInv(s, handle, owner);
      case DisconnectCall(t, i, k) => DisconnectCallKeepsInv(s, t, i, k);
      case ReleaseCall(t, i, k) => ReleaseCallKeepsInv(s, t, i, k);
      case Run(t) => RunKeepsInv(s, t);
    }
  }

  lemma StartInv(n: nat)
    ensures Inv(Start(n))
  {
    var s := Start(n);
    assert OpenSockets(s) == {};
    forall i | 0 <= i < n
      ensures SlotInv(s, i)
    {
      assert s.pool.free[i] == i;
    }
  }

  /** ... so it holds after every permitted run, whatever the interleaving. */
  lemma {:induction false} RunInv(s: State, ls: seq<Label>)
    requires Inv(s) && PermittedRun(s, ls)
    ensures Inv(Exec(s, ls))
  {
    hide Inv, Apply;
    if ls == [] {
      assert Exec(s, ls) == s;
    } else {
      RunInv(s, ls[..|ls| - 1]);
      StepKeepsInv(Exec(s, ls[..|ls| - 1]), ls[|ls| - 1]);
    }
  }
}
