/**
 Whether what threads have still to do comes in time: on a slot that still belongs to the tenancy for
 which the operation is meant. Ending a tenancy always does. A disconnection through a reference from one
 tenancy and run in the next does not, and the exact condition for that is stated and proved too.
 */
module PoolSafety {
  import opened PoolModel
  import opened PoolSteps

  // ---------------------------------------------------------------- in time

  /** The operation's slot still has the tenancy it is meant for, and is held unless it only asks. */
  predicate InTime(s: State, op: Op)
    requires Shaped(s)
  {
    && op.slot < |s.pool.slots|
    && s.tenant[op.slot] == op.tenancy
    && (op.Exchange? || op.slot !in s.pool.free)
  }

  /** A call of Disconnect that has not yet exchanged the connected flag. */
  predicate IsDisconnection(w: seq<Op>) {
    |w| == 1 && w[0].Exchange?
  }

  /**
   No index is free twice, and no thread that is ending a tenancy comes too late. Calls of Disconnect
   that have not begun are excepted: they may be stale.
   */
  ghost predicate ReleasesInTime(s: State) {
    && Shaped(s)
    && NoDuplicates(s.pool.free)
    && (forall t, j :: t in s.threads && 0 <= j < |s.threads[t]| ==>
          IsDisconnection(s.threads[t]) || InTime(s, s.threads[t][j]))
  }

  /** The same without exception: every operation of every thread, disconnections too, is in time. */
  ghost predicate AllInTime(s: State) {
    && Shaped(s)
    && NoDuplicates(s.pool.free)
    && (forall t, j :: t in s.threads && 0 <= j < |s.threads[t]| ==> InTime(s, s.threads[t][j]))
  }

  /**
   A permitted step that does not hand out a slot which some thread is still about to disconnect, nor
   disconnect a session through a reference from another tenancy than the present one.
   */
  ghost predicate Timely(s: State, l: Label) {
    && Permitted(s, l)
    && (Enabled(s, l) ==>
          match l
          case AcquireCall(_, _) =>
            Top(s.pool).Some? ==> forall u :: u in s.threads ==> !Tries(s.threads[u], Top(s.pool).value)
          case DisconnectCall(_, i, k) => k == s.tenant[i]
          case _ => true)
  }

  ghost predicate TimelyRun(s: State, ls: seq<Label>) {
    ls == [] || (TimelyRun(s, ls[..|ls| - 1]) && Timely(Exec(s, ls[..|ls| - 1]), ls[|ls| - 1]))
  }

  lemma InvReleasesInTime(s: State)
    requires Inv(s)
    ensures ReleasesInTime(s)
  {
    forall t, j | t in s.threads && 0 <= j < |s.threads[t]|
      ensures IsDisconnection(s.threads[t]) || InTime(s, s.threads[t][j])
    {
      assert ThreadInv(s, t) && SlotInv(s, s.threads[t][0].slot);
    }
  }

  /**
   Over every permitted interleaving, a thread that is ending a tenancy never works on a free slot or
   on a later tenant's. Stale disconnections are excepted; see StaleDisconnection and TimelyIff.
   */
  lemma ReleaseNeverDisturbs(n: nat, ls: seq<Label>)
    requires PermittedRun(Start(n), ls)
    ensures ReleasesInTime(Exec(Start(n), ls))
  {
    hide Inv, ReleasesInTime, Exec, PermittedRun, Start;
    StartInv(n);
    RunInv(Start(n), ls);
    InvReleasesInTime(Exec(Start(n), ls));
  }

  // ---------------------------------------------------------------- stale disconnections

  /**
   A disconnection meant for an earlier tenancy, run now, ends the tenancy that the slot has by now,
   and goes on to close its socket and to report it to its owner.
   */
  lemma StaleDisconnection(s: State, u: nat, i: nat)
    requires Inv(s) && i < |s.pool.slots| && Tries(Todo(s, u), i) && Todo(s, u)[0].tenancy != s.tenant[i]
    requires s.pool.slots[i].connected
    ensures
      var s' := Apply(s, Run(u));
      && !s'.pool.slots[i].connected && s'.tenant == s.tenant
      && Todo(s', u) == [Close(i, s.tenant[i]), Notify(i, s.tenant[i])]
  {
    assert Todo(s, u)[1..] == [];
  }

  /** The run of permitted steps by which a disconnection called in tenancy 1 ends tenancy 2. */
  function StaleRun(): seq<Label> {
    [AcquireCall(0, Server(true)), DisconnectCall(0, 0, 1), DisconnectCall(1, 0, 1),
     Run(1), Run(1), Run(1), Run(1), Run(1), Run(1), AcquireCall(1, Server(true)), Run(0)]
  }

  /** A pool of one slot and two threads, as far as the run above is concerned. */
  ghost predicate At(s: State, slot: Slot, free: seq<nat>, w0: seq<Op>, w1: seq<Op>, k: nat, keeper: Option<nat>) {
    && s.pool.slots == [slot] && s.pool.free == free && s.tenant == [k] && s.keeper == [keeper]
    && Todo(s, 0) == w0 && Todo(s, 1) == w1
  }

  lemma StaleStep(n: nat)
    requires n < |StaleRun()|
    ensures Exec(Start(1), StaleRun()[..n + 1]) == Apply(Exec(Start(1), StaleRun()[..n]), StaleRun()[n])
    ensures PermittedRun(Start(1), StaleRun()[..n]) && Permitted(Exec(Start(1), StaleRun()[..n]), StaleRun()[n])
        ==> PermittedRun(Start(1), StaleRun()[..n + 1])
  {
    hide Apply, Permitted, StaleRun;
    assert StaleRun()[..n + 1][..n] == StaleRun()[..n];
  }

  lemma StaleRunEmpty()
    ensures Exec(Start(1), StaleRun()[..0]) == Start(1) && PermittedRun(Start(1), StaleRun()[..0])
  {
  }

  /** Both threads are about to disconnect the session of tenancy 1. */
  lemma StaleRunBegins(c: Slot)
    requires c == Slot(1, true, Server(true), Socket(0))
    ensures PermittedRun(Start(1), StaleRun()[..3])
    ensures var s := Exec(Start(1), StaleRun()[..3]);
            At(s, c, [], [Exchange(0, 1)], [Exchange(0, 1)], 1, None) && s.pool.nextId == 2 && s.issued == 1
  {
    hide Exec, PermittedRun;
    var ls := StaleRun();
    assert Exec(Start(1), ls[..0]) == Start(1) && PermittedRun(Start(1), ls[..0]) by {
      StaleRunEmpty();
    }
    StaleStep(0);
    var s1 := Exec(Start(1), ls[..1]);
    assert At(s1, c, [], [], [], 1, None);
    StaleStep(1);
    var s2 := Exec(Start(1), ls[..2]);
    assert At(s2, c, [], [Exchange(0, 1)], [], 1, None);
    StaleStep(2);
  }

  /** One step of thread 1 in the middle of the run. */
  lemma StaleRunGoesOn(n: nat)
    requires 3 <= n < 9 && PermittedRun(Start(1), StaleRun()[..n])
    ensures PermittedRun(Start(1), StaleRun()[..n + 1])
    ensures Exec(Start(1), StaleRun()[..n + 1]) == Apply(Exec(Start(1), StaleRun()[..n]), Run(1))
  {
    hide Exec, PermittedRun, Apply;
    StaleStep(n);
    assert StaleRun()[n] == Run(1);
  }

  lemma StaleRunLength()
    ensures |StaleRun()| == 11
  {
  }

  /** The first disconnection closes the socket and comes back to the pool ... */
  lemma StaleRunReturns(c: Slot)
    requires c == Slot(1, true, Server(true), Socket(0))
    ensures PermittedRun(Start(1), StaleRun()[..6])
    ensures var s := Exec(Start(1), StaleRun()[..6]);
            && At(s, Slot(1, false, Server(true), InvalidSocket), [], [Exchange(0, 1)], ReleaseOps(0, 1), 1, Some(1))
            && s.pool.nextId == 2 && s.issued == 1
  {
    hide Exec, PermittedRun, StaleRun;
    var ls, quit := StaleRun(), [Close(0, 1), Notify(0, 1)];
    StaleRunLength();
    StaleRunBegins(c);
    StaleRunGoesOn(3);
    assert At(Exec(Start(1), ls[..4]), c.(connected := false), [], [Exchange(0, 1)], quit, 1, Some(1));
    StaleRunGoesOn(4);
    assert At(Exec(Start(1), ls[..5]), c.(connected := false, sock := InvalidSocket), [],
              [Exchange(0, 1)], [Notify(0, 1)], 1, Some(1));
    StaleRunGoesOn(5);
  }

  /** ... where it frees the slot. */
  lemma StaleRunFrees()
    ensures PermittedRun(Start(1), StaleRun()[..9])
    ensures var s := Exec(Start(1), StaleRun()[..9]);
            At(s, IdleSlot(), [0], [Exchange(0, 1)], [], 1, None) && s.pool.nextId == 2 && s.issued == 1
  {
    hide Exec, PermittedRun, StaleRun;
    var ls, c := StaleRun(), Slot(1, false, Server(true), InvalidSocket);
    StaleRunLength();
    StaleRunReturns(Slot(1, true, Server(true), Socket(0)));
    StaleRunGoesOn(6);
    assert At(Exec(Start(1), ls[..7]), c, [], [Exchange(0, 1)], [Reset(0, 1), Push(0, 1)], 1, Some(1));
    StaleRunGoesOn(7);
    assert At(Exec(Start(1), ls[..8]), IdleSlot(), [], [Exchange(0, 1)], [Push(0, 1)], 1, Some(1));
    StaleRunGoesOn(8);
  }

  /** Two threads disconnect one session; the slower one hits the session's next tenant. */
  lemma StaleDisconnectionEndsNextTenancy()
    ensures PermittedRun(Start(1), StaleRun())
    ensures
      var s, t := Exec(Start(1), StaleRun()[..10]), Exec(Start(1), StaleRun());
      && At(s, Slot(2, true, Server(true), Socket(1)), [], [Exchange(0, 1)], [], 2, None)
      && At(t, Slot(2, false, Server(true), Socket(1)), [], [Close(0, 2), Notify(0, 2)], [], 2, Some(0))
      && Shaped(s) && !InTime(s, Todo(s, 0)[0])
  {
    hide Exec, PermittedRun;
    StaleRunFrees();
    StaleStep(9);
    var c := Slot(2, true, Server(true), Socket(1));
    assert At(Exec(Start(1), StaleRun()[..10]), c, [], [Exchange(0, 1)], [], 2, None);
    StaleStep(10);
    assert StaleRun()[..11] == StaleRun();
  }

  // ---------------------------------------------------------------- the permitted calls are exact for releases

  /** Threads going on with what they have to do, and no new calls. */
  predicate OnlyRuns(ls: seq<Label>) {
    forall k :: 0 <= k < |ls| ==> ls[k].Run?
  }

  /** Some thread may come too late in ending a tenancy even if no further calls are made. */
  ghost predicate Derails(s: State) {
    exists ls :: OnlyRuns(ls) && !ReleasesInTime(Exec(s, ls))
  }

  lemma {:induction false} ExecFrom(s: State, l: Label, ls: seq<Label>)
    ensures Exec(s, [l] + ls) == Exec(Apply(s, l), ls)
  {
    hide Apply;
    var all := [l] + ls;
    if ls == [] {
      assert all == [l] && all[..0] == [];
      assert Exec(s, []) == s;
    } else {
      assert all[..|all| - 1] == [l] + ls[..|ls| - 1] && all[|all| - 1] == ls[|ls| - 1];
      ExecFrom(s, l, ls[..|ls| - 1]);
    }
  }

  lemma WrongAfterStep(s: State, t: nat)
    requires Derails(Apply(s, Run(t)))
    ensures Derails(s)
  {
    hide Apply, Exec, ReleasesInTime;
    var ls :| OnlyRuns(ls) && !ReleasesInTime(Exec(Apply(s, Run(t)), ls));
    ExecFrom(s, Run(t), ls);
    assert OnlyRuns([Run(t)] + ls);
  }

  lemma WrongNow(s: State)
    requires !ReleasesInTime(s)
    ensures Derails(s)
  {
    assert OnlyRuns([]) && Exec(s, []) == s;
  }

  /** Thread `u` has still to end a tenancy of slot `i`, which is already free. */
  lemma LateOpIsWrong(s: State, u: nat, i: nat, j: nat)
    requires Shaped(s) && u in s.threads && i in s.pool.free
    requires j < |s.threads[u]| && !s.threads[u][j].Exchange? && s.threads[u][j].slot == i
    ensures Derails(s)
  {
    assert !InTime(s, s.threads[u][j]);
    WrongNow(s);
  }

  /** Thread `u` has still to end a tenancy of slot `i`. */
  ghost predicate StillEnding(s: State, u: nat, i: nat) {
    exists j :: 0 <= j < |Todo(s, u)| && !Todo(s, u)[j].Exchange? && Todo(s, u)[j].slot == i
  }

  lemma StillEndingIsWrong(s: State, u: nat, i: nat)
    requires Shaped(s) && i in s.pool.free && StillEnding(s, u, i)
    ensures Derails(s)
  {
    var j :| 0 <= j < |Todo(s, u)| && !Todo(s, u)[j].Exchange? && Todo(s, u)[j].slot == i;
    LateOpIsWrong(s, u, i, j);
  }

  /** While another thread has still to end the tenancy, resetting and pushing goes wrong. */
  lemma PushingIsWrong(s: State, t: nat, u: nat, i: nat, k: nat)
    requires Shaped(s) && i < |s.pool.slots| && u != t
    requires Todo(s, t) == [Reset(i, k), Push(i, k)] && StillEnding(s, u, i)
    ensures Derails(s)
  {
    var s1 := Apply(s, Run(t));
    assert Todo(s1, t) == [Push(i, k)] && Todo(s1, u) == Todo(s, u);
    var s2 := Apply(s1, Run(t));
    assert s2.pool.free == s.pool.free + [i] && Todo(s2, u) == Todo(s, u);
    StillEndingIsWrong(s2, u, i);
    WrongAfterStep(s1, t);
    WrongAfterStep(s, t);
  }

  lemma ReleasingTwiceIsWrong(s: State, t: nat, u: nat, i: nat, k: nat)
    requires Shaped(s) && i < |s.pool.slots| && u != t
    requires Todo(s, t) == ReleaseOps(i, k) && StillEnding(s, u, i)
    requires s.pool.slots[i].connected ==> !s.pool.slots[i].Returns()
    ensures Derails(s)
  {
    var s1 := Apply(s, Run(t));
    var rest := [Reset(i, k), Push(i, k)];
    assert Todo(s, t)[1..] == rest && Todo(s1, u) == Todo(s, u);
    if s.pool.slots[i].connected {
      var c := s.tenant[i];
      assert Todo(s1, t) == [Close(i, c), Notify(i, c)] + rest;
      var s2 := Apply(s1, Run(t));
      assert Todo(s2, t) == [Notify(i, c)] + rest && Todo(s2, u) == Todo(s, u);
      var s3 := Apply(s2, Run(t));
      assert Todo(s3, t) == rest && Todo(s3, u) == Todo(s, u);
      PushingIsWrong(s3, t, u, i, k);
      WrongAfterStep(s2, t);
      WrongAfterStep(s1, t);
    } else {
      PushingIsWrong(s1, t, u, i, k);
    }
    WrongAfterStep(s, t);
  }

  /** Releasing a connected session whose owner returns it: the disconnection frees the slot first. */
  lemma ReleasingReturnedIsWrong(s: State, t: nat, i: nat, k: nat)
    requires Shaped(s) && i < |s.pool.slots| && s.pool.slots[i].connected && s.pool.slots[i].Returns()
    requires Todo(s, t) == ReleaseOps(i, k)
    ensures Derails(s)
  {
    var c, rest := s.tenant[i], [Reset(i, k), Push(i, k)];
    var s1 := Apply(s, Run(t));
    assert Todo(s, t)[1..] == rest;
    assert Todo(s1, t) == [Close(i, c), Notify(i, c)] + rest;
    var s2 := Apply(s1, Run(t));
    assert Todo(s2, t) == [Notify(i, c)] + rest;
    var s3 := Apply(s2, Run(t));
    assert Todo(s3, t) == ReleaseOps(i, c) + rest;
    var s4 := Apply(s3, Run(t));
    assert Todo(s4, t) == [Reset(i, c), Push(i, c)] + rest;
    var s5 := Apply(s4, Run(t));
    assert Todo(s5, t) == [Push(i, c)] + rest;
    var s6 := Apply(s5, Run(t));
    assert Todo(s6, t) == rest && s6.pool.free == s5.pool.free + [i];
    assert !rest[0].Exchange? && rest[0].slot == i;
    StillEndingIsWrong(s6, t, i);
    WrongAfterStep(s5, t);
    WrongAfterStep(s4, t);
    WrongAfterStep(s3, t);
    WrongAfterStep(s2, t);
    WrongAfterStep(s1, t);
    WrongAfterStep(s, t);
  }

  /**
   Thread `u` is about to disconnect a connected session that thread `t` is releasing: `u` may win
   and then close the socket of the next tenant.
   */
  lemma RaceIsWrong(s: State, t: nat, u: nat, i: nat, k: nat)
    requires Shaped(s) && i < |s.pool.slots| && s.pool.slots[i].connected && u != t
    requires Todo(s, t) == ReleaseOps(i, k) && Tries(Todo(s, u), i)
    ensures Derails(s)
  {
    var c := s.tenant[i];
    var s1 := Apply(s, Run(u));
    assert Todo(s, u)[1..] == [];
    assert Todo(s1, u) == [Close(i, c), Notify(i, c)] && Todo(s1, t) == Todo(s, t);
    assert !Todo(s1, u)[0].Exchange? && Todo(s1, u)[0].slot == i;
    ReleasingTwiceIsWrong(s1, t, u, i, k);
    WrongAfterStep(s, u);
  }

  /** A thread that keeps a slot has still to end its tenancy. */
  lemma KeeperStillEnding(s: State, i: nat, u: nat)
    requires Inv(s) && i < |s.pool.slots| && s.keeper[i] == Some(u)
    ensures StillEnding(s, u, i)
  {
    assert SlotInv(s, i);
    var w := Todo(s, u);
    assert !w[|w| - 1].Exchange? && w[|w| - 1].slot == i;
  }

  lemma ForbiddenReleaseIsWrong(s: State, t: nat, i: nat, k: nat)
    requires Inv(s) && Enabled(s, ReleaseCall(t, i, k)) && !Permitted(s, ReleaseCall(t, i, k))
    ensures Derails(Apply(s, ReleaseCall(t, i, k)))
  {
    var s1 := Apply(s, ReleaseCall(t, i, k));
    assert SlotInv(s, i) && Todo(s1, t) == ReleaseOps(i, k);
    IdleKeepsNothing(s, t, i);
    if k != s.tenant[i] {
      assert !InTime(s1, s1.threads[t][0]) && !IsDisconnection(s1.threads[t]);
      WrongNow(s1);
    } else if i in s.pool.free {
      assert !Todo(s1, t)[1].Exchange? && Todo(s1, t)[1].slot == i;
      StillEndingIsWrong(s1, t, i);
    } else if s.keeper[i].Some? {
      var u := s.keeper[i].value;
      KeeperStillEnding(s, i, u);
      assert Todo(s1, u) == Todo(s, u);
      assert StillEnding(s1, u, i);
      ReleasingTwiceIsWrong(s1, t, u, i, k);
    } else if s.pool.slots[i].Returns() {
      ReleasingReturnedIsWrong(s1, t, i, k);
    } else {
      var u :| u in s.threads && u != t && Tries(s.threads[u], i);
      assert Todo(s1, u) == Todo(s, u);
      RaceIsWrong(s1, t, u, i, k);
    }
  }

  lemma ForbiddenDisconnectIsWrong(s: State, t: nat, i: nat, k: nat)
    requires Inv(s) && Enabled(s, DisconnectCall(t, i, k)) && !Permitted(s, DisconnectCall(t, i, k))
    ensures Derails(Apply(s, DisconnectCall(t, i, k)))
  {
    var s1 := Apply(s, DisconnectCall(t, i, k));
    IdleKeepsNothing(s, t, i);
    assert SlotInv(s, i);
    var u := s.keeper[i].value;
    assert Todo(s1, u) == Todo(s, u) == ReleaseOps(i, s.tenant[i]);
    RaceIsWrong(s1, u, t, i, s.tenant[i]);
  }

  lemma {:induction false} OnlyRunsAreTimely(s: State, ls: seq<Label>)
    requires OnlyRuns(ls)
    ensures TimelyRun(s, ls) && PermittedRun(s, ls)
  {
    if ls == [] {
      assert TimelyRun(s, []) && PermittedRun(s, []);
    } else {
      OnlyRunsAreTimely(s, ls[..|ls| - 1]);
    }
  }

  ghost predicate SomeReleaseComesLate(s: State) {
    exists ls :: PermittedRun(s, ls) && !ReleasesInTime(Exec(s, ls))
  }

  lemma ForbiddenDerails(s: State, l: Label)
    requires Inv(s) && Enabled(s, l) && !Permitted(s, l)
    ensures Derails(Apply(s, l))
  {
    hide Inv, Apply;
    match l
    case AcquireCall(_, _) =>
    case DisconnectCall(t, i, k) => ForbiddenDisconnectIsWrong(s, t, i, k);
    case ReleaseCall(t, i, k) => ForbiddenReleaseIsWrong(s, t, i, k);
    case Run(_) =>
  }

  /**
   A call is permitted if and only if no permitted run after it frees a slot twice or ends a tenancy
   on a free slot or on a later tenant's. Stale disconnections are excepted; TimelyIff includes them.
   */
  lemma PermittedIffReleasesInTime(s: State, l: Label)
    requires Inv(s) && Enabled(s, l)
    ensures Permitted(s, l) <==> !SomeReleaseComesLate(Apply(s, l))
  {
    if Permitted(s, l) {
      StepKeepsInv(s, l);
      forall ls | PermittedRun(Apply(s, l), ls)
        ensures ReleasesInTime(Exec(Apply(s, l), ls))
      {
        RunInv(Apply(s, l), ls);
        InvReleasesInTime(Exec(Apply(s, l), ls));
      }
    } else {
      ForbiddenDerails(s, l);
      var ls :| OnlyRuns(ls) && !ReleasesInTime(Exec(Apply(s, l), ls));
      OnlyRunsAreTimely(Apply(s, l), ls);
    }
  }

  // ---------------------------------------------------------------- the exact condition for every operation

  lemma RunLeavesNoDisconnection(s: State, u: nat)
    requires Inv(s) && Enabled(s, Run(u))
    ensures !IsDisconnection(Todo(AfterRun(s, u), u))
  {
    assert ThreadInv(s, u) && SlotInv(s, Todo(s, u)[0].slot);
  }

  lemma RunKeepsOthers(s: State, u: nat)
    requires Enabled(s, Run(u))
    ensures AfterRun(s, u).threads == s.threads[u := Todo(AfterRun(s, u), u)]
    ensures AfterRun(s, u).tenant == s.tenant && |AfterRun(s, u).pool.slots| == |s.pool.slots|
  {
  }

  lemma DisconnectionStaysInTime(s: State, l: Label, t: nat)
    requires Inv(s) && AllInTime(s) && Timely(s, l)
    requires t in Apply(s, l).threads && IsDisconnection(Apply(s, l).threads[t])
    ensures Shaped(Apply(s, l)) && InTime(Apply(s, l), Apply(s, l).threads[t][0])
  {
    hide Inv;
    StepKeepsInv(s, l);
    if l.Run? && Enabled(s, l) {
      RunLeavesNoDisconnection(s, l.thread);
      RunKeepsOthers(s, l.thread);
    }
    hide AfterRun;
    if t in s.threads && s.threads[t] == Apply(s, l).threads[t] {
      assert InTime(s, s.threads[t][0]);
    }
  }

  /** One permitted step keeps everything in time if and only if it is timely. */
  lemma StepInTimeIff(s: State, l: Label)
    requires Inv(s) && AllInTime(s) && Permitted(s, l)
    ensures AllInTime(Apply(s, l)) <==> Timely(s, l)
  {
    var s' := Apply(s, l);
    StepKeepsInv(s, l);
    InvReleasesInTime(s');
    if Timely(s, l) {
      forall t, j | t in s'.threads && 0 <= j < |s'.threads[t]|
        ensures InTime(s', s'.threads[t][j])
      {
        if IsDisconnection(s'.threads[t]) {
          DisconnectionStaysInTime(s, l, t);
        }
      }
    } else if l.DisconnectCall? {
      assert !InTime(s', s'.threads[l.thread][0]);
    } else {
      var i := Top(s.pool).value;
      var u :| u in s.threads && Tries(s.threads[u], i);
      assert InTime(s, s.threads[u][0]) && SlotInv(s, i);
      assert !InTime(s', s'.threads[u][0]);
    }
  }

  /** So everything is in time after every timely run. */
  lemma {:induction false} TimelyRunInTime(s: State, ls: seq<Label>)
    requires Inv(s) && AllInTime(s) && TimelyRun(s, ls)
    ensures Inv(Exec(s, ls)) && AllInTime(Exec(s, ls)) && PermittedRun(s, ls)
  {
    hide Inv, AllInTime, Apply;
    if ls == [] {
      assert Exec(s, ls) == s;
    } else {
      var before := Exec(s, ls[..|ls| - 1]);
      TimelyRunInTime(s, ls[..|ls| - 1]);
      StepKeepsInv(before, ls[|ls| - 1]);
      StepInTimeIff(before, ls[|ls| - 1]);
    }
  }

  /** From a fresh pool no call, a disconnection included, ever works on a later tenancy. */
  lemma TimelyRunsNeverDisturb(n: nat, ls: seq<Label>)
    requires TimelyRun(Start(n), ls)
    ensures AllInTime(Exec(Start(n), ls))
  {
    StartInv(n);
    TimelyRunInTime(Start(n), ls);
  }

  ghost predicate SomethingComesLate(s: State) {
    exists ls :: TimelyRun(s, ls) && !AllInTime(Exec(s, ls))
  }

  /**
   The timely calls are exactly the harmless ones: a call is timely if and only if no timely run after
   it frees a slot twice or has any operation of any thread, disconnections included, come too late.
   */
  lemma TimelyIff(s: State, l: Label)
    requires Inv(s) && AllInTime(s) && Enabled(s, l)
    ensures Timely(s, l) <==> !SomethingComesLate(Apply(s, l))
  {
    var s' := Apply(s, l);
    if Timely(s, l) {
      StepKeepsInv(s, l);
      StepInTimeIff(s, l);
      forall ls | TimelyRun(s', ls)
        ensures AllInTime(Exec(s', ls))
      {
        TimelyRunInTime(s', ls);
      }
    } else if Permitted(s, l) {
      StepInTimeIff(s, l);
      assert TimelyRun(s', []) && Exec(s', []) == s';
    } else {
      ForbiddenDerails(s, l);
      var ls :| OnlyRuns(ls) && !ReleasesInTime(Exec(s', ls));
      OnlyRunsAreTimely(s', ls);
      assert !AllInTime(Exec(s', ls));
    }
  }
}
