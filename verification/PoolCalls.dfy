/** How calls on the session pool run: they end, and undisturbed they are the sequential calls. */
module PoolCalls {
  import opened PoolModel
  import opened PoolSteps

  // ---------------------------------------------------------------- calls end

  /** Thread `t` takes up to `n` steps on its own. */
  function Drain(s: State, t: nat, n: nat): State
    decreases n
  {
    if n == 0 || Todo(s, t) == [] then s else Drain(Apply(s, Run(t)), t, n - 1)
  }

  /** How many steps thread `t` needs to finish what it is doing, at most. */
  function Work(s: State, t: nat): nat
    requires Todo(s, t) != [] ==> Todo(s, t)[0].slot < |s.pool.slots|
  {
    var w := Todo(s, t);
    if w == [] then 0
    else if w[0].Exchange? then
      if |w| == 1 then 6
      else (if s.pool.slots[w[0].slot].connected then 5 else 3)
    else if w[0].Close? && |w| == 2 then 5
    else if w[0].Notify? && |w| == 1 then 4
    else |w|
  }

  lemma StepIsWork(s: State, t: nat)
    requires Inv(s) && Todo(s, t) != []
    ensures Enabled(s, Run(t)) && Inv(Apply(s, Run(t)))
    ensures Todo(s, t)[0].slot < |s.pool.slots|
    ensures
      var s' := Apply(s, Run(t));
      (Todo(s', t) != [] ==> Todo(s', t)[0].slot < |s'.pool.slots|) && Work(s', t) < Work(s, t) <= 6
  {
    var i := Todo(s, t)[0].slot;
    assert ThreadInv(s, t);
    StepKeepsInv(s, Run(t));
    assert SlotInv(s, i);
    var s' := Apply(s, Run(t));
    if Todo(s', t) != [] {
      assert ThreadInv(s', t);
    }
    if Todo(s, t)[0].Exchange? && s.pool.slots[i].connected {
      if s.keeper[i] == Some(t) {
        assert |Todo(s', t)| == 4;
      } else {
        assert |Todo(s', t)| == 2;
      }
    }
  }

  lemma OthersLeaveTodo(s: State, t: nat, l: Label)
    requires Todo(s, t) != [] && l != Run(t)
    ensures Todo(Apply(s, l), t) == Todo(s, t) && |Apply(s, l).pool.slots| == |s.pool.slots|
  {
  }

  lemma OthersConnectNothingKept(s: State, t: nat, l: Label, i: nat)
    requires Inv(s) && i < |s.pool.slots| && s.keeper[i] == Some(t)
    ensures |Apply(s, l).pool.slots| == |s.pool.slots|
    ensures Apply(s, l).pool.slots[i].connected ==> s.pool.slots[i].connected
  {
    assert SlotInv(s, i);
  }

  /** Other threads' steps give a busy thread no more work. */
  lemma OthersAddNoWork(s: State, t: nat, l: Label)
    requires Inv(s) && Permitted(s, l) && l != Run(t) && Todo(s, t) != []
    ensures Todo(s, t)[0].slot < |s.pool.slots| <= |Apply(s, l).pool.slots|
    ensures Todo(Apply(s, l), t) == Todo(s, t) && Work(Apply(s, l), t) <= Work(s, t)
  {
    var i := Todo(s, t)[0].slot;
    assert ThreadInv(s, t) && SlotInv(s, i);
    OthersLeaveTodo(s, t, l);
    if s.keeper[i] == Some(t) {
      OthersConnectNothingKept(s, t, l, i);
    }
    hide Inv, Apply;
  }

  /** How many of the steps in `ls` are thread `t` going on with what it has to do. */
  function OwnSteps(ls: seq<Label>, t: nat): nat {
    if ls == [] then 0 else OwnSteps(ls[..|ls| - 1], t) + if ls[|ls| - 1] == Run(t) then 1 else 0
  }

  lemma HeadInRange(s: State, t: nat)
    requires Inv(s)
    ensures Todo(s, t) != [] ==> Todo(s, t)[0].slot < |s.pool.slots|
    ensures Work(s, t) <= 6
  {
    if Todo(s, t) != [] {
      StepIsWork(s, t);
    }
  }

  /** In every permitted run a thread that stays busy uses up its work, whatever others do meanwhile. */
  lemma {:induction false} OwnStepsUseUpWork(s: State, ls: seq<Label>, t: nat)
    requires Inv(s) && PermittedRun(s, ls)
    requires forall p :: 0 <= p < |ls| ==> Todo(Exec(s, ls[..p]), t) != []
    ensures Todo(s, t) != [] ==> Todo(s, t)[0].slot < |s.pool.slots|
    ensures
      var s' := Exec(s, ls);
      && Inv(s')
      && (Todo(s', t) != [] ==> Todo(s', t)[0].slot < |s'.pool.slots|)
      && OwnSteps(ls, t) + Work(s', t) <= Work(s, t) <= 6
  {
    hide Inv, Apply, Permitted, Work;
    HeadInRange(s, t);
    if ls == [] {
      assert Exec(s, ls) == s;
    } else {
      var m := |ls| - 1;
      var before := ls[..m];
      forall p | 0 <= p < m
        ensures Todo(Exec(s, before[..p]), t) != []
      {
        assert before[..p] == ls[..p];
      }
      OwnStepsUseUpWork(s, before, t);
      var b := Exec(s, before);
      assert ls[..m] == before;
      StepKeepsInv(b, ls[m]);
      if ls[m] == Run(t) {
        StepIsWork(b, t);
      } else {
        OthersAddNoWork(b, t, ls[m]);
      }
    }
  }

  lemma BusyHasWork(s: State, t: nat)
    requires Todo(s, t) != [] && Todo(s, t)[0].slot < |s.pool.slots|
    ensures Work(s, t) > 0
  {
  }

  /**
   Every call ends: in every permitted run in which a thread takes six of its own steps, it has had
   nothing left to do at some moment, whatever other threads did in between.
   */
  lemma CallsEnd(s: State, ls: seq<Label>, t: nat)
    requires Inv(s) && PermittedRun(s, ls) && OwnSteps(ls, t) >= 6
    ensures exists p :: 0 <= p <= |ls| && Todo(Exec(s, ls[..p]), t) == []
  {
    hide Inv, Exec, PermittedRun, OwnSteps, Work;
    assert ls[..|ls|] == ls;
    if forall p :: 0 <= p <= |ls| ==> Todo(Exec(s, ls[..p]), t) != [] {
      OwnStepsUseUpWork(s, ls, t);
      BusyHasWork(Exec(s, ls), t);
    }
  }

  lemma {:induction false} DrainUsesUpWork(s: State, t: nat, n: nat)
    requires Inv(s)
    requires Todo(s, t) != [] ==> Todo(s, t)[0].slot < |s.pool.slots|
    requires Work(s, t) <= n
    ensures Inv(Drain(s, t, n)) && Todo(Drain(s, t, n), t) == []
    decreases n
  {
    hide Inv, Apply;
    if n == 0 || Todo(s, t) == [] {
      assert Drain(s, t, n) == s;
    } else {
      StepIsWork(s, t);
      DrainUsesUpWork(Apply(s, Run(t)), t, n - 1);
    }
  }

  /** Left alone, a thread finishes whatever it is in the middle of within six steps. */
  lemma WithinSixSteps(s: State, t: nat)
    requires Inv(s)
    ensures Inv(Drain(s, t, 6)) && Todo(Drain(s, t, 6), t) == []
  {
    hide Inv, Drain, Work;
    HeadInRange(s, t);
    DrainUsesUpWork(s, t, 6);
  }

  lemma NothingToDrain(s: State, t: nat, n: nat)
    requires Todo(s, t) == []
    ensures Drain(s, t, n) == s
  {
  }

  // ---------------------------------------------------------------- calls without interruption

  lemma DrainStep(s: State, t: nat, n: nat)
    requires n > 0 && Todo(s, t) != []
    ensures Drain(s, t, n) == Drain(Apply(s, Run(t)), t, n - 1)
  {
  }

  /** Thread `t` runs the rest of a release of a slot that is disconnected, and goes on to `rest`. */
  lemma DrainRelease(s: State, t: nat, i: nat, k: nat, rest: seq<Op>, n: nat) returns (s': State)
    requires Shaped(s) && i < |s.pool.slots| && !s.pool.slots[i].connected
    requires Todo(s, t) == ReleaseOps(i, k) + rest && n >= 3
    ensures Shaped(s') && Todo(s', t) == rest && Drain(s, t, n) == Drain(s', t, n - 3)
    ensures s'.pool == s.pool.(slots := s.pool.slots[i := IdleSlot()], free := s.pool.free + [i])
    ensures s'.tenant == s.tenant
  {
    var s1 := Apply(s, Run(t));
    assert Todo(s1, t) == [Reset(i, k), Push(i, k)] + rest;
    var s2 := Apply(s1, Run(t));
    assert Todo(s2, t) == [Push(i, k)] + rest;
    s' := Apply(s2, Run(t));
    assert Todo(s', t) == rest;
    DrainStep(s, t, n);
    DrainStep(s1, t, n - 1);
    DrainStep(s2, t, n - 2);
  }

  /** Thread `t` disconnects slot `i`, its owner's answer included, and goes on to `rest`. */
  lemma DrainExchange(s: State, t: nat, i: nat, k: nat, rest: seq<Op>, n: nat) returns (s': State, m: nat)
    requires Shaped(s) && i < |s.pool.slots|
    requires Todo(s, t) == [Exchange(i, k)] + rest && n >= 6
    ensures Shaped(s') && Todo(s', t) == rest && n - 6 <= m <= n && Drain(s, t, n) == Drain(s', t, m)
    ensures s'.pool == PoolModel.Disconnect(s.pool, i)
  {
    DisconnectIs(s.pool, i);
    var s1 := Apply(s, Run(t));
    DrainStep(s, t, n);
    assert Todo(s, t)[1..] == rest;
    if !s.pool.slots[i].connected {
      s', m := s1, n - 1;
    } else {
      var c := s.tenant[i];
      assert Todo(s1, t) == [Close(i, c), Notify(i, c)] + rest;
      var s2 := Apply(s1, Run(t));
      DrainStep(s1, t, n - 1);
      assert Todo(s2, t) == [Notify(i, c)] + rest;
      assert s2.pool == HangUp(s.pool, i);
      var s3 := Apply(s2, Run(t));
      DrainStep(s2, t, n - 2);
      if s.pool.slots[i].Returns() {
        assert Todo(s3, t) == ReleaseOps(i, c) + rest;
        s' := DrainRelease(s3, t, i, c, rest, n - 3);
        m := n - 6;
        assert HangUp(s.pool, i).slots[i := IdleSlot()] == s.pool.slots[i := IdleSlot()];
      } else {
        s', m := s3, n - 3;
      }
    }
  }

  /** Undisturbed, an interleaved disconnection is the sequential one ... */
  lemma DisconnectUndisturbed(s: State, t: nat, i: nat, k: nat)
    requires Enabled(s, DisconnectCall(t, i, k))
    ensures Drain(Apply(s, DisconnectCall(t, i, k)), t, 6).pool == PoolModel.Disconnect(s.pool, i)
  {
    var s1 := Apply(s, DisconnectCall(t, i, k));
    assert Todo(s1, t) == [Exchange(i, k)] + [];
    var s2, m := DrainExchange(s1, t, i, k, [], 6);
    NothingToDrain(s2, t, m);
  }

  /** ... and so is an interleaved release, permitted or not. */
  lemma ReleaseUndisturbed(s: State, t: nat, i: nat, k: nat)
    requires Enabled(s, ReleaseCall(t, i, k))
    ensures Drain(Apply(s, ReleaseCall(t, i, k)), t, 8).pool == PoolModel.Release(s.pool, i)
  {
    hide PoolModel.Disconnect;
    var s1 := Apply(s, ReleaseCall(t, i, k));
    assert Todo(s1, t) == [Exchange(i, k)] + [Reset(i, k), Push(i, k)];
    var s2, m := DrainExchange(s1, t, i, k, [Reset(i, k), Push(i, k)], 8);
    var s3 := Apply(s2, Run(t));
    DrainStep(s2, t, m);
    var s4 := Apply(s3, Run(t));
    DrainStep(s3, t, m - 1);
    NothingToDrain(s4, t, m - 2);
  }
}
