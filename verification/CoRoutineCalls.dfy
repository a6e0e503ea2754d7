/** A call of the scheduler is a run of the steps of CoRoutineWakeups, so everything shown for all runs
    holds of it.
 */
module CoRoutineCalls {
  import opened Ticks
  import opened SortedLists
  import opened CoRoutineModel
  import opened CoRoutineInvariant
  import opened CoRoutineScheduler
  import opened CoRoutineWakeups

  // The step is one that the scheduler takes by itself.
  predicate Own(step: Step) {
    !step.NewCoRoutine? && !step.DelayCurrent? && !step.Interrupt?
  }

  ghost predicate Leads(s: State, run: seq<Step>, e: State) {
    Feasible(s, run) && Exec(s, run) == e && forall step :: step in run ==> Own(step)
  }

  lemma {:induction false} OneAfterAnother(s: State, first: seq<Step>, m: State, second: seq<Step>, e: State)
    requires Leads(s, first, m) && Leads(m, second, e)
    ensures Leads(s, first + second, e)
    decreases |first|
  {
    hide Apply, Enabled;
    if first == [] {
      assert first + second == second;
    } else {
      assert (first + second)[1..] == first[1..] + second;
      OneAfterAnother(Apply(s, first[0]), first[1..], m, second, e);
    }
  }

  lemma Single(s: State, step: Step)
    requires Enabled(s, step) && Own(step)
    ensures Leads(s, [step], Apply(s, step))
  {
    hide Apply, Enabled;
    assert [step][1..] == [] && Feasible(Apply(s, step), []);
    assert Feasible(s, [step]);
    assert Exec(s, [step]) == Exec(Apply(s, step), []) == Apply(s, step);
  }

  lemma {:induction false} PendingRun(s: State) returns (run: seq<Step>)
    requires Inv(s.m, 0) && s.phase == TakingPending
    ensures Leads(s, run, s.(m := TakeAllPending(s.m)))
    decreases |s.m.pending|
  {
    hide Inv, Leads;
    InvWf(s.m, 0);
    TakeTurn(s.m);
    run := [];
    if s.m.pending == [] {
      Nothing(s);
    } else {
      PendingKnown(s.m, 0);
      Single(s, MovePending);
      var rest := PendingRun(Apply(s, MovePending));
      run := [MovePending] + rest;
      OneAfterAnother(s, [MovePending], Apply(s, MovePending), rest, s.(m := TakeAllPending(s.m)));
    }
  }

  lemma Nothing(s: State)
    ensures Leads(s, [], s)
  {
  }

  lemma {:induction false} ExpireRun(s: State) returns (run: seq<Step>)
    requires Inv(s.m, 1) && s.phase.Expiring?
    ensures Leads(s, run, s.(m := ExpireAll(s.m), phase := Ticking(s.phase.left)))
    decreases |s.m.delayed|
  {
    hide Inv, Leads, TimeOut, Epoch, Tick;
    InvWf(s.m, 1);
    ExpireTurn(s.m);
    var e := s.(m := ExpireAll(s.m), phase := Ticking(s.phase.left));
    if !HeadExpired(s.m) {
      Single(s, EndTick);
      run := [EndTick];
    } else {
      HeadKnown(s.m, 1);
      Single(s, ExpireOne);
      var rest := ExpireRun(Apply(s, ExpireOne));
      run := [ExpireOne] + rest;
      OneAfterAnother(s, [ExpireOne], Apply(s, ExpireOne), rest, e);
    }
  }

  lemma {:induction false} TicksRun(s: State) returns (run: seq<Step>)
    requires Inv(s.m, 0) && s.phase.Ticking?
    ensures Leads(s, run, s.(m := PassTicks(s.m, s.phase.left), phase := Ticking(0)))
    decreases s.phase.left
  {
    hide Inv, Leads;
    InvWf(s.m, 0);
    PassTurn(s.m, s.phase.left);
    run := [];
    if s.phase.left == 0 {
      Nothing(s);
    } else {
      var e := s.(m := PassTicks(s.m, s.phase.left), phase := Ticking(0));
      Single(s, CountOne);
      CountTickKeeps(s.m);
      var s1 := Apply(s, CountOne);
      var expire := ExpireRun(s1);
      var s2 := s1.(m := ExpireAll(s1.m), phase := Ticking(s1.phase.left));
      var rest := TicksRun(s2);
      OneAfterAnother(s1, expire, s2, rest, e);
      OneAfterAnother(s, [CountOne], s1, expire + rest, e);
      run := [CountOne] + (expire + rest);
    }
  }

  // What Scheduler.Schedule computes for n passed ticks is the end of a run from the call to the
  // choice, without interrupts.
  lemma ScheduleIsRun(s: State, n: nat) returns (run: seq<Step>)
    requires RunInv(s) && s.phase == Resting && n < M
    ensures Wf(PassTicks(TakeAllPending(s.m), n))
    ensures var m := PassTicks(TakeAllPending(s.m), n);
            Leads(s, run, State(Select(m), Resting, Chosen(m)))
  {
    hide Inv, Leads, PassTicks, TakeAllPending;
    InvWf(s.m, 0);
    var m := PassTicks(TakeAllPending(s.m), n);
    InvWf(m, 0);
    InvWf(TakeAllPending(s.m), 0);
    var s1 := s.(phase := TakingPending);
    var s2 := s1.(m := TakeAllPending(s.m));
    var s3 := s2.(phase := Ticking(n));
    var s4 := s3.(m := m, phase := Ticking(0));
    Single(s, CallScheduler);
    var pending := PendingRun(s1);
    Single(s2, StartTicks(n));
    var ticks := TicksRun(s3);
    Single(s4, Choose);
    OneAfterAnother(s3, ticks, s4, [Choose], Apply(s4, Choose));
    OneAfterAnother(s2, [StartTicks(n)], s3, ticks + [Choose], Apply(s4, Choose));
    OneAfterAnother(s1, pending, s2, [StartTicks(n)] + (ticks + [Choose]), Apply(s4, Choose));
    run := [CallScheduler] + (pending + ([StartTicks(n)] + (ticks + [Choose])));
    OneAfterAnother(s, [CallScheduler], s1, pending + ([StartTicks(n)] + (ticks + [Choose])), Apply(s4, Choose));
  }
}
