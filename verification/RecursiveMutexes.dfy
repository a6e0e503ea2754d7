/** The recursive mutex: a semaphore of length 1 with a holder and a call count, used by any
    number of tasks.  Taking and giving back are each two steps, between which other tasks run.
 */
module RecursiveMutexes {

  datatype Holder = Nobody | Task(t: nat)

  datatype Pc =
    | Outside     // not inside a call
    | Taken       // has obtained the semaphore, has not counted its call yet
    | Returning   // has counted down to 0, has not returned the semaphore yet

  datatype Mutex = Mutex(count: nat, holder: Holder, calls: nat)

  // `depth` counts each task's successful takes minus its successful gives.
  datatype State = State(m: Mutex, pc: map<nat, Pc>, depth: map<nat, nat>)

  datatype Step = Take(t: nat) | FinishTake(t: nat) | Give(t: nat) | FinishGive(t: nat)

  // ---- The mutex operations ----

  // The test in xQueueTakeMutexRecursive, and if it fails the attempt of xQueueSemaphoreTake.
  function TakeFirst(m: Mutex, t: nat): (r: (Mutex, bool)) {
    if m.holder == Task(t) then (m.(calls := m.calls + 1), true)
    else if 0 < m.count then (m.(count := m.count - 1, holder := Task(t)), true)
    else (m, false)
  }

  function CountCall(m: Mutex): Mutex {
    m.(calls := m.calls + 1)
  }

  // The test and the count down of xQueueGiveMutexRecursive.
  function GiveFirst(m: Mutex, t: nat): (r: (Mutex, bool))
    requires m.holder == Task(t) ==> 0 < m.calls
  {
    if m.holder == Task(t) then (m.(calls := m.calls - 1), true) else (m, false)
  }

  // xQueueGenericSend on the semaphore: nobody holds it any more.
  function ReturnMutex(m: Mutex): Mutex {
    if m.count < 1 then m.(count := m.count + 1, holder := Nobody) else m
  }

  // ---- Steps of tasks ----

  predicate Enabled(s: State, step: Step) {
    && step.t in s.pc && step.t in s.depth
    && match step
       case Take(t) => s.pc[t] == Outside
       case FinishTake(t) => s.pc[t] == Taken
       case Give(t) => s.pc[t] == Outside && (s.m.holder == Task(t) ==> 0 < s.m.calls && 0 < s.depth[t])
       case FinishGive(t) => s.pc[t] == Returning
  }

  function Apply(s: State, step: Step): State
    requires Enabled(s, step)
  {
    match step
    case Take(t) =>
      var (m, taken) := TakeFirst(s.m, t);
      if s.m.holder == Task(t) then s.(m := m, depth := s.depth[t := s.depth[t] + 1])
      else if taken then s.(m := m, pc := s.pc[t := Taken])
      else s
    case FinishTake(t) => State(CountCall(s.m), s.pc[t := Outside], s.depth[t := s.depth[t] + 1])
    case Give(t) =>
      var (m, given) := GiveFirst(s.m, t);
      if !given then s
      else s.(m := m, depth := s.depth[t := s.depth[t] - 1], pc := if m.calls == 0 then s.pc[t := Returning] else s.pc)
    case FinishGive(t) => State(ReturnMutex(s.m), s.pc[t := Outside], s.depth)
  }

  // ---- The invariant ----

  // What is true of one task.
  predicate TaskOk(s: State, t: nat)
    requires t in s.pc && t in s.depth
  {
    if s.m.holder == Task(t) then
      s.depth[t] == s.m.calls && (s.pc[t] == Outside <==> 0 < s.m.calls)
    else
      s.depth[t] == 0 && s.pc[t] == Outside
  }

  ghost predicate Inv(s: State) {
    && s.pc.Keys == s.depth.Keys
    && s.m.count + (if s.m.holder == Nobody then 0 else 1) == 1
    && (s.m.holder == Nobody ==> s.m.calls == 0)
    && (s.m.holder != Nobody ==> s.m.holder.t in s.pc)
    && (forall t :: t in s.pc ==> TaskOk(s, t))
  }

  // Counting down never underflows: the comment in the source that the count cannot be 0 for the
  // holder is a consequence of the invariant, so giving is always possible.
  lemma GiveIsAlwaysEnabled(s: State, t: nat)
    requires Inv(s) && t in s.pc && s.pc[t] == Outside
    ensures Enabled(s, Give(t))
  {
    assert TaskOk(s, t);
  }

  // A take by the holder succeeds at once; on an available mutex it succeeds in two steps; otherwise
  // it is refused.
  lemma TakeExactly(s: State, t: nat)
    requires Inv(s) && Enabled(s, Take(t))
    ensures var s1 := Apply(s, Take(t));
            && (s.m.holder == Task(t) ==> s1 == s.(m := s1.m, depth := s.depth[t := s.depth[t] + 1]) &&
                                          s1.m == s.m.(calls := s.m.calls + 1))
            && (s.m.count == 1 ==> s1.m.holder == Task(t) && s1.m.count == 0 && Enabled(s1, FinishTake(t)) &&
                                   Apply(s1, FinishTake(t)) == State(Mutex(0, Task(t), 1), s.pc, s.depth[t := 1]))
            && (s.m.holder != Task(t) && s.m.count == 0 ==> s1 == s)
  {
    assert TaskOk(s, t);
    assert s.pc[t := Taken][t := Outside] == s.pc;
  }

  // A give by the holder succeeds; the last one returns the mutex in two steps; by another task it is
  // refused.
  lemma GiveExactly(s: State, t: nat)
    requires Inv(s) && Enabled(s, Give(t))
    ensures var s1 := Apply(s, Give(t));
            && (s.m.holder == Task(t) ==> s1.depth == s.depth[t := s.depth[t] - 1] && s1.m.calls == s.m.calls - 1)
            && (s.m.holder == Task(t) && 1 < s.depth[t] ==> s1.m.holder == Task(t) && s1.pc == s.pc)
            && (s.m.holder == Task(t) && s.depth[t] == 1 ==>
                  Enabled(s1, FinishGive(t)) &&
                  Apply(s1, FinishGive(t)) == State(Mutex(1, Nobody, 0), s.pc, s.depth[t := 0]))
            && (s.m.holder != Task(t) ==> s1 == s)
  {
    assert TaskOk(s, t);
    assert s.pc[t := Returning][t := Outside] == s.pc;
  }

  lemma StepKeeps(s: State, step: Step)
    requires Inv(s) && Enabled(s, step)
    ensures Inv(Apply(s, step))
  {
    var s' := Apply(s, step);
    assert TaskOk(s, step.t);
    forall t | t in s'.pc
      ensures TaskOk(s', t)
    {
      assert TaskOk(s, t);
    }
  }

  ghost predicate Feasible(s: State, run: seq<Step>)
    decreases |run|
  {
    run == [] || (Enabled(s, run[0]) && Feasible(Apply(s, run[0]), run[1..]))
  }

  ghost function Exec(s: State, run: seq<Step>): State
    requires Feasible(s, run)
    decreases |run|
  {
    if run == [] then s else Exec(Apply(s, run[0]), run[1..])
  }

  lemma {:induction false} RunKeeps(s: State, run: seq<Step>)
    requires Inv(s) && Feasible(s, run)
    ensures Inv(Exec(s, run))
    decreases |run|
  {
    if run != [] {
      StepKeeps(s, run[0]);
      RunKeeps(Apply(s, run[0]), run[1..]);
    }
  }

  // A new mutex: created empty and given once.
  function Fresh(tasks: set<nat>): State {
    State(ReturnMutex(Mutex(0, Nobody, 0)), map t | t in tasks :: Outside, map t | t in tasks :: 0)
  }

  // Over every run: at most one task has outstanding takes, its count is the mutex's count, and
  // between calls the mutex is available exactly when every task's gives balance its takes.
  lemma ExclusiveAndBalanced(tasks: set<nat>, run: seq<Step>, t: nat, u: nat)
    requires Feasible(Fresh(tasks), run) && t in tasks && u in tasks
    ensures var s := Exec(Fresh(tasks), run);
            && t in s.depth && u in s.depth && s.pc.Keys == tasks
            && (0 < s.depth[t] && 0 < s.depth[u] ==> t == u)
            && (0 < s.depth[t] ==> s.m.holder == Task(t) && s.m.calls == s.depth[t])
            && s.m.count + (if s.m.holder == Nobody then 0 else 1) == 1
            && ((forall v :: v in s.pc ==> s.pc[v] == Outside) ==>
                  (s.m.count == 1 <==> forall v :: v in s.depth ==> s.depth[v] == 0))
  {
    var s := Exec(Fresh(tasks), run);
    RunKeeps(Fresh(tasks), run);
    KeysStay(Fresh(tasks), run);
    assert TaskOk(s, t) && TaskOk(s, u);
    if s.m.holder != Nobody {
      assert TaskOk(s, s.m.holder.t);
    } else {
      assert forall v :: v in s.pc ==> TaskOk(s, v);
    }
  }

  lemma {:induction false} KeysStay(s: State, run: seq<Step>)
    requires Feasible(s, run)
    ensures Exec(s, run).pc.Keys == s.pc.Keys && Exec(s, run).depth.Keys == s.depth.Keys
    decreases |run|
  {
    if run != [] {
      KeysStay(Apply(s, run[0]), run[1..]);
    }
  }

  // ---- The mutex object ----

  class RecursiveMutex {
    var messagesWaiting: nat
    var mutexHolder: Holder
    var recursiveCallCount: nat

    ghost function View(): Mutex
      reads this
    {
      Mutex(messagesWaiting, mutexHolder, recursiveCallCount)
    }

    constructor ()
      ensures View() == Fresh({}).m
    {
      messagesWaiting, mutexHolder, recursiveCallCount := 1, Nobody, 0;
    }

    // xQueueTakeMutexRecursive without waiting, for a task that is not interrupted.
    method TakeRecursive(t: nat) returns (taken: bool)
      modifies this
      ensures taken <==> old(mutexHolder) == Task(t) || 0 < old(messagesWaiting)
      ensures taken ==> mutexHolder == Task(t) && recursiveCallCount == old(recursiveCallCount) + 1
      ensures taken ==> messagesWaiting == old(messagesWaiting) - if old(mutexHolder) == Task(t) then 0 else 1
      ensures !taken ==> View() == old(View())
      ensures var first := TakeFirst(old(View()), t);
              && taken == first.1
              && View() == if taken && old(mutexHolder) != Task(t) then CountCall(first.0) else first.0
    {
      if mutexHolder == Task(t) {
        recursiveCallCount := recursiveCallCount + 1;
        taken := true;
      } else {
        taken := 0 < messagesWaiting;
        if taken {
          messagesWaiting := messagesWaiting - 1;
          mutexHolder := Task(t);
          recursiveCallCount := recursiveCallCount + 1;
        }
      }
    }

    // xQueueGiveMutexRecursive.
    method GiveRecursive(t: nat) returns (given: bool)
      requires mutexHolder == Task(t) ==> 0 < recursiveCallCount
      modifies this
      ensures given <==> old(mutexHolder) == Task(t)
      ensures given ==> recursiveCallCount == old(recursiveCallCount) - 1
      ensures given && 0 < recursiveCallCount ==> mutexHolder == Task(t) && messagesWaiting == old(messagesWaiting)
      ensures given && recursiveCallCount == 0 && old(messagesWaiting) == 0 ==>
                mutexHolder == Nobody && messagesWaiting == 1
      ensures !given ==> View() == old(View())
      ensures var first := GiveFirst(old(View()), t);
              && given == first.1
              && View() == if given && first.0.calls == 0 then ReturnMutex(first.0) else first.0
    {
      given := mutexHolder == Task(t);
      if given {
        recursiveCallCount := recursiveCallCount - 1;
        if recursiveCallCount == 0 {
          if messagesWaiting < 1 {
            mutexHolder := Nobody;
            messagesWaiting := messagesWaiting + 1;
          }
        }
      }
    }
  }
}
