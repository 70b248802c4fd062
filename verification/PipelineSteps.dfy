/** One step of the pipeline machine: what it can do to the threads, and what it costs. */
module PipelineSteps {
  import opened WebTypes
  import opened Middleware
  import opened PipelineRuns

  // ---------------------------------------------------------------- what reachable states satisfy

  function ActionOf(behaviour: Behaviour, a: Activation): Action {
    behaviour(a.target, a.serial, a.replies)
  }

  function NextAction(m: Machine, behaviour: Behaviour, t: nat): Action
    requires Active(m, t)
  {
    ActionOf(behaviour, Top(m.threads[t]))
  }

  /** The body under a running one is waiting for its answer: it has not finished. */
  predicate CallersWait(thread: Thread, behaviour: Behaviour) {
    forall i :: 0 <= i < |thread.stack| - 1 ==> !ActionOf(behaviour, thread.stack[i]).Finish?
  }

  /** A thread that waits for the lock is in the middle of an Add. */
  predicate WaitersAdd(thread: Thread, behaviour: Behaviour) {
    thread.mode.Publishing? ==> |thread.stack| > 0 && ActionOf(behaviour, Top(thread)).CallAdd?
  }

  predicate ThreadSound(thread: Thread, behaviour: Behaviour) {
    CallersWait(thread, behaviour) && WaitersAdd(thread, behaviour)
  }

  ghost predicate Sound(m: Machine, behaviour: Behaviour) {
    && OneShot(m)
    && forall t :: 0 <= t < |m.threads| ==> ThreadSound(m.threads[t], behaviour)
  }

  // ---------------------------------------------------------------- the four kinds of step

  /** The running body is gone, and its caller has `result` as its last reply; below, nothing moved. */
  predicate Returned(before: Thread, after: Thread, result: HandlerResult) {
    var d := |before.stack|;
    && d > 0
    && |after.stack| == d - 1
    && after.mode == Running
    && (forall i :: 0 <= i < d - 2 ==> after.stack[i] == before.stack[i])
    && (d > 1 ==>
          after.stack[d - 2] == before.stack[d - 2].(replies := before.stack[d - 2].replies + [Result(result)]))
  }

  /** The running body finishes, and its caller is answered with what it finishes with. */
  predicate Finished(before: Thread, after: Thread, behaviour: Behaviour) {
    && before.mode.Running? && |before.stack| > 0
    && match ActionOf(behaviour, Top(before))
       case Finish(result) => Returned(before, after, result)
       case _ => false
  }

  predicate DrewHandle(before: Thread, after: Thread, behaviour: Behaviour) {
    && before.mode.Running? && after.mode.Publishing? && after.stack == before.stack
    && |before.stack| > 0 && ActionOf(behaviour, Top(before)).CallAdd?
  }

  ghost predicate GotAnswer(before: Thread, after: Thread, behaviour: Behaviour) {
    && |before.stack| > 0 && !ActionOf(behaviour, Top(before)).Finish?
    && exists reply :: after == Answered(before, reply)
  }

  predicate EnteredBody(before: Thread, after: Thread, behaviour: Behaviour, serial: nat) {
    var d := |before.stack|;
    && d > 0 && !ActionOf(behaviour, Top(before)).Finish?
    && before.mode.Running? && after.mode.Running?
    && |after.stack| == d + 1 && after.stack[..d] == before.stack && after.stack[d].serial == serial
  }

  /** A step returns to the caller, draws a handle, answers the body, or enters another body;
      only the last one starts an activation, and other threads stand still. */
  lemma StepCases(m: Machine, behaviour: Behaviour, t: nat)
    requires Formed(m) && Active(m, t) && ThreadSound(m.threads[t], behaviour)
    ensures var m' := Step(m, behaviour, t);
            && |m'.threads| == |m.threads|
            && (forall u :: 0 <= u < |m.threads| && u != t ==> m'.threads[u] == m.threads[u])
            && (|| (m'.activations == m.activations &&
                    (|| Finished(m.threads[t], m'.threads[t], behaviour)
                     || DrewHandle(m.threads[t], m'.threads[t], behaviour)
                     || GotAnswer(m.threads[t], m'.threads[t], behaviour)))
                || (m'.activations == m.activations + 1 &&
                    EnteredBody(m.threads[t], m'.threads[t], behaviour, m.activations)))
  {
    var m' := Step(m, behaviour, t);
    var thread := m.threads[t];
    var top := Top(thread);
    match thread.mode
    case Publishing(handle, target) =>
      assert m'.threads[t] == Answered(thread, Handle(handle));
    case Running =>
      match behaviour(top.target, top.serial, top.replies)
      case Finish(result) => ReturnReturns(m, t, result);
      case CallNext(n) =>
        if n >= |m.nexts| || m.nexts[n].invoked {
          assert m'.threads[t] == Answered(thread, Result(REFUSED));
        } else {
          var used := m.nexts[n].(invoked := true);
          InvokeAtCases(m.(nexts := m.nexts[n := used]), behaviour, t, used.invocation, used.index);
        }
      case CallHandle =>
        InvokeAtCases(m.(invocations := m.invocations + [m.chain]), behaviour, t, |m.invocations|, 0);
      case CallAdd(target) =>
      case CallRemove(handle) =>
        assert m'.threads[t] == Answered(thread, Flag(Removed(m.chain, handle).1));
      case CallClear =>
        assert m'.threads[t] == Answered(thread, Done);
      case CallSetTerminal(terminal) =>
        assert m'.threads[t] == Answered(thread, Done);
  }

  lemma InvokeAtCases(m: Machine, behaviour: Behaviour, t: nat, invocation: nat, index: nat)
    requires Active(m, t) && invocation < |m.invocations|
    requires m.threads[t].mode.Running? && !NextAction(m, behaviour, t).Finish?
    ensures var m' := InvokeAt(m, t, invocation, index);
            || (m'.activations == m.activations && GotAnswer(m.threads[t], m'.threads[t], behaviour))
            || (m'.activations == m.activations + 1 &&
                EnteredBody(m.threads[t], m'.threads[t], behaviour, m.activations))
  {
    var chain := m.invocations[invocation];
    if ObjectAt(chain, index).None? {
      assert InvokeAt(m, t, invocation, index).threads[t] ==
             Answered(m.threads[t], Result(if index < |chain.entries| then REFUSED else NOT_HANDLED));
    }
  }

  lemma ReturnReturns(m: Machine, t: nat, result: HandlerResult)
    requires Active(m, t)
    ensures Returned(m.threads[t], Return(m, t, result).threads[t], result)
  {
    var before, after := m.threads[t], Return(m, t, result).threads[t];
    var d := |before.stack|;
    if d > 1 {
      var below := before.stack[d - 2];
      assert after.stack[d - 2] == below.(replies := below.replies + [Result(result)]);
    }
  }

  lemma StepKeepsSound(m: Machine, behaviour: Behaviour, t: nat)
    requires Formed(m) && Sound(m, behaviour)
    ensures Sound(Step(m, behaviour, t), behaviour)
  {
    StepKeepsOneShot(m, behaviour, t);
    if Active(m, t) {
      StepCases(m, behaviour, t);
      hide Step, OneShot;
      var m' := Step(m, behaviour, t);
      CaseKeepsSound(m.threads[t], m'.threads[t], behaviour, m.activations);
      forall u | 0 <= u < |m'.threads| ensures ThreadSound(m'.threads[u], behaviour) {
        assert u == t || m'.threads[u] == m.threads[u];
      }
    }
  }

  lemma CaseKeepsSound(before: Thread, after: Thread, behaviour: Behaviour, serial: nat)
    requires ThreadSound(before, behaviour)
    requires || Finished(before, after, behaviour) || DrewHandle(before, after, behaviour)
             || GotAnswer(before, after, behaviour) || EnteredBody(before, after, behaviour, serial)
    ensures ThreadSound(after, behaviour)
  {
    hide ActionOf;
    if EnteredBody(before, after, behaviour, serial) {
      var d := |before.stack|;
      assert forall i :: 0 <= i < d ==> after.stack[i] == after.stack[..d][i];
    }
  }

  lemma StartIsSound(clients: seq<nat>, behaviour: Behaviour)
    ensures Sound(Start(clients), behaviour)
  {
    EveryInvocationInOrder(clients, behaviour, []);
    hide OneShot;
  }

  lemma {:induction false} RunIsSound(clients: seq<nat>, behaviour: Behaviour, schedule: seq<nat>)
    ensures Sound(Run(Start(clients), behaviour, schedule), behaviour)
  {
    StartFormed(clients);
    hide Sound, Step, Start, Formed;
    if |schedule| == 0 {
      StartIsSound(clients, behaviour);
    } else {
      var shorter := schedule[..|schedule| - 1];
      RunIsSound(clients, behaviour, shorter);
      StepKeepsSound(Run(Start(clients), behaviour, shorter), behaviour, schedule[|schedule| - 1]);
    }
  }

  // ---------------------------------------------------------------- what a body is answered

  /** Whenever a body finishes, its caller's last reply is the result it finished with; a body
      without a caller leaves its thread idle. */
  lemma FinishAnswersCaller(m: Machine, behaviour: Behaviour, t: nat)
    requires Formed(m) && Active(m, t) && m.threads[t].mode.Running? && NextAction(m, behaviour, t).Finish?
    ensures var m' := Step(m, behaviour, t);
            var before, after := m.threads[t].stack, m'.threads[t].stack;
            var caller := |before| - 2;
            && |m'.threads| == |m.threads| && |after| == |before| - 1
            && (|before| > 1 ==>
                  && Top(m'.threads[t]).replies == before[caller].replies + [Result(NextAction(m, behaviour, t).result)]
                  && Top(m'.threads[t]).target == before[caller].target
                  && Top(m'.threads[t]).serial == before[caller].serial)
            && m' == m.(threads := m'.threads)
  {
  }

  /** What calling a continuation or Handle leads to: an answer at once, or an object. */
  datatype Reach = Answers(result: HandlerResult) | Enters(target: nat)

  /** The object at an index, a refusal for a null middleware, or nobody's answer without a terminal. */
  function ReachOf(c: ChainValue, index: nat): Reach {
    if index < |c.entries| then
      if c.entries[index].target.Some? then Enters(c.entries[index].target.value)
      else Answers(HandlerResult(WebResult(InvalidState, 0), Handled))
    else if c.terminal.Some? then Enters(c.terminal.value)
    else Answers(HandlerResult(WebResult(NoError, 0), Unhandled))
  }

  predicate Calls(action: Action) {
    action.CallNext? || action.CallHandle?
  }

  /** A continuation leads where it was made for, once; Handle to the start of the published chain. */
  function CallReach(m: Machine, action: Action): Reach
    requires Formed(m) && Calls(action)
  {
    if action.CallHandle? then ReachOf(m.chain, 0)
    else if action.next >= |m.nexts| || m.nexts[action.next].invoked then
      Answers(HandlerResult(WebResult(InvalidState, 0), Handled))
    else
      var next := m.nexts[action.next];
      ReachOf(m.invocations[next.invocation], next.index)
  }

  /** A call enters the object it leads to, above the caller, or answers the caller at once. */
  lemma CallStep(m: Machine, behaviour: Behaviour, t: nat)
    requires Formed(m) && Active(m, t) && m.threads[t].mode.Running? && Calls(NextAction(m, behaviour, t))
    ensures var m' := Step(m, behaviour, t);
            && |m'.threads| == |m.threads|
            && match CallReach(m, NextAction(m, behaviour, t))
               case Answers(result) => AnsweredWith(m.threads[t], m'.threads[t], result)
               case Enters(target) =>
                 && m'.activations == m.activations + 1
                 && m'.threads[t].mode == Running
                 && m'.threads[t].stack == m.threads[t].stack + [Activation(target, m.activations, [])]
  {
  }

  /** The caller runs on with one more reply, and nothing below it has moved. */
  predicate AnsweredWith(before: Thread, after: Thread, result: HandlerResult) {
    var d := |before.stack|;
    && d > 0 && |after.stack| == d && after.mode == Running
    && (forall i :: 0 <= i < d - 1 ==> after.stack[i] == before.stack[i])
    && after.stack[d - 1] == before.stack[d - 1].(replies := before.stack[d - 1].replies + [Result(result)])
  }

  // ---------------------------------------------------------------- what a step publishes

  /** What each action does to the published chain, and what it answers. An Add draws the next
      handle first and publishes in a later step. */
  lemma StepPublishes(m: Machine, behaviour: Behaviour, t: nat)
    requires Formed(m) && Active(m, t) && DistinctEntries(m.chain.entries)
    ensures var m' := Step(m, behaviour, t);
            var before, after := m.chain, m'.chain;
            && |m'.threads| == |m.threads|
            && match m.threads[t].mode
               case Publishing(handle, target) =>
                 && after.terminal == before.terminal && |after.entries| == |before.entries| + 1
                 && after.entries[..|before.entries|] == before.entries
                 && after.entries[|before.entries|] == Entry(handle, Some(target))
                 && Replied(m, m', t, Handle(handle))
               case Running =>
                 match NextAction(m, behaviour, t)
                 case CallAdd(target) =>
                   && after == before && m'.nextHandle == m.nextHandle + 1
                   && m'.threads[t] == m.threads[t].(mode := Publishing(m.nextHandle, target))
                 case CallRemove(handle) =>
                   var found := handle != 0 && Published(before.entries, handle);
                   && after == (if found then before.(entries := Others(before.entries, handle)) else before)
                   && Replied(m, m', t, Flag(found))
                 case CallClear =>
                   after.entries == [] && after.terminal == before.terminal && Replied(m, m', t, Done)
                 case CallSetTerminal(terminal) =>
                   after.entries == before.entries && after.terminal == terminal && Replied(m, m', t, Done)
                 case _ => after == before
  {
    if m.threads[t].mode.Running? && NextAction(m, behaviour, t).CallRemove? {
      RemovedLeavesOthers(m.chain, NextAction(m, behaviour, t).handle);
    }
    hide Removed, Others;
  }

  predicate Replied(m: Machine, m': Machine, t: nat, reply: Reply)
    requires Active(m, t) && |m'.threads| == |m.threads|
  {
    var before := Top(m.threads[t]);
    && Active(m', t) && m'.threads[t].mode == Running
    && |m'.threads[t].stack| == |m.threads[t].stack|
    && Top(m'.threads[t]) == before.(replies := before.replies + [reply])
  }

  // ---------------------------------------------------------------- what a step costs

  /** What an unused continuation can still lead to. */
  function Weight(m: Machine, n: nat): nat
    requires Formed(m) && n < |m.nexts|
  {
    var next := m.nexts[n];
    var size := |m.invocations[next.invocation].entries|;
    if next.invoked || next.index > size then 0 else size + 1 - next.index
  }

  function Budget(m: Machine, n: nat): nat
    requires Formed(m) && n <= |m.nexts|
  {
    if n == 0 then 0 else Budget(m, n - 1) + Weight(m, n - 1)
  }

  function TotalBudget(m: Machine): nat
    requires Formed(m)
  {
    Budget(m, |m.nexts|)
  }

  lemma {:induction false} BudgetSame(m: Machine, m': Machine, n: nat)
    requires Formed(m) && Formed(m') && n <= |m.nexts| && n <= |m'.nexts|
    requires m.invocations == m'.invocations && forall k :: 0 <= k < n ==> m.nexts[k] == m'.nexts[k]
    ensures Budget(m, n) == Budget(m', n)
  {
    if n > 0 {
      BudgetSame(m, m', n - 1);
    }
  }

  lemma {:induction false} BudgetUse(m: Machine, m': Machine, used: nat, n: nat)
    requires Formed(m) && Formed(m') && |m.nexts| == |m'.nexts| && used < n <= |m.nexts|
    requires m.invocations == m'.invocations && m'.nexts == m.nexts[used := m.nexts[used].(invoked := true)]
    ensures Budget(m', n) + Weight(m, used) == Budget(m, n)
    decreases n
  {
    if used == n - 1 {
      BudgetSame(m, m', n - 1);
    } else {
      BudgetUse(m, m', used, n - 1);
    }
  }

  /** Using a continuation costs more than the continuation it may create is worth. */
  lemma InvokeNextSpends(m: Machine, t: nat, n: nat)
    requires Formed(m) && Active(m, t) && n < |m.nexts| && !m.nexts[n].invoked
    requires 1 <= m.nexts[n].index <= |m.invocations[m.nexts[n].invocation].entries|
    ensures TotalBudget(InvokeNext(m, t, n)) < TotalBudget(m)
  {
    var used := m.nexts[n].(invoked := true);
    var m1 := m.(nexts := m.nexts[n := used]);
    BudgetUse(m, m1, n, |m.nexts|);
    var m2 := InvokeNext(m, t, n);
    BudgetSame(m1, m2, |m1.nexts|);
  }

  lemma NextInRange(m: Machine, n: nat)
    requires OneShot(m) && n < |m.nexts|
    ensures 1 <= m.nexts[n].index <= |m.invocations[m.nexts[n].invocation].entries|
  {
  }

  /** Without a new Handle a step never earns budget, and starting an activation spends some. */
  lemma StepSpends(m: Machine, behaviour: Behaviour, t: nat)
    requires Formed(m) && Sound(m, behaviour) && !AboutToHandle(m, behaviour, t)
    ensures TotalBudget(Step(m, behaviour, t)) <= TotalBudget(m)
    ensures Step(m, behaviour, t).activations > m.activations ==> TotalBudget(Step(m, behaviour, t)) < TotalBudget(m)
  {
    hide OneShot, EnteredBy, Budget, InOrder;
    var m' := Step(m, behaviour, t);
    if m'.nexts == m.nexts && m'.invocations == m.invocations {
      BudgetSame(m, m', |m.nexts|);
    }
    if Active(m, t) && m.threads[t].mode.Running? {
      var action := NextAction(m, behaviour, t);
      if action.CallNext? && action.next < |m.nexts| && !m.nexts[action.next].invoked {
        NextInRange(m, action.next);
        InvokeNextSpends(m, t, action.next);
      }
    }
  }
}
