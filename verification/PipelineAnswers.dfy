/** What callers are answered: over every schedule, the result with which the body they entered
    finishes, and nothing else. */
module PipelineAnswers {
  import opened WebTypes
  import opened Middleware
  import opened PipelineRuns
  import opened PipelineSteps
  import opened PipelineTermination

  /** In a run that ends, every body on a thread that is always scheduled again returns to its
      caller, which it finds as it left it, with the result the body finishes with at last. */
  lemma BodyReturns(m: Machine, behaviour: Behaviour, schedule: Schedule, t: nat, i: nat)
    returns (k: nat, result: HandlerResult)
    requires Formed(m) && Sound(m, behaviour) && Ends(m, behaviour, schedule) && Fair(schedule, t)
    requires Active(At(m, behaviour, schedule, i), t)
    ensures ReturnsAt(m, behaviour, schedule, t, i, k, result)
  {
    var n := IdleLater(m, behaviour, schedule, t, i);
    k, result := ReturnsBy(m, behaviour, schedule, t, i, i, n);
  }

  lemma IdleLater(m: Machine, behaviour: Behaviour, schedule: Schedule, t: nat, i: nat) returns (n: nat)
    requires Formed(m) && Sound(m, behaviour) && Ends(m, behaviour, schedule) && Fair(schedule, t)
    requires Active(At(m, behaviour, schedule, i), t)
    ensures n > i && |ThreadAt(m, behaviour, schedule, t, n).stack| == 0
  {
    FairThreadFinishes(m, behaviour, schedule, t);
    hide Sound, At, Ends, Fair;
    n :| !Active(At(m, behaviour, schedule, n), t);
    assert n > i by {
      if n <= i {
        StaysFinished(m, behaviour, schedule, t, n, i);
      }
    }
  }

  /** At time `k` the body that ran at time `i` has just finished with `result`, and its caller
      has got that as its last reply. */
  ghost predicate ReturnsAt(m: Machine, behaviour: Behaviour, schedule: Schedule, t: nat, i: nat, k: nat,
                            result: HandlerResult)
    requires Formed(m)
  {
    && k > i
    && Returned(ThreadAt(m, behaviour, schedule, t, i), ThreadAt(m, behaviour, schedule, t, k), result)
    && var body, last := ThreadAt(m, behaviour, schedule, t, i), ThreadAt(m, behaviour, schedule, t, k - 1);
       && |last.stack| == |body.stack| && SameBody(Top(body), Top(last))
       && ActionOf(behaviour, Top(last)) == Finish(result)
  }

  /** The body has returned once its thread is lower than it was. */
  lemma {:induction false} ReturnsBy(m: Machine, behaviour: Behaviour, schedule: Schedule, t: nat, i: nat,
                                     now: nat, n: nat)
    returns (k: nat, result: HandlerResult)
    requires Formed(m) && Sound(m, behaviour) && i <= now <= n
    requires |ThreadAt(m, behaviour, schedule, t, n).stack| < |ThreadAt(m, behaviour, schedule, t, i).stack|
    requires StillAbove(ThreadAt(m, behaviour, schedule, t, i), ThreadAt(m, behaviour, schedule, t, now))
    ensures ReturnsAt(m, behaviour, schedule, t, i, k, result) && k <= n
    decreases n - now
  {
    hide Sound, ThreadAt, Returned, Finished;
    TickAbove(m, behaviour, schedule, t, i, now);
    var body, running := ThreadAt(m, behaviour, schedule, t, i), ThreadAt(m, behaviour, schedule, t, now);
    if |ThreadAt(m, behaviour, schedule, t, now + 1).stack| < |body.stack| {
      k, result := now + 1, ActionOf(behaviour, Top(running)).result;
    } else {
      k, result := ReturnsBy(m, behaviour, schedule, t, i, now + 1, n);
    }
  }

  /** The same body, possibly some replies later. */
  predicate SameBody(before: Activation, now: Activation) {
    now.target == before.target && now.serial == before.serial && before.replies <= now.replies
  }

  /** The body that was running then is still there, and nothing below it has moved. */
  predicate StillAbove(before: Thread, now: Thread) {
    var d := |before.stack|;
    && 0 < d <= |now.stack|
    && (forall j :: 0 <= j < d - 1 ==> now.stack[j] == before.stack[j])
    && SameBody(before.stack[d - 1], now.stack[d - 1])
  }

  /** The body that was running then finishes now. */
  predicate FinishesNow(before: Thread, now: Thread, soon: Thread, behaviour: Behaviour) {
    && |now.stack| == |before.stack| > 0 && SameBody(Top(before), Top(now))
    && ActionOf(behaviour, Top(now)).Finish?
    && Returned(before, soon, ActionOf(behaviour, Top(now)).result)
  }

  lemma TickAbove(m: Machine, behaviour: Behaviour, schedule: Schedule, t: nat, i: nat, k: nat)
    requires Formed(m) && Sound(m, behaviour)
    requires StillAbove(ThreadAt(m, behaviour, schedule, t, i), ThreadAt(m, behaviour, schedule, t, k))
    ensures var before, soon := ThreadAt(m, behaviour, schedule, t, i), ThreadAt(m, behaviour, schedule, t, k + 1);
            if |soon.stack| >= |before.stack| then StillAbove(before, soon)
            else FinishesNow(before, ThreadAt(m, behaviour, schedule, t, k), soon, behaviour)
  {
    AtIsSound(m, behaviour, schedule, k);
    AtIsSound(m, behaviour, schedule, k + 1);
    var now, u := At(m, behaviour, schedule, k), schedule(k);
    if Active(now, u) {
      StepCases(now, behaviour, u);
      hide Step, At, StillAbove, FinishesNow, Finished, DrewHandle, GotAnswer, EnteredBody;
      if t == u {
        CaseAbove(ThreadAt(m, behaviour, schedule, t, i), now.threads[t], Step(now, behaviour, u).threads[t],
                  behaviour, now.activations);
      }
    } else {
      IdleStep(now, behaviour, u);
      hide Step;
    }
  }

  lemma CaseAbove(before: Thread, now: Thread, soon: Thread, behaviour: Behaviour, serial: nat)
    requires StillAbove(before, now)
    requires || Finished(now, soon, behaviour) || DrewHandle(now, soon, behaviour)
             || GotAnswer(now, soon, behaviour) || EnteredBody(now, soon, behaviour, serial)
    ensures if |soon.stack| >= |before.stack| then StillAbove(before, soon)
            else FinishesNow(before, now, soon, behaviour)
  {
    hide ActionOf;
    if EnteredBody(now, soon, behaviour, serial) {
      assert forall j :: 0 <= j < |now.stack| ==> soon.stack[j] == soon.stack[..|now.stack|][j];
    }
  }

  /** At time `i` thread `t` is about to make a call. */
  predicate CallsAt(m: Machine, behaviour: Behaviour, schedule: Schedule, t: nat, i: nat)
    requires Formed(m)
  {
    var now := At(m, behaviour, schedule, i);
    schedule(i) == t && Active(now, t) && now.threads[t].mode.Running? && Calls(NextAction(now, behaviour, t))
  }

  /** The caller runs on with `result` as its one new reply: what the call answers at once, or what
      the body that it entered has just finished with. */
  predicate FitsReach(caller: Thread, reach: Reach, serial: nat, atOnce: bool, last: Thread, after: Thread,
                      behaviour: Behaviour, result: HandlerResult)
  {
    && AnsweredWith(caller, after, result)
    && match reach
       case Answers(answer) => atOnce && result == answer
       case Enters(target) =>
         && |last.stack| == |caller.stack| + 1
         && Top(last).target == target && Top(last).serial == serial
         && ActionOf(behaviour, Top(last)) == Finish(result)
  }

  /** What the call of thread `t` at time `i` leads to. */
  function ReachAt(m: Machine, behaviour: Behaviour, schedule: Schedule, t: nat, i: nat): Reach
    requires Formed(m) && CallsAt(m, behaviour, schedule, t, i)
  {
    var now := At(m, behaviour, schedule, i);
    CallReach(now, NextAction(now, behaviour, t))
  }

  /** At time `k` the call of time `i` has just been answered. */
  predicate AnsweredAt(m: Machine, behaviour: Behaviour, schedule: Schedule, t: nat, i: nat, k: nat,
                       result: HandlerResult)
    requires Formed(m) && CallsAt(m, behaviour, schedule, t, i)
  {
    && k > i
    && FitsReach(ThreadAt(m, behaviour, schedule, t, i), ReachAt(m, behaviour, schedule, t, i),
                 At(m, behaviour, schedule, i).activations, k == i + 1,
                 ThreadAt(m, behaviour, schedule, t, k - 1), ThreadAt(m, behaviour, schedule, t, k), behaviour, result)
  }

  /** In every run, terminating or not, fair or not: once a thread is no higher than it was when it
      made a call, that call has been answered, and exactly so. */
  lemma CallIsAnswered(m: Machine, behaviour: Behaviour, schedule: Schedule, t: nat, i: nat, n: nat)
    returns (k: nat, result: HandlerResult)
    requires Formed(m) && Sound(m, behaviour) && CallsAt(m, behaviour, schedule, t, i) && i < n
    requires |ThreadAt(m, behaviour, schedule, t, n).stack| <= |ThreadAt(m, behaviour, schedule, t, i).stack|
    ensures AnsweredAt(m, behaviour, schedule, t, i, k, result) && k <= n
  {
    hide Formed, Sound, At, ThreadAt, CallsAt, ReachAt, AnsweredWith;
    CallTick(m, behaviour, schedule, t, i);
    match ReachAt(m, behaviour, schedule, t, i) {
      case Answers(answer) => k, result := i + 1, answer;
      case Enters(target) =>
        k, result := EnteredIsAnswered(m, behaviour, schedule, t, i + 1, n, ThreadAt(m, behaviour, schedule, t, i),
                                       target, At(m, behaviour, schedule, i).activations);
    }
  }

  lemma CallTick(m: Machine, behaviour: Behaviour, schedule: Schedule, t: nat, i: nat)
    requires Formed(m) && Sound(m, behaviour) && CallsAt(m, behaviour, schedule, t, i)
    ensures var caller, soon := ThreadAt(m, behaviour, schedule, t, i), ThreadAt(m, behaviour, schedule, t, i + 1);
            && |caller.stack| > 0
            && match ReachAt(m, behaviour, schedule, t, i)
               case Answers(answer) => AnsweredWith(caller, soon, answer)
               case Enters(target) =>
                 soon.stack == caller.stack + [Activation(target, At(m, behaviour, schedule, i).activations, [])]
  {
    AtIsSound(m, behaviour, schedule, i);
    CallStep(At(m, behaviour, schedule, i), behaviour, t);
    hide Sound, Step, CallReach, AnsweredWith;
  }

  /** The body entered at time `i` returns by time `n`, and its caller gets what it finishes with. */
  lemma EnteredIsAnswered(m: Machine, behaviour: Behaviour, schedule: Schedule, t: nat, i: nat, n: nat,
                          caller: Thread, target: nat, serial: nat)
    returns (k: nat, result: HandlerResult)
    requires Formed(m) && Sound(m, behaviour) && i <= n && |caller.stack| > 0
    requires ThreadAt(m, behaviour, schedule, t, i).stack == caller.stack + [Activation(target, serial, [])]
    requires |ThreadAt(m, behaviour, schedule, t, n).stack| <= |caller.stack|
    ensures i < k <= n && AnsweredWith(caller, ThreadAt(m, behaviour, schedule, t, k), result)
    ensures var last := ThreadAt(m, behaviour, schedule, t, k - 1);
            && |last.stack| == |caller.stack| + 1
            && Top(last).target == target && Top(last).serial == serial
            && ActionOf(behaviour, Top(last)) == Finish(result)
  {
    hide Sound, ThreadAt, AnsweredWith, Returned;
    var entered := ThreadAt(m, behaviour, schedule, t, i);
    k, result := ReturnsBy(m, behaviour, schedule, t, i, i, n);
    EnteredReturns(caller, entered, ThreadAt(m, behaviour, schedule, t, k), target, serial, result);
  }

  lemma EnteredReturns(before: Thread, entered: Thread, after: Thread, target: nat, serial: nat, result: HandlerResult)
    requires |before.stack| > 0 && entered.stack == before.stack + [Activation(target, serial, [])]
    requires Returned(entered, after, result)
    ensures AnsweredWith(before, after, result)
  {
  }

  /** In a run that ends, every call on a thread that is always scheduled again is answered. */
  lemma EveryCallIsAnswered(m: Machine, behaviour: Behaviour, schedule: Schedule, t: nat, i: nat)
    returns (k: nat, result: HandlerResult)
    requires Formed(m) && Sound(m, behaviour) && Ends(m, behaviour, schedule) && Fair(schedule, t)
    requires CallsAt(m, behaviour, schedule, t, i)
    ensures AnsweredAt(m, behaviour, schedule, t, i, k, result)
  {
    hide Sound, Ends, Fair, AnsweredAt;
    var n := IdleLater(m, behaviour, schedule, t, i);
    k, result := CallIsAnswered(m, behaviour, schedule, t, i, n);
  }
}
