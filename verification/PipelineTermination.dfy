/** When runs end: over every schedule of every number of threads, exactly when Handle is called
    only finitely often. */
module PipelineTermination {
  import opened Middleware
  import opened PipelineRuns
  import opened PipelineSteps

  /** A rank for every body at every point of its life. */
  datatype Rank = Rank(of: (nat, nat, seq<Reply>) -> ORDINAL)

  /** The rank falls with every reply: each body, on its own, returns after finitely many actions,
      whatever it is answered. */
  ghost predicate BodiesTerminate(behaviour: Behaviour, rank: Rank) {
    forall target: nat, serial: nat, replies: seq<Reply>, reply: Reply ::
      !behaviour(target, serial, replies).Finish? ==>
        rank.of(target, serial, replies + [reply]) < rank.of(target, serial, replies)
  }


  // ---------------------------------------------------------------- endless schedules

  /** Which thread moves at each point of time. */
  type Schedule = nat -> nat

  function At(m: Machine, behaviour: Behaviour, schedule: Schedule, n: nat): (r: Machine)
    requires Formed(m)
    ensures Formed(r)
  {
    if n == 0 then m else Step(At(m, behaviour, schedule, n - 1), behaviour, schedule(n - 1))
  }

  /** From time `n` on nobody has anything left to do. */
  ghost predicate QuietFrom(m: Machine, behaviour: Behaviour, schedule: Schedule, n: nat)
    requires Formed(m)
  {
    forall i: nat :: i >= n ==> !Active(At(m, behaviour, schedule, i), schedule(i))
  }

  /** At most `bound` calls of Handle, ever. */
  ghost predicate HandlesUpTo(m: Machine, behaviour: Behaviour, schedule: Schedule, bound: nat)
    requires Formed(m)
  {
    forall i: nat :: |At(m, behaviour, schedule, i).invocations| <= bound
  }

  ghost predicate Ends(m: Machine, behaviour: Behaviour, schedule: Schedule)
    requires Formed(m)
  {
    exists n: nat :: QuietFrom(m, behaviour, schedule, n)
  }

  ghost predicate HandlesBounded(m: Machine, behaviour: Behaviour, schedule: Schedule)
    requires Formed(m)
  {
    exists bound: nat :: HandlesUpTo(m, behaviour, schedule, bound)
  }

  ghost predicate NoHandleFrom(m: Machine, behaviour: Behaviour, schedule: Schedule, n: nat)
    requires Formed(m)
  {
    forall i: nat :: i >= n ==> !AboutToHandle(At(m, behaviour, schedule, i), behaviour, schedule(i))
  }

  ghost predicate NoEntryFrom(m: Machine, behaviour: Behaviour, schedule: Schedule, n: nat)
    requires Formed(m)
  {
    forall i: nat :: i >= n ==>
      At(m, behaviour, schedule, i + 1).activations == At(m, behaviour, schedule, i).activations
  }

  /** A thread over time; threads never come or go. */
  function ThreadAt(m: Machine, behaviour: Behaviour, schedule: Schedule, u: nat, i: nat): Thread
    requires Formed(m)
  {
    var now := At(m, behaviour, schedule, i);
    if u < |now.threads| then now.threads[u] else Thread([], Running)
  }

  lemma {:induction false} AtIsSound(m: Machine, behaviour: Behaviour, schedule: Schedule, n: nat)
    requires Formed(m) && Sound(m, behaviour)
    ensures var now := At(m, behaviour, schedule, n);
            Sound(now, behaviour) && |now.threads| == |m.threads|
  {
    hide Sound, Step;
    if n > 0 {
      AtIsSound(m, behaviour, schedule, n - 1);
      var before := At(m, behaviour, schedule, n - 1);
      StepKeepsSound(before, behaviour, schedule(n - 1));
      StepKeepsThreads(before, behaviour, schedule(n - 1));
    }
  }

  lemma StepKeepsThreads(m: Machine, behaviour: Behaviour, t: nat)
    requires Formed(m) && Sound(m, behaviour)
    ensures |Step(m, behaviour, t).threads| == |m.threads|
    ensures m.activations <= Step(m, behaviour, t).activations
  {
    if Active(m, t) {
      StepCases(m, behaviour, t);
      hide Step;
    }
  }

  lemma IdleStep(m: Machine, behaviour: Behaviour, t: nat)
    requires Formed(m) && !Active(m, t)
    ensures Step(m, behaviour, t) == m
  {
  }

  // ---------------------------------------------------------------- measures that run out

  datatype Measure = Measure(level: nat, rank: ORDINAL, phase: nat)

  ghost predicate Below(a: Measure, b: Measure) {
    || a.level < b.level
    || (a.level == b.level && a.rank < b.rank)
    || (a.level == b.level && a.rank == b.rank && a.phase < b.phase)
  }

  ghost predicate AtMost(a: Measure, b: Measure) {
    a == b || Below(a, b)
  }

  /** From `from` on the measure never rises, and it falls whenever something of a kind happens. */
  ghost predicate Spends(measure: nat -> Measure, happens: nat -> bool, from: nat) {
    forall i: nat :: i >= from ==>
      AtMost(measure(i + 1), measure(i)) && (happens(i) ==> Below(measure(i + 1), measure(i)))
  }

  lemma {:induction false} NeverRises(measure: nat -> Measure, happens: nat -> bool, from: nat, j: nat)
    requires Spends(measure, happens, from) && from <= j
    ensures AtMost(measure(j), measure(from))
    decreases j
  {
    if from < j {
      NeverRises(measure, happens, from, j - 1);
      assert AtMost(measure(j - 1 + 1), measure(j - 1));
    }
  }

  /** Then it happens only finitely often. */
  lemma {:induction false} Exhausted(measure: nat -> Measure, happens: nat -> bool, from: nat) returns (n: nat)
    requires Spends(measure, happens, from)
    ensures n >= from && forall i: nat :: i >= n ==> !happens(i)
    decreases measure(from).level, measure(from).rank, measure(from).phase
  {
    n := from;
    if j: nat :| j >= from && happens(j) {
      NeverRises(measure, happens, from, j);
      assert Below(measure(j + 1), measure(j));
      n := Exhausted(measure, happens, j + 1);
    }
  }

  // ---------------------------------------------------------------- no more Handle, no more entries

  function BudgetAt(m: Machine, behaviour: Behaviour, schedule: Schedule, i: nat): nat
    requires Formed(m)
  {
    TotalBudget(At(m, behaviour, schedule, i))
  }

  predicate EntersAt(m: Machine, behaviour: Behaviour, schedule: Schedule, i: nat)
    requires Formed(m)
  {
    At(m, behaviour, schedule, i + 1).activations != At(m, behaviour, schedule, i).activations
  }

  lemma TickSpends(m: Machine, behaviour: Behaviour, schedule: Schedule, from: nat, i: nat)
    requires Formed(m) && Sound(m, behaviour) && NoHandleFrom(m, behaviour, schedule, from) && i >= from
    ensures BudgetAt(m, behaviour, schedule, i + 1) <= BudgetAt(m, behaviour, schedule, i)
    ensures EntersAt(m, behaviour, schedule, i) ==>
            BudgetAt(m, behaviour, schedule, i + 1) < BudgetAt(m, behaviour, schedule, i)
  {
    hide Sound, Step, TotalBudget, AboutToHandle;
    AtIsSound(m, behaviour, schedule, i);
    StepSpends(At(m, behaviour, schedule, i), behaviour, schedule(i));
    StepKeepsThreads(At(m, behaviour, schedule, i), behaviour, schedule(i));
  }

  /** Once Handle is called no more, the continuations run out, and bodies are entered no more. */
  lemma EntriesStop(m: Machine, behaviour: Behaviour, schedule: Schedule, from: nat) returns (n: nat)
    requires Formed(m) && Sound(m, behaviour) && NoHandleFrom(m, behaviour, schedule, from)
    ensures n >= from && NoEntryFrom(m, behaviour, schedule, n)
  {
    hide Sound, NoHandleFrom, BudgetAt;
    var measure := (i: nat) => Measure(BudgetAt(m, behaviour, schedule, i), 0, 0);
    var happens := (i: nat) => EntersAt(m, behaviour, schedule, i);
    forall i: nat | i >= from
      ensures AtMost(measure(i + 1), measure(i)) && (happens(i) ==> Below(measure(i + 1), measure(i)))
    {
      TickSpends(m, behaviour, schedule, from, i);
    }
    n := Exhausted(measure, happens, from);
    forall i: nat | i >= n
      ensures At(m, behaviour, schedule, i + 1).activations == At(m, behaviour, schedule, i).activations
    {
      assert !happens(i);
    }
  }

  // ---------------------------------------------------------------- no more entries, no more steps

  /** The height of a stack, the rank of its running body, and whether it waits for the lock. */
  ghost function TopMeasure(thread: Thread, rank: Rank): Measure {
    if |thread.stack| == 0 then Measure(0, 0, 0)
    else
      var top := Top(thread);
      Measure(|thread.stack|, rank.of(top.target, top.serial, top.replies), if thread.mode.Running? then 1 else 0)
  }

  lemma StepDescends(m: Machine, behaviour: Behaviour, t: nat, u: nat, rank: Rank)
    requires Formed(m) && Sound(m, behaviour) && BodiesTerminate(behaviour, rank)
    requires u < |m.threads| == |Step(m, behaviour, t).threads|
    requires Step(m, behaviour, t).activations == m.activations
    ensures AtMost(TopMeasure(Step(m, behaviour, t).threads[u], rank), TopMeasure(m.threads[u], rank))
    ensures t == u && Active(m, t) ==>
              Below(TopMeasure(Step(m, behaviour, t).threads[u], rank), TopMeasure(m.threads[u], rank))
  {
    if Active(m, t) {
      StepCases(m, behaviour, t);
      hide Step;
      if t == u && GotAnswer(m.threads[t], Step(m, behaviour, t).threads[t], behaviour) {
        AnswerLowersRank(m.threads[t], Step(m, behaviour, t).threads[t], behaviour, rank);
      }
    }
  }

  lemma AnswerLowersRank(before: Thread, after: Thread, behaviour: Behaviour, rank: Rank)
    requires BodiesTerminate(behaviour, rank) && GotAnswer(before, after, behaviour)
    ensures |after.stack| == |before.stack| && after.mode.Running?
    ensures Below(TopMeasure(after, rank), TopMeasure(before, rank))
  {
    var reply :| after == Answered(before, reply);
    var top := Top(before);
    assert Top(after) == top.(replies := top.replies + [reply]);
  }

  /** Once no body is entered any more, one thread has finitely many steps left. */
  lemma ThreadStops(m: Machine, behaviour: Behaviour, schedule: Schedule, rank: Rank, u: nat, from: nat)
    returns (n: nat)
    requires Formed(m) && Sound(m, behaviour) && BodiesTerminate(behaviour, rank)
    requires u < |m.threads| && NoEntryFrom(m, behaviour, schedule, from)
    ensures n >= from
    ensures forall i: nat :: i >= n ==> !(schedule(i) == u && Active(At(m, behaviour, schedule, i), u))
  {
    hide Sound, Step, Active, TopMeasure, BodiesTerminate;
    var measure := (i: nat) => TopMeasure(ThreadAt(m, behaviour, schedule, u, i), rank);
    var happens := (i: nat) => schedule(i) == u && Active(At(m, behaviour, schedule, i), u);
    forall i: nat | i >= from
      ensures AtMost(measure(i + 1), measure(i)) && (happens(i) ==> Below(measure(i + 1), measure(i)))
    {
      AtIsSound(m, behaviour, schedule, i);
      AtIsSound(m, behaviour, schedule, i + 1);
      StepDescends(At(m, behaviour, schedule, i), behaviour, schedule(i), u, rank);
    }
    n := Exhausted(measure, happens, from);
    forall i: nat | i >= n ensures !(schedule(i) == u && Active(At(m, behaviour, schedule, i), u)) {
      assert !happens(i);
    }
  }

  lemma {:induction false} ThreadsStop(m: Machine, behaviour: Behaviour, schedule: Schedule, rank: Rank,
                                       count: nat, from: nat)
    returns (n: nat)
    requires Formed(m) && Sound(m, behaviour) && BodiesTerminate(behaviour, rank)
    requires count <= |m.threads| && NoEntryFrom(m, behaviour, schedule, from)
    ensures n >= from
    ensures forall i: nat :: i >= n && schedule(i) < count ==> !Active(At(m, behaviour, schedule, i), schedule(i))
    decreases count
  {
    hide Sound, Step, Active, BodiesTerminate, NoEntryFrom;
    n := from;
    if count > 0 {
      var others := ThreadsStop(m, behaviour, schedule, rank, count - 1, from);
      var last := ThreadStops(m, behaviour, schedule, rank, count - 1, from);
      n := if others < last then last else others;
    }
  }

  lemma StepsStop(m: Machine, behaviour: Behaviour, schedule: Schedule, rank: Rank, from: nat) returns (n: nat)
    requires Formed(m) && Sound(m, behaviour) && BodiesTerminate(behaviour, rank)
    requires NoEntryFrom(m, behaviour, schedule, from)
    ensures QuietFrom(m, behaviour, schedule, n)
  {
    hide Sound, Step, BodiesTerminate, NoEntryFrom;
    n := ThreadsStop(m, behaviour, schedule, rank, |m.threads|, from);
    forall i: nat | i >= n ensures !Active(At(m, behaviour, schedule, i), schedule(i)) {
      AtIsSound(m, behaviour, schedule, i);
    }
  }

  // ---------------------------------------------------------------- finitely many Handles

  /** A bounded number of Handle calls is a last one. */
  lemma HandlesRunOut(m: Machine, behaviour: Behaviour, schedule: Schedule, bound: nat) returns (n: nat)
    requires Formed(m) && HandlesUpTo(m, behaviour, schedule, bound)
    ensures NoHandleFrom(m, behaviour, schedule, n)
  {
    hide Step, AboutToHandle;
    var measure := (i: nat) => Measure(bound - |At(m, behaviour, schedule, i).invocations|, 0, 0);
    var happens := (i: nat) => AboutToHandle(At(m, behaviour, schedule, i), behaviour, schedule(i));
    forall i: nat
      ensures AtMost(measure(i + 1), measure(i)) && (happens(i) ==> Below(measure(i + 1), measure(i)))
    {
      StepExtendsInvocations(At(m, behaviour, schedule, i), behaviour, schedule(i));
    }
    n := Exhausted(measure, happens, 0);
    forall i: nat | i >= n ensures !AboutToHandle(At(m, behaviour, schedule, i), behaviour, schedule(i)) {
      assert !happens(i);
    }
  }

  lemma {:induction false} QuietStandsStill(m: Machine, behaviour: Behaviour, schedule: Schedule, n: nat, i: nat)
    requires Formed(m) && QuietFrom(m, behaviour, schedule, n) && n <= i
    ensures At(m, behaviour, schedule, i) == At(m, behaviour, schedule, n)
    decreases i
  {
    hide Step, Active;
    if n < i {
      QuietStandsStill(m, behaviour, schedule, n, i - 1);
      IdleStep(At(m, behaviour, schedule, i - 1), behaviour, schedule(i - 1));
    }
  }

  lemma {:induction false} InvocationsGrow(m: Machine, behaviour: Behaviour, schedule: Schedule, i: nat, n: nat)
    requires Formed(m) && i <= n
    ensures |At(m, behaviour, schedule, i).invocations| <= |At(m, behaviour, schedule, n).invocations|
    decreases n
  {
    hide Step, AboutToHandle;
    if i < n {
      InvocationsGrow(m, behaviour, schedule, i, n - 1);
      StepExtendsInvocations(At(m, behaviour, schedule, n - 1), behaviour, schedule(n - 1));
    }
  }

  /** If every body on its own returns, a run ends exactly when Handle is called a bounded number
      of times in it: continuations cannot keep a run going. For any number of threads, any
      schedule, fair or not, and any point of any run to start from. */
  lemma RunEndsExactly(clients: seq<nat>, behaviour: Behaviour, past: seq<nat>, schedule: Schedule, rank: Rank)
    requires BodiesTerminate(behaviour, rank)
    ensures var m := Run(Start(clients), behaviour, past);
            Ends(m, behaviour, schedule) <==> HandlesBounded(m, behaviour, schedule)
  {
    RunIsSound(clients, behaviour, past);
    var m := Run(Start(clients), behaviour, past);
    hide Run, Sound, BodiesTerminate, QuietFrom, HandlesUpTo, NoHandleFrom, NoEntryFrom;
    if n: nat :| QuietFrom(m, behaviour, schedule, n) {
      QuietBounds(m, behaviour, schedule, n);
    }
    if bound: nat :| HandlesUpTo(m, behaviour, schedule, bound) {
      var handles := HandlesRunOut(m, behaviour, schedule, bound);
      var entries := EntriesStop(m, behaviour, schedule, handles);
      var n := StepsStop(m, behaviour, schedule, rank, entries);
    }
  }

  lemma QuietBounds(m: Machine, behaviour: Behaviour, schedule: Schedule, n: nat)
    requires Formed(m) && QuietFrom(m, behaviour, schedule, n)
    ensures HandlesUpTo(m, behaviour, schedule, |At(m, behaviour, schedule, n).invocations|)
  {
    forall i: nat ensures |At(m, behaviour, schedule, i).invocations| <= |At(m, behaviour, schedule, n).invocations| {
      if i <= n {
        InvocationsGrow(m, behaviour, schedule, i, n);
      } else {
        QuietStandsStill(m, behaviour, schedule, n, i);
      }
    }
  }

  // ---------------------------------------------------------------- fair schedules finish their threads

  ghost predicate ComesAgain(schedule: Schedule, t: nat, n: nat) {
    exists k: nat :: k >= n && schedule(k) == t
  }

  ghost predicate Fair(schedule: Schedule, t: nat) {
    forall n: nat :: ComesAgain(schedule, t, n)
  }

  ghost predicate Finishes(m: Machine, behaviour: Behaviour, schedule: Schedule, t: nat)
    requires Formed(m)
  {
    exists n: nat :: !Active(At(m, behaviour, schedule, n), t)
  }

  /** In a run that ends, a thread that is always scheduled again finishes. */
  lemma FairThreadFinishes(m: Machine, behaviour: Behaviour, schedule: Schedule, t: nat)
    requires Formed(m) && Ends(m, behaviour, schedule) && Fair(schedule, t)
    ensures Finishes(m, behaviour, schedule, t)
  {
    var n: nat :| QuietFrom(m, behaviour, schedule, n);
    assert ComesAgain(schedule, t, n);
    var k: nat :| k >= n && schedule(k) == t;
    assert !Active(At(m, behaviour, schedule, k), t);
  }

  /** An idle thread stays idle. */
  lemma {:induction false} StaysFinished(m: Machine, behaviour: Behaviour, schedule: Schedule, t: nat, n: nat, i: nat)
    requires Formed(m) && Sound(m, behaviour) && n <= i && !Active(At(m, behaviour, schedule, n), t)
    ensures !Active(At(m, behaviour, schedule, i), t)
    decreases i
  {
    hide Sound, Step;
    if n < i {
      StaysFinished(m, behaviour, schedule, t, n, i - 1);
      AtIsSound(m, behaviour, schedule, i - 1);
      IdleStays(At(m, behaviour, schedule, i - 1), behaviour, schedule(i - 1), t);
    }
  }

  lemma IdleStays(m: Machine, behaviour: Behaviour, t: nat, u: nat)
    requires Formed(m) && Sound(m, behaviour) && !Active(m, u)
    ensures !Active(Step(m, behaviour, t), u)
  {
    if Active(m, t) {
      StepCases(m, behaviour, t);
      hide Step;
    } else {
      IdleStep(m, behaviour, t);
    }
  }

  lemma {:induction false} FinishedTogether(m: Machine, behaviour: Behaviour, schedule: Schedule, count: nat)
    returns (n: nat)
    requires Formed(m) && Sound(m, behaviour)
    requires forall t: nat :: t < count ==> Finishes(m, behaviour, schedule, t)
    ensures forall i: nat, t: nat :: i >= n && t < count ==> !Active(At(m, behaviour, schedule, i), t)
    decreases count
  {
    hide Sound, At, Active;
    n := 0;
    if count > 0 {
      var others := FinishedTogether(m, behaviour, schedule, count - 1);
      assert Finishes(m, behaviour, schedule, count - 1);
      var last: nat :| !Active(At(m, behaviour, schedule, last), count - 1);
      n := if others < last then last else others;
      forall i: nat, t: nat | i >= n && t < count ensures !Active(At(m, behaviour, schedule, i), t) {
        if t == count - 1 {
          StaysFinished(m, behaviour, schedule, t, last, i);
        }
      }
    }
  }

  /** If all threads finish, the run ends. */
  lemma AllFinishedEnds(m: Machine, behaviour: Behaviour, schedule: Schedule)
    requires Formed(m) && Sound(m, behaviour)
    requires forall t: nat :: t < |m.threads| ==> Finishes(m, behaviour, schedule, t)
    ensures Ends(m, behaviour, schedule)
  {
    hide Sound, At, Finishes;
    var n := FinishedTogether(m, behaviour, schedule, |m.threads|);
    forall i: nat | i >= n ensures !Active(At(m, behaviour, schedule, i), schedule(i)) {
      AtIsSound(m, behaviour, schedule, i);
    }
    assert QuietFrom(m, behaviour, schedule, n);
  }

  /** Each client has one thread, at every point of every run. */
  lemma {:induction false} RunKeepsThreads(clients: seq<nat>, behaviour: Behaviour, past: seq<nat>)
    ensures |Run(Start(clients), behaviour, past).threads| == |clients|
  {
    if |past| > 0 {
      var shorter := past[..|past| - 1];
      RunKeepsThreads(clients, behaviour, shorter);
      RunIsSound(clients, behaviour, shorter);
      hide Sound, Step, Start;
      StepKeepsThreads(Run(Start(clients), behaviour, shorter), behaviour, past[|past| - 1]);
    }
  }

  /** Under a schedule that is fair to the threads there are, all of them finish exactly when
      Handle is called a bounded number of times. */
  lemma FairRunFinishesExactly(clients: seq<nat>, behaviour: Behaviour, past: seq<nat>, schedule: Schedule, rank: Rank)
    requires BodiesTerminate(behaviour, rank)
    requires forall t: nat :: t < |clients| ==> Fair(schedule, t)
    ensures var m := Run(Start(clients), behaviour, past);
            (forall t: nat :: t < |clients| ==> Finishes(m, behaviour, schedule, t)) <==>
            HandlesBounded(m, behaviour, schedule)
  {
    RunEndsExactly(clients, behaviour, past, schedule, rank);
    RunIsSound(clients, behaviour, past);
    RunKeepsThreads(clients, behaviour, past);
    var m := Run(Start(clients), behaviour, past);
    hide Run, Sound, HandlesBounded, BodiesTerminate, Ends, Finishes, Fair;
    if Ends(m, behaviour, schedule) {
      forall t: nat | t < |clients| ensures Finishes(m, behaviour, schedule, t) {
        FairThreadFinishes(m, behaviour, schedule, t);
      }
    }
    if forall t: nat :: t < |clients| ==> Finishes(m, behaviour, schedule, t) {
      AllFinishedEnds(m, behaviour, schedule);
    }
  }

  /** Round robin is such a schedule. */
  function RoundRobin(threads: nat): Schedule
    requires threads > 0
  {
    (i: nat) => Turn(threads, i)
  }

  function Turn(threads: nat, i: nat): (t: nat)
    requires threads > 0
    ensures t < threads
  {
    if i == 0 || Turn(threads, i - 1) + 1 == threads then 0 else Turn(threads, i - 1) + 1
  }

  lemma {:induction false} TurnsPass(threads: nat, i: nat, d: nat)
    requires threads > 0 && Turn(threads, i) + d < threads
    ensures Turn(threads, i + d) == Turn(threads, i) + d
  {
    if d > 0 {
      TurnsPass(threads, i, d - 1);
    }
  }

  lemma RoundRobinIsFair(threads: nat, t: nat)
    requires t < threads
    ensures Fair(RoundRobin(threads), t)
  {
    forall n: nat ensures ComesAgain(RoundRobin(threads), t, n) {
      var now := Turn(threads, n);
      var k := n;
      if now <= t {
        TurnsPass(threads, n, t - now);
        k := n + (t - now);
      } else {
        TurnsPass(threads, n, threads - 1 - now);
        var wrapped := n + (threads - now);
        assert Turn(threads, wrapped) == 0;
        TurnsPass(threads, wrapped, t);
        k := wrapped + t;
      }
      assert RoundRobin(threads)(k) == t;
    }
  }

  /** A thread left alone from any point of any run finishes exactly when it calls Handle a
      bounded number of times. */
  lemma LoneThreadFinishesExactly(clients: seq<nat>, behaviour: Behaviour, past: seq<nat>, t: nat, rank: Rank)
    requires BodiesTerminate(behaviour, rank)
    ensures var m, alone := Run(Start(clients), behaviour, past), Alone(t);
            Finishes(m, behaviour, alone, t) <==> HandlesBounded(m, behaviour, alone)
  {
    var m, alone := Run(Start(clients), behaviour, past), Alone(t);
    RunEndsExactly(clients, behaviour, past, alone, rank);
    RunIsSound(clients, behaviour, past);
    hide Run, Sound, HandlesBounded, BodiesTerminate, At;
    if Ends(m, behaviour, alone) {
      forall n: nat ensures ComesAgain(alone, t, n) {
        assert alone(n) == t;
      }
      FairThreadFinishes(m, behaviour, alone, t);
    }
    if n: nat :| !Active(At(m, behaviour, alone, n), t) {
      forall i: nat | i >= n ensures !Active(At(m, behaviour, alone, i), alone(i)) {
        StaysFinished(m, behaviour, alone, t, n, i);
      }
      assert QuietFrom(m, behaviour, alone, n);
    }
  }

  function Alone(t: nat): Schedule {
    (i: nat) => t
  }
}
