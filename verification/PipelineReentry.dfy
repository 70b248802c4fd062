/** Which bodies may call Handle: conditions on the bodies alone under which every run ends, and
    why some condition is needed. */
module PipelineReentry {
  import opened WebTypes
  import opened Middleware
  import opened PipelineRuns
  import opened PipelineSteps
  import opened PipelineTermination

  /** From the `limit`-th activation on nobody calls Handle. */
  ghost predicate HandleOnlyBefore(behaviour: Behaviour, limit: nat) {
    forall target: nat, serial: nat, replies: seq<Reply> ::
      serial >= limit ==> !behaviour(target, serial, replies).CallHandle?
  }

  // ---------------------------------------------------------------- finitely many callers of Handle

  /** The height of the highest body that may still call Handle. */
  function CallerHeight(stack: seq<Activation>, limit: nat): (h: nat)
    ensures h <= |stack|
    ensures h > 0 ==> stack[h - 1].serial < limit
    ensures forall i :: h <= i < |stack| ==> stack[i].serial >= limit
  {
    if |stack| == 0 then 0
    else if stack[|stack| - 1].serial < limit then |stack|
    else CallerHeight(stack[..|stack| - 1], limit)
  }

  /** That height, the rank of that body, and how soon it can act: it runs, it waits for the
      lock, or it waits for a body above it. */
  ghost function CallerMeasure(thread: Thread, limit: nat, rank: Rank): Measure {
    var h := CallerHeight(thread.stack, limit);
    if h == 0 then Measure(0, 0, 0)
    else
      var caller := thread.stack[h - 1];
      Measure(h, rank.of(caller.target, caller.serial, caller.replies),
              if |thread.stack| > h then 0 else if thread.mode.Running? then 2 else 1)
  }

  /** The highest of the bodies with small serials is determined by their serials. */
  lemma HeightIs(stack: seq<Activation>, limit: nat, h: nat)
    requires h <= |stack| && (h > 0 ==> stack[h - 1].serial < limit)
    requires forall i :: h <= i < |stack| ==> stack[i].serial >= limit
    ensures CallerHeight(stack, limit) == h
  {
  }

  lemma ReturnLowers(before: Thread, after: Thread, behaviour: Behaviour, limit: nat, rank: Rank)
    requires CallersWait(before, behaviour) && BodiesTerminate(behaviour, rank) && Finished(before, after, behaviour)
    ensures AtMost(CallerMeasure(after, limit, rank), CallerMeasure(before, limit, rank))
    ensures Top(before).serial < limit ==> Below(CallerMeasure(after, limit, rank), CallerMeasure(before, limit, rank))
  {
    hide BodiesTerminate, ActionOf;
    var d, h := |before.stack|, CallerHeight(before.stack, limit);
    if h < d {
      assert forall i :: 0 <= i < d - 1 ==> after.stack[i].serial == before.stack[i].serial;
      HeightIs(after.stack, limit, h);
      if h == d - 1 && h > 0 {
        ReplyLowers(before.stack[h - 1], after.stack[h - 1], behaviour, rank);
      }
    }
  }

  lemma AnswerLowers(before: Thread, after: Thread, behaviour: Behaviour, limit: nat, rank: Rank)
    requires BodiesTerminate(behaviour, rank) && GotAnswer(before, after, behaviour)
    ensures AtMost(CallerMeasure(after, limit, rank), CallerMeasure(before, limit, rank))
    ensures Top(before).serial < limit ==> Below(CallerMeasure(after, limit, rank), CallerMeasure(before, limit, rank))
  {
    hide BodiesTerminate, ActionOf;
    var d, h := |before.stack|, CallerHeight(before.stack, limit);
    assert forall i :: 0 <= i < d ==> after.stack[i].serial == before.stack[i].serial;
    HeightIs(after.stack, limit, h);
    if h == d {
      ReplyLowers(Top(before), Top(after), behaviour, rank);
    }
  }

  lemma EntryLowers(before: Thread, after: Thread, behaviour: Behaviour, serial: nat, limit: nat, rank: Rank)
    requires EnteredBody(before, after, behaviour, serial) && serial >= limit
    ensures AtMost(CallerMeasure(after, limit, rank), CallerMeasure(before, limit, rank))
    ensures Top(before).serial < limit ==> Below(CallerMeasure(after, limit, rank), CallerMeasure(before, limit, rank))
  {
    hide ActionOf;
    var d, h := |before.stack|, CallerHeight(before.stack, limit);
    assert forall i :: 0 <= i < d ==> after.stack[i] == after.stack[..d][i];
    HeightIs(after.stack, limit, h);
  }

  /** No kind of step raises a thread's measure while new activations are past the limit, and a
      running body that may call Handle lowers it with whatever it does. */
  lemma CaseLowers(before: Thread, after: Thread, behaviour: Behaviour, serial: nat, limit: nat, rank: Rank)
    requires ThreadSound(before, behaviour) && BodiesTerminate(behaviour, rank) && serial >= limit
    requires || Finished(before, after, behaviour) || DrewHandle(before, after, behaviour)
             || GotAnswer(before, after, behaviour) || EnteredBody(before, after, behaviour, serial)
    ensures AtMost(CallerMeasure(after, limit, rank), CallerMeasure(before, limit, rank))
    ensures |before.stack| > 0 && before.mode.Running? && Top(before).serial < limit ==>
              Below(CallerMeasure(after, limit, rank), CallerMeasure(before, limit, rank))
  {
    hide BodiesTerminate, Finished, GotAnswer, EnteredBody, ActionOf, Below;
    if Finished(before, after, behaviour) {
      ReturnLowers(before, after, behaviour, limit, rank);
    } else if GotAnswer(before, after, behaviour) {
      AnswerLowers(before, after, behaviour, limit, rank);
    } else if EnteredBody(before, after, behaviour, serial) {
      EntryLowers(before, after, behaviour, serial, limit, rank);
    } else {
      DrawLowers(before, after, behaviour, limit, rank);
    }
  }

  lemma DrawLowers(before: Thread, after: Thread, behaviour: Behaviour, limit: nat, rank: Rank)
    requires DrewHandle(before, after, behaviour)
    ensures AtMost(CallerMeasure(after, limit, rank), CallerMeasure(before, limit, rank))
    ensures Top(before).serial < limit ==> Below(CallerMeasure(after, limit, rank), CallerMeasure(before, limit, rank))
  {
  }

  lemma ReplyLowers(before: Activation, after: Activation, behaviour: Behaviour, rank: Rank)
    requires BodiesTerminate(behaviour, rank) && !ActionOf(behaviour, before).Finish?
    requires exists reply :: after == before.(replies := before.replies + [reply])
    ensures rank.of(after.target, after.serial, after.replies) < rank.of(before.target, before.serial, before.replies)
  {
  }

  lemma StepLowers(m: Machine, behaviour: Behaviour, t: nat, u: nat, limit: nat, rank: Rank)
    requires Formed(m) && Sound(m, behaviour) && BodiesTerminate(behaviour, rank) && HandleOnlyBefore(behaviour, limit)
    requires u < |m.threads| == |Step(m, behaviour, t).threads| && m.activations >= limit
    ensures var now := CallerMeasure(m.threads[u], limit, rank);
            var soon := CallerMeasure(Step(m, behaviour, t).threads[u], limit, rank);
            AtMost(soon, now) && (t == u && AboutToHandle(m, behaviour, t) ==> Below(soon, now))
  {
    if Active(m, t) {
      StepCases(m, behaviour, t);
      hide Step, CallerMeasure, BodiesTerminate;
      if t == u {
        CaseLowers(m.threads[u], Step(m, behaviour, t).threads[u], behaviour, m.activations, limit, rank);
      }
    }
  }

  ghost function CallerAt(m: Machine, behaviour: Behaviour, schedule: Schedule, rank: Rank, limit: nat, u: nat,
                          i: nat): Measure
    requires Formed(m)
  {
    CallerMeasure(ThreadAt(m, behaviour, schedule, u, i), limit, rank)
  }

  predicate HandlesAt(m: Machine, behaviour: Behaviour, schedule: Schedule, u: nat, i: nat)
    requires Formed(m)
  {
    schedule(i) == u && AboutToHandle(At(m, behaviour, schedule, i), behaviour, u)
  }

  lemma TickLowers(m: Machine, behaviour: Behaviour, schedule: Schedule, rank: Rank, limit: nat, u: nat, from: nat,
                   i: nat)
    requires Formed(m) && Sound(m, behaviour) && BodiesTerminate(behaviour, rank) && HandleOnlyBefore(behaviour, limit)
    requires u < |m.threads| && At(m, behaviour, schedule, from).activations >= limit && i >= from
    ensures var now := CallerAt(m, behaviour, schedule, rank, limit, u, i);
            var soon := CallerAt(m, behaviour, schedule, rank, limit, u, i + 1);
            AtMost(soon, now) && (HandlesAt(m, behaviour, schedule, u, i) ==> Below(soon, now))
  {
    hide Sound, Step, AboutToHandle, CallerMeasure, BodiesTerminate, HandleOnlyBefore;
    AtIsSound(m, behaviour, schedule, i);
    AtIsSound(m, behaviour, schedule, i + 1);
    ActivationsGrow(m, behaviour, schedule, from, i);
    StepLowers(At(m, behaviour, schedule, i), behaviour, schedule(i), u, limit, rank);
  }

  /** Once `limit` activations have started, one thread calls Handle finitely often. */
  lemma ThreadHandlesStop(m: Machine, behaviour: Behaviour, schedule: Schedule, rank: Rank, limit: nat, u: nat,
                          from: nat)
    returns (n: nat)
    requires Formed(m) && Sound(m, behaviour) && BodiesTerminate(behaviour, rank) && HandleOnlyBefore(behaviour, limit)
    requires u < |m.threads| && At(m, behaviour, schedule, from).activations >= limit
    ensures n >= from && forall i: nat :: i >= n ==> !HandlesAt(m, behaviour, schedule, u, i)
  {
    hide Sound, At, CallerAt, HandlesAt, BodiesTerminate, HandleOnlyBefore;
    var measure := (i: nat) => CallerAt(m, behaviour, schedule, rank, limit, u, i);
    var happens := (i: nat) => HandlesAt(m, behaviour, schedule, u, i);
    forall i: nat | i >= from
      ensures AtMost(measure(i + 1), measure(i)) && (happens(i) ==> Below(measure(i + 1), measure(i)))
    {
      TickLowers(m, behaviour, schedule, rank, limit, u, from, i);
    }
    n := Exhausted(measure, happens, from);
    forall i: nat | i >= n ensures !HandlesAt(m, behaviour, schedule, u, i) {
      assert !happens(i);
    }
  }

  lemma {:induction false} ActivationsGrow(m: Machine, behaviour: Behaviour, schedule: Schedule, i: nat, n: nat)
    requires Formed(m) && Sound(m, behaviour) && i <= n
    ensures At(m, behaviour, schedule, i).activations <= At(m, behaviour, schedule, n).activations
    decreases n
  {
    hide Sound, Step;
    if i < n {
      ActivationsGrow(m, behaviour, schedule, i, n - 1);
      AtIsSound(m, behaviour, schedule, n - 1);
      StepKeepsThreads(At(m, behaviour, schedule, n - 1), behaviour, schedule(n - 1));
    }
  }

  lemma {:induction false} ThreadsHandlesStop(m: Machine, behaviour: Behaviour, schedule: Schedule, rank: Rank,
                                              limit: nat, count: nat, from: nat)
    returns (n: nat)
    requires Formed(m) && Sound(m, behaviour) && BodiesTerminate(behaviour, rank) && HandleOnlyBefore(behaviour, limit)
    requires count <= |m.threads| && At(m, behaviour, schedule, from).activations >= limit
    ensures n >= from
    ensures forall i: nat, u: nat :: i >= n && u < count ==> !HandlesAt(m, behaviour, schedule, u, i)
    decreases count
  {
    hide Sound, At, HandlesAt, BodiesTerminate, HandleOnlyBefore;
    n := from;
    if count > 0 {
      var others := ThreadsHandlesStop(m, behaviour, schedule, rank, limit, count - 1, from);
      var last := ThreadHandlesStop(m, behaviour, schedule, rank, limit, count - 1, from);
      n := if others < last then last else others;
    }
  }

  lemma HandlesStop(m: Machine, behaviour: Behaviour, schedule: Schedule, rank: Rank, limit: nat, from: nat)
    returns (n: nat)
    requires Formed(m) && Sound(m, behaviour) && BodiesTerminate(behaviour, rank) && HandleOnlyBefore(behaviour, limit)
    requires At(m, behaviour, schedule, from).activations >= limit
    ensures NoHandleFrom(m, behaviour, schedule, n)
  {
    hide Sound, At, AboutToHandle, BodiesTerminate, HandleOnlyBefore;
    n := ThreadsHandlesStop(m, behaviour, schedule, rank, limit, |m.threads|, from);
    forall i: nat | i >= n
      ensures !AboutToHandle(At(m, behaviour, schedule, i), behaviour, schedule(i))
    {
      AtIsSound(m, behaviour, schedule, i);
      HandlersAreThreads(At(m, behaviour, schedule, i), behaviour, schedule(i));
      assert schedule(i) < |m.threads| ==> !HandlesAt(m, behaviour, schedule, schedule(i), i);
    }
  }

  /** While fewer than `limit` activations have started, entries run out by themselves. */
  lemma FewEntriesStop(m: Machine, behaviour: Behaviour, schedule: Schedule, limit: nat) returns (n: nat)
    requires Formed(m) && Sound(m, behaviour)
    requires forall i: nat :: At(m, behaviour, schedule, i).activations < limit
    ensures NoEntryFrom(m, behaviour, schedule, n)
  {
    hide Sound, Step;
    var measure := (i: nat) => Measure(limit - At(m, behaviour, schedule, i).activations, 0, 0);
    var happens := (i: nat) => EntersAt(m, behaviour, schedule, i);
    forall i: nat
      ensures AtMost(measure(i + 1), measure(i)) && (happens(i) ==> Below(measure(i + 1), measure(i)))
    {
      ActivationsGrow(m, behaviour, schedule, i, i + 1);
    }
    n := Exhausted(measure, happens, 0);
    forall i: nat | i >= n
      ensures At(m, behaviour, schedule, i + 1).activations == At(m, behaviour, schedule, i).activations
    {
      assert !happens(i);
    }
  }

  /** If every body on its own returns and no activation from some number on calls Handle, every
      run ends, from any point and under every schedule. Re-entry by a bounded number of
      activations, clients or not, is allowed. */
  lemma EveryRunEnds(clients: seq<nat>, behaviour: Behaviour, past: seq<nat>, schedule: Schedule, rank: Rank,
                     limit: nat)
    requires BodiesTerminate(behaviour, rank) && HandleOnlyBefore(behaviour, limit)
    ensures Ends(Run(Start(clients), behaviour, past), behaviour, schedule)
  {
    RunIsSound(clients, behaviour, past);
    var m := Run(Start(clients), behaviour, past);
    hide Run, Sound, At, BodiesTerminate, HandleOnlyBefore, NoHandleFrom, NoEntryFrom, QuietFrom;
    var entries: nat;
    if from: nat :| At(m, behaviour, schedule, from).activations >= limit {
      var handles := HandlesStop(m, behaviour, schedule, rank, limit, from);
      entries := EntriesStop(m, behaviour, schedule, handles);
    } else {
      entries := FewEntriesStop(m, behaviour, schedule, limit);
    }
    var n := StepsStop(m, behaviour, schedule, rank, entries);
  }

  /** So every thread that is always scheduled again finishes, alone or among others. */
  lemma EveryThreadFinishes(clients: seq<nat>, behaviour: Behaviour, past: seq<nat>, schedule: Schedule,
                            rank: Rank, limit: nat, t: nat)
    requires BodiesTerminate(behaviour, rank) && HandleOnlyBefore(behaviour, limit) && Fair(schedule, t)
    ensures Finishes(Run(Start(clients), behaviour, past), behaviour, schedule, t)
  {
    EveryRunEnds(clients, behaviour, past, schedule, rank, limit);
    hide Run, Ends, Fair, BodiesTerminate, HandleOnlyBefore;
    FairThreadFinishes(Run(Start(clients), behaviour, past), behaviour, schedule, t);
  }

  lemma HandlersAreThreads(m: Machine, behaviour: Behaviour, t: nat)
    ensures AboutToHandle(m, behaviour, t) ==> t < |m.threads|
  {
  }

  // ---------------------------------------------------------------- why only clients may call Handle freely

  /** Above the clients, only the objects of `reentrant` ever call Handle. */
  ghost predicate HandleOnlyBy(behaviour: Behaviour, clients: nat, reentrant: iset<nat>) {
    forall target: nat, serial: nat, replies: seq<Reply> ::
      serial >= clients && target !in reentrant ==> !behaviour(target, serial, replies).CallHandle?
  }

  /** With these objects allowed to re-enter, every run of terminating bodies ends. */
  ghost predicate AlwaysEnds(reentrant: iset<nat>) {
    forall clients: seq<nat>, behaviour: Behaviour, schedule: Schedule ::
      HandleOnlyBy(behaviour, |clients|, reentrant) && BodiesReturn(behaviour) ==>
        Ends(Start(clients), behaviour, schedule)
  }

  ghost predicate BodiesReturn(behaviour: Behaviour) {
    exists rank: Rank :: BodiesTerminate(behaviour, rank)
  }

  /** A client that adds one middleware and calls Handle, and a middleware that calls Handle. */
  function Reentrant(o: nat): Behaviour {
    (target, serial, replies) =>
      if serial == 0 && |replies| == 0 then CallAdd(o)
      else if (serial == 0 || target == o) && |replies| == (if serial == 0 then 1 else 0) then CallHandle
      else Finish(NOT_HANDLED)
  }

  function ActionsLeft(): Rank {
    Rank((target: nat, serial: nat, replies: seq<Reply>) => (if |replies| < 2 then 2 - |replies| else 0) as ORDINAL)
  }

  /** The client has its middleware, and whoever is on top is about to call Handle. */
  predicate Descending(m: Machine, o: nat) {
    && Formed(m) && m.activations > 0
    && Active(m, 0) && m.threads[0].mode.Running?
    && (var top := Top(m.threads[0]);
        if top.serial == 0 then |top.replies| == 1 else top.target == o && |top.replies| == 0)
    && ObjectAt(m.chain, 0) == Some(o)
  }

  lemma {:induction false} DescendingForEver(o: nat, n: nat)
    requires n >= 2
    ensures Descending(At(Start([0]), Reentrant(o), Alone(0), n), o)
    decreases n
  {
    if n == 2 {
      var m1 := Step(Start([0]), Reentrant(o), 0);
      assert At(Start([0]), Reentrant(o), Alone(0), 1) == m1;
      assert Descending(Step(m1, Reentrant(o), 0), o);
    } else {
      DescendingForEver(o, n - 1);
      DescendingStep(At(Start([0]), Reentrant(o), Alone(0), n - 1), o);
    }
  }

  lemma DescendingStep(m: Machine, o: nat)
    requires Descending(m, o)
    ensures Descending(Step(m, Reentrant(o), 0), o)
  {
    var m' := Step(m, Reentrant(o), 0);
    assert m' == EnterHandle(m, 0);
    assert Top(m'.threads[0]) == Activation(o, m.activations, []);
  }

  /** Terminating bodies are not enough: here every body returns after at most two actions, and
      the one request never ends, because each activation calls Handle again. */
  lemma ReentryNeedNotEnd(o: nat)
    ensures BodiesTerminate(Reentrant(o), ActionsLeft())
    ensures HandleOnlyBy(Reentrant(o), 1, iset{o})
    ensures !Ends(Start([0]), Reentrant(o), Alone(0))
  {
    forall n: nat ensures !QuietFrom(Start([0]), Reentrant(o), Alone(0), n) {
      var i := n + 2;
      DescendingForEver(o, i);
      assert Active(At(Start([0]), Reentrant(o), Alone(0), i), Alone(0)(i));
    }
  }

  /** So terminating bodies are enough exactly when no middleware or terminal may re-enter. */
  lemma AlwaysEndsExactly(reentrant: iset<nat>)
    ensures AlwaysEnds(reentrant) <==> reentrant == iset{}
  {
    if o :| o in reentrant {
      ReentryNeedNotEnd(o);
      assert HandleOnlyBy(Reentrant(o), |[0]|, reentrant);
    } else {
      forall clients: seq<nat>, behaviour: Behaviour, schedule: Schedule
        | HandleOnlyBy(behaviour, |clients|, reentrant) && BodiesReturn(behaviour)
        ensures Ends(Start(clients), behaviour, schedule)
      {
        var rank: Rank :| BodiesTerminate(behaviour, rank);
        EveryRunEnds(clients, behaviour, [], schedule, rank, |clients|);
      }
    }
  }
}
