/** Every run of a pipeline: any number of threads, middleware that re-enters Handle, lends its
    continuations and changes the pipeline, and handle ids drawn before the lock is taken. */
module PipelineRuns {
  import opened WebTypes
  import opened Middleware

  // ---------------------------------------------------------------- the machine

  datatype Next = Next(invocation: nat, index: nat, invoked: bool)

  /** A body in progress: its object, which activation it is, and the replies it has seen. */
  datatype Activation = Activation(target: nat, serial: nat, replies: seq<Reply>)

  /** Add draws its handle id first and takes the lock later. */
  datatype Mode = Running | Publishing(handle: nat, target: nat)

  /** The last activation runs; the others wait for the one above them. */
  datatype Thread = Thread(stack: seq<Activation>, mode: Mode)

  /** One entry of the log: which invocation entered which index of its chain. */
  datatype Entering = Entering(invocation: nat, entrance: Entrance)

  datatype Machine = Machine(
    chain: ChainValue,
    nextHandle: nat,
    invocations: seq<ChainValue>,
    nexts: seq<Next>,
    log: seq<Entering>,
    activations: nat,
    issued: seq<nat>,
    removed: seq<nat>,
    threads: seq<Thread>)

  predicate Formed(m: Machine) {
    forall n :: 0 <= n < |m.nexts| ==> m.nexts[n].invocation < |m.invocations|
  }

  predicate Active(m: Machine, t: nat) {
    t < |m.threads| && |m.threads[t].stack| > 0
  }

  function Top(thread: Thread): Activation
    requires |thread.stack| > 0
  {
    thread.stack[|thread.stack| - 1]
  }

  /** The running body gets an answer and goes on. */
  function Answered(thread: Thread, reply: Reply): Thread
    requires |thread.stack| > 0
  {
    var top := Top(thread);
    Thread(thread.stack[..|thread.stack| - 1] + [top.(replies := top.replies + [reply])], Running)
  }

  function Answer(m: Machine, t: nat, reply: Reply): Machine
    requires Active(m, t)
  {
    m.(threads := m.threads[t := Answered(m.threads[t], reply)])
  }

  /** Invocation::InvokeAt, up to the call of the object it enters. */
  function InvokeAt(m: Machine, t: nat, invocation: nat, index: nat): Machine
    requires Active(m, t) && invocation < |m.invocations|
  {
    var chain := m.invocations[invocation];
    match ObjectAt(chain, index)
    case None => Answer(m, t, Result(if index < |chain.entries| then REFUSED else NOT_HANDLED))
    case Some(target) =>
      var pushed := m.threads[t].stack + [Activation(target, m.activations, [])];
      m.(log := m.log + [Entering(invocation, Entrance(index, target))],
         nexts := if index < |chain.entries| then m.nexts + [Next(invocation, index + 1, false)] else m.nexts,
         activations := m.activations + 1,
         threads := m.threads[t := Thread(pushed, Running)])
  }

  /** Next::Invoke: the flag is set before descending. */
  function InvokeNext(m: Machine, t: nat, n: nat): Machine
    requires Formed(m) && Active(m, t)
  {
    if n >= |m.nexts| || m.nexts[n].invoked then Answer(m, t, Result(REFUSED))
    else
      var used := m.nexts[n].(invoked := true);
      InvokeAt(m.(nexts := m.nexts[n := used]), t, used.invocation, used.index)
  }

  /** MiddlewarePipeline::Handle: one locked read of the chain, then InvokeAt 0. */
  function EnterHandle(m: Machine, t: nat): Machine
    requires Active(m, t)
  {
    InvokeAt(m.(invocations := m.invocations + [m.chain]), t, |m.invocations|, 0)
  }

  function Return(m: Machine, t: nat, result: HandlerResult): Machine
    requires Active(m, t)
  {
    var stack := m.threads[t].stack;
    var popped := Thread(stack[..|stack| - 1], Running);
    m.(threads := m.threads[t := if |popped.stack| == 0 then popped else Answered(popped, Result(result))])
  }

  /** One atomic step of thread `t`. */
  function Step(m: Machine, behaviour: Behaviour, t: nat): (r: Machine)
    requires Formed(m)
    ensures Formed(r)
  {
    if !Active(m, t) then m
    else
      var thread := m.threads[t];
      var top := Top(thread);
      match thread.mode
      case Publishing(handle, target) =>
        Answer(m.(chain := Appended(m.chain, handle, target)), t, Handle(handle))
      case Running =>
        match behaviour(top.target, top.serial, top.replies)
        case Finish(result) => Return(m, t, result)
        case CallNext(n) => InvokeNext(m, t, n)
        case CallHandle => EnterHandle(m, t)
        case CallAdd(target) =>
          m.(nextHandle := m.nextHandle + 1,
             issued := m.issued + [m.nextHandle],
             threads := m.threads[t := thread.(mode := Publishing(m.nextHandle, target))])
        case CallRemove(handle) =>
          var (chain, removed) := Removed(m.chain, handle);
          Answer(m.(chain := chain, removed := if removed then m.removed + [handle] else m.removed), t, Flag(removed))
        case CallClear => Answer(m.(chain := Cleared(m.chain)), t, Done)
        case CallSetTerminal(terminal) => Answer(m.(chain := m.chain.(terminal := terminal)), t, Done)
  }

  /** Runs are built from their last step, so that every prefix of a schedule is a run. */
  function Run(m: Machine, behaviour: Behaviour, schedule: seq<nat>): (r: Machine)
    requires Formed(m)
    ensures Formed(r)
  {
    if |schedule| == 0 then m
    else Step(Run(m, behaviour, schedule[..|schedule| - 1]), behaviour, schedule[|schedule| - 1])
  }

  /** An empty pipeline and any client bodies, one thread each. */
  function Start(clients: seq<nat>): Machine {
    Machine(EMPTY_CHAIN, 1, [], [], [], |clients|, [], [],
            seq(|clients|, i requires 0 <= i < |clients| => Thread([Activation(clients[i], i, [])], Running)))
  }

  // ---------------------------------------------------------------- one-shot continuations

  /** What one invocation has entered, in order. */
  function EnteredBy(log: seq<Entering>, invocation: nat): seq<Entrance> {
    if |log| == 0 then []
    else
      var before := EnteredBy(log[..|log| - 1], invocation);
      var last := log[|log| - 1];
      if last.invocation == invocation then before + [last.entrance] else before
  }

  lemma EnteredStep(log: seq<Entering>, e: Entering, invocation: nat)
    ensures EnteredBy(log + [e], invocation) ==
            if e.invocation == invocation then EnteredBy(log, invocation) + [e.entrance] else EnteredBy(log, invocation)
  {
    assert (log + [e])[..|log|] == log;
  }

  ghost predicate OneShot(m: Machine) {
    && Formed(m)
    && (forall i :: 0 <= i < |m.log| ==> m.log[i].invocation < |m.invocations|)
    && (forall i :: 0 <= i < |m.invocations| ==> InOrder(m.invocations[i], EnteredBy(m.log, i)))
    && (forall n :: 0 <= n < |m.nexts| ==>
          var next := m.nexts[n];
          && 1 <= next.index <= |m.invocations[next.invocation].entries|
          && next.index <= |EnteredBy(m.log, next.invocation)|
          && (!next.invoked ==> next.index == |EnteredBy(m.log, next.invocation)|))
    && (forall a, b :: 0 <= a < b < |m.nexts| && m.nexts[a].invocation == m.nexts[b].invocation ==>
          m.nexts[a].index != m.nexts[b].index)
  }

  /** All continuations of an invocation are used up. */
  predicate AllUsed(m: Machine, invocation: nat) {
    forall n :: 0 <= n < |m.nexts| && m.nexts[n].invocation == invocation ==> m.nexts[n].invoked
  }

  lemma InvokeAtKeepsOneShot(m: Machine, t: nat, invocation: nat, index: nat)
    requires OneShot(m) && Active(m, t) && invocation < |m.invocations| && AllUsed(m, invocation)
    requires index == |EnteredBy(m.log, invocation)| <= |m.invocations[invocation].entries|
    ensures OneShot(InvokeAt(m, t, invocation, index))
  {
    hide EnteredBy;
    var chain := m.invocations[invocation];
    if ObjectAt(chain, index).Some? {
      var e := Entering(invocation, Entrance(index, ObjectAt(chain, index).value));
      forall i ensures EnteredBy(m.log + [e], i) ==
                       if i == invocation then EnteredBy(m.log, i) + [e.entrance] else EnteredBy(m.log, i)
      {
        EnteredStep(m.log, e, i);
      }
      var m' := InvokeAt(m, t, invocation, index);
      forall n | 0 <= n < |m'.nexts|
        ensures var next := m'.nexts[n];
                && 1 <= next.index <= |m'.invocations[next.invocation].entries|
                && next.index <= |EnteredBy(m'.log, next.invocation)|
                && (!next.invoked ==> next.index == |EnteredBy(m'.log, next.invocation)|)
      {
        if n < |m.nexts| {
          assert m'.nexts[n] == m.nexts[n];
        }
      }
      forall i | 0 <= i < |m'.invocations| ensures InOrder(m'.invocations[i], EnteredBy(m'.log, i)) {
        if i == invocation {
          InOrderExtends(chain, EnteredBy(m.log, i), e.entrance);
        }
      }
      forall a, b | 0 <= a < b < |m'.nexts| && m'.nexts[a].invocation == m'.nexts[b].invocation
        ensures m'.nexts[a].index != m'.nexts[b].index
      {
        assert m'.nexts[a] == m.nexts[a];
        if b < |m.nexts| {
          assert m'.nexts[b] == m.nexts[b];
        }
      }
      hide InOrder, InvokeAt;
    }
  }

  lemma StepKeepsOneShot(m: Machine, behaviour: Behaviour, t: nat)
    requires OneShot(m)
    ensures OneShot(Step(m, behaviour, t))
  {
    hide EnteredBy;
    if Active(m, t) && m.threads[t].mode.Running? {
      var top := Top(m.threads[t]);
      match behaviour(top.target, top.serial, top.replies)
      case CallNext(n) =>
        if n < |m.nexts| && !m.nexts[n].invoked {
          UseKeepsOneShot(m, n);
          var used := m.nexts[n].(invoked := true);
          InvokeAtKeepsOneShot(m.(nexts := m.nexts[n := used]), t, used.invocation, used.index);
        }
      case CallHandle =>
        SnapshotKeepsOneShot(m);
        InvokeAtKeepsOneShot(m.(invocations := m.invocations + [m.chain]), t, |m.invocations|, 0);
      case _ =>
    }
  }

  lemma UseKeepsOneShot(m: Machine, n: nat)
    requires OneShot(m) && n < |m.nexts| && !m.nexts[n].invoked
    ensures var used := m.nexts[n].(invoked := true);
            var m' := m.(nexts := m.nexts[n := used]);
            OneShot(m') && AllUsed(m', used.invocation)
  {
    hide EnteredBy;
  }

  lemma SnapshotKeepsOneShot(m: Machine)
    requires OneShot(m)
    ensures var m' := m.(invocations := m.invocations + [m.chain]);
            OneShot(m') && AllUsed(m', |m.invocations|) && EnteredBy(m.log, |m.invocations|) == []
  {
    NothingEntered(m.log, |m.invocations|);
    hide EnteredBy;
    var m' := m.(invocations := m.invocations + [m.chain]);
    forall i | 0 <= i < |m'.invocations| ensures InOrder(m'.invocations[i], EnteredBy(m'.log, i)) {
      if i < |m.invocations| {
        assert m'.invocations[i] == m.invocations[i];
      }
    }
  }

  lemma {:induction false} NothingEntered(log: seq<Entering>, invocation: nat)
    requires forall i :: 0 <= i < |log| ==> log[i].invocation < invocation
    ensures EnteredBy(log, invocation) == []
  {
    if |log| > 0 {
      NothingEntered(log[..|log| - 1], invocation);
    }
  }

  /** In every run, every invocation has entered the objects of its chain in order, each index at
      most once and the terminal last, however often and by whom its continuations were called. */
  lemma {:induction false} EveryInvocationInOrder(clients: seq<nat>, behaviour: Behaviour, schedule: seq<nat>)
    ensures OneShot(Run(Start(clients), behaviour, schedule))
  {
    if |schedule| > 0 {
      EveryInvocationInOrder(clients, behaviour, schedule[..|schedule| - 1]);
      StepKeepsOneShot(Run(Start(clients), behaviour, schedule[..|schedule| - 1]), behaviour, schedule[|schedule| - 1]);
    }
  }

  /** Thread `t` is about to call continuation `n`. */
  predicate AboutToCall(m: Machine, behaviour: Behaviour, t: nat, n: nat) {
    && Active(m, t)
    && m.threads[t].mode.Running?
    && var top := Top(m.threads[t]); behaviour(top.target, top.serial, top.replies) == CallNext(n)
  }

  predicate Used(m: Machine, n: nat) {
    n < |m.nexts| && m.nexts[n].invoked
  }

  /** A call uses a continuation up, and none is ever made fresh again. */
  lemma StepUses(m: Machine, behaviour: Behaviour, t: nat, n: nat)
    requires Formed(m)
    ensures Used(m, n) || (n < |m.nexts| && AboutToCall(m, behaviour, t, n)) ==> Used(Step(m, behaviour, t), n)
  {
  }

  lemma {:induction false} StaysUsed(clients: seq<nat>, behaviour: Behaviour, schedule: seq<nat>, j: nat, n: nat)
    requires j <= |schedule| && Used(Run(Start(clients), behaviour, schedule[..j]), n)
    ensures Used(Run(Start(clients), behaviour, schedule), n)
    decreases |schedule|
  {
    if j == |schedule| {
      assert schedule[..j] == schedule;
    } else {
      var shorter := schedule[..|schedule| - 1];
      assert schedule[..j] == shorter[..j];
      StartFormed(clients);
      hide Step, Start, Formed, Used;
      StaysUsed(clients, behaviour, shorter, j, n);
      StepUses(Run(Start(clients), behaviour, shorter), behaviour, schedule[|schedule| - 1], n);
    }
  }

  /** In every run, once a continuation has been called, by whatever thread and from whatever
      depth, each later call of it changes nothing but the caller's reply, which is InvalidState. */
  lemma SecondCallIsRefused(clients: seq<nat>, behaviour: Behaviour, schedule: seq<nat>, j: nat, t: nat, n: nat)
    requires j < |schedule| && n < |Run(Start(clients), behaviour, schedule[..j]).nexts|
    requires AboutToCall(Run(Start(clients), behaviour, schedule[..j]), behaviour, schedule[j], n)
    requires AboutToCall(Run(Start(clients), behaviour, schedule), behaviour, t, n)
    ensures var m := Run(Start(clients), behaviour, schedule);
            Step(m, behaviour, t) == Answer(m, t, Result(HandlerResult(WebResult(InvalidState, 0), Handled)))
  {
    var first, next := schedule[..j], schedule[..j + 1];
    assert next[..|next| - 1] == first && next[|next| - 1] == schedule[j];
    StepUses(Run(Start(clients), behaviour, first), behaviour, schedule[j], n);
    StaysUsed(clients, behaviour, schedule, j + 1, n);
    UsedIsRefused(Run(Start(clients), behaviour, schedule), behaviour, t, n);
  }

  lemma UsedIsRefused(m: Machine, behaviour: Behaviour, t: nat, n: nat)
    requires Formed(m) && AboutToCall(m, behaviour, t, n) && Used(m, n)
    ensures Step(m, behaviour, t) == Answer(m, t, Result(REFUSED))
  {
  }

  // ---------------------------------------------------------------- snapshots

  /** Thread `t` is about to take the chain for a new invocation. */
  predicate AboutToHandle(m: Machine, behaviour: Behaviour, t: nat) {
    && Active(m, t)
    && m.threads[t].mode.Running?
    && var top := Top(m.threads[t]); behaviour(top.target, top.serial, top.replies).CallHandle?
  }

  lemma StepExtendsInvocations(m: Machine, behaviour: Behaviour, t: nat)
    requires Formed(m)
    ensures Step(m, behaviour, t).invocations ==
            if AboutToHandle(m, behaviour, t) then m.invocations + [m.chain] else m.invocations
  {
  }

  /** Invocation `i` runs on the chain exactly as it was published at the one step of the run that
      called Handle for it, whatever was added, removed or cleared since. */
  lemma {:induction false} SnapshotIsOnePoint(clients: seq<nat>, behaviour: Behaviour, schedule: seq<nat>, i: nat)
    requires i < |Run(Start(clients), behaviour, schedule).invocations|
    ensures exists k :: 0 <= k < |schedule| && StartsAt(clients, behaviour, schedule, k, i)
    decreases |schedule|
  {
    StartFormed(clients);
    hide Step, Start, Formed, AboutToHandle;
    if |schedule| > 0 {
      var shorter, last := schedule[..|schedule| - 1], schedule[|schedule| - 1];
      var m := Run(Start(clients), behaviour, shorter);
      StepExtendsInvocations(m, behaviour, last);
      if i < |m.invocations| {
        SnapshotIsOnePoint(clients, behaviour, shorter, i);
        var k :| 0 <= k < |shorter| && StartsAt(clients, behaviour, shorter, k, i);
        assert schedule[..k] == shorter[..k];
        assert StartsAt(clients, behaviour, schedule, k, i);
      } else {
        assert StartsAt(clients, behaviour, schedule, |shorter|, i);
      }
    } else {
      NoInvocationAtStart(clients);
    }
  }

  /** Step `k` calls Handle as the `i`-th call of the run, and the invocation keeps that chain. */
  ghost predicate StartsAt(clients: seq<nat>, behaviour: Behaviour, schedule: seq<nat>, k: nat, i: nat)
    requires k < |schedule|
  {
    var before := Run(Start(clients), behaviour, schedule[..k]);
    var invocations := Run(Start(clients), behaviour, schedule).invocations;
    && AboutToHandle(before, behaviour, schedule[k])
    && |before.invocations| == i < |invocations|
    && invocations[i] == before.chain
  }

  lemma StartFormed(clients: seq<nat>)
    ensures Formed(Start(clients))
  {
  }

  lemma NoInvocationAtStart(clients: seq<nat>)
    ensures Start(clients).invocations == []
  {
  }
}
