/** HttpServer's lifecycle: locked sections with platform calls between them, run by any number
    of threads in any order. */
module Lifecycle {
  import opened WebTypes

  datatype ServerState = Stopped | Initializing | Ready | Starting | Running | Stopping | Faulted

  datatype Configuration = Configuration(
    port: nat,
    maximumConnections: nat,
    maximumHeaderBytes: nat,
    maximumRequestBodyBytes: nat,
    keepAlive: bool,
    tls: bool)

  // ---------------------------------------------------------------- the locked sections

  /** What the server's mutex protects. */
  datatype Core = Core(state: ServerState, configuration: Configuration, handler: Option<nat>)

  function ClaimInitialize(core: Core): (Core, WebResult) {
    if core.state in {Running, Starting, Stopping, Initializing} then (core, Failure(InvalidState))
    else (core.(state := Initializing), SUCCESS)
  }

  function FinishInitialize(core: Core, configuration: Configuration, succeeded: bool): Core {
    if succeeded then core.(configuration := configuration, state := Ready) else core.(state := Faulted)
  }

  function ClaimStart(core: Core): (Core, WebResult) {
    if core.state == Running then (core, Failure(AlreadyRunning))
    else if core.state != Ready then (core, Failure(InvalidState))
    else (core.(state := Starting), SUCCESS)
  }

  function FinishStart(core: Core, succeeded: bool): Core {
    core.(state := if succeeded then Running else Faulted)
  }

  datatype StopClaim = AlreadyStopped | ResetOnly | MustStop | Refused

  function ClaimStop(core: Core): (Core, StopClaim) {
    if core.state == Stopped then (core, AlreadyStopped)
    else if core.state == Ready || core.state == Faulted then (core.(state := Stopped), ResetOnly)
    else if core.state == Running then (core.(state := Stopping), MustStop)
    else (core, Refused)
  }

  function FinishStop(core: Core, succeeded: bool): Core {
    core.(state := if succeeded then Stopped else Faulted)
  }

  function SetHandler(core: Core, handler: Option<nat>): (Core, WebResult) {
    if core.state in {Running, Starting, Stopping} then (core, Failure(InvalidState))
    else (core.(handler := handler), SUCCESS)
  }

  /** Dispatch's locked section: the handler and the body limit, while Running. */
  datatype Admission = NotAdmitted | Admitted(handler: Option<nat>, maximumRequestBodyBytes: nat)

  function Admit(core: Core): Admission {
    if core.state != Running then NotAdmitted
    else Admission.Admitted(core.handler, core.configuration.maximumRequestBodyBytes)
  }

  /** The server object; each method is one locked section of the method it is named after. */
  class ServerCore {
    var state: ServerState
    var configuration: Configuration
    var handler: Option<nat>

    ghost function View(): Core
      reads this
    {
      Core(state, configuration, handler)
    }

    constructor (configuration: Configuration)
      ensures View() == Core(Stopped, configuration, None)
    {
      this.state, this.configuration, this.handler := Stopped, configuration, None;
    }

    method BeginInitialize() returns (result: WebResult)
      modifies this`state
      ensures (View(), result) == ClaimInitialize(old(View()))
    {
      if state == Running || state == Starting || state == Stopping || state == Initializing {
        return Failure(InvalidState);
      }
      state := Initializing;
      return SUCCESS;
    }

    method EndInitialize(configuration: Configuration, result: WebResult)
      modifies this`state, this`configuration
      ensures View() == FinishInitialize(old(View()), configuration, result.Succeeded())
    {
      var finalState := if result.Succeeded() then Ready else Faulted;
      if result.Succeeded() {
        this.configuration := configuration;
      }
      state := finalState;
    }

    method BeginStart() returns (result: WebResult)
      modifies this`state
      ensures (View(), result) == ClaimStart(old(View()))
    {
      if state == Running {
        return Failure(AlreadyRunning);
      }
      if state != Ready {
        return Failure(InvalidState);
      }
      state := Starting;
      return SUCCESS;
    }

    method EndStart(result: WebResult)
      modifies this`state
      ensures View() == FinishStart(old(View()), result.Succeeded())
    {
      state := if result.Succeeded() then Running else Faulted;
    }

    method BeginStop() returns (claim: StopClaim)
      modifies this`state
      ensures (View(), claim) == ClaimStop(old(View()))
    {
      if state == Stopped {
        return AlreadyStopped;
      }
      if state == Ready || state == Faulted {
        state := Stopped;
        return ResetOnly;
      } else if state == Running {
        state := Stopping;
        return MustStop;
      }
      return Refused;
    }

    method EndStop(result: WebResult)
      modifies this`state
      ensures View() == FinishStop(old(View()), result.Succeeded())
    {
      state := if result.Succeeded() then Stopped else Faulted;
    }

    method SetRequestHandler(handler: Option<nat>) returns (result: WebResult)
      modifies this`handler
      ensures (View(), result) == SetHandler(old(View()), handler)
    {
      if state == Running || state == Starting || state == Stopping {
        return Failure(InvalidState);
      }
      this.handler := handler;
      return SUCCESS;
    }

    method BeginDispatch() returns (admission: Admission)
      ensures admission == Admit(View())
    {
      if state != Running {
        return NotAdmitted;
      }
      return Admission.Admitted(handler, configuration.maximumRequestBodyBytes);
    }
  }

  // ---------------------------------------------------------------- threads

  datatype PlatformCall = InitializeCall(configuration: Configuration) | StartCall | StopCall

  /** Where a thread stands between two atomic steps. */
  datatype Pc =
    | Idle
    | InitializeClaimed(configuration: Configuration)
    | InitializeReset(configuration: Configuration)
    | InitializeCalling(configuration: Configuration)
    | InitializeReturned(configuration: Configuration, succeeded: bool)
    | StartClaimed
    | StartCalling
    | StartReturned(succeeded: bool)
    | StopClaimed
    | StopCalling
    | StopReturned(succeeded: bool)
    | ResetPending

  /** What an observer of the platform and of the dispatcher sees. */
  datatype Event =
    | Began(call: PlatformCall, thread: nat)
    | Ended(call: PlatformCall, thread: nat, succeeded: bool)
    | Reset(thread: nat)
    | Dispatched(admission: Admission)

  /** What an idle thread calls; `Proceed` takes a busy thread one step on, with the platform's
      answer where a platform call returns. Observers run outside the lock, so what they call
      is what further threads call. */
  datatype Choice =
    | CallInitialize(configuration: Configuration)
    | CallStart
    | CallStop
    | CallSetRequestHandler(handler: Option<nat>)
    | CallDispatch
    | Proceed(succeeded: bool)

  datatype Move = Move(thread: nat, choice: Choice)

  datatype Machine = Machine(core: Core, threads: seq<Pc>, log: seq<Event>)

  datatype Effect = Effect(core: Core, pc: Pc, emitted: seq<Event>)

  /** What an idle thread does: the first locked section of the method it calls. */
  function Enter(core: Core, choice: Choice): Effect {
    match choice
    case CallInitialize(configuration) =>
      var (claimed, result) := ClaimInitialize(core);
      Effect(claimed, if result.Succeeded() then InitializeClaimed(configuration) else Idle, [])
    case CallStart =>
      var (claimed, result) := ClaimStart(core);
      Effect(claimed, if result.Succeeded() then StartClaimed else Idle, [])
    case CallStop =>
      var (claimed, claim) := ClaimStop(core);
      Effect(claimed, if claim == MustStop then StopClaimed else if claim == ResetOnly then ResetPending else Idle, [])
    case CallSetRequestHandler(handler) => Effect(SetHandler(core, handler).0, Idle, [])
    case CallDispatch => Effect(core, Idle, if Admit(core).Admitted? then [Dispatched(Admit(core))] else [])
    case Proceed(_) => Effect(core, Idle, [])
  }

  /** What a busy thread does next; `answer` is the platform's, where a call returns. */
  function Advance(core: Core, pc: Pc, thread: nat, answer: bool): Effect {
    match pc
    case Idle => Effect(core, Idle, [])
    case InitializeClaimed(configuration) => Effect(core, InitializeReset(configuration), [Reset(thread)])
    case InitializeReset(configuration) =>
      Effect(core, InitializeCalling(configuration), [Began(InitializeCall(configuration), thread)])
    case InitializeCalling(configuration) =>
      Effect(core, InitializeReturned(configuration, answer), [Ended(InitializeCall(configuration), thread, answer)])
    case InitializeReturned(configuration, succeeded) =>
      Effect(FinishInitialize(core, configuration, succeeded), Idle, [])
    case StartClaimed => Effect(core, StartCalling, [Began(StartCall, thread)])
    case StartCalling => Effect(core, StartReturned(answer), [Ended(StartCall, thread, answer)])
    case StartReturned(succeeded) => Effect(FinishStart(core, succeeded), Idle, [])
    case StopClaimed => Effect(core, StopCalling, [Began(StopCall, thread)])
    case StopCalling => Effect(core, StopReturned(answer), [Ended(StopCall, thread, answer)])
    case StopReturned(succeeded) =>
      Effect(FinishStop(core, succeeded), if succeeded then ResetPending else Idle, [])
    case ResetPending => Effect(core, Idle, [Reset(thread)])
  }

  /** One atomic step of one thread. */
  function Act(core: Core, pc: Pc, thread: nat, choice: Choice): Effect {
    if pc.Idle? then Enter(core, choice)
    else
      match choice
      case Proceed(succeeded) => Advance(core, pc, thread, succeeded)
      case _ => Effect(core, pc, [])
  }

  function Step(m: Machine, move: Move): Machine {
    if move.thread >= |m.threads| then m
    else
      var e := Act(m.core, m.threads[move.thread], move.thread, move.choice);
      Machine(e.core, m.threads[move.thread := e.pc], m.log + e.emitted)
  }

  /** Runs are built from their last move, so that every prefix of a run is a run. */
  function Steps(m: Machine, moves: seq<Move>): Machine {
    if |moves| == 0 then m else Step(Steps(m, moves[..|moves| - 1]), moves[|moves| - 1])
  }

  function Start(threads: nat, configuration: Configuration): Machine {
    Machine(Core(Stopped, configuration, None), seq(threads, _ => Idle), [])
  }

  // ---------------------------------------------------------------- what the log must look like

  /** The last Initialize, Start or Stop event, ignoring resets and dispatches. */
  function LastCall(log: seq<Event>): Option<Event> {
    if |log| == 0 then None
    else
      var last := log[|log| - 1];
      if last.Began? || last.Ended? then Some(last) else LastCall(log[..|log| - 1])
  }

  /** The last Initialize that returned. */
  function LastInitialize(log: seq<Event>): Option<Event> {
    if |log| == 0 then None
    else
      var last := log[|log| - 1];
      if last.Ended? && last.call.InitializeCall? then Some(last) else LastInitialize(log[..|log| - 1])
  }

  predicate EndedWell(e: Option<Event>, call: PlatformCall) {
    e.Some? && e.value.Ended? && e.value.call == call && e.value.succeeded
  }

  predicate InitializedWell(e: Option<Event>, configuration: Configuration) {
    EndedWell(e, InitializeCall(configuration))
  }

  /** May `e` come next? Calls never overlap; Start follows a successful Initialize and Stop a
      successful Start, with no other call between; a call ends on the thread that began it; a
      dispatch is admitted only between a successful Start and the next call, with the limit
      of the last Initialize, which succeeded. */
  predicate Allowed(log: seq<Event>, e: Event) {
    match e
    case Began(InitializeCall(_), _) => LastCall(log).Some? ==> LastCall(log).value.Ended?
    case Began(StartCall, _) =>
      && LastCall(log).Some? && LastCall(log).value.Ended? && LastCall(log).value.succeeded
      && LastCall(log).value.call.InitializeCall?
    case Began(StopCall, _) => EndedWell(LastCall(log), StartCall)
    case Ended(call, thread, _) => LastCall(log) == Some(Began(call, thread))
    case Reset(_) => true
    case Dispatched(admission) =>
      && EndedWell(LastCall(log), StartCall)
      && LastInitialize(log).Some? && LastInitialize(log).value.Ended? && LastInitialize(log).value.succeeded
      && LastInitialize(log).value.call.InitializeCall?
      && admission.Admitted?
      && admission.maximumRequestBodyBytes == LastInitialize(log).value.call.configuration.maximumRequestBodyBytes
  }

  ghost predicate WellOrdered(log: seq<Event>) {
    forall i :: 0 <= i < |log| ==> Allowed(log[..i], log[i])
  }

  // ---------------------------------------------------------------- the invariant

  predicate Owns(pc: Pc) {
    !pc.Idle? && !pc.ResetPending?
  }

  /** The transitional state a thread owns. */
  function OwnedState(pc: Pc): ServerState
    requires Owns(pc)
  {
    if pc.InitializeClaimed? || pc.InitializeReset? || pc.InitializeCalling? || pc.InitializeReturned? then Initializing
    else if pc.StartClaimed? || pc.StartCalling? || pc.StartReturned? then Starting
    else Stopping
  }

  /** What the log says while a thread stands at an owning point. */
  predicate OwnerLog(core: Core, pc: Pc, thread: nat, log: seq<Event>) {
    match pc
    case InitializeClaimed(_) => LastCall(log).Some? ==> LastCall(log).value.Ended?
    case InitializeReset(_) => LastCall(log).Some? ==> LastCall(log).value.Ended?
    case InitializeCalling(configuration) => LastCall(log) == Some(Began(InitializeCall(configuration), thread))
    case InitializeReturned(configuration, succeeded) =>
      && LastCall(log) == Some(Ended(InitializeCall(configuration), thread, succeeded))
      && LastInitialize(log) == LastCall(log)
    case StartClaimed => InitializedWell(LastCall(log), core.configuration) &&
        InitializedWell(LastInitialize(log), core.configuration)
    case StartCalling => LastCall(log) == Some(Began(StartCall, thread)) &&
        InitializedWell(LastInitialize(log), core.configuration)
    case StartReturned(succeeded) =>
      LastCall(log) == Some(Ended(StartCall, thread, succeeded)) &&
          InitializedWell(LastInitialize(log), core.configuration)
    case StopClaimed => EndedWell(LastCall(log), StartCall)
    case StopCalling => LastCall(log) == Some(Began(StopCall, thread))
    case StopReturned(succeeded) => LastCall(log) == Some(Ended(StopCall, thread, succeeded))
    case _ => true
  }

  /** What the log says in a state nobody owns. */
  predicate RestLog(core: Core, log: seq<Event>) {
    match core.state
    case Ready => InitializedWell(LastCall(log), core.configuration) &&
        InitializedWell(LastInitialize(log), core.configuration)
    case Running => EndedWell(LastCall(log), StartCall) && InitializedWell(LastInitialize(log), core.configuration)
    case Stopped => LastCall(log).Some? ==> LastCall(log).value.Ended?
    case Faulted => LastCall(log).Some? ==> LastCall(log).value.Ended?
    case _ => true
  }

  predicate Transitional(state: ServerState) {
    state == Initializing || state == Starting || state == Stopping
  }

  /** At most one thread owns the state, and a transitional state has an owner. */
  ghost predicate Ownership(m: Machine) {
    && (forall t :: 0 <= t < |m.threads| && Owns(m.threads[t]) ==> OwnedState(m.threads[t]) == m.core.state)
    && (forall t, u :: 0 <= t < |m.threads| && 0 <= u < |m.threads| && Owns(m.threads[t]) && Owns(m.threads[u]) ==>
          t == u)
    && (Transitional(m.core.state) ==> exists t :: 0 <= t < |m.threads| && Owns(m.threads[t]))
  }

  ghost predicate Logged(m: Machine) {
    && (forall t :: 0 <= t < |m.threads| && Owns(m.threads[t]) ==> OwnerLog(m.core, m.threads[t], t, m.log))
    && RestLog(m.core, m.log)
    && WellOrdered(m.log)
  }

  ghost predicate Inv(m: Machine) {
    Ownership(m) && Logged(m)
  }

  lemma LogStep(log: seq<Event>, e: Event)
    ensures LastCall(log + [e]) == if e.Began? || e.Ended? then Some(e) else LastCall(log)
    ensures LastInitialize(log + [e]) == if e.Ended? && e.call.InitializeCall? then Some(e) else LastInitialize(log)
    ensures WellOrdered(log) && Allowed(log, e) ==> WellOrdered(log + [e])
  {
    var longer := log + [e];
    assert longer[..|log|] == log;
    if WellOrdered(log) && Allowed(log, e) {
      forall i | 0 <= i < |longer| ensures Allowed(longer[..i], longer[i]) {
        if i < |log| {
          assert longer[..i] == log[..i];
        }
      }
    }
  }

  /** What the log says after a step, given what it said before. */
  ghost predicate LogMoves(e: Effect, log: seq<Event>, soon: seq<Event>) {
    if e.emitted == [] then LastCall(soon) == LastCall(log) && LastInitialize(soon) == LastInitialize(log)
    else
      var last := e.emitted[0];
      && LastCall(soon) == (if last.Began? || last.Ended? then Some(last) else LastCall(log))
      && LastInitialize(soon) == (if last.Ended? && last.call.InitializeCall? then Some(last) else LastInitialize(log))
  }

  /** The event a step emits is allowed, and the log facts move with it. */
  lemma EmitKeeps(m: Machine, move: Move)
    requires Inv(m) && move.thread < |m.threads|
    ensures var e := Act(m.core, m.threads[move.thread], move.thread, move.choice);
            WellOrdered(m.log + e.emitted) && LogMoves(e, m.log, m.log + e.emitted)
  {
    hide WellOrdered, LastCall, LastInitialize;
    var pc := m.threads[move.thread];
    var e := Act(m.core, pc, move.thread, move.choice);
    if e.emitted == [] {
      assert m.log + e.emitted == m.log;
    } else {
      assert e.emitted == [e.emitted[0]];
      LogStep(m.log, e.emitted[0]);
    }
  }

  lemma StepKeepsOwnership(m: Machine, move: Move)
    requires Ownership(m)
    ensures Ownership(Step(m, move))
  {
    if move.thread < |m.threads| {
      var t := move.thread;
      var pc := m.threads[t];
      var e := Act(m.core, pc, t, move.choice);
      var m' := Step(m, move);
      assert m'.threads[t] == e.pc;
      if Owns(pc) {
        assert forall u :: 0 <= u < |m.threads| && u != t ==> !Owns(m'.threads[u]);
      } else if Transitional(m.core.state) {
        var u :| 0 <= u < |m.threads| && Owns(m.threads[u]);
        assert m'.threads[u] == m.threads[u];
      } else {
        assert forall u :: 0 <= u < |m.threads| ==> !Owns(m.threads[u]);
      }
    }
  }

  /** The thread that owns the state, or any thread in a state nobody owns, leaves the log in
      agreement with where it stands then and with the state. */
  lemma ActorKeepsLog(core: Core, pc: Pc, t: nat, choice: Choice, log: seq<Event>, soon: seq<Event>)
    requires if Owns(pc) then OwnedState(pc) == core.state && OwnerLog(core, pc, t, log) else !Transitional(core.state)
    requires RestLog(core, log) && LogMoves(Act(core, pc, t, choice), log, soon)
    ensures var e := Act(core, pc, t, choice);
            (Owns(e.pc) ==> OwnerLog(e.core, e.pc, t, soon)) && RestLog(e.core, soon)
  {
    hide LastCall, LastInitialize;
  }

  /** Every other thread leaves the owner's facts alone. */
  lemma BystanderKeepsLog(core: Core, pc: Pc, t: nat, choice: Choice, owner: Pc, u: nat,
                          log: seq<Event>, soon: seq<Event>)
    requires !Owns(pc) && Owns(owner) && OwnedState(owner) == core.state && OwnerLog(core, owner, u, log)
    requires LogMoves(Act(core, pc, t, choice), log, soon)
    ensures var e := Act(core, pc, t, choice);
            !Owns(e.pc) && OwnerLog(e.core, owner, u, soon) && RestLog(e.core, soon)
  {
    hide LastCall, LastInitialize;
  }

  lemma StepKeepsLogged(m: Machine, move: Move)
    requires Inv(m)
    ensures Logged(Step(m, move))
  {
    hide WellOrdered, OwnerLog, RestLog, LogMoves, Act;
    if move.thread < |m.threads| {
      EmitKeeps(m, move);
      var t := move.thread;
      var pc := m.threads[t];
      var e := Act(m.core, pc, t, move.choice);
      var m' := Step(m, move);
      if !Owns(pc) && Transitional(m.core.state) {
        var u :| 0 <= u < |m.threads| && Owns(m.threads[u]);
        BystanderKeepsLog(m.core, pc, t, move.choice, m.threads[u], u, m.log, m'.log);
      } else {
        ActorKeepsLog(m.core, pc, t, move.choice, m.log, m'.log);
      }
      forall u | 0 <= u < |m.threads| && Owns(m'.threads[u])
        ensures OwnerLog(m'.core, m'.threads[u], u, m'.log)
      {
        if u != t {
          assert m'.threads[u] == m.threads[u];
          assert OwnedState(m.threads[u]) == m.core.state;
        }
      }
    }
  }

  lemma {:induction false} RunKeepsInv(threads: nat, configuration: Configuration, moves: seq<Move>)
    ensures Inv(Steps(Start(threads, configuration), moves))
  {
    if |moves| > 0 {
      RunKeepsInv(threads, configuration, moves[..|moves| - 1]);
      var m := Steps(Start(threads, configuration), moves[..|moves| - 1]);
      StepKeepsOwnership(m, moves[|moves| - 1]);
      StepKeepsLogged(m, moves[|moves| - 1]);
    }
  }

  // ---------------------------------------------------------------- theorems over all runs

  predicate IsCall(e: Event) {
    e.Began? || e.Ended?
  }

  lemma {:induction false} LastCallIsLast(log: seq<Event>, j: nat, i: nat)
    requires j < i <= |log| && IsCall(log[j])
    requires forall k :: j < k < i ==> !IsCall(log[k])
    ensures LastCall(log[..i]) == Some(log[j])
    decreases i
  {
    var prefix := log[..i];
    assert prefix[..i - 1] == log[..i - 1];
    if j < i - 1 {
      LastCallIsLast(log, j, i - 1);
    }
  }

  lemma {:induction false} LastCallPosition(log: seq<Event>, i: nat)
    requires i <= |log| && LastCall(log[..i]).Some?
    ensures exists j :: 0 <= j < i && Some(log[j]) == LastCall(log[..i]) && IsCall(log[j]) &&
                        forall k :: j < k < i ==> !IsCall(log[k])
    decreases i
  {
    var prefix := log[..i];
    assert prefix[..i - 1] == log[..i - 1];
    if !IsCall(log[i - 1]) {
      LastCallPosition(log, i - 1);
    }
  }

  /** Two platform calls never overlap: between any two beginnings the first call has ended,
      on the thread that began it. */
  lemma CallsNeverOverlap(threads: nat, configuration: Configuration, moves: seq<Move>, i: nat, j: nat)
    requires var log := Steps(Start(threads, configuration), moves).log;
             i < j < |log| && log[i].Began? && log[j].Began?
    ensures var log := Steps(Start(threads, configuration), moves).log;
            exists k :: i < k < j && log[k].Ended? && log[k].call == log[i].call && log[k].thread == log[i].thread
  {
    RunKeepsInv(threads, configuration, moves);
    var log := Steps(Start(threads, configuration), moves).log;
    hide Steps;
    var k := i + 1;
    while !IsCall(log[k])
      invariant i < k <= j
      invariant forall l :: i < l < k ==> !IsCall(log[l])
      decreases j - k
    {
      k := k + 1;
    }
    LastCallIsLast(log, i, k);
    assert Allowed(log[..k], log[k]);
  }

  /** The call before every Start is an Initialize that succeeded; before every Stop, a Start
      that succeeded. */
  lemma StartAndStopAreEarned(threads: nat, configuration: Configuration, moves: seq<Move>, i: nat)
    requires var log := Steps(Start(threads, configuration), moves).log;
             i < |log| && log[i].Began? && !log[i].call.InitializeCall?
    ensures var log := Steps(Start(threads, configuration), moves).log;
            exists j :: 0 <= j < i && log[j].Ended? && log[j].succeeded &&
                        (if log[i].call.StartCall? then log[j].call.InitializeCall? else log[j].call.StartCall?) &&
                        forall k :: j < k < i ==> !IsCall(log[k])
  {
    RunKeepsInv(threads, configuration, moves);
    var log := Steps(Start(threads, configuration), moves).log;
    assert Allowed(log[..i], log[i]);
    LastCallPosition(log, i);
  }

  /** Every dispatch is admitted after a successful Start with no platform call since, under the
      body limit of the last Initialize, which succeeded. */
  lemma DispatchUsesLastInitialize(threads: nat, configuration: Configuration, moves: seq<Move>, i: nat)
    requires var log := Steps(Start(threads, configuration), moves).log;
             i < |log| && log[i].Dispatched?
    ensures var log := Steps(Start(threads, configuration), moves).log;
            && EndedWell(LastCall(log[..i]), StartCall)
            && exists last: Configuration ::
                 && InitializedWell(LastInitialize(log[..i]), last)
                 && log[i].admission.Admitted?
                 && log[i].admission.maximumRequestBodyBytes == last.maximumRequestBodyBytes
  {
    RunKeepsInv(threads, configuration, moves);
    var log := Steps(Start(threads, configuration), moves).log;
    assert Allowed(log[..i], log[i]);
  }

  predicate Serving(state: ServerState) {
    state == Starting || state == Running || state == Stopping
  }

  lemma ServingStepKeeps(m: Machine, move: Move)
    requires Inv(m) && Serving(m.core.state)
    ensures Step(m, move).core.handler == m.core.handler
    ensures Step(m, move).core.configuration == m.core.configuration
  {
    hide OwnerLog, RestLog, WellOrdered;
  }

  /** From Start's claim to the end of Stopping, handler and configuration do not change: any
      stretch of a run that stays among Starting, Running and Stopping, and its last step out. */
  lemma {:induction false} ServingIsConstant(threads: nat, configuration: Configuration, moves: seq<Move>, from: nat)
    requires from <= |moves|
    requires forall n :: from <= n < |moves| ==> Serving(Steps(Start(threads, configuration), moves[..n]).core.state)
    ensures var first := Steps(Start(threads, configuration), moves[..from]).core;
            var last := Steps(Start(threads, configuration), moves).core;
            last.handler == first.handler && last.configuration == first.configuration
    decreases |moves|
  {
    if from == |moves| {
      assert moves[..from] == moves;
    } else {
      var shorter := moves[..|moves| - 1];
      assert forall n :: from <= n <= |shorter| ==> shorter[..n] == moves[..n];
      assert Serving(Steps(Start(threads, configuration), moves[..|shorter|]).core.state);
      ServingIsConstant(threads, configuration, shorter, from);
      RunKeepsInv(threads, configuration, shorter);
      ServingStepKeeps(Steps(Start(threads, configuration), shorter), moves[|moves| - 1]);
    }
  }

  // ---------------------------------------------------------------- what calls achieve

  /** A call on thread `t` and then as many of its steps, the platform answering `answer`. */
  function Alone(t: nat, choice: Choice, answer: bool, steps: nat): (moves: seq<Move>)
    ensures |moves| == steps + 1
  {
    if steps == 0 then [Move(t, choice)] else Alone(t, choice, answer, steps - 1) + [Move(t, Proceed(answer))]
  }

  lemma AloneStep(m: Machine, t: nat, choice: Choice, answer: bool, steps: nat)
    ensures Steps(m, Alone(t, choice, answer, steps)) ==
            if steps == 0 then Step(m, Move(t, choice))
            else Step(Steps(m, Alone(t, choice, answer, steps - 1)), Move(t, Proceed(answer)))
  {
    var moves := Alone(t, choice, answer, steps);
    if steps == 0 {
      assert moves[..0] == [];
    } else {
      assert moves[..|moves| - 1] == Alone(t, choice, answer, steps - 1);
    }
  }

  /** Initialize on a server that is Stopped, Ready or Faulted, left alone, resets the platform,
      initializes it, and makes the server Ready with that configuration, or Faulted with the old. */
  lemma InitializeRuns(m: Machine, t: nat, configuration: Configuration, answer: bool)
    requires t < |m.threads| && m.threads[t].Idle?
    requires m.core.state in {Stopped, Ready, Faulted}
    ensures var after := Steps(m, Alone(t, CallInitialize(configuration), answer, 4));
            var call := InitializeCall(configuration);
            && after.threads == m.threads
            && after.core == (if answer then Core(Ready, configuration, m.core.handler) else m.core.(state := Faulted))
            && after.log == m.log + [Reset(t), Began(call, t), Ended(call, t, answer)]
  {
    hide Steps, Alone, Step, Act;
    var choice, base := CallInitialize(configuration), m.threads;
    var call := InitializeCall(configuration);
    AloneStep(m, t, choice, answer, 0);
    var m0 := ThreadEnters(m, t, choice);
    AloneStep(m, t, choice, answer, 1);
    var m1 := ThreadMoves(m0, base, t, answer);
    AloneStep(m, t, choice, answer, 2);
    var m2 := ThreadMoves(m1, base, t, answer);
    AloneStep(m, t, choice, answer, 3);
    var m3 := ThreadMoves(m2, base, t, answer);
    AloneStep(m, t, choice, answer, 4);
    var m4 := ThreadMoves(m3, base, t, answer);
    assert base[t := Idle] == base;
    assert m3.log == m.log + [Reset(t), Began(call, t), Ended(call, t, answer)];
  }

  /** The first step of a call of an idle thread. */
  lemma ThreadEnters(m: Machine, t: nat, choice: Choice) returns (after: Machine)
    requires t < |m.threads| && m.threads[t].Idle?
    ensures after == Step(m, Move(t, choice))
    ensures var e := Enter(m.core, choice);
            after == Machine(e.core, m.threads[t := e.pc], if e.emitted == [] then m.log else m.log + [e.emitted[0]])
  {
    after := Step(m, Move(t, choice));
    var e := Enter(m.core, choice);
    assert e.emitted != [] ==> e.emitted == [e.emitted[0]];
  }

  /** One step of a busy thread, over the threads as they were before. */
  lemma ThreadMoves(m: Machine, base: seq<Pc>, t: nat, answer: bool) returns (after: Machine)
    requires t < |base| && |m.threads| == |base| && m.threads == base[t := m.threads[t]] && !m.threads[t].Idle?
    ensures after == Step(m, Move(t, Proceed(answer)))
    ensures var e := Advance(m.core, m.threads[t], t, answer);
            after == Machine(e.core, base[t := e.pc], if e.emitted == [] then m.log else m.log + [e.emitted[0]])
  {
    after := Step(m, Move(t, Proceed(answer)));
    var e := Advance(m.core, m.threads[t], t, answer);
    assert after.threads == base[t := e.pc];
    assert e.emitted != [] ==> e.emitted == [e.emitted[0]];
  }

  /** Start on a Ready server, left alone, starts the platform and makes the server Running, or
      Faulted if the platform refuses. */
  lemma StartRuns(m: Machine, t: nat, answer: bool)
    requires t < |m.threads| && m.threads[t].Idle? && m.core.state == Ready
    ensures var after := Steps(m, Alone(t, CallStart, answer, 3));
            && after.threads == m.threads
            && after.core == m.core.(state := if answer then Running else Faulted)
            && after.log == m.log + [Began(StartCall, t), Ended(StartCall, t, answer)]
  {
    hide Steps, Alone, Step, Act;
    var base := m.threads;
    AloneStep(m, t, CallStart, answer, 0);
    var m0 := ThreadEnters(m, t, CallStart);
    AloneStep(m, t, CallStart, answer, 1);
    var m1 := ThreadMoves(m0, base, t, answer);
    AloneStep(m, t, CallStart, answer, 2);
    var m2 := ThreadMoves(m1, base, t, answer);
    AloneStep(m, t, CallStart, answer, 3);
    var m3 := ThreadMoves(m2, base, t, answer);
    assert base[t := Idle] == base;
  }

  /** Stop on a Running server, left alone, stops the platform, and makes the server Stopped and
      resets the platform, or Faulted without a reset if the platform refuses. */
  lemma StopRuns(m: Machine, t: nat, answer: bool)
    requires t < |m.threads| && m.threads[t].Idle? && m.core.state == Running
    ensures var after := Steps(m, Alone(t, CallStop, answer, if answer then 4 else 3));
            && after.threads == m.threads
            && after.core == m.core.(state := if answer then Stopped else Faulted)
            && after.log == m.log + [Began(StopCall, t), Ended(StopCall, t, answer)] +
                            (if answer then [Reset(t)] else [])
  {
    hide Steps, Alone, Step, Act;
    var base := m.threads;
    AloneStep(m, t, CallStop, answer, 0);
    var m0 := ThreadEnters(m, t, CallStop);
    AloneStep(m, t, CallStop, answer, 1);
    var m1 := ThreadMoves(m0, base, t, answer);
    AloneStep(m, t, CallStop, answer, 2);
    var m2 := ThreadMoves(m1, base, t, answer);
    AloneStep(m, t, CallStop, answer, 3);
    var m3 := ThreadMoves(m2, base, t, answer);
    assert base[t := Idle] == base;
    if answer {
      AloneStep(m, t, CallStop, answer, 4);
      var m4 := ThreadMoves(m3, base, t, answer);
    }
  }

  /** Stop on a server that is Ready or Faulted only resets the platform; on a Stopped one it does
      nothing. */
  lemma StopResets(m: Machine, t: nat)
    requires t < |m.threads| && m.threads[t].Idle?
    ensures m.core.state in {Ready, Faulted} ==>
              var after := Steps(m, Alone(t, CallStop, true, 1));
              && after.threads == m.threads && after.core == m.core.(state := Stopped)
              && after.log == m.log + [Reset(t)]
    ensures m.core.state == Stopped ==> Steps(m, Alone(t, CallStop, true, 0)) == m
  {
    AloneStep(m, t, CallStop, true, 0);
    AloneStep(m, t, CallStop, true, 1);
    assert m.threads[t := Idle] == m.threads;
  }

  /** A running server admits every dispatch, with its handler and body limit; any other none. */
  lemma DispatchRuns(m: Machine, t: nat)
    requires t < |m.threads| && m.threads[t].Idle?
    ensures var after := Step(m, Move(t, CallDispatch));
            var limit := m.core.configuration.maximumRequestBodyBytes;
            && after.core == m.core && after.threads == m.threads
            && after.log == m.log + (if m.core.state != Running then []
                                     else [Dispatched(Admission.Admitted(m.core.handler, limit))])
  {
  }

  /** A handler can be set exactly while the server is not serving. */
  lemma SetHandlerRuns(m: Machine, t: nat, handler: Option<nat>)
    requires t < |m.threads| && m.threads[t].Idle?
    ensures var after := Step(m, Move(t, CallSetRequestHandler(handler)));
            && after.threads == m.threads && after.log == m.log
            && after.core == (if m.core.state in {Starting, Running, Stopping} then m.core
                              else m.core.(handler := handler))
  {
  }

  /** The whole cycle, from every point of every run at which a thread is idle and the server is
      Stopped, Ready or Faulted: with a willing platform, setting a handler, initializing, starting
      and dispatching reaches that handler under that configuration's limit. */
  lemma ServerServes(threads: nat, initial: Configuration, past: seq<Move>, t: nat, handler: nat, c: Configuration)
    requires var m := Steps(Start(threads, initial), past);
             t < |m.threads| && m.threads[t].Idle? && m.core.state in {Stopped, Ready, Faulted}
    ensures var m := Steps(Start(threads, initial), past);
            var set' := Step(m, Move(t, CallSetRequestHandler(Some(handler))));
            var ready := Steps(set', Alone(t, CallInitialize(c), true, 4));
            var running := Steps(ready, Alone(t, CallStart, true, 3));
            var served := Step(running, Move(t, CallDispatch));
            && running.core == Core(Running, c, Some(handler))
            && served.log == running.log + [Dispatched(Admission.Admitted(Some(handler), c.maximumRequestBodyBytes))]
  {
    var m := Steps(Start(threads, initial), past);
    hide Steps;
    SetHandlerRuns(m, t, Some(handler));
    var set' := Step(m, Move(t, CallSetRequestHandler(Some(handler))));
    InitializeRuns(set', t, c, true);
    var ready := Steps(set', Alone(t, CallInitialize(c), true, 4));
    StartRuns(ready, t, true);
    DispatchRuns(Steps(ready, Alone(t, CallStart, true, 3)), t);
  }

  /** The handler that was set last while the server was not serving. */
  function LastHandler(threads: nat, configuration: Configuration, moves: seq<Move>): Option<nat> {
    if |moves| == 0 then None
    else
      var shorter, last := moves[..|moves| - 1], moves[|moves| - 1];
      var before := Steps(Start(threads, configuration), shorter);
      if last.choice.CallSetRequestHandler? && last.thread < |before.threads| && before.threads[last.thread].Idle?
         && !Serving(before.core.state)
      then last.choice.handler
      else LastHandler(threads, configuration, shorter)
  }

  /** In every run the server keeps that handler, so a dispatch is admitted with it. */
  lemma {:induction false} HandlerIsTheLastSet(threads: nat, configuration: Configuration, moves: seq<Move>, t: nat)
    ensures var m := Steps(Start(threads, configuration), moves);
            && m.core.handler == LastHandler(threads, configuration, moves)
            && (t < |m.threads| && m.threads[t].Idle? && m.core.state == Running ==>
                  var served := Step(m, Move(t, CallDispatch)).log;
                  && |served| == |m.log| + 1
                  && served[|m.log|].Dispatched? && served[|m.log|].admission.Admitted?
                  && served[|m.log|].admission.handler == LastHandler(threads, configuration, moves))
  {
    if |moves| > 0 {
      HandlerIsTheLastSet(threads, configuration, moves[..|moves| - 1], t);
    }
  }

  /** What each claim answers: exactly from which states it succeeds, and the error elsewhere. */
  lemma ClaimsExactly(core: Core, handler: Option<nat>)
    ensures ClaimInitialize(core).1 ==
            (match core.state
             case Stopped => SUCCESS
             case Ready => SUCCESS
             case Faulted => SUCCESS
             case _ => Failure(InvalidState))
    ensures ClaimStart(core).1 ==
            (match core.state
             case Ready => SUCCESS
             case Running => Failure(AlreadyRunning)
             case _ => Failure(InvalidState))
    ensures ClaimStop(core).1 ==
            (match core.state
             case Stopped => AlreadyStopped
             case Running => MustStop
             case Ready => ResetOnly
             case Faulted => ResetOnly
             case _ => Refused)
    ensures SetHandler(core, handler).1 ==
            if core.state in {Stopped, Ready, Faulted, Initializing} then SUCCESS else Failure(InvalidState)
    ensures !ClaimInitialize(core).1.Succeeded() ==> ClaimInitialize(core).0 == core
    ensures !ClaimStart(core).1.Succeeded() ==> ClaimStart(core).0 == core
  {
  }

  // ---------------------------------------------------------------- the reset after Stop

  /** The platform is being initialized, or is initialized and that is not yet published. */
  predicate PlatformInitializing(pc: Pc) {
    pc.InitializeCalling? || (pc.InitializeReturned? && pc.succeeded)
  }

  /** A step that resets the platform while the server counts on it, or is about to. */
  predicate LiveReset(m: Machine, move: Move) {
    && move.thread < |m.threads|
    && Act(m.core, m.threads[move.thread], move.thread, move.choice).emitted == [Reset(move.thread)]
    && (|| m.core.state == Ready || Serving(m.core.state)
        || exists t :: 0 <= t < |m.threads| && PlatformInitializing(m.threads[t]))
  }

  /** Only the reset that ends a Stop can do that, never the one that begins an Initialize. */
  lemma LiveResetEndsStop(threads: nat, configuration: Configuration, moves: seq<Move>, move: Move)
    requires LiveReset(Steps(Start(threads, configuration), moves), move)
    ensures Steps(Start(threads, configuration), moves).threads[move.thread].ResetPending?
  {
    RunKeepsInv(threads, configuration, moves);
    hide Logged, Steps;
  }

  lemma {:induction false} StepsConcat(m: Machine, first: seq<Move>, second: seq<Move>)
    ensures Steps(m, first + second) == Steps(Steps(m, first), second)
    decreases |second|
  {
    var moves := first + second;
    if |second| == 0 {
      assert moves == first;
    } else {
      assert moves[..|moves| - 1] == first + second[..|second| - 1];
      StepsConcat(m, first, second[..|second| - 1]);
    }
  }

  /** One thread stops a ready server and is about to reset the platform; another initializes in
      between; the reset then hits a server that is Ready. */
  lemma TwoThreadsResetLive(threads: nat, configuration: Configuration, i: nat, s: nat)
    returns (moves: seq<Move>, move: Move)
    requires i < threads && s < threads && i != s
    ensures LiveReset(Steps(Start(threads, configuration), moves), move)
    ensures Obeys(moves, iset{i}, iset{s})
  {
    hide Steps, Alone, Step, Act;
    var start := Start(threads, configuration);
    var choice := CallInitialize(configuration);
    var first, stop := Alone(i, choice, true, 4), Alone(s, CallStop, true, 0);
    InitializeRuns(start, i, configuration, true);
    var ready := Steps(start, first);
    AloneStep(ready, s, CallStop, true, 0);
    var stopped := ThreadEnters(ready, s, CallStop);
    InitializeRuns(stopped, i, configuration, true);
    StepsConcat(start, first, stop);
    StepsConcat(start, first + stop, first);
    moves, move := first + stop + first, Move(s, Proceed(true));
    ResetIsLive(Steps(start, moves), s);
    AloneObeys(i, choice, true, 4);
    AloneObeys(s, CallStop, true, 0);
  }

  lemma ResetIsLive(m: Machine, s: nat)
    requires s < |m.threads| && m.threads[s].ResetPending? && m.core.state == Ready
    ensures LiveReset(m, Move(s, Proceed(true)))
  {
  }

  lemma {:induction false} AloneObeys(t: nat, choice: Choice, answer: bool, steps: nat)
    ensures var moves := Alone(t, choice, answer, steps);
            moves[0] == Move(t, choice) && forall j :: 0 < j < |moves| ==> moves[j] == Move(t, Proceed(answer))
  {
    if steps > 0 {
      var shorter, moves := Alone(t, choice, answer, steps - 1), Alone(t, choice, answer, steps);
      AloneObeys(t, choice, answer, steps - 1);
      assert moves == shorter + [Move(t, Proceed(answer))];
      forall j | 0 < j < |moves| ensures moves[j] == Move(t, Proceed(answer)) {
        if j < steps {
          assert moves[j] == shorter[j];
        }
      }
    }
  }

  // ---------------------------------------------------------------- who must do what for it

  /** Move `j` calls Initialize on another existing thread while `t` is about to reset. */
  ghost predicate InitializesMeanwhile(threads: nat, configuration: Configuration, moves: seq<Move>, t: nat, j: nat) {
    && j < |moves|
    && moves[j].choice.CallInitialize? && moves[j].thread < threads && moves[j].thread != t
    && var before := Steps(Start(threads, configuration), moves[..j]);
       t < |before.threads| && before.threads[t].ResetPending?
  }

  /** A thread that is about to reset finds the server Stopped, unless another has called
      Initialize since. */
  lemma {:induction false} PendingReset(threads: nat, configuration: Configuration, moves: seq<Move>, t: nat)
    requires var m := Steps(Start(threads, configuration), moves);
             t < |m.threads| && m.threads[t].ResetPending?
    ensures || Steps(Start(threads, configuration), moves).core.state == Stopped
            || exists j: nat :: InitializesMeanwhile(threads, configuration, moves, t, j)
  {
    if |moves| > 0 {
      var shorter, last := moves[..|moves| - 1], moves[|moves| - 1];
      var m := Steps(Start(threads, configuration), shorter);
      ThreadCountFixed(Start(threads, configuration), shorter);
      RunKeepsInv(threads, configuration, shorter);
      if t < |m.threads| && m.threads[t].ResetPending? {
        PendingReset(threads, configuration, shorter, t);
        if j: nat :| InitializesMeanwhile(threads, configuration, shorter, t, j) {
          assert moves[..j] == shorter[..j];
          assert InitializesMeanwhile(threads, configuration, moves, t, j);
        } else {
          hide Steps, Logged;
          LeavesStopped(m, last, t);
          if Step(m, last).core.state != Stopped {
            assert InitializesMeanwhile(threads, configuration, moves, t, |shorter|);
          }
        }
      } else {
        hide Steps, Logged;
        StartsPending(m, last, t);
      }
    }
  }

  /** A step leaves Stopped only by calling Initialize. */
  lemma LeavesStopped(m: Machine, move: Move, t: nat)
    requires Inv(m) && m.core.state == Stopped && t < |m.threads| && m.threads[t].ResetPending?
    ensures Step(m, move).core.state == Stopped ||
            (move.choice.CallInitialize? && move.thread < |m.threads| && move.thread != t)
  {
    hide Logged;
  }

  /** A thread gets to its reset by leaving the server Stopped. */
  lemma StartsPending(m: Machine, move: Move, t: nat)
    requires t < |m.threads| && !m.threads[t].ResetPending? && Step(m, move).threads[t].ResetPending?
    ensures Step(m, move).core.state == Stopped
  {
  }

  /** Every live reset by a thread comes after another thread has called Initialize, and that
      happened while the first one was already about to reset. */
  lemma LiveResetMeansInitialize(threads: nat, configuration: Configuration, moves: seq<Move>, move: Move)
    requires LiveReset(Steps(Start(threads, configuration), moves), move)
    ensures exists j: nat :: InitializesMeanwhile(threads, configuration, moves, move.thread, j)
  {
    LiveResetEndsStop(threads, configuration, moves, move);
    PendingReset(threads, configuration, moves, move.thread);
    RunKeepsInv(threads, configuration, moves);
    hide Steps, Logged, InitializesMeanwhile;
  }

  predicate InStop(pc: Pc) {
    pc.StopClaimed? || pc.StopCalling? || pc.StopReturned? || pc.ResetPending?
  }

  /** And the thread that resets has called Stop. */
  lemma {:induction false} StopWasCalled(threads: nat, configuration: Configuration, moves: seq<Move>, t: nat)
    requires var m := Steps(Start(threads, configuration), moves); t < |m.threads| && InStop(m.threads[t])
    ensures exists j :: 0 <= j < |moves| && moves[j] == Move(t, CallStop)
  {
    if |moves| > 0 {
      var shorter, last := moves[..|moves| - 1], moves[|moves| - 1];
      var m := Steps(Start(threads, configuration), shorter);
      if InStop(m.threads[t]) {
        StopWasCalled(threads, configuration, shorter, t);
        var j :| 0 <= j < |shorter| && shorter[j] == Move(t, CallStop);
        assert moves[j] == Move(t, CallStop);
      } else {
        assert last == Move(t, CallStop);
      }
    }
  }

  /** Only these threads call Initialize, and only those call Stop. */
  ghost predicate Obeys(moves: seq<Move>, initializers: iset<nat>, stoppers: iset<nat>) {
    forall j :: 0 <= j < |moves| ==>
      && (moves[j].choice.CallInitialize? ==> moves[j].thread in initializers)
      && (moves[j].choice.CallStop? ==> moves[j].thread in stoppers)
  }

  ghost predicate LiveResetPossible(threads: nat, configuration: Configuration, initializers: iset<nat>,
                                    stoppers: iset<nat>)
  {
    exists moves: seq<Move>, move: Move ::
      Obeys(moves, initializers, stoppers) && LiveReset(Steps(Start(threads, configuration), moves), move)
  }

  /** With these threads allowed to initialize and those to stop, however many others start,
      dispatch and set handlers, a live reset is possible exactly when one thread may stop and a
      different one may initialize. */
  lemma LiveResetExactly(threads: nat, configuration: Configuration, initializers: iset<nat>, stoppers: iset<nat>)
    ensures LiveResetPossible(threads, configuration, initializers, stoppers) <==>
            exists i: nat, s: nat :: i < threads && s < threads && i in initializers && s in stoppers && i != s
  {
    if i: nat, s: nat :| i < threads && s < threads && i in initializers && s in stoppers && i != s {
      var moves, move := TwoThreadsResetLive(threads, configuration, i, s);
      assert Obeys(moves, initializers, stoppers);
    }
    if moves: seq<Move>, move: Move :|
      Obeys(moves, initializers, stoppers) && LiveReset(Steps(Start(threads, configuration), moves), move)
    {
      LiveResetMeansInitialize(threads, configuration, moves, move);
      LiveResetEndsStop(threads, configuration, moves, move);
      StopWasCalled(threads, configuration, moves, move.thread);
      ThreadCountFixed(Start(threads, configuration), moves);
      var j: nat :| InitializesMeanwhile(threads, configuration, moves, move.thread, j);
      assert moves[j].thread in initializers && move.thread in stoppers;
    }
  }

  lemma {:induction false} ThreadCountFixed(m: Machine, moves: seq<Move>)
    ensures |Steps(m, moves).threads| == |m.threads|
  {
    if |moves| > 0 {
      ThreadCountFixed(m, moves[..|moves| - 1]);
    }
  }

  /** With no such rule, it takes two threads. */
  lemma StaleResetExactly(threads: nat, configuration: Configuration)
    ensures (exists moves: seq<Move>, move: Move :: LiveReset(Steps(Start(threads, configuration), moves), move)) <==>
            threads >= 2
  {
    if threads >= 2 {
      var moves, move := TwoThreadsResetLive(threads, configuration, 0, 1);
    }
    if moves: seq<Move>, move: Move :| LiveReset(Steps(Start(threads, configuration), moves), move) {
      LiveResetMeansInitialize(threads, configuration, moves, move);
      ThreadCountFixed(Start(threads, configuration), moves);
    }
  }
}
