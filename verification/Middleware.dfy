/** MiddlewarePipeline: immutable published chains, and one-shot continuations over them. */
module Middleware {
  import opened WebTypes

  // ---------------------------------------------------------------- chains as values

  /** A registered object under its handle; a null object is None. */
  datatype Entry = Entry(handle: nat, target: Option<nat>)

  datatype ChainValue = ChainValue(entries: seq<Entry>, terminal: Option<nat>)

  const EMPTY_CHAIN := ChainValue([], None)

  function Appended(c: ChainValue, handle: nat, target: nat): ChainValue {
    c.(entries := c.entries + [Entry(handle, Some(target))])
  }

  function FindHandle(entries: seq<Entry>, handle: nat, from: nat): (r: Option<nat>)
    ensures r.Some? ==> from <= r.value < |entries| && entries[r.value].handle == handle
    ensures r.Some? ==> forall k :: from <= k < r.value ==> entries[k].handle != handle
    ensures r.None? ==> forall k :: from <= k < |entries| ==> entries[k].handle != handle
    decreases |entries| - from
  {
    if from >= |entries| then None
    else if entries[from].handle == handle then Some(from)
    else FindHandle(entries, handle, from + 1)
  }

  function WithoutIndex(entries: seq<Entry>, i: nat): seq<Entry>
    requires i < |entries|
  {
    entries[..i] + entries[i + 1..]
  }

  /** Remove: handle 0 is the null handle. */
  function Removed(c: ChainValue, handle: nat): (ChainValue, bool) {
    var i := FindHandle(c.entries, handle, 0);
    if handle == 0 || i.None? then (c, false) else (c.(entries := WithoutIndex(c.entries, i.value)), true)
  }

  function Cleared(c: ChainValue): ChainValue {
    c.(entries := [])
  }

  // ---------------------------------------------------------------- what the changes mean

  predicate Published(entries: seq<Entry>, handle: nat) {
    exists i :: 0 <= i < |entries| && entries[i].handle == handle
  }

  predicate DistinctEntries(entries: seq<Entry>) {
    forall i, j :: 0 <= i < j < |entries| ==> entries[i].handle != entries[j].handle
  }

  /** The entries with another handle, in order. */
  function Others(entries: seq<Entry>, handle: nat): seq<Entry> {
    if |entries| == 0 then []
    else if entries[0].handle == handle then Others(entries[1..], handle)
    else [entries[0]] + Others(entries[1..], handle)
  }

  /** An added object comes last, behind everything that was there, and before the same terminal. */
  lemma AddedIsLast(c: ChainValue, handle: nat, target: nat)
    ensures var longer := Appended(c, handle, target);
            && |longer.entries| == |c.entries| + 1 && longer.terminal == c.terminal
            && (forall k :: 0 <= k < |c.entries| ==> longer.entries[k] == c.entries[k])
            && longer.entries[|c.entries|] == Entry(handle, Some(target))
  {
  }

  lemma {:induction false} OthersAll(entries: seq<Entry>, handle: nat)
    requires !Published(entries, handle)
    ensures Others(entries, handle) == entries
  {
    if |entries| > 0 {
      assert entries[0].handle != handle;
      assert forall i :: 0 <= i < |entries| - 1 ==> entries[1..][i] == entries[i + 1];
      OthersAll(entries[1..], handle);
    }
  }

  lemma {:induction false} OthersWithout(entries: seq<Entry>, i: nat)
    requires i < |entries| && DistinctEntries(entries)
    ensures Others(entries, entries[i].handle) == WithoutIndex(entries, i)
  {
    var rest := entries[1..];
    assert forall k :: 0 <= k < |rest| ==> rest[k] == entries[k + 1];
    if i == 0 {
      OthersAll(rest, entries[0].handle);
      assert WithoutIndex(entries, 0) == rest;
    } else {
      OthersWithout(rest, i - 1);
      assert WithoutIndex(entries, i) == [entries[0]] + WithoutIndex(rest, i - 1);
    }
  }

  /** Removing a published handle takes its entry out and leaves all others in their order, before
      the same terminal; any other handle, and the null handle, changes nothing. */
  lemma RemovedLeavesOthers(c: ChainValue, handle: nat)
    requires DistinctEntries(c.entries)
    ensures var (shorter, removed) := Removed(c, handle);
            && (removed <==> handle != 0 && Published(c.entries, handle))
            && shorter == if removed then ChainValue(Others(c.entries, handle), c.terminal) else c
  {
    var i := FindHandle(c.entries, handle, 0);
    if i.Some? {
      OthersWithout(c.entries, i.value);
      assert c.entries[i.value].handle == handle;
    }
  }

  /** Removing what was just added gives the chain back. */
  lemma RemoveUndoesAdd(c: ChainValue, handle: nat, target: nat)
    requires handle != 0 && !Published(c.entries, handle)
    ensures Removed(Appended(c, handle, target), handle) == (c, true)
  {
    var longer := Appended(c, handle, target).entries;
    assert forall k :: 0 <= k < |c.entries| ==> longer[k] == c.entries[k] && longer[k].handle != handle;
    assert longer[|c.entries|].handle == handle;
    assert FindHandle(longer, handle, 0) == Some(|c.entries|);
    assert WithoutIndex(longer, |c.entries|) == c.entries;
  }

  // ---------------------------------------------------------------- the pipeline object

  class Chain {
    var entries: seq<Entry>
    var terminal: Option<nat>

    ghost function View(): ChainValue
      reads this
    {
      ChainValue(entries, terminal)
    }

    constructor ()
      ensures View() == EMPTY_CHAIN
    {
      entries, terminal := [], None;
    }

    constructor Clone(other: Chain)
      ensures View() == other.View()
    {
      entries, terminal := other.entries, other.terminal;
    }
  }

  /** Every mutation edits a private clone and publishes it: `modifies this` alone is the proof
      that no chain that was ever published is written to. */
  class MiddlewarePipeline {
    var chain: Chain
    var nextHandle: nat

    constructor ()
      ensures fresh(chain) && chain.View() == EMPTY_CHAIN && nextHandle == 1
    {
      chain := new Chain();
      nextHandle := 1;
    }

    method CloneLocked() returns (next: Chain)
      ensures fresh(next) && next.View() == chain.View()
    {
      next := new Chain.Clone(chain);
    }

    method Add(middleware: nat) returns (handle: nat)
      modifies this
      ensures handle == old(nextHandle) && nextHandle == handle + 1
      ensures fresh(chain) && chain.View() == Appended(old(chain.View()), handle, middleware)
    {
      handle := nextHandle;
      nextHandle := nextHandle + 1;
      var next := CloneLocked();
      next.entries := next.entries + [Entry(handle, Some(middleware))];
      chain := next;
    }

    method Remove(handle: nat) returns (removed: bool)
      modifies this`chain
      ensures (chain.View(), removed) == Removed(old(chain.View()), handle)
      ensures if removed then fresh(chain) else chain == old(chain)
    {
      if handle == 0 {
        return false;
      }
      var next := CloneLocked();
      for i := 0 to |next.entries|
        invariant next.entries == old(chain.entries)
        invariant FindHandle(next.entries, handle, 0) == FindHandle(next.entries, handle, i)
      {
        if next.entries[i].handle == handle {
          next.entries := next.entries[..i] + next.entries[i + 1..];
          chain := next;
          return true;
        }
      }
      return false;
    }

    method Clear()
      modifies this`chain
      ensures fresh(chain) && chain.View() == Cleared(old(chain.View()))
    {
      var next := new Chain();
      next.terminal := chain.terminal;
      chain := next;
    }

    method SetTerminal(terminal: Option<nat>)
      modifies this`chain
      ensures fresh(chain) && chain.View() == old(chain.View()).(terminal := terminal)
    {
      var next := CloneLocked();
      next.terminal := terminal;
      chain := next;
    }

    method Count() returns (count: nat)
      ensures count == |chain.View().entries|
    {
      count := |chain.entries|;
    }
  }

  // ---------------------------------------------------------------- what middleware may do

  datatype Action =
    | CallNext(next: nat)
    | CallHandle
    | CallAdd(target: nat)
    | CallRemove(handle: nat)
    | CallClear
    | CallSetTerminal(terminal: Option<nat>)
    | Finish(result: HandlerResult)

  datatype Reply = Result(result: HandlerResult) | Handle(handle: nat) | Flag(flag: bool) | Done

  /** Any middleware whatsoever: what object `o` does in its `s`-th activation after the replies
      seen so far. Handles of continuations are numbers, so an activation may call a
      continuation it was lent, or one of its own any number of times. */
  type Behaviour = (nat, nat, seq<Reply>) -> Action

  /** The bodies of every invocation, told apart by where it was started: at which activation and
      turn of which invocation, and so on up to the outermost. */
  type Behaviours = seq<nat> -> Behaviour

  const REFUSED := HandlerFailure(InvalidState)

  // ---------------------------------------------------------------- one invocation, imperatively

  /** A continuation: where it leads and whether it has been used. */
  datatype NextState = NextState(index: nat, invoked: bool)

  /** An index of the chain that was entered, and the object that ran. */
  datatype Entrance = Entrance(index: nat, target: nat)

  /** The object at an index of a chain: a middleware, or the terminal after the last one. */
  function ObjectAt(c: ChainValue, index: nat): Option<nat> {
    if index < |c.entries| then c.entries[index].target else c.terminal
  }

  /** The chain's objects from the first one on, in order, each once, the terminal last. */
  predicate InOrder(c: ChainValue, entered: seq<Entrance>) {
    && |entered| <= |c.entries| + 1
    && forall k :: 0 <= k < |entered| ==> entered[k].index == k && Some(entered[k].target) == ObjectAt(c, k)
  }

  /** Along these replies the body goes on. */
  predicate GoesOn(behaviour: Behaviour, target: nat, serial: nat, replies: seq<Reply>) {
    forall q :: 0 <= q < |replies| ==> !behaviour(target, serial, replies[..q]).Finish?
  }

  /** The result is the one with which the body finishes; at most `limit` actions are followed. */
  ghost predicate EndsWith(behaviour: Behaviour, target: nat, serial: nat, limit: nat, result: HandlerResult) {
    exists replies: seq<Reply> ::
      && |replies| <= limit && GoesOn(behaviour, target, serial, replies)
      && if |replies| < limit then behaviour(target, serial, replies) == Finish(result) else result == REFUSED
  }

  lemma GoesOnNowhere(behaviour: Behaviour, target: nat, serial: nat)
    ensures GoesOn(behaviour, target, serial, [])
  {
  }

  lemma GoesOnStep(behaviour: Behaviour, target: nat, serial: nat, replies: seq<Reply>, reply: Reply)
    requires GoesOn(behaviour, target, serial, replies) && !behaviour(target, serial, replies).Finish?
    ensures GoesOn(behaviour, target, serial, replies + [reply])
  {
    var longer := replies + [reply];
    forall q | 0 <= q < |longer| ensures !behaviour(target, serial, longer[..q]).Finish? {
      assert longer[..q] == replies[..q];
    }
    assert replies[..|replies|] == replies;
  }

  lemma GoesOnToEnd(behaviour: Behaviour, target: nat, serial: nat, limit: nat, replies: seq<Reply>)
    requires |replies| <= limit && GoesOn(behaviour, target, serial, replies)
    ensures |replies| < limit && behaviour(target, serial, replies).Finish? ==>
              EndsWith(behaviour, target, serial, limit, behaviour(target, serial, replies).result)
    ensures |replies| == limit ==> EndsWith(behaviour, target, serial, limit, REFUSED)
  {
  }

  /** A body that finishes at once gives its own result. */
  lemma EndsAtOnce(behaviour: Behaviour, target: nat, serial: nat, limit: nat, result: HandlerResult)
    requires limit > 0 && EndsWith(behaviour, target, serial, limit, result)
    requires behaviour(target, serial, []).Finish?
    ensures behaviour(target, serial, []) == Finish(result)
  {
    var replies: seq<Reply> :|
      && |replies| <= limit && GoesOn(behaviour, target, serial, replies)
      && if |replies| < limit then behaviour(target, serial, replies) == Finish(result) else result == REFUSED;
    assert replies[..0] == [];
  }

  /** The middleware at `k` calls its own continuation once and passes the answer on. */
  ghost predicate PassesOn(c: ChainValue, behaviour: Behaviour, k: nat)
    requires k < |c.entries|
  {
    && c.entries[k].target.Some?
    && var o := c.entries[k].target.value;
       && behaviour(o, k + 1, []) == CallNext(k)
       && forall r :: behaviour(o, k + 1, [Result(r)]) == Finish(r)
  }

  /** From `from` on every middleware passes on, and the terminal finishes at once. */
  ghost predicate PassesDown(c: ChainValue, behaviour: Behaviour, limit: nat, from: nat) {
    && limit >= 2 && from <= |c.entries|
    && c.terminal.Some? && behaviour(c.terminal.value, |c.entries| + 1, []).Finish?
    && forall k :: from <= k < |c.entries| ==> PassesOn(c, behaviour, k)
  }

  lemma PassesDownStep(c: ChainValue, behaviour: Behaviour, limit: nat, from: nat)
    requires PassesDown(c, behaviour, limit, from)
    ensures limit >= 2 && ObjectAt(c, from).Some?
    ensures from < |c.entries| ==> PassesOn(c, behaviour, from) && PassesDown(c, behaviour, limit, from + 1)
    ensures from == |c.entries| ==> behaviour(ObjectAt(c, from).value, from + 1, []) == Finish(Outcome(c, behaviour))
  {
    assert from < |c.entries| ==> PassesOn(c, behaviour, from);
  }

  /** What that terminal finishes with. */
  function Outcome(c: ChainValue, behaviour: Behaviour): HandlerResult {
    if c.terminal.None? then NOT_HANDLED
    else
      match behaviour(c.terminal.value, |c.entries| + 1, [])
      case Finish(outcome) => outcome
      case _ => NOT_HANDLED
  }

  lemma InOrderExtends(chain: ChainValue, entered: seq<Entrance>, e: Entrance)
    requires InOrder(chain, entered) && |entered| <= |chain.entries|
    requires e.index == |entered| && Some(e.target) == ObjectAt(chain, e.index)
    ensures InOrder(chain, entered + [e])
  {
  }

  /** After `entered` entrances into a chain of that size, the continuations lead to different
      indexes behind it, and only an unused one to the next. */
  predicate NextsFit(nexts: seq<NextState>, size: nat, entered: nat) {
    && (forall n :: 0 <= n < |nexts| ==> 1 <= nexts[n].index <= size && nexts[n].index <= entered)
    && (forall n :: 0 <= n < |nexts| && !nexts[n].invoked ==> nexts[n].index == entered)
    && (forall m, n :: 0 <= m < n < |nexts| ==> nexts[m].index != nexts[n].index)
  }

  predicate AllInvoked(nexts: seq<NextState>) {
    forall n :: 0 <= n < |nexts| ==> nexts[n].invoked
  }

  /** Entering a middleware makes one continuation, entering the terminal none. */
  lemma NextsEnter(nexts: seq<NextState>, size: nat, entered: nat)
    requires NextsFit(nexts, size, entered) && AllInvoked(nexts)
    ensures NextsFit(nexts, size, entered + 1)
    ensures entered < size ==> NextsFit(nexts + [NextState(entered + 1, false)], size, entered + 1)
  {
  }

  lemma NextsUse(nexts: seq<NextState>, size: nat, entered: nat, next: nat)
    requires NextsFit(nexts, size, entered) && next < |nexts| && !nexts[next].invoked
    ensures var used := nexts[next := NextState(nexts[next].index, true)];
            nexts[next].index == entered <= size && AllInvoked(used) && NextsFit(used, size, entered)
  {
  }

  lemma LastEntered(c: ChainValue, entered: seq<Entrance>)
    requires InOrder(c, entered) && |entered| > 0
    ensures |entered| <= |c.entries| + 1
    ensures ObjectAt(c, |entered| - 1) == Some(entered[|entered| - 1].target)
  {
  }

  /** One request travelling down one published chain. */
  class Invocation {
    const chain: Chain
    const behaviours: Behaviours
    const path: seq<nat>
    const limit: nat
    const depth: nat
    var nexts: seq<NextState>
    var entered: seq<Entrance>

    /** The entered indexes are 0, 1, 2, ... in order, and the unused continuation, if there is
        one, leads exactly to the first index not entered yet. */
    ghost predicate Valid()
      reads this, chain
    {
      && InOrder(chain.View(), entered)
      && NextsFit(nexts, |chain.entries|, |entered|)
    }

    /** Handle's start: the chain current at that point. `limit` bounds the actions of one
        activation, and `depth` how deeply Handle is entered again. */
    constructor (pipeline: MiddlewarePipeline, behaviours: Behaviours, path: seq<nat>, limit: nat, depth: nat)
      ensures chain == pipeline.chain && entered == [] && nexts == [] && Valid()
      ensures this.behaviours == behaviours && this.path == path && this.limit == limit && this.depth == depth
    {
      this.chain, this.behaviours, this.path := pipeline.chain, behaviours, path;
      this.limit, this.depth := limit, depth;
      nexts, entered := [], [];
    }

    /** What is entered from `index` on passes the terminal's outcome up. */
    ghost predicate Descends(index: nat)
      reads this, chain
    {
      PassesDown(chain.View(), behaviours(path), limit, index) && |nexts| == index
    }

    /** A fresh continuation that leads there. */
    ghost predicate LeadsDown(next: nat)
      reads this, chain
    {
      next < |nexts| && !nexts[next].invoked && Descends(nexts[next].index)
    }

    ghost predicate Arrived(result: HandlerResult)
      reads this, chain
    {
      result == Outcome(chain.View(), behaviours(path)) && |entered| == |chain.entries| + 1
    }

    /** Invocation::InvokeAt. */
    method InvokeAt(pipeline: MiddlewarePipeline, index: nat) returns (result: HandlerResult)
      requires Valid() && index == |entered| <= |chain.entries|
      requires AllInvoked(nexts)
      modifies this`nexts, this`entered, pipeline
      ensures Valid() && |entered| >= |old(entered)| && |nexts| >= |old(nexts)|
      ensures match ObjectAt(chain.View(), index)
              case Some(o) => |entered| > index && EndsWith(behaviours(path), o, index + 1, limit, result)
              case None =>
                entered == old(entered) && nexts == old(nexts) &&
                result == if index < |chain.entries| then REFUSED else NOT_HANDLED
      ensures old(Descends(index)) ==> Arrived(result)
      decreases depth, |chain.entries| + 1 - |entered|, 0
    {
      hide PassesDown, PassesOn, Outcome, EndsWith, InOrder, NextsFit, AllInvoked;
      NextsEnter(nexts, |chain.entries|, |entered|);
      if Descends(index) {
        PassesDownStep(chain.View(), behaviours(path), limit, index);
      }
      if ObjectAt(chain.View(), index).Some? {
        InOrderExtends(chain.View(), entered, Entrance(index, ObjectAt(chain.View(), index).value));
      }
      if index < |chain.entries| {
        var middleware := chain.entries[index].target;
        if middleware.None? {
          return HandlerFailure(InvalidState);
        }
        entered := entered + [Entrance(index, middleware.value)];
        nexts := nexts + [NextState(index + 1, false)];
        result := RunObject(pipeline, middleware.value);
      } else {
        if chain.terminal.None? {
          return NOT_HANDLED;
        }
        entered := entered + [Entrance(index, chain.terminal.value)];
        result := RunObject(pipeline, chain.terminal.value);
      }
    }

    /** Next::Invoke. */
    method InvokeNext(pipeline: MiddlewarePipeline, next: nat) returns (result: HandlerResult)
      requires Valid() && next < |nexts|
      modifies this`nexts, this`entered, pipeline
      ensures Valid() && |entered| >= |old(entered)| && |nexts| >= |old(nexts)|
      ensures old(nexts[next].invoked) ==>
                result == REFUSED && entered == old(entered) && nexts == old(nexts) &&
                pipeline.chain == old(pipeline.chain) && pipeline.nextHandle == old(pipeline.nextHandle)
      ensures !old(nexts[next].invoked) ==>
                var index := old(nexts[next].index);
                match ObjectAt(chain.View(), index)
                case Some(o) => |entered| > index && EndsWith(behaviours(path), o, index + 1, limit, result)
                case None => result == if index < |chain.entries| then REFUSED else NOT_HANDLED
      ensures old(LeadsDown(next)) ==> Arrived(result)
      decreases depth, |chain.entries| + 1 - |entered|, 1
    {
      hide PassesDown, Outcome, EndsWith, InOrder, NextsFit, AllInvoked;
      if nexts[next].invoked {
        return HandlerFailure(InvalidState);
      }
      NextsUse(nexts, |chain.entries|, |entered|, next);
      var index := nexts[next].index;
      nexts := nexts[next := NextState(index, true)];
      result := InvokeAt(pipeline, index);
    }

    /** The object entered last is about to start on a request that everything after it passes
        down to the terminal. */
    ghost predicate Starts()
      reads this, chain
    {
      var e, n := |entered|, |chain.entries|;
      && e > 0 && PassesDown(chain.View(), behaviours(path), limit, e - 1)
      && (e <= n ==> |nexts| == e && nexts[e - 1] == NextState(e, false))
    }

    /** A middleware or terminal body: arbitrary actions, one after the other, until it finishes. */
    method RunObject(pipeline: MiddlewarePipeline, target: nat) returns (result: HandlerResult)
      requires Valid() && |entered| > 0 && entered[|entered| - 1].target == target
      modifies this`nexts, this`entered, pipeline
      ensures Valid() && |entered| >= |old(entered)| && |nexts| >= |old(nexts)|
      ensures EndsWith(behaviours(path), target, old(|entered|), limit, result)
      ensures old(Starts()) ==> Arrived(result)
      decreases depth, |chain.entries| + 1 - |entered|, 3
    {
      hide PassesDown, Outcome, InOrder, EndsWith, GoesOn, NextsFit;
      var serial := |entered|;
      var replies: seq<Reply> := [];
      GoesOnNowhere(behaviours(path), target, serial);
      LastEntered(chain.View(), entered);
      if Starts() {
        PassesDownStep(chain.View(), behaviours(path), limit, serial - 1);
      }
      for turn := 0 to limit
        invariant Valid() && |entered| >= |old(entered)| && |nexts| >= |old(nexts)|
        invariant |replies| == turn && GoesOn(behaviours(path), target, serial, replies)
        invariant turn == 0 ==> entered == old(entered) && nexts == old(nexts)
        invariant turn > 0 && old(Starts()) ==>
                    turn == 1 && serial <= |chain.entries| && replies[0].Result? && Arrived(replies[0].result)
      {
        GoesOnToEnd(behaviours(path), target, serial, limit, replies);
        var action := behaviours(path)(target, serial, replies);
        assert old(Starts()) && turn == 1 ==> replies == [Result(replies[0].result)];
        if action.Finish? {
          return action.result;
        }
        var reply := Perform(pipeline, action, path + [serial, turn]);
        GoesOnStep(behaviours(path), target, serial, replies, reply);
        replies := replies + [reply];
      }
      GoesOnToEnd(behaviours(path), target, serial, limit, replies);
      return REFUSED;
    }

    /** One action of a body, other than finishing: it may call continuations, change the pipeline,
        or call Handle, which is an invocation of its own on the chain current then. */
    method Perform(pipeline: MiddlewarePipeline, action: Action, nested: seq<nat>) returns (reply: Reply)
      requires Valid() && !action.Finish?
      modifies this`nexts, this`entered, pipeline
      ensures Valid() && |entered| >= |old(entered)| && |nexts| >= |old(nexts)|
      ensures action.CallNext? ==> reply.Result?
      ensures action.CallNext? && old(action.next >= |nexts| || nexts[action.next].invoked) ==>
                reply == Result(REFUSED)
      ensures match action
              case CallAdd(added) =>
                pipeline.chain.View() == Appended(old(pipeline.chain.View()), old(pipeline.nextHandle), added) &&
                reply == Handle(old(pipeline.nextHandle))
              case CallRemove(handle) =>
                var (chain, removed) := Removed(old(pipeline.chain.View()), handle);
                pipeline.chain.View() == chain && reply == Flag(removed)
              case CallClear => pipeline.chain.View() == Cleared(old(pipeline.chain.View())) && reply == Done
              case CallSetTerminal(terminal) =>
                pipeline.chain.View() == old(pipeline.chain.View()).(terminal := terminal) && reply == Done
              case CallHandle =>
                && reply.Result?
                && (depth > 0 ==>
                      match ObjectAt(old(pipeline.chain.View()), 0)
                      case Some(o) => EndsWith(behaviours(nested), o, 1, limit, reply.result)
                      case None => reply.result == if |old(pipeline.chain.entries)| > 0 then REFUSED else NOT_HANDLED)
              case _ => true
      ensures old(action.CallNext? && LeadsDown(action.next)) ==> Arrived(reply.result)
      decreases depth, |chain.entries| + 1 - |entered|, 2
    {
      hide PassesDown, Outcome, InOrder, NextsFit;
      match action
      case CallNext(next) =>
        var r := REFUSED;
        if next < |nexts| {
          r := InvokeNext(pipeline, next);
        }
        reply := Result(r);
      case CallAdd(added) =>
        var handle := pipeline.Add(added);
        reply := Handle(handle);
      case CallRemove(handle) =>
        var removed := pipeline.Remove(handle);
        reply := Flag(removed);
      case CallClear =>
        pipeline.Clear();
        reply := Done;
      case CallSetTerminal(terminal) =>
        pipeline.SetTerminal(terminal);
        reply := Done;
      case CallHandle =>
        var r := REFUSED;
        if depth > 0 {
          var inner := new Invocation(pipeline, behaviours, nested, limit, depth - 1);
          r := inner.InvokeAt(pipeline, 0);
        }
        reply := Result(r);
    }
  }

  /** MiddlewarePipeline::Handle: whatever the bodies do to their continuations and to the
      pipeline, and however they call Handle again, the request enters the objects of the chain
      as it was at the start, in order, each at most once, and then the terminal; and the call
      returns what the first of them finishes with. */
  method HandleRequest(pipeline: MiddlewarePipeline, behaviours: Behaviours, limit: nat, depth: nat)
    returns (result: HandlerResult, entered: seq<Entrance>)
    modifies pipeline
    ensures InOrder(old(pipeline.chain.View()), entered)
    ensures ObjectAt(old(pipeline.chain.View()), 0).Some? <==> |entered| > 0
    ensures old(pipeline.chain).View() == old(pipeline.chain.View())
    ensures match ObjectAt(old(pipeline.chain.View()), 0)
            case Some(o) => EndsWith(behaviours([]), o, 1, limit, result)
            case None => result == if |old(pipeline.chain.entries)| > 0 then REFUSED else NOT_HANDLED
    ensures PassesDown(old(pipeline.chain.View()), behaviours([]), limit, 0) ==>
              result == Outcome(old(pipeline.chain.View()), behaviours([])) &&
              |entered| == |old(pipeline.chain.entries)| + 1
  {
    var invocation := new Invocation(pipeline, behaviours, [], limit, depth);
    result := invocation.InvokeAt(pipeline, 0);
    return result, invocation.entered;
  }
}
