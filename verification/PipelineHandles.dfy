/** Handle ids over all interleavings, with the id drawn before the lock is taken. */
module PipelineHandles {
  import opened Middleware
  import opened PipelineRuns

  predicate Distinct(handles: seq<nat>) {
    forall i, j :: 0 <= i < j < |handles| ==> handles[i] != handles[j]
  }

  /** A handle was issued, in this order: 1, 2, 3, ... */
  predicate Issued(m: Machine, handle: nat) {
    1 <= handle < m.nextHandle
  }

  predicate Pending(m: Machine, t: nat) {
    t < |m.threads| && m.threads[t].mode.Publishing?
  }

  /** Every issued handle is in at most one place: waiting for the lock, published, or removed. */
  ghost predicate HandlesApart(m: Machine) {
    && m.nextHandle == |m.issued| + 1
    && (forall i :: 0 <= i < |m.issued| ==> m.issued[i] == i + 1)
    && (forall i :: 0 <= i < |m.chain.entries| ==> Issued(m, m.chain.entries[i].handle))
    && DistinctEntries(m.chain.entries)
    && (forall i :: 0 <= i < |m.removed| ==> Issued(m, m.removed[i]) && !Published(m.chain.entries, m.removed[i]))
    && Distinct(m.removed)
    && (forall t: nat :: Pending(m, t) ==>
          && Issued(m, m.threads[t].mode.handle)
          && !Published(m.chain.entries, m.threads[t].mode.handle)
          && m.threads[t].mode.handle !in m.removed)
    && (forall t: nat, u: nat :: Pending(m, t) && Pending(m, u) && t != u ==>
          m.threads[t].mode.handle != m.threads[u].mode.handle)
  }

  /** Threads may move as long as nobody's pending handle changes. */
  lemma ThreadMoveKeeps(m: Machine, t: nat, thread: Thread)
    requires HandlesApart(m) && t < |m.threads|
    requires thread.mode.Running?
    ensures HandlesApart(m.(threads := m.threads[t := thread]))
  {
    hide Published, DistinctEntries, Distinct, Issued;
    var m' := m.(threads := m.threads[t := thread]);
    assert forall u: nat :: Pending(m', u) ==> u != t && Pending(m, u) && m'.threads[u] == m.threads[u];
    assert forall h :: Issued(m', h) <==> Issued(m, h) by {
      IssuedSame(m, m');
    }
  }

  lemma IssuedSame(m: Machine, n: Machine)
    requires m.nextHandle == n.nextHandle
    ensures forall h :: Issued(m, h) <==> Issued(n, h)
  {
  }

  lemma AppendedPublishes(c: ChainValue, handle: nat, target: nat)
    ensures forall h :: Published(Appended(c, handle, target).entries, h) <==> Published(c.entries, h) || h == handle
    ensures DistinctEntries(c.entries) && !Published(c.entries, handle) ==>
            DistinctEntries(Appended(c, handle, target).entries)
  {
    var longer := Appended(c, handle, target).entries;
    forall h ensures Published(longer, h) <==> Published(c.entries, h) || h == handle {
      if Published(c.entries, h) {
        var i :| 0 <= i < |c.entries| && c.entries[i].handle == h;
        assert longer[i].handle == h;
      }
      assert longer[|c.entries|].handle == handle;
    }
  }

  lemma RemovedUnpublishes(c: ChainValue, handle: nat)
    requires DistinctEntries(c.entries)
    ensures var (c', removed) := Removed(c, handle);
            && DistinctEntries(c'.entries)
            && (removed ==> Published(c.entries, handle) && !Published(c'.entries, handle))
            && (forall h :: Published(c'.entries, h) ==> Published(c.entries, h))
            && (forall i :: 0 <= i < |c'.entries| ==> c'.entries[i] in c.entries)
  {
    var (c', removed) := Removed(c, handle);
    if removed {
      var i := FindHandle(c.entries, handle, 0).value;
      assert forall k :: 0 <= k < |c'.entries| ==> c'.entries[k] == c.entries[if k < i then k else k + 1];
      assert c.entries[i].handle == handle;
    }
  }

  lemma StepKeepsHandlesApart(m: Machine, behaviour: Behaviour, t: nat)
    requires Formed(m) && HandlesApart(m)
    ensures HandlesApart(Step(m, behaviour, t))
  {
    if Active(m, t) {
      var thread := m.threads[t];
      var top := Top(thread);
      match thread.mode
      case Publishing(handle, target) => PublishKeeps(m, t);
      case Running =>
        match behaviour(top.target, top.serial, top.replies)
        case Finish(result) => ThreadMoveKeeps(m, t, Return(m, t, result).threads[t]);
        case CallNext(n) => InvokeNextKeeps(m, t, n);
        case CallHandle => InvokeAtKeeps(m.(invocations := m.invocations + [m.chain]), t, |m.invocations|, 0);
        case CallAdd(target) => DrawKeeps(m, behaviour, t);
        case CallRemove(handle) => RemoveKeeps(m, t, handle);
        case CallClear => ShrinkKeeps(m, t, Cleared(m.chain), Done);
        case CallSetTerminal(terminal) => ShrinkKeeps(m, t, m.chain.(terminal := terminal), Done);
    }
  }

  lemma InvokeAtKeeps(m: Machine, t: nat, invocation: nat, index: nat)
    requires HandlesApart(m) && Active(m, t) && invocation < |m.invocations|
    ensures HandlesApart(InvokeAt(m, t, invocation, index))
  {
    hide Published, DistinctEntries, Distinct, ObjectAt;
    ThreadMoveKeeps(m, t, InvokeAt(m, t, invocation, index).threads[t]);
  }

  lemma InvokeNextKeeps(m: Machine, t: nat, n: nat)
    requires Formed(m) && HandlesApart(m) && Active(m, t)
    ensures HandlesApart(InvokeNext(m, t, n))
  {
    if n >= |m.nexts| || m.nexts[n].invoked {
      ThreadMoveKeeps(m, t, Answered(m.threads[t], Result(REFUSED)));
    } else {
      var used := m.nexts[n].(invoked := true);
      InvokeAtKeeps(m.(nexts := m.nexts[n := used]), t, used.invocation, used.index);
    }
  }

  lemma DrawKeeps(m: Machine, behaviour: Behaviour, t: nat)
    requires Formed(m) && HandlesApart(m) && Active(m, t) && m.threads[t].mode.Running?
    requires var top := Top(m.threads[t]); behaviour(top.target, top.serial, top.replies).CallAdd?
    ensures HandlesApart(Step(m, behaviour, t))
  {
    var m' := Step(m, behaviour, t);
    assert forall u: nat :: Pending(m', u) && u != t ==> Pending(m, u) && m'.threads[u] == m.threads[u];
    assert !Published(m.chain.entries, m.nextHandle);
  }

  lemma PublishKeeps(m: Machine, t: nat)
    requires Formed(m) && HandlesApart(m) && Active(m, t) && m.threads[t].mode.Publishing?
    ensures var mode := m.threads[t].mode;
            HandlesApart(Answer(m.(chain := Appended(m.chain, mode.handle, mode.target)), t, Handle(mode.handle)))
  {
    var mode := m.threads[t].mode;
    var m' := Answer(m.(chain := Appended(m.chain, mode.handle, mode.target)), t, Handle(mode.handle));
    AppendedPublishes(m.chain, mode.handle, mode.target);
    assert Pending(m, t);
    hide Published, DistinctEntries, Distinct;
    assert forall u: nat :: Pending(m', u) ==> u != t && Pending(m, u) && m'.threads[u] == m.threads[u];
  }

  lemma RemoveKeeps(m: Machine, t: nat, handle: nat)
    requires Formed(m) && HandlesApart(m) && Active(m, t)
    ensures var (chain, removed) := Removed(m.chain, handle);
            var m' := m.(chain := chain, removed := if removed then m.removed + [handle] else m.removed);
            HandlesApart(Answer(m', t, Flag(removed)))
  {
    var (chain, removed) := Removed(m.chain, handle);
    RemovedUnpublishes(m.chain, handle);
    var m' := m.(chain := chain, removed := if removed then m.removed + [handle] else m.removed);
    assert HandlesApart(m') by {
      assert forall u: nat :: Pending(m', u) <==> Pending(m, u);
    }
    ThreadMoveKeeps(m', t, Answered(m.threads[t], Flag(removed)));
  }

  lemma ShrinkKeeps(m: Machine, t: nat, chain: ChainValue, reply: Reply)
    requires Formed(m) && HandlesApart(m) && Active(m, t)
    requires chain.entries == m.chain.entries || chain.entries == []
    ensures HandlesApart(Answer(m.(chain := chain), t, reply))
  {
    var m' := m.(chain := chain);
    assert HandlesApart(m') by {
      assert forall u: nat :: Pending(m', u) <==> Pending(m, u);
    }
    ThreadMoveKeeps(m', t, Answered(m.threads[t], reply));
  }

  lemma {:induction false} RunKeepsHandlesApart(clients: seq<nat>, behaviour: Behaviour, schedule: seq<nat>)
    ensures HandlesApart(Run(Start(clients), behaviour, schedule))
  {
    if |schedule| > 0 {
      RunKeepsHandlesApart(clients, behaviour, schedule[..|schedule| - 1]);
      StepKeepsHandlesApart(Run(Start(clients), behaviour, schedule[..|schedule| - 1]), behaviour,
          schedule[|schedule| - 1]);
    }
  }

  /** In every run the ids handed out are 1, 2, 3, ..., the published ones are distinct, and
      Remove says true at most once for each. */
  lemma HandlesAreUnique(clients: seq<nat>, behaviour: Behaviour, schedule: seq<nat>)
    ensures var m := Run(Start(clients), behaviour, schedule);
            && Distinct(m.issued) && Distinct(m.removed) && DistinctEntries(m.chain.entries)
            && (forall i :: 0 <= i < |m.removed| ==>
                  m.removed[i] in m.issued && !Published(m.chain.entries, m.removed[i]))
  {
    RunKeepsHandlesApart(clients, behaviour, schedule);
    var m := Run(Start(clients), behaviour, schedule);
    hide Run;
    forall i | 0 <= i < |m.removed| ensures m.removed[i] in m.issued {
      assert m.issued[m.removed[i] - 1] == m.removed[i];
    }
  }
}
