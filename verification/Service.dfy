/** HttpService: provider selection over an immutable snapshot of the provider list. */
module Services {
  import opened WebTypes
  import opened Middleware

  /** What a provider says when it is asked, and what it returns when it handles. */
  datatype Selection = Selection(result: WebResult, canHandle: bool)

  /** A change a provider makes to the service while it is being asked. */
  datatype Change = Adds(provider: nat) | Removes(handle: nat) | Clears

  /** Any providers: answers and changes may depend on which provider is asked, and when; it may
      change one thing while it is asked and another while it handles. */
  datatype Providers = Providers(
    select: (nat, nat) -> Selection,
    handle: (nat, nat) -> HandlerResult,
    changesAsked: (nat, nat) -> seq<Change>,
    changesHandling: (nat, nat) -> seq<Change>)

  // ---------------------------------------------------------------- specification

  /** A provider that neither fails nor takes the request leaves it to the next one. */
  predicate Passes(entries: seq<Entry>, providers: Providers, i: nat)
    requires i < |entries|
  {
    && entries[i].target.Some?
    && var provider := entries[i].target.value;
       && providers.select(provider, i).result.Succeeded()
       && (providers.select(provider, i).canHandle ==>
             providers.handle(provider, i).result.Succeeded() && providers.handle(provider, i).disposition == Unhandled)
  }

  /** What the request gets from a provider that does not pass. */
  function Decision(entries: seq<Entry>, providers: Providers, i: nat): HandlerResult
    requires i < |entries|
  {
    match entries[i].target
    case None => HandlerFailure(InvalidState)
    case Some(provider) =>
      var selection := providers.select(provider, i);
      if !selection.result.Succeeded() then HandledWith(selection.result) else providers.handle(provider, i)
  }

  /** The first provider that does not pass decides; when all pass, nobody handled the request. */
  ghost predicate Decides(entries: seq<Entry>, providers: Providers, result: HandlerResult) {
    || (result == NOT_HANDLED && forall i :: 0 <= i < |entries| ==> Passes(entries, providers, i))
    || (exists i :: 0 <= i < |entries| && !Passes(entries, providers, i) && result == Decision(entries, providers, i) &&
                    forall j :: 0 <= j < i ==> Passes(entries, providers, j))
  }

  lemma FirstDecides(entries: seq<Entry>, providers: Providers, i: nat)
    requires i < |entries| && !Passes(entries, providers, i)
    requires forall j :: 0 <= j < i ==> Passes(entries, providers, j)
    ensures Decides(entries, providers, Decision(entries, providers, i))
  {
  }

  /** Selection is a function of the list: there is one decision. */
  lemma DecisionIsUnique(entries: seq<Entry>, providers: Providers, a: HandlerResult, b: HandlerResult)
    requires Decides(entries, providers, a) && Decides(entries, providers, b)
    ensures a == b
  {
    hide Passes, Decision;
    if exists i :: 0 <= i < |entries| && !Passes(entries, providers, i) {
      var i :| 0 <= i < |entries| && !Passes(entries, providers, i) && a == Decision(entries, providers, i) &&
               forall j :: 0 <= j < i ==> Passes(entries, providers, j);
      var j :| 0 <= j < |entries| && !Passes(entries, providers, j) && b == Decision(entries, providers, j) &&
               forall k :: 0 <= k < j ==> Passes(entries, providers, k);
      assert i == j;
    }
  }

  /** Nobody handled the request exactly when every provider declined it or passed it on, and a
      NotHandled never hides an error. */
  lemma UnhandledExactly(entries: seq<Entry>, providers: Providers, result: HandlerResult)
    requires Decides(entries, providers, result)
    ensures result == NOT_HANDLED <==> forall i :: 0 <= i < |entries| ==> Passes(entries, providers, i)
    ensures !result.result.Succeeded() || result.disposition == Handled || result == NOT_HANDLED
  {
    if exists i :: 0 <= i < |entries| && !Passes(entries, providers, i) {
      var i :| 0 <= i < |entries| && !Passes(entries, providers, i) && result == Decision(entries, providers, i) &&
               forall j :: 0 <= j < i ==> Passes(entries, providers, j);
    }
  }

  /** What one provider does with a request that reaches it. A null entry, a provider that fails to
      answer whether it can handle the request, one that fails to handle it, and one that handles
      it end the search with their own result; one that cannot, and one that leaves it unhandled
      after all, do not. */
  lemma ProviderDecides(entries: seq<Entry>, providers: Providers, i: nat, result: HandlerResult)
    requires i < |entries| && Decides(entries, providers, result)
    requires forall j :: 0 <= j < i ==> Passes(entries, providers, j)
    ensures match entries[i].target
            case None => result == HandlerResult(WebResult(InvalidState, 0), Handled)
            case Some(p) =>
              var (asked, handling) := (providers.select(p, i), providers.handle(p, i));
              && (!asked.result.Succeeded() ==> result == HandlerResult(asked.result, Handled))
              && (asked.result.Succeeded() && asked.canHandle && !handling.result.Succeeded() ==> result == handling)
              && (asked.result.Succeeded() && asked.canHandle && handling.disposition == Handled ==> result == handling)
              && (asked.result.Succeeded() &&
                  (!asked.canHandle || (handling.result.Succeeded() && handling.disposition == Unhandled)) ==>
                    Passes(entries, providers, i) && (i == |entries| - 1 ==> result == NOT_HANDLED))
  {
    if !Passes(entries, providers, i) {
      FirstDecides(entries, providers, i);
      DecisionIsUnique(entries, providers, result, Decision(entries, providers, i));
    }
  }

  // ---------------------------------------------------------------- the service object

  class ProviderSet {
    var entries: seq<Entry>

    constructor ()
      ensures entries == []
    {
      entries := [];
    }

    constructor Clone(other: ProviderSet)
      ensures entries == other.entries
    {
      entries := other.entries;
    }
  }

  class HttpService {
    var providers: ProviderSet
    var nextHandle: nat

    constructor ()
      ensures fresh(providers) && providers.entries == [] && nextHandle == 1
    {
      providers := new ProviderSet();
      nextHandle := 1;
    }

    method AddProvider(provider: nat) returns (handle: nat)
      modifies this
      ensures handle == old(nextHandle) && nextHandle == handle + 1
      ensures fresh(providers) && providers.entries == old(providers.entries) + [Entry(handle, Some(provider))]
    {
      handle := nextHandle;
      nextHandle := nextHandle + 1;
      var next := new ProviderSet.Clone(providers);
      next.entries := next.entries + [Entry(handle, Some(provider))];
      providers := next;
    }

    method RemoveProvider(handle: nat) returns (removed: bool)
      modifies this`providers
      ensures var i := FindHandle(old(providers.entries), handle, 0);
              && (removed <==> handle != 0 && i.Some?)
              && (if removed then fresh(providers) && providers.entries == WithoutIndex(old(providers.entries), i.value)
                  else providers == old(providers))
      ensures removed && DistinctEntries(old(providers.entries)) ==>
                providers.entries == Others(old(providers.entries), handle)
    {
      if handle == 0 {
        return false;
      }
      var next := new ProviderSet.Clone(providers);
      for i := 0 to |next.entries|
        invariant next.entries == old(providers.entries)
        invariant FindHandle(next.entries, handle, 0) == FindHandle(next.entries, handle, i)
      {
        if next.entries[i].handle == handle {
          if DistinctEntries(next.entries) {
            OthersWithout(next.entries, i);
          }
          next.entries := next.entries[..i] + next.entries[i + 1..];
          providers := next;
          return true;
        }
      }
      return false;
    }

    method ClearProviders()
      modifies this`providers
      ensures fresh(providers) && providers.entries == []
    {
      providers := new ProviderSet();
    }

    /** Whatever a provider does to the service while it has control. */
    method Change(changes: seq<Change>)
      modifies this
    {
      for k := 0 to |changes| {
        match changes[k] {
          case Adds(provider) =>
            var _ := AddProvider(provider);
          case Removes(handle) =>
            var _ := RemoveProvider(handle);
          case Clears => ClearProviders();
        }
      }
    }

    /** The selection loop decides on the list as it was at the start, whatever the providers
        change meanwhile, and never writes to that list. */
    method Handle(behaviour: Providers) returns (result: HandlerResult)
      modifies this
      ensures Decides(old(providers.entries), behaviour, result)
      ensures old(providers).entries == old(providers.entries)
    {
      var snapshot := providers;
      for i := 0 to |snapshot.entries|
        invariant forall j :: 0 <= j < i ==> Passes(snapshot.entries, behaviour, j)
      {
        var entry := snapshot.entries[i];
        if entry.target.None? {
          FirstDecides(snapshot.entries, behaviour, i);
          return HandlerFailure(InvalidState);
        }
        var selection := behaviour.select(entry.target.value, i);
        Change(behaviour.changesAsked(entry.target.value, i));
        if !selection.result.Succeeded() {
          FirstDecides(snapshot.entries, behaviour, i);
          return HandledWith(selection.result);
        }
        if !selection.canHandle {
          continue;
        }
        var handling := behaviour.handle(entry.target.value, i);
        Change(behaviour.changesHandling(entry.target.value, i));
        if !handling.result.Succeeded() || handling.disposition == Handled {
          FirstDecides(snapshot.entries, behaviour, i);
          return handling;
        }
      }
      return NOT_HANDLED;
    }
  }
}
