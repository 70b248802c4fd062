/** Route registration, removal and the selection loop. */
module Routing {
  import opened WebTypes
  import opened Text
  import opened Patterns

  datatype RouteEntry = RouteEntry(
    handle: nat,
    httpMethod: HttpMethod,
    pattern: string,
    handler: nat,
    namedParameterCount: nat,
    literalCharacterCount: nat)

  /** What a dispatched request reaches: nothing, or one handler with its parameters. */
  datatype Routed = NoRoute | Calls(handler: nat, parameters: seq<ParameterView>)

  // ---------------------------------------------------------------- specification

  /** What registration records about a pattern. */
  predicate Registered(route: RouteEntry) {
    && Registrable(route.pattern)
    && route.namedParameterCount == NamedCount(Segments(route.pattern))
    && route.literalCharacterCount == LiteralCount(Segments(route.pattern))
  }

  predicate AllRegistered(routes: seq<RouteEntry>) {
    forall i :: 0 <= i < |routes| ==> Registered(routes[i])
  }

  predicate Eligible(route: RouteEntry, httpMethod: HttpMethod, path: string) {
    && |route.pattern| > 0
    && (route.httpMethod == httpMethod || route.httpMethod == Any)
    && Matches(route.pattern, path)
  }

  datatype Rank = Rank(named: nat, literal: nat, exact: bool)

  function RankOf(route: RouteEntry, httpMethod: HttpMethod): Rank {
    Rank(route.namedParameterCount, route.literalCharacterCount, route.httpMethod == httpMethod)
  }

  /** Fewer named parameters, then more literal characters, then the exact method. */
  predicate Beats(a: Rank, b: Rank) {
    || a.named < b.named
    || (a.named == b.named && a.literal > b.literal)
    || (a.named == b.named && a.literal == b.literal && a.exact && !b.exact)
  }

  /** Route `i` is the earliest of the eligible routes of best rank. */
  ghost predicate IsBest(routes: seq<RouteEntry>, httpMethod: HttpMethod, path: string, i: nat) {
    && i < |routes|
    && Eligible(routes[i], httpMethod, path)
    && (forall j :: 0 <= j < i && Eligible(routes[j], httpMethod, path) ==>
          Beats(RankOf(routes[i], httpMethod), RankOf(routes[j], httpMethod)))
    && (forall j :: i < j < |routes| && Eligible(routes[j], httpMethod, path) ==>
          !Beats(RankOf(routes[j], httpMethod), RankOf(routes[i], httpMethod)))
  }

  /** From the texts alone: the route at `i` has no more named segments than the one at `j`; with
      as many, no fewer literal characters; with as many again, the request's own method if the
      other has it; and else it comes no later. */
  predicate Precedes(routes: seq<RouteEntry>, httpMethod: HttpMethod, i: nat, j: nat)
    requires i < |routes| && j < |routes| && |routes[i].pattern| > 0 && |routes[j].pattern| > 0
  {
    var mine, other := Segments(routes[i].pattern), Segments(routes[j].pattern);
    && NamedCount(mine) <= NamedCount(other)
    && (NamedCount(mine) == NamedCount(other) ==>
          && LiteralCount(mine) >= LiteralCount(other)
          && (LiteralCount(mine) == LiteralCount(other) ==>
                && (routes[j].httpMethod == httpMethod ==> routes[i].httpMethod == httpMethod)
                && ((routes[i].httpMethod == httpMethod ==> routes[j].httpMethod == httpMethod) ==> i <= j)))
  }

  /** The eligible route that precedes every eligible route. */
  ghost predicate IsMostSpecific(routes: seq<RouteEntry>, httpMethod: HttpMethod, path: string, i: nat) {
    && i < |routes|
    && Eligible(routes[i], httpMethod, path)
    && forall j: nat :: j < |routes| && Eligible(routes[j], httpMethod, path) ==> Precedes(routes, httpMethod, i, j)
  }

  /** The call the route at `i` receives: its own handler and its own parameters. */
  function CallTo(route: RouteEntry, path: string): Routed
    requires |route.pattern| > 0 && |path| > 0
  {
    Calls(route.handler, Bindings(Segments(route.pattern), Segments(path)))
  }

  /** After the first `index` routes: the best of them, or none is eligible. */
  ghost predicate Chosen(routes: seq<RouteEntry>, httpMethod: HttpMethod, path: string, index: nat,
                         best: nat, some: bool)
    requires index <= |routes|
  {
    if some then best < index && IsBest(routes[..index], httpMethod, path, best)
    else forall j :: 0 <= j < index ==> !Eligible(routes[j], httpMethod, path)
  }

  // ---------------------------------------------------------------- the router

  class Router {
    var routes: seq<RouteEntry>
    var nextHandle: nat

    ghost predicate Valid()
      reads this
    {
      && nextHandle >= 1
      && AllRegistered(routes)
      && (forall i :: 0 <= i < |routes| ==> 1 <= routes[i].handle < nextHandle)
      && (forall i, j :: 0 <= i < j < |routes| ==> routes[i].handle != routes[j].handle)
    }

    constructor ()
      ensures Valid() && routes == []
    {
      routes, nextHandle := [], 1;
    }

    method RegisterRoute(httpMethod: HttpMethod, pattern: string, handler: nat)
      returns (result: WebResult, handle: nat)
      requires Valid()
      modifies this
      ensures Valid()
      ensures result.Succeeded() <==> Registrable(pattern)
      ensures !result.Succeeded() ==>
                result == Failure(InvalidConfiguration) && handle == 0 &&
                routes == old(routes) && nextHandle == old(nextHandle)
      ensures result.Succeeded() ==>
                && handle == old(nextHandle) && nextHandle == handle + 1
                && |routes| == |old(routes)| + 1 && routes[..|routes| - 1] == old(routes)
                && Registered(routes[|routes| - 1])
                && routes[|routes| - 1].handle == handle
                && routes[|routes| - 1].httpMethod == httpMethod
                && routes[|routes| - 1].pattern == pattern
                && routes[|routes| - 1].handler == handler
    {
      handle := 0;
      var analysis := AnalyzePattern(pattern);
      if !analysis.valid {
        return Failure(InvalidConfiguration), handle;
      }
      var newHandle := nextHandle;
      nextHandle := nextHandle + 1;
      var entry := RouteEntry(newHandle, httpMethod, pattern, handler,
                              analysis.namedParameterCount, analysis.literalCharacterCount);
      routes := routes + [entry];
      assert routes[..|routes| - 1] == old(routes);
      return SUCCESS, newHandle;
    }

    method RemoveRoute(handle: nat) returns (removed: bool)
      requires Valid()
      modifies this`routes
      ensures Valid()
      ensures removed <==> exists i :: 0 <= i < |old(routes)| && old(routes)[i].handle == handle
      ensures !removed ==> routes == old(routes)
      ensures removed ==> exists i :: 0 <= i < |old(routes)| && old(routes)[i].handle == handle &&
                                      routes == old(routes)[..i] + old(routes)[i + 1..]
      ensures forall i :: 0 <= i < |routes| ==> routes[i].handle != handle
    {
      if handle == 0 {
        return false;
      }
      for i := 0 to |routes|
        invariant routes == old(routes)
        invariant forall j :: 0 <= j < i ==> routes[j].handle != handle
      {
        if routes[i].handle == handle {
          routes := routes[..i] + routes[i + 1..];
          return true;
        }
      }
      return false;
    }

    method Clear()
      requires Valid()
      modifies this`routes
      ensures Valid() && routes == []
    {
      routes := [];
    }

    /** The running-best loop over the route list. */
    method Handle(httpMethod: HttpMethod, path: string) returns (routed: Routed)
      requires Valid()
      ensures routed.NoRoute? <==> forall i :: 0 <= i < |routes| ==> !Eligible(routes[i], httpMethod, path)
      ensures routed.Calls? ==>
                exists i: nat :: IsBest(routes, httpMethod, path, i) && routed == CallTo(routes[i], path)
      ensures routed.Calls? ==>
                exists i: nat :: IsMostSpecific(routes, httpMethod, path, i) && routed == CallTo(routes[i], path)
    {
      hide Chosen, IsBest, IsMostSpecific, Eligible, Bindings, Segments, SegmentsMatch;
      hide NamedCount, LiteralCount, Registrable;
      var selected: Option<RouteEntry> := None;
      var selectedParameters := new RouteParameters();
      var selectedNamedCount: nat := SIZE_MAX;
      var selectedLiteralCount: nat := 0;
      var selectedMethodExact := false;
      ghost var best: nat := 0;
      NothingChosen(routes, httpMethod, path, best);

      for index := 0 to |routes|
        invariant selectedParameters.Valid() && fresh(selectedParameters) && fresh(selectedParameters.values)
        invariant Chosen(routes, httpMethod, path, index, best, selected.Some?)
        invariant selected.Some? ==>
                    && |path| > 0 && best < index && |routes[best].pattern| > 0
                    && selected.value == routes[best]
                    && RankOf(routes[best], httpMethod) ==
                       Rank(selectedNamedCount, selectedLiteralCount, selectedMethodExact)
                    && selectedParameters.Contents() == Bindings(Segments(routes[best].pattern), Segments(path))
      {
        var route := routes[index];
        var methodExact := route.httpMethod == httpMethod;
        EligibleExactly(route, httpMethod, path);
        if !methodExact && route.httpMethod != Any {
          ChosenPasses(routes, httpMethod, path, index, best, selected.Some?);
          continue;
        }
        var candidateParameters := new RouteParameters();
        var matched := Match(route.pattern, path, candidateParameters);
        if !matched {
          ChosenPasses(routes, httpMethod, path, index, best, selected.Some?);
          continue;
        }
        var better :=
          || selected.None?
          || route.namedParameterCount < selectedNamedCount
          || (route.namedParameterCount == selectedNamedCount &&
              route.literalCharacterCount > selectedLiteralCount)
          || (route.namedParameterCount == selectedNamedCount &&
              route.literalCharacterCount == selectedLiteralCount &&
              methodExact && !selectedMethodExact);
        ChosenStep(routes, httpMethod, path, index, best, selected.Some?);
        if !better {
          continue;
        }
        best := index;
        selected := Some(route);
        selectedParameters.CopyFrom(candidateParameters);
        selectedNamedCount := route.namedParameterCount;
        selectedLiteralCount := route.literalCharacterCount;
        selectedMethodExact := methodExact;
      }

      ChosenAtLast(routes, httpMethod, path, best, selected.Some?);
      if selected.None? {
        return NoRoute;
      }
      var count := selectedParameters.count;
      return Calls(selected.value.handler, selectedParameters.values[..count]);
    }
  }

  /** What the method test and the match loop decide together. */
  lemma EligibleExactly(route: RouteEntry, httpMethod: HttpMethod, path: string)
    requires Registered(route)
    ensures |route.pattern| > 0
    ensures Eligible(route, httpMethod, path) <==>
            && (route.httpMethod == httpMethod || route.httpMethod == Any)
            && PathShaped(path)
            && SegmentsMatch(Segments(route.pattern), Segments(path))
            && NamedCount(Segments(route.pattern)) <= MAX_ROUTE_PARAMETERS
  {
    RegisteredMatchIsSegmentMatch(route.pattern, path);
  }

  lemma BestIsEligible(routes: seq<RouteEntry>, httpMethod: HttpMethod, path: string, i: nat)
    requires IsBest(routes, httpMethod, path, i)
    ensures i < |routes| && Eligible(routes[i], httpMethod, path) && |path| > 0
  {
  }

  lemma BestUnlessEligible(routes: seq<RouteEntry>, httpMethod: HttpMethod, path: string, index: nat, best: nat)
    requires index < |routes| && !Eligible(routes[index], httpMethod, path)
    ensures IsBest(routes[..index], httpMethod, path, best) ==> IsBest(routes[..index + 1], httpMethod, path, best)
  {
    var shorter, longer := routes[..index], routes[..index + 1];
    assert forall j :: 0 <= j < index ==> longer[j] == shorter[j];
  }

  /** One turn of the loop: the new route takes over exactly when it beats the running best. */
  lemma BestStep(routes: seq<RouteEntry>, httpMethod: HttpMethod, path: string, index: nat, best: nat, some: bool)
    requires index < |routes| && Eligible(routes[index], httpMethod, path)
    requires if some then IsBest(routes[..index], httpMethod, path, best)
             else forall j :: 0 <= j < index ==> !Eligible(routes[j], httpMethod, path)
    ensures !some || Beats(RankOf(routes[index], httpMethod), RankOf(routes[best], httpMethod)) ==>
              IsBest(routes[..index + 1], httpMethod, path, index)
    ensures some && !Beats(RankOf(routes[index], httpMethod), RankOf(routes[best], httpMethod)) ==>
              IsBest(routes[..index + 1], httpMethod, path, best)
  {
    var shorter, longer := routes[..index], routes[..index + 1];
    assert forall j :: 0 <= j < index ==> longer[j] == routes[j] && shorter[j] == routes[j];
    if !some || Beats(RankOf(routes[index], httpMethod), RankOf(routes[best], httpMethod)) {
      forall j | 0 <= j < index && Eligible(longer[j], httpMethod, path)
        ensures Beats(RankOf(longer[index], httpMethod), RankOf(longer[j], httpMethod))
      {
        assert Eligible(shorter[j], httpMethod, path);
      }
    }
  }

  /** The winner by recorded rank is the most specific route by its text. */
  lemma BestIsMostSpecific(routes: seq<RouteEntry>, httpMethod: HttpMethod, path: string, i: nat)
    requires AllRegistered(routes) && IsBest(routes, httpMethod, path, i)
    ensures IsMostSpecific(routes, httpMethod, path, i)
  {
    forall j: nat | j < |routes| && Eligible(routes[j], httpMethod, path) ensures Precedes(routes, httpMethod, i, j) {
      assert Registered(routes[i]) && Registered(routes[j]);
      assert i < j ==> !Beats(RankOf(routes[j], httpMethod), RankOf(routes[i], httpMethod));
      assert j < i ==> Beats(RankOf(routes[i], httpMethod), RankOf(routes[j], httpMethod));
    }
  }

  /** And the most specific route wins: the two descriptions are the same. */
  lemma MostSpecificIsBest(routes: seq<RouteEntry>, httpMethod: HttpMethod, path: string, i: nat)
    requires AllRegistered(routes)
    ensures IsBest(routes, httpMethod, path, i) <==> IsMostSpecific(routes, httpMethod, path, i)
  {
    if IsMostSpecific(routes, httpMethod, path, i) {
      WinnerExactly(routes, httpMethod, path);
      var best: nat :| IsBest(routes, httpMethod, path, best);
      BestIsMostSpecific(routes, httpMethod, path, best);
      MostSpecificIsUnique(routes, httpMethod, path, i, best);
    } else if IsBest(routes, httpMethod, path, i) {
      BestIsMostSpecific(routes, httpMethod, path, i);
    }
  }

  lemma MostSpecificIsUnique(routes: seq<RouteEntry>, httpMethod: HttpMethod, path: string, i: nat, j: nat)
    requires IsMostSpecific(routes, httpMethod, path, i) && IsMostSpecific(routes, httpMethod, path, j)
    ensures i == j
  {
    hide NamedCount, LiteralCount, Segments, SegmentsMatch;
    assert Precedes(routes, httpMethod, i, j) && Precedes(routes, httpMethod, j, i);
  }

  lemma NothingChosen(routes: seq<RouteEntry>, httpMethod: HttpMethod, path: string, best: nat)
    ensures Chosen(routes, httpMethod, path, 0, best, false)
  {
  }

  lemma ChosenPasses(routes: seq<RouteEntry>, httpMethod: HttpMethod, path: string, index: nat, best: nat, some: bool)
    requires index < |routes| && !Eligible(routes[index], httpMethod, path)
    requires Chosen(routes, httpMethod, path, index, best, some)
    ensures Chosen(routes, httpMethod, path, index + 1, best, some)
  {
    hide Eligible, IsBest;
    BestUnlessEligible(routes, httpMethod, path, index, best);
  }

  lemma ChosenStep(routes: seq<RouteEntry>, httpMethod: HttpMethod, path: string, index: nat, best: nat, some: bool)
    requires index < |routes| && Eligible(routes[index], httpMethod, path)
    requires Chosen(routes, httpMethod, path, index, best, some)
    ensures some ==> best < index
    ensures if !some || Beats(RankOf(routes[index], httpMethod), RankOf(routes[best], httpMethod))
            then Chosen(routes, httpMethod, path, index + 1, index, true)
            else Chosen(routes, httpMethod, path, index + 1, best, true)
  {
    hide Eligible, IsBest, Beats;
    BestStep(routes, httpMethod, path, index, best, some);
  }

  lemma ChosenAtLast(routes: seq<RouteEntry>, httpMethod: HttpMethod, path: string, best: nat, some: bool)
    requires AllRegistered(routes) && Chosen(routes, httpMethod, path, |routes|, best, some)
    ensures !some <==> forall i :: 0 <= i < |routes| ==> !Eligible(routes[i], httpMethod, path)
    ensures some ==> IsBest(routes, httpMethod, path, best) && IsMostSpecific(routes, httpMethod, path, best)
  {
    hide Eligible, IsBest, IsMostSpecific;
    assert routes[..|routes|] == routes;
    if some {
      BestIsEligible(routes, httpMethod, path, best);
      BestIsMostSpecific(routes, httpMethod, path, best);
    }
  }

  // ---------------------------------------------------------------- what selection means

  /** Selection is a function of the list: two best routes are the same route. */
  lemma BestIsUnique(routes: seq<RouteEntry>, httpMethod: HttpMethod, path: string, i: nat, j: nat)
    requires IsBest(routes, httpMethod, path, i) && IsBest(routes, httpMethod, path, j)
    ensures i == j
  {
  }

  lemma BestBeatenByNone(routes: seq<RouteEntry>, httpMethod: HttpMethod, path: string, i: nat, route: RouteEntry)
    requires IsBest(routes, httpMethod, path, i)
    requires route in routes && Eligible(route, httpMethod, path)
    ensures !Beats(RankOf(route, httpMethod), RankOf(routes[i], httpMethod))
  {
    var j :| 0 <= j < |routes| && routes[j] == route;
    if j < i {
      assert Beats(RankOf(routes[i], httpMethod), RankOf(routes[j], httpMethod));
    }
  }

  /** There is a winner exactly when some route is eligible. */
  lemma WinnerExactly(routes: seq<RouteEntry>, httpMethod: HttpMethod, path: string)
    ensures (exists i: nat :: IsBest(routes, httpMethod, path, i)) <==>
            (exists i :: 0 <= i < |routes| && Eligible(routes[i], httpMethod, path))
  {
    if i :| 0 <= i < |routes| && Eligible(routes[i], httpMethod, path) {
      var best := WinnerOf(routes, httpMethod, path, |routes|);
      assert routes[..|routes|] == routes;
      assert routes[..|routes|][i] == routes[i];
    }
  }

  lemma {:induction false} WinnerOf(routes: seq<RouteEntry>, httpMethod: HttpMethod, path: string, n: nat)
    returns (best: nat)
    requires n <= |routes|
    ensures if exists i :: 0 <= i < n && Eligible(routes[i], httpMethod, path)
            then IsBest(routes[..n], httpMethod, path, best) else best == 0
    decreases n
  {
    hide Eligible, IsBest;
    best := 0;
    if n > 0 {
      best := WinnerOf(routes, httpMethod, path, n - 1);
      var some := exists i :: 0 <= i < n - 1 && Eligible(routes[i], httpMethod, path);
      if !Eligible(routes[n - 1], httpMethod, path) {
        BestUnlessEligible(routes, httpMethod, path, n - 1, best);
      } else {
        BestStep(routes, httpMethod, path, n - 1, best, some);
        if some {
          BestIsEligible(routes[..n - 1], httpMethod, path, best);
        }
        if !some || Beats(RankOf(routes[n - 1], httpMethod), RankOf(routes[best], httpMethod)) {
          best := n - 1;
        }
      }
    }
  }

  /** One order of registration has a winner exactly when any other has. */
  lemma WinnerIgnoresOrder(routes: seq<RouteEntry>, shuffled: seq<RouteEntry>, httpMethod: HttpMethod, path: string)
    requires multiset(routes) == multiset(shuffled)
    ensures (exists i: nat :: IsBest(routes, httpMethod, path, i)) <==>
            (exists j: nat :: IsBest(shuffled, httpMethod, path, j))
  {
    WinnerExactly(routes, httpMethod, path);
    WinnerExactly(shuffled, httpMethod, path);
    hide Eligible, IsBest;
    if i :| 0 <= i < |routes| && Eligible(routes[i], httpMethod, path) {
      assert routes[i] in multiset(shuffled);
    }
    if j :| 0 <= j < |shuffled| && Eligible(shuffled[j], httpMethod, path) {
      assert shuffled[j] in multiset(routes);
    }
  }

  /** The winning rank does not depend on the order of registration. */
  lemma WinningRankIgnoresOrder(routes: seq<RouteEntry>, shuffled: seq<RouteEntry>,
                                httpMethod: HttpMethod, path: string, i: nat, j: nat)
    requires multiset(routes) == multiset(shuffled)
    requires IsBest(routes, httpMethod, path, i) && IsBest(shuffled, httpMethod, path, j)
    ensures RankOf(routes[i], httpMethod) == RankOf(shuffled[j], httpMethod)
  {
    assert routes[i] in multiset(shuffled) && shuffled[j] in multiset(routes);
    BestBeatenByNone(routes, httpMethod, path, i, shuffled[j]);
    BestBeatenByNone(shuffled, httpMethod, path, j, routes[i]);
  }

  /** The first route whose pattern is literally `path`, among those registered for `wanted`. */
  function FirstLiteral(routes: seq<RouteEntry>, wanted: HttpMethod, path: string, from: nat): (r: Option<nat>)
    ensures r.Some? ==> from <= r.value < |routes| && IsLiteral(routes[r.value], wanted, path)
    ensures r.Some? ==> forall k :: from <= k < r.value ==> !IsLiteral(routes[k], wanted, path)
    ensures r.None? ==> forall k :: from <= k < |routes| ==> !IsLiteral(routes[k], wanted, path)
    decreases |routes| - from
  {
    if from >= |routes| then None
    else if IsLiteral(routes[from], wanted, path) then Some(from)
    else FirstLiteral(routes, wanted, path, from + 1)
  }

  predicate IsLiteral(route: RouteEntry, wanted: HttpMethod, path: string) {
    route.namedParameterCount == 0 && route.pattern == path && route.httpMethod == wanted
  }

  /** The lookup the router refines: an exact table lookup (own method first, then Any),
      and only when that fails the parametrised routes. */
  lemma ExactLookupFirst(routes: seq<RouteEntry>, httpMethod: HttpMethod, path: string, i: nat)
    requires AllRegistered(routes) && IsBest(routes, httpMethod, path, i)
    ensures var own, any := FirstLiteral(routes, httpMethod, path, 0), FirstLiteral(routes, Any, path, 0);
            if own.Some? then i == own.value && CallTo(routes[i], path).parameters == []
            else if any.Some? then i == any.value && CallTo(routes[i], path).parameters == []
            else routes[i].namedParameterCount > 0
  {
    var own, any := FirstLiteral(routes, httpMethod, path, 0), FirstLiteral(routes, Any, path, 0);
    forall k | 0 <= k < |routes| && routes[k].namedParameterCount == 0
      ensures Eligible(routes[k], httpMethod, path) <==>
              IsLiteral(routes[k], httpMethod, path) || IsLiteral(routes[k], Any, path)
    {
      LiteralMatchIsEquality(routes[k].pattern, path);
      assert Registered(routes[k]);
    }
    if routes[i].namedParameterCount == 0 {
      BindingsNone(Segments(routes[i].pattern), Segments(path));
    }
    if own.Some? || any.Some? {
      var k := if own.Some? then own.value else any.value;
      assert Eligible(routes[k], httpMethod, path);
      BestBeatenByNone(routes, httpMethod, path, i, routes[k]);
      assert routes[i].namedParameterCount == 0;
      assert routes[i].pattern == routes[k].pattern;
      assert Registered(routes[i]) && Registered(routes[k]);
    }
  }

  // ---------------------------------------------------------------- an example

  lemma ExampleSegments()
    ensures Segments("/users/:id") == ["users", ":id"]
    ensures Segments("/:kind/7") == [":kind", "7"]
    ensures Segments("/users/7") == ["users", "7"]
  {
    SplitJoin("/users/:id", 1, ["users", ":id"], '/');
    SplitJoin("/:kind/7", 1, [":kind", "7"], '/');
    SplitJoin("/users/7", 1, ["users", "7"], '/');
  }

  lemma ExampleCounts()
    ensures NamedCount(["users", ":id"]) == 1 && LiteralCount(["users", ":id"]) == 5
    ensures NamedCount([":kind", "7"]) == 1 && LiteralCount([":kind", "7"]) == 1
    ensures Bindings(["users", ":id"], ["users", "7"]) == [ParameterView("id", "7")]
  {
    assert ["users", ":id"][1..] == [":id"] && [":kind", "7"][1..] == ["7"] && ["users", "7"][1..] == ["7"];
    assert NamedCount([":id"]) == 1 && NamedCount(["7"]) == 0 && LiteralCount(["7"]) == 1 && LiteralCount([":id"]) == 0;
    assert Bindings([":id"], ["7"]) == [ParameterView("id", "7")];
  }

  lemma ExampleEligible(users: RouteEntry, kinds: RouteEntry)
    requires users.pattern == "/users/:id" && users.httpMethod == Get
    requires kinds.pattern == "/:kind/7" && kinds.httpMethod == Get
    ensures Eligible(users, Get, "/users/7") && Eligible(kinds, Get, "/users/7")
  {
    hide Segments;
    ExampleSegments();
  }

  /** Of two parametrised routes that match, the one with more literal characters is called, with
      its own parameter, in whichever order they were registered. */
  lemma UsersBeforeKinds(users: RouteEntry, kinds: RouteEntry, i: nat)
    requires users.pattern == "/users/:id" && users.httpMethod == Get
    requires kinds.pattern == "/:kind/7" && kinds.httpMethod == Get
    ensures IsMostSpecific([kinds, users], Get, "/users/7", i) ==> i == 1
    ensures IsMostSpecific([users, kinds], Get, "/users/7", i) ==> i == 0
    ensures CallTo(users, "/users/7") == Calls(users.handler, [ParameterView("id", "7")])
  {
    hide Segments, NamedCount, LiteralCount, Bindings, Eligible;
    ExampleSegments();
    ExampleCounts();
    ExampleEligible(users, kinds);
    var first, second := [kinds, users], [users, kinds];
    assert first[1] == users && second[0] == users;
    assert !Precedes(first, Get, 0, 1) && !Precedes(second, Get, 1, 0);
  }
}
