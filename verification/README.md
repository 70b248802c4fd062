# ESPressio-Web, modelled and proved

This project models the portable logic of ESPressio-Web, a header-only C++ layer for HTTP, DNS and
WebSocket, and proves what that logic guarantees. The platform behind every interface is an
adversary: each call may answer anything, depending on everything asked before, and a trace records
the calls. Handlers and middleware are adversaries too: what they do next may depend on everything
they have seen.

Objects that the library updates in place are classes. Their methods are proved against
specification functions or against index-level descriptions of the new state. The theorems are then
about those functions, or about state machines built from them.

| Modules | What they hold |
|---|---|
| `WebTypes`, `Text` | results, errors, and splitting a string on a separator |
| `Patterns`, `Routing` | route patterns, matching, registration and route selection |
| `Query` | the query-string lookup |
| `Responses` | the HTTP response state machine and its trace language |
| `Resources`, `Delivery` | the resource streaming loop, and what it delivers |
| `Applications`, `ApplicationObjects` | static handler, error responders and the application, as functions and as objects |
| `Ingress` | the bounded request-body loops of the command and event ingress |
| `HandshakeHeaders` | header validation with `size_t` accounting |
| `Middleware` | the pipeline object, and one invocation as recursive code |
| `PipelineRuns`, `PipelineHandles` | the pipeline as a step machine of many threads: one-shot continuations, snapshots, handle ids |
| `PipelineSteps`, `PipelineTermination`, `PipelineReentry` | what each step does and publishes; when runs end, over endless schedules, and which bodies may call Handle |
| `PipelineAnswers` | what every caller of a continuation or of Handle is answered |
| `Services` | provider selection |
| `Lifecycle`, `Dispatching` | the server's locked sections under interleaving, and one dispatch |
| `Dns` | the DNS response, its dispatch and the wildcard handler |

Four behaviours of the code differ from what a reader of its interfaces would expect. The model keeps
the code as it is and proves when each one happens:

* A static handler can decline a request whose response it has already committed. This happens
  exactly when a read, write or completion after the Begin is answered NotFound
  (`Applications.DeclinesCommittedExactly`, with inputs in `Applications.DecliningCommittedHappens`).
* Declared and unknown length do not always agree on a body. Whether they do depends on how the
  platform reports the end: they agree on every body that comes into play exactly when the end is
  reported on each read whose room it fills exactly. A platform that flags the end only on short
  reads, or only in a separate empty read, loses every body in declared mode
  (`Ingress.ModesAgreeExactly`, `Ingress.DeclaredServesExactly`, `Ingress.UnflaggedEndSeparatesModes`,
  smallest input in `Ingress.ShortReadFlagsPartModes`).
* The platform reset at the end of Stop can hit a server that another thread has initialized again,
  or destroy an initialization in progress. It takes one thread that stops and a different one that
  calls Initialize while the first is about to reset; threads that start, dispatch or set handlers
  make no difference (`Lifecycle.LiveResetExactly`, `Lifecycle.LiveResetMeansInitialize`).
* Middleware bodies that each return after a bounded number of actions can still keep one request
  going for ever, because Handle may be re-entered (`PipelineReentry.ReentryNeedNotEnd`). With
  terminating bodies a run ends exactly when Handle is called a bounded number of times in it,
  under any schedule (`PipelineTermination.RunEndsExactly`). A caller can make sure of that by
  letting only activations below some number call Handle (`PipelineReentry.EveryRunEnds`). A rule
  that only names the objects that may re-enter is enough exactly when it names none
  (`PipelineReentry.AlwaysEndsExactly`).

## Model

| member | source | states |
|---|---|---|
| PipelineRuns.EveryInvocationInOrder | src/ESPressio_Middleware.hpp:59-104 | in every run of any number of threads, each invocation has entered the objects of its chain in the order 0, 1, 2, ..., each index at most once and the terminal last; an unused continuation always leads to the first index not yet entered |
| PipelineRuns.StepKeepsOneShot | src/ESPressio_Middleware.hpp:59-104 | every step of every thread, whichever continuation it calls and however deep, keeps that invariant |
| PipelineRuns.InvokeAtKeepsOneShot | src/ESPressio_Middleware.hpp:87-101 | entering the first index not yet entered, when all continuations of the invocation are used, keeps the invariant |
| PipelineRuns.UseKeepsOneShot | src/ESPressio_Middleware.hpp:66-70 | setting the flag before descending leaves the invocation without any unused continuation |
| PipelineRuns.SecondCallIsRefused | src/ESPressio_Middleware.hpp:66-70 | in every run, once a continuation has been called by any thread from any depth, each later call of it changes nothing in the machine but the caller's reply, a handled InvalidState |
| PipelineRuns.StepExtendsInvocations | src/ESPressio_Middleware.hpp:170-178 | a step appends the chain published at that step exactly when the thread calls Handle, and never changes the chain of a started invocation |
| PipelineRuns.SnapshotIsOnePoint | src/ESPressio_Middleware.hpp:170-178 | in every run the i-th invocation keeps the chain that was published at the step that called Handle for the i-th time, whatever was changed later |
| PipelineHandles.HandlesAreUnique | src/ESPressio_Middleware.hpp:116-141 | in every run the issued handles are distinct, the published ones are distinct, and Remove answers true at most once per handle and only for an issued one that is no longer published |
| PipelineHandles.RunKeepsHandlesApart | src/ESPressio_Middleware.hpp:116-158 | in every run each issued handle is in at most one place: drawn and waiting for the lock, published, or removed |
| PipelineHandles.StepKeepsHandlesApart | src/ESPressio_Middleware.hpp:116-158 | every step keeps that separation, including an Add whose id was drawn long before its publication |
| PipelineTermination.RunEndsExactly | src/ESPressio_Middleware.hpp:59-104 | if every body on its own returns, then from any point of any run and under any schedule of any number of threads only finitely many steps are taken, exactly when Handle is called a bounded number of times |
| PipelineTermination.FairRunFinishesExactly | src/ESPressio_Middleware.hpp:59-104 | under a schedule fair to the threads there are, all of them finish exactly when Handle is called a bounded number of times |
| PipelineTermination.RoundRobinIsFair | src/ESPressio_Middleware.hpp:59-104 | taking turns among the existing threads is such a schedule |
| PipelineTermination.LoneThreadFinishesExactly | src/ESPressio_Middleware.hpp:59-104 | the same for one thread left alone from any point of any run |
| PipelineTermination.FairThreadFinishes | src/ESPressio_Middleware.hpp:59-104 | in a run that ends, every thread that is always scheduled again finishes |
| PipelineAnswers.CallIsAnswered | src/ESPressio_Middleware.hpp:66-101 | in every run, ending or not, once a thread is no higher than when it called a continuation or Handle, the caller has exactly one new reply: InvalidState for a used continuation or a null middleware, an unhandled success for a missing terminal, or the result with which the body it entered has just finished |
| PipelineAnswers.EveryCallIsAnswered | src/ESPressio_Middleware.hpp:66-101 | in a run that ends, every call on a thread that is always scheduled again is answered so |
| PipelineAnswers.BodyReturns | src/ESPressio_Middleware.hpp:59-104 | in a run that ends, every body on a thread that is always scheduled again returns to its caller with the result it finishes with at last, with the stack below unchanged |
| PipelineSteps.FinishAnswersCaller | src/ESPressio_Middleware.hpp:94-100 | whenever a body finishes, its caller's last reply is the result it finished with, and nothing else changes |
| PipelineSteps.CallStep | src/ESPressio_Middleware.hpp:66-101 | a call enters the object it leads to, above the caller, or answers the caller at once with a refusal or nobody's answer |
| PipelineSteps.StepPublishes | src/ESPressio_Middleware.hpp:116-158 | what each action does to the published chain and what it answers: an Add appends under the handle it drew, a Remove takes out that entry and keeps the others in order, Clear keeps the terminal, SetTerminal the entries, and no other action publishes |
| PipelineTermination.EntriesStop | src/ESPressio_Middleware.hpp:66-101 | after the last Handle, the continuations left over enter only finitely many bodies, whoever calls them in whatever order |
| PipelineTermination.StepsStop | src/ESPressio_Middleware.hpp:59-104 | after the last entry, terminating bodies take only finitely many steps |
| PipelineSteps.StepSpends | src/ESPressio_Middleware.hpp:66-101 | without a new Handle no step increases what the unused continuations can still lead to, and entering a body decreases it |
| PipelineSteps.RunIsSound | src/ESPressio_Middleware.hpp:59-178 | in every run the one-shot invariant holds, every body below another is waiting for its answer, and every thread that waits for the lock is adding |
| PipelineReentry.EveryRunEnds | src/ESPressio_Middleware.hpp:59-178 | every run ends, under every schedule, if every body on its own returns and no activation from some number on calls Handle; re-entry by any bounded number of activations is allowed |
| PipelineReentry.EveryThreadFinishes | src/ESPressio_Middleware.hpp:59-178 | under the same condition every thread that is always scheduled again finishes |
| PipelineReentry.StepLowers | src/ESPressio_Middleware.hpp:170-178 | once that many activations have started, each call of Handle lowers a measure of the calling thread that no step raises |
| PipelineReentry.AlwaysEndsExactly | src/ESPressio_Middleware.hpp:170-178 | allowing a set of objects to call Handle above the clients keeps every run of returning bodies finite exactly when that set is empty |
| PipelineReentry.ReentryNeedNotEnd | src/ESPressio_Middleware.hpp:170-178 | for any object allowed to re-enter: one client and one middleware whose bodies always return, and a request that never ends |
| Middleware.HandleRequest | src/ESPressio_Middleware.hpp:170-178 | the objects entered are those of the chain at the start, in order, each at most once, however deeply the bodies call Handle again; the result is the one with which the first of them finishes, a refusal for a null one, and nobody's answer for an empty pipeline; if every middleware passes its continuation's answer on, it is the terminal's, and all are entered; the chain that was published is not written to |
| Middleware.EndsAtOnce | src/ESPressio_Middleware.hpp:94-100 | a body that finishes with its first action gives Handle that result |
| Middleware.Invocation.RunObject | src/ESPressio_Middleware.hpp:94-100 | a body runs to the result with which it finishes, and passes up what its continuation answers |
| Middleware.Invocation.Perform | src/ESPressio_Middleware.hpp:66-70 | each action of a body has its effect on the pipeline and its answer; a call of Handle is answered with what the first object of the chain published then finishes with |
| Middleware.AddedIsLast | src/ESPressio_Middleware.hpp:123 | an added object comes behind everything that was there and before the same terminal |
| Middleware.RemovedLeavesOthers | src/ESPressio_Middleware.hpp:133-139 | Remove answers true exactly for a published handle other than null, takes its entry out and keeps all others in their order |
| Middleware.RemoveUndoesAdd | src/ESPressio_Middleware.hpp:116-141 | removing what was just added gives the chain back |
| Middleware.Invocation.InvokeAt | src/ESPressio_Middleware.hpp:87-101 | a present object is entered and its own result returned; a null middleware is refused and a missing terminal leaves the request unhandled, with no effect |
| Middleware.Invocation.InvokeNext | src/ESPressio_Middleware.hpp:66-70 | a used continuation is refused and enters nothing; a fresh one enters the object it leads to and returns its result |
| Middleware.MiddlewarePipeline.CloneLocked | src/ESPressio_Middleware.hpp:181-186 | a fresh chain equal to the published one |
| Middleware.MiddlewarePipeline.Add | src/ESPressio_Middleware.hpp:116-126 | publishes a fresh chain extended by the middleware under the next handle, and writes to no published chain |
| Middleware.MiddlewarePipeline.Remove | src/ESPressio_Middleware.hpp:128-141 | publishes a fresh chain without the first entry of that handle, or leaves the published chain in place and answers false |
| Middleware.MiddlewarePipeline.Clear | src/ESPressio_Middleware.hpp:143-151 | publishes a fresh chain with no entries and the same terminal |
| Middleware.MiddlewarePipeline.SetTerminal | src/ESPressio_Middleware.hpp:153-158 | publishes a fresh chain with the same entries and the new terminal |
| Middleware.MiddlewarePipeline.Count | src/ESPressio_Middleware.hpp:165-168 | the number of published entries |
| Routing.Router.Handle | src/ESPressio_Router.hpp:164-207 | calls the handler of the most specific eligible route, by the texts of the patterns and the order of registration, with that route's own parameters, and nothing exactly when no route is eligible |
| Routing.MostSpecificIsBest | src/ESPressio_Router.hpp:183-198 | winning by recorded rank is being most specific by the text: no eligible route has fewer named segments, nor as many and more literal characters, nor ties both and alone has the request's method, nor ties all and was registered earlier |
| Routing.UsersBeforeKinds | src/ESPressio_Router.hpp:183-190 | concrete input: of the patterns with one name, the one with more literal characters is called, with its own parameter, in either order of registration |
| Routing.BestStep | src/ESPressio_Router.hpp:183-198 | replacing the running best exactly when the next eligible route beats it keeps the running best the earliest of best rank |
| Routing.BestIsUnique | src/ESPressio_Router.hpp:176-199 | at most one position of a route list is the winner |
| Routing.WinnerExactly | src/ESPressio_Router.hpp:176-199 | a route list has a winner exactly when one of its routes is eligible |
| Routing.WinnerIgnoresOrder | src/ESPressio_Router.hpp:176-199 | one order of registration has a winner exactly when every permutation of it has |
| Routing.WinningRankIgnoresOrder | src/ESPressio_Router.hpp:183-198 | the winning rank is the same for every permutation of the route list |
| Routing.ExactLookupFirst | src/ESPressio_Router.hpp:176-199 | the winner is the first route literally equal to the path under its own method, else the first under Any, and only else a parametrised route |
| Routing.EligibleExactly | src/ESPressio_Router.hpp:177-181 | for a registered route the method test and the match loop together decide eligibility |
| Routing.Router.RegisterRoute | src/ESPressio_Router.hpp:109-140 | succeeds exactly on registrable patterns, appends one entry with correct counts under the next handle, and otherwise changes nothing |
| Routing.Router.RemoveRoute | src/ESPressio_Router.hpp:142-152 | true exactly when the handle was registered; then just that entry is gone, otherwise nothing changes |
| Routing.Router.Clear | src/ESPressio_Router.hpp:154-157 | no routes are left |
| Patterns.AnalyzePattern | src/ESPressio_Router.hpp:215-245 | valid exactly when every slash-separated segment is non-empty and not a bare colon, or the pattern is the root, with at most 8 named segments; the counts are those of the segment list |
| Patterns.Match | src/ESPressio_Router.hpp:247-292 | true exactly when the path has no trailing slash, the segment lists agree segment by segment and the parameters fit; then exactly the (name, segment) pairs are appended in order |
| Patterns.RegisteredMatchIsSegmentMatch | src/ESPressio_Router.hpp:215-292 | for a registrable pattern the trailing-slash guard and the capacity never decide: the loop is segment agreement |
| Patterns.MatchAccounting | src/ESPressio_Router.hpp:54-58 | a match of a registrable pattern binds as many parameters as registration counted, at most 8, and the path is as long as the literal characters, the values and one slash per segment |
| Patterns.MatchFillsPattern | src/ESPressio_Router.hpp:247-292 | filling the parameters of a match into the pattern gives the path back, and they carry the pattern's names in order |
| Patterns.LiteralMatchIsEquality | src/ESPressio_Router.hpp:215-292 | a registrable pattern without named segments matches a path exactly when the strings are equal |
| Patterns.RouteParameters.Add | src/ESPressio_Router.hpp:54-58 | appends one parameter, or refuses and changes nothing when 8 are held |
| Patterns.RouteParameters.Get | src/ESPressio_Router.hpp:40-42 | the parameter at an index in range, otherwise none |
| Patterns.RouteParameters.FindValue | src/ESPressio_Router.hpp:44-49 | the value of the first parameter of that name, otherwise the empty view |
| Text.JoinSplit | src/ESPressio_Router.hpp:220-241 | the segments that the position and separator loops enumerate join back to the string |
| Text.SplitJoin | src/ESPressio_Router.hpp:220-241 | pieces free of the separator are recovered from their join |
| Text.SplitExactly | src/ESPressio_Router.hpp:220-241 | the enumerated segments are the one decomposition of the string into pieces that hold no separator |
| Text.SplitTrailing | src/ESPressio_Router.hpp:218 | the last segment is empty exactly when nothing or a separator comes last |
| Responses.DestroyedTraceIsLegal | src/ESPressio_Http.hpp:229-331 | for every handler and every platform, after destruction the trace is setup calls only, or these and one Abort, or these, one accepted Begin, body calls and exactly one accepted Complete or Abort |
| Responses.PerformKeeps | src/ESPressio_Http.hpp:240-331 | every operation in every state, with every platform answer, keeps the trace in the language of the state |
| Responses.PerformFollowsPlan | src/ESPressio_Http.hpp:240-331 | every operation in every state, on every platform, makes exactly the calls listed for it, in order and up to the first refused, reports the last answer and ends in the state these calls lead to; Send declares the length and sends the bytes of its body, and aborts when they are refused |
| Responses.DestroyAborts | src/ESPressio_Http.hpp:229-234 | the destructor aborts a streaming response and leaves every other alone |
| Responses.PlayOnce | src/ESPressio_Http.hpp:221-335 | a handler that does one operation and returns is that operation and that result |
| Responses.LegalMoves | src/ESPressio_Http.hpp:229-331 | which platform call takes the language of one state into which other |
| Responses.LegalStateIsUnique | src/ESPressio_Http.hpp:236-238 | a trace belongs to the language of at most one state |
| Responses.SendKeeps | src/ESPressio_Http.hpp:288-310 | Send keeps the trace legal at each failing platform call, and its success means the response is completed |
| Responses.CompletedCounts | src/ESPressio_Http.hpp:312-322 | the trace of a completed response has one accepted Begin, one accepted Complete and no Abort |
| Responses.HttpResponse.Status | src/ESPressio_Http.hpp:240-245 | the state and trace after Status are those of the specification function |
| Responses.HttpResponse.Header | src/ESPressio_Http.hpp:247-253 | the same for Header; an empty name is refused before the state is looked at |
| Responses.HttpResponse.ContentType | src/ESPressio_Http.hpp:255-257 | the same for ContentType |
| Responses.HttpResponse.Begin | src/ESPressio_Http.hpp:259-266 | the same for Begin; only an accepted Begin moves to Streaming |
| Responses.HttpResponse.Write | src/ESPressio_Http.hpp:268-279 | the same for Write, with its implicit Begin of unknown length |
| Responses.HttpResponse.Send | src/ESPressio_Http.hpp:288-310 | the same for Send, with its Abort after a failed write |
| Responses.HttpResponse.Complete | src/ESPressio_Http.hpp:312-322 | the same for Complete, with its implicit empty Begin |
| Responses.HttpResponse.Abort | src/ESPressio_Http.hpp:324-331 | the same for Abort, which does nothing once completed or aborted |
| Responses.HttpResponse.Destroy | src/ESPressio_Http.hpp:229-234 | the same for the destructor, which aborts only a streaming response |
| Dispatching.DispatchRequest | src/ESPressio_HttpServer.hpp:298-337 | the result and the final trace are those of the dispatch function, for any handlers and platform |
| Dispatching.DispatchEndsTheResponse | src/ESPressio_HttpServer.hpp:298-337 | after every dispatch the response is not streaming and its trace is legal; success means one accepted Begin, one accepted Complete and no Abort |
| Dispatching.RefusalsExactly | src/ESPressio_HttpServer.hpp:304-320 | a server that is not running answers NotRunning, one without a handler InvalidState, and a declared length above the limit RequestTooLarge, in this order and without any platform call |
| Dispatching.AdmittedExactly | src/ESPressio_HttpServer.hpp:322-336 | every other request reaches the server's handler with a fresh response; its failure is the result, a decline is NotFound before and InvalidState after the response is committed, and handling succeeds exactly with a completed response |
| Dispatching.RefusedDispatchIsSilent | src/ESPressio_HttpServer.hpp:306-331 | a refused dispatch makes no platform call, and a declined request reported NotFound has begun nothing |
| Dispatching.ShippedApplicationDispatches | src/ESPressio_HttpServer.hpp:322-336 | the dispatcher's checks never turn the success of an application of shipped parts into a failure |
| Lifecycle.RunKeepsInv | src/ESPressio_HttpServer.hpp:172-280 | in every interleaving at most one thread owns a transitional state, which then has an owner, and the log of platform calls agrees with the state |
| Lifecycle.StepKeepsOwnership | src/ESPressio_HttpServer.hpp:193-276 | every atomic step keeps the ownership half of that invariant |
| Lifecycle.StepKeepsLogged | src/ESPressio_HttpServer.hpp:193-276 | every atomic step emits only an event that may come next and keeps state and log in agreement |
| Lifecycle.CallsNeverOverlap | src/ESPressio_HttpServer.hpp:206-270 | between any two beginnings of platform Initialize, Start or Stop calls the first call has ended, on its own thread |
| Lifecycle.StartAndStopAreEarned | src/ESPressio_HttpServer.hpp:220-270 | the last of these calls before a platform Start is an Initialize that succeeded, and before a platform Stop a Start that succeeded |
| Lifecycle.DispatchUsesLastInitialize | src/ESPressio_HttpServer.hpp:298-311 | every admitted dispatch follows a successful Start with no such call since, and uses the body limit given to the last Initialize, which succeeded |
| Lifecycle.ServingIsConstant | src/ESPressio_HttpServer.hpp:206-291 | from the claim of Starting to the end of Stopping, handler and configuration do not change |
| Lifecycle.ServerServes | src/ESPressio_HttpServer.hpp:172-311 | from every point of every run with an idle thread and a server that is Stopped, Ready or Faulted, setting a handler, Initialize, Start and a dispatch on a willing platform reach that handler under that configuration's limit |
| Lifecycle.InitializeRuns | src/ESPressio_HttpServer.hpp:192-217 | Initialize on a server that is Stopped, Ready or Faulted resets and initializes the platform, and ends Ready with the new configuration or Faulted with the old |
| Lifecycle.StartRuns | src/ESPressio_HttpServer.hpp:220-243 | Start on a Ready server starts the platform and ends Running, or Faulted if the platform refuses |
| Lifecycle.StopRuns | src/ESPressio_HttpServer.hpp:245-280 | Stop on a Running server stops the platform and ends Stopped with a reset, or Faulted without one |
| Lifecycle.StopResets | src/ESPressio_HttpServer.hpp:251-266 | Stop on a Ready or Faulted server only resets the platform, and on a Stopped one does nothing |
| Lifecycle.SetHandlerRuns | src/ESPressio_HttpServer.hpp:282-291 | a handler is stored exactly while the server is not starting, running or stopping |
| Lifecycle.DispatchRuns | src/ESPressio_HttpServer.hpp:304-311 | a running server admits every dispatch with its handler and limit, any other server none |
| Lifecycle.HandlerIsTheLastSet | src/ESPressio_HttpServer.hpp:282-311 | in every run a dispatch is admitted with the handler that was set last while the server was not serving |
| Lifecycle.ClaimsExactly | src/ESPressio_HttpServer.hpp:193-260 | from which states each claim succeeds, and the error in every other |
| Lifecycle.LiveResetExactly | src/ESPressio_HttpServer.hpp:172-280 | with some threads allowed to initialize and some to stop, a run that resets the platform under a server that is Ready or serving, or whose platform is initializing or initialized and not yet published, is possible exactly when one thread may stop and a different one may initialize |
| Lifecycle.LiveResetMeansInitialize | src/ESPressio_HttpServer.hpp:193-280 | every such reset comes after another thread has called Initialize, at a point where the resetting thread was already about to reset |
| Lifecycle.StopWasCalled | src/ESPressio_HttpServer.hpp:245-280 | a thread inside Stop or about to reset has called Stop |
| Lifecycle.StaleResetExactly | src/ESPressio_HttpServer.hpp:245-280 | without a rule on who may stop and initialize, such a run exists exactly when there are at least two threads |
| Lifecycle.LiveResetEndsStop | src/ESPressio_HttpServer.hpp:206-277 | such a reset is always the one that ends a Stop, never the one that begins an Initialize |
| Lifecycle.TwoThreadsResetLive | src/ESPressio_HttpServer.hpp:252-265 | such a run, step by step, for any thread that stops and any other that initializes |
| Lifecycle.ServerCore.BeginInitialize | src/ESPressio_HttpServer.hpp:193-203 | the first locked section of Initialize: claims Initializing, or refuses and changes nothing |
| Lifecycle.ServerCore.EndInitialize | src/ESPressio_HttpServer.hpp:208-215 | its second: stores the configuration only on success |
| Lifecycle.ServerCore.BeginStart | src/ESPressio_HttpServer.hpp:221-230 | the first locked section of Start |
| Lifecycle.ServerCore.EndStart | src/ESPressio_HttpServer.hpp:234-240 | its second |
| Lifecycle.ServerCore.BeginStop | src/ESPressio_HttpServer.hpp:248-260 | the first locked section of Stop, with its four outcomes |
| Lifecycle.ServerCore.EndStop | src/ESPressio_HttpServer.hpp:270-276 | its second |
| Lifecycle.ServerCore.SetRequestHandler | src/ESPressio_HttpServer.hpp:282-291 | stores the handler, or refuses while starting, running or stopping |
| Lifecycle.ServerCore.BeginDispatch | src/ESPressio_HttpServer.hpp:304-311 | admits only while running, with the handler and limit of that moment |
| Resources.WriteWebResourceResponse | src/ESPressio_Resources.hpp:124-200 | result, response state and trace are those of the specification function, for either kind of reader and any platform |
| Resources.StreamBody | src/ESPressio_Resources.hpp:167-199 | the loop over one reused buffer gives the same transfer for a stream, whose position equals the offset, and for an offset reader |
| Resources.IsSafeWebResourcePath | src/ESPressio_Resources.hpp:105-122 | true exactly when the path starts with a slash, holds no backslash or NUL, and no segment is two dots |
| Resources.SafeStaysBelowRoot | src/ESPressio_Resources.hpp:105-122 | walking along a safe path never leads above the root |
| Resources.ResourceReader.ReadNext | src/ESPressio_Resources.hpp:35-39 | a sequential read advances the stream by what it claims and stores at the front of the buffer |
| Resources.ResourceReader.ReadAt | src/ESPressio_Resources.hpp:50-55 | a read at an offset does the same without a position |
| Delivery.DeliveredExactly | src/ESPressio_Resources.hpp:124-200 | a successful body request against a truthful reader declared the size and wrote exactly the resource, for every chunk size and pattern of short reads, and completed |
| Delivery.AvailableIsServed | src/ESPressio_Resources.hpp:124-200 | an available resource is served: with a willing reader and platform a body request succeeds and delivers all of it for every chunk size and short-read pattern, and a header-only request makes exactly the three calls that declare it |
| Delivery.RefusalsExactly | src/ESPressio_Resources.hpp:132-158 | what keeps a resource from being served, and the error of each, with the response untouched |
| Delivery.TransferEndsProperly | src/ESPressio_Resources.hpp:172-199 | a transfer ends completed on success and aborted on failure, unless it is the completion that was refused |
| Delivery.DeliversPrefix | src/ESPressio_Resources.hpp:124-200 | every run, successful or not, adds only a prefix of the resource to what was written, and nothing for a header-only request |
| Delivery.StreamDelivers | src/ESPressio_Resources.hpp:172-199 | from any offset, what is written stays a prefix that never shrinks, and is everything on success |
| Delivery.StreamCallsBounded | src/ESPressio_Resources.hpp:172-199 | the loop makes at most one platform call per remaining byte and one to end, and never fewer than one |
| Delivery.OpenedOrNot | src/ESPressio_Resources.hpp:132-165 | a run either ends in failure before an accepted Begin with nothing written and the state unchanged, or is the content type, the declared size and then the transfer |
| Delivery.WriteResourceKeeps | src/ESPressio_Resources.hpp:124-200 | a resource response keeps the trace legal and is completed whenever it reports success |
| Applications.DeclinesCommittedExactly | src/ESPressio_Resources.hpp:224-245 | the static handler declines with the response committed exactly when the Begin was accepted and then the platform trace holds a write or completion answered NotFound, or breaks off with an Abort where the reader answered NotFound |
| Applications.StaticDecides | src/ESPressio_Resources.hpp:224-245 | other methods are declined and unsafe paths refused as a protocol error with the response untouched; everything else is handled with the result of serving it, except NotFound, which is declined |
| Applications.MissingIsDeclined | src/ESPressio_Resources.hpp:139-154 | a file that opening or stat cannot find, and a directory, are declined with the response untouched |
| Applications.DecliningCommittedHappens | src/ESPressio_Resources.hpp:182-185 | concrete inputs: a reader that loses its file, and a completion that says NotFound |
| Applications.NeverDeclinesCommittedExactly | src/ESPressio_Resources.hpp:224-245 | letting readers, writes and completions fail only with given errors keeps every static handler on every platform from declining with the response committed exactly when NotFound is not among them |
| Applications.QuietDeclinesUncommitted | src/ESPressio_Resources.hpp:235-245 | for one site and platform that never answer NotFound once a body is under way, a declined request is uncommitted |
| Applications.StreamErrorExactly | src/ESPressio_Resources.hpp:173-199 | a transfer reports an error, other than its own protocol error, exactly when its trace, or the reader at the point the trace breaks off, says so |
| Applications.StagesStartClean | src/ESPressio_HttpApplication.hpp:172-196 | whatever the handlers do and replace meanwhile, some fallback starts on a committed response exactly when the primary committed it, succeeded and declined |
| Applications.RequestIsDecided | src/ESPressio_HttpApplication.hpp:172-196 | the primary is called first; exactly if it declines, the fallback is called on the response it left; the first to take the request decides; a failure goes to the responder of that stage with its own error, two declines with NotFound, and on a committed response the bare error is the result; nobody else is called |
| Applications.FallbackAlone | src/ESPressio_HttpApplication.hpp:177-179 | without a primary, a fallback that takes the request decides it |
| Applications.DefaultResponds | src/ESPressio_HttpApplication.hpp:49-56 | the default responder sets the status of the error and then sends its text, up to the first refused call |
| Applications.ResourceResponds | src/ESPressio_HttpApplication.hpp:109-132 | the page of the error is shown under its status; without a page, or when it is missing before anything was begun, the fallback responds |
| Applications.StatusClasses | src/ESPressio_HttpApplication.hpp:15-45 | errors of the client have a 4xx status and all others a 5xx; 404 is NotFound alone and 413 RequestTooLarge alone |
| Applications.StaticPrimaryFallback | src/ESPressio_HttpApplication.hpp:172-182 | with a static primary, the fallback starts committed exactly on a NotFound after the Begin |
| Applications.QuietStagesStartClean | src/ESPressio_HttpApplication.hpp:172-196 | with a static primary that is never answered NotFound late, every stage starts uncommitted |
| Applications.ShippedResponds | src/ESPressio_HttpApplication.hpp:109-132 | a chain of shipped responders always handles, keeps the trace legal, and succeeds only with a completed response |
| Applications.ShippedApplicationAnswers | src/ESPressio_HttpApplication.hpp:172-196 | if every stage loads a shipped part, no request is left unhandled and success is reported only for a completed response |
| ApplicationObjects.RunHandler | src/ESPressio_Http.hpp:221-335 | any handler run against the response object leaves the state, trace and result of the specification |
| ApplicationObjects.HandleStatic | src/ESPressio_Resources.hpp:224-245 | the static handler against the response object meets its specification function |
| ApplicationObjects.RespondWith | src/ESPressio_HttpApplication.hpp:109-132 | the responders against the response object meet theirs |
| ApplicationObjects.HttpApplication.Handle | src/ESPressio_HttpApplication.hpp:172-182 | result, state, trace and the recorded calls of handlers are those of the staged specification on what each stage loads, with the setters called in any way between the stages |
| ApplicationObjects.HttpApplication.InvokeOne | src/ESPressio_HttpApplication.hpp:185-189 | a null handler leaves the request unhandled; others are run |
| ApplicationObjects.HttpApplication.Resolve | src/ESPressio_HttpApplication.hpp:191-196 | a committed response gets the bare error, others the responder of that moment |
| ApplicationObjects.HttpApplication.SetPrimary | src/ESPressio_HttpApplication.hpp:157-159 | replaces the primary handler and nothing else |
| ApplicationObjects.HttpApplication.SetFallback | src/ESPressio_HttpApplication.hpp:160-162 | replaces the fallback and nothing else |
| ApplicationObjects.HttpApplication.SetErrorResponder | src/ESPressio_HttpApplication.hpp:163-170 | replaces the responder, a null one by the default |
| ApplicationObjects.ErrorPages.ConfigureResource | src/ESPressio_HttpApplication.hpp:80-91 | succeeds exactly for a real error and a safe path, and changes the page of that error only |
| ApplicationObjects.ErrorPages.ClearResource | src/ESPressio_HttpApplication.hpp:93-99 | removes the page of that error only |
| Ingress.ReadCommandBody | src/ESPressio_WebCommand.hpp:94-154 | the loop in the envelope meets its specification; an accepted body stands at the front and its NUL is in bounds |
| Ingress.ReadPacketBody | src/ESPressio_WebEvent.hpp:103-167 | the loop over the resized vector meets the same specification and never holds more than the limit |
| Ingress.BodyReader.ReadInto | src/ESPressio_Http.hpp:210-215 | a read works only within the room offered and leaves what was read before in place |
| Ingress.AcceptedIsTheBody | src/ESPressio_WebCommand.hpp:51-154 | against a source that does not lie within the room offered, but may fail, stall or claim any number of bytes beyond it, an accepted body is the whole body, within the limit and of the declared length |
| Ingress.ModesAgreeExactly | src/ESPressio_WebCommand.hpp:51-154 | for any policy of reporting the end by the number, offset and room of a read, any two platforms of it, short-read patterns and chunk sizes, declared and unknown mode agree on a body exactly when it is empty, beyond the maximum, or the policy reports the end on every reachable read that it fills exactly; likewise for each platform with itself |
| Ingress.DeclaredServesExactly | src/ESPressio_WebCommand.hpp:112-136 | all platforms of a policy have a body of 1 to maximum bytes accepted in declared mode exactly when the policy reports the end on every reachable read that it fills exactly |
| Ingress.DeclaredAcceptsExactly | src/ESPressio_WebCommand.hpp:51-136 | for such platforms the declared mode accepts exactly a declaration equal to the body length and in 1 to the maximum, and which error it gives otherwise |
| Ingress.DeclaredReadDecides | src/ESPressio_WebCommand.hpp:112-136 | after any number of good reads the next decides: a failure is the result, a false claim or an empty read a protocol error, and an end is accepted exactly at the declared length |
| Ingress.UnknownReadDecides | src/ESPressio_WebCommand.hpp:138-153 | likewise for an unknown length, where every end is accepted and a full maximum without one is too large |
| Ingress.ModesAgree | src/ESPressio_WebEvent.hpp:72-167 | where the modes agree, both give the body, or the one error for an empty or too large body |
| Ingress.UnflaggedEndSeparatesModes | src/ESPressio_WebEvent.hpp:109-167 | on a platform that flags no full read, the declared mode refuses every declaration, and the unknown mode accepts exactly the non-empty bodies that leave a byte of room, with the error for every other size |
| Ingress.ShortReadFlagsPartModes | src/ESPressio_WebEvent.hpp:109-167 | concrete input: one byte from a platform that flags the end on short reads, refused in declared and accepted in unknown mode |
| Ingress.StepwiseRefused | src/ESPressio_WebEvent.hpp:109-129 | if a policy misses the full read at some turn and offset that reads with progress can reach, the platform that gets there in that many reads and then fills the room is refused in declared mode |
| HandshakeHeaders.ValidateHeaders | src/ESPressio_WebSocketClient.hpp:240-275 | for any width of size_t, the size_t loop gives the verdict of the unbounded sum, and no addition or subtraction wraps |
| HandshakeHeaders.SuccessExactly | src/ESPressio_WebSocketClient.hpp:240-275 | success is no source, or a positive budget, at most 64 headers, all acceptable, and the total of all lines within the budget |
| HandshakeHeaders.ErrorExactly | src/ESPressio_WebSocketClient.hpp:244-271 | which error everything else is: budget and count first, then the first header that is not acceptable or no longer fits |
| HandshakeHeaders.LineReadsBack | src/ESPressio_WebSocketClient.hpp:225-259 | an accepted header can be read back from any text that begins with its line, so none smuggles another |
| HandshakeHeaders.LowerAsciiExactly | src/ESPressio_WebSocketClient.hpp:202-206 | characters agree but for case exactly if they are equal or an upper-case letter and its lower-case one |
| HandshakeHeaders.FirstOffence | src/ESPressio_WebSocketClient.hpp:253-273 | the first offending index, with none before it, decides the error |
| HandshakeHeaders.HeaderNameEquals | src/ESPressio_WebSocketClient.hpp:208-214 | equality of the lower-cased names |
| HandshakeHeaders.IsReservedHandshakeHeader | src/ESPressio_WebSocketClient.hpp:216-223 | membership of the lower-cased name in the six reserved names |
| HandshakeHeaders.ContainsInvalidHeaderNameCharacter | src/ESPressio_WebSocketClient.hpp:225-233 | true exactly for an empty name or one with a control, blank, non-ASCII or colon character |
| Query.QueryValue | src/ESPressio_Http.hpp:184-208 | the value of the first pair with that key when the query is split on ampersands and each pair on its first equals sign, on every string |
| Query.QueryUndoesRendering | src/ESPressio_Http.hpp:184-208 | looking a non-empty name up in a rendered list of pairs and lone keys gives the first with that key, the empty value for a lone key, or nothing |
| Services.HttpService.Handle | src/ESPressio_HttpService.hpp:102-127 | the first provider of the list as it was at the start that fails or takes the request decides, whatever providers change meanwhile |
| Services.DecisionIsUnique | src/ESPressio_HttpService.hpp:109-126 | a provider list has exactly one decision |
| Services.UnhandledExactly | src/ESPressio_HttpService.hpp:109-126 | the request is unhandled exactly when every provider passes it on, and an unhandled answer hides no error |
| Services.ProviderDecides | src/ESPressio_HttpService.hpp:109-124 | what the first provider that is reached does: a null entry, a failure to answer, a failure to handle and handling end the search with their own result, being unable and leaving it unhandled do not |
| Services.HttpService.AddProvider | src/ESPressio_HttpService.hpp:64-73 | publishes a fresh list extended by the provider under the next handle |
| Services.HttpService.RemoveProvider | src/ESPressio_HttpService.hpp:75-87 | publishes a fresh list of all other entries in their order, or keeps the published one |
| Services.HttpService.ClearProviders | src/ESPressio_HttpService.hpp:89-95 | publishes a fresh empty list |
| Dns.DispatchQuery | src/ESPressio_Dns.hpp:419-445 | result and trace are those of the dispatch function on the server's state and handler at its locked section, for any handlers and platform |
| Dns.DnsServer.BeginInitialize | src/ESPressio_Dns.hpp:338-348 | the first locked section of Initialize is that of the lifecycle machine, for every configuration the machine might keep |
| Dns.DnsServer.EndInitialize | src/ESPressio_Dns.hpp:353-357 | likewise its second |
| Dns.DnsServer.BeginStart | src/ESPressio_Dns.hpp:363-372 | likewise the first of Start |
| Dns.DnsServer.EndStart | src/ESPressio_Dns.hpp:375-379 | likewise its second |
| Dns.DnsServer.BeginStop | src/ESPressio_Dns.hpp:387-399 | likewise the first of Stop |
| Dns.DnsServer.EndStop | src/ESPressio_Dns.hpp:409-413 | likewise its second |
| Dns.DnsServer.SetRequestHandler | src/ESPressio_Dns.hpp:317-326 | likewise the change of the handler |
| Dns.DnsServer.BeginDispatch | src/ESPressio_Dns.hpp:424-430 | likewise admission, with the handler of that moment |
| Dns.DispatchEndsTheResponse | src/ESPressio_Dns.hpp:419-445 | after every dispatch the response is not half built and its trace is legal; success means it was completed, and a refused dispatch is silent |
| Dns.DispatchExactly | src/ESPressio_Dns.hpp:424-445 | who is refused without any platform call, and for every other query the result and the final response: a declined one is answered with NameError, up to the first refused call |
| Dns.PerformFollowsPlan | src/ESPressio_Dns.hpp:128-164 | every operation in every state, on every platform, makes exactly the calls listed for it, in order and up to the first refused, and ends in the state these calls lead to |
| Dns.WildcardAnswers | src/ESPressio_Dns.hpp:463-475 | on every platform a wildcard server makes exactly the calls of its answer in order, up to the first refused, and then aborts exactly when a code had been accepted |
| Dns.HandleWildcard | src/ESPressio_Dns.hpp:463-475 | the handler on the response object is the two-operation handler of that theorem |
| Dns.PlayKeeps | src/ESPressio_Dns.hpp:120-164 | any handler, on any platform, keeps the trace in the language of the state |
| Dns.LegalMoves | src/ESPressio_Dns.hpp:120-164 | which platform call takes the language of one DNS state into which other |
| Dns.DnsResponse.Code | src/ESPressio_Dns.hpp:128-135 | state and trace after Code are those of the specification function |
| Dns.DnsResponse.AddAddress | src/ESPressio_Dns.hpp:137-146 | the same for Address, with its implicit NoError code |
| Dns.DnsResponse.Complete | src/ESPressio_Dns.hpp:148-158 | the same for Complete |
| Dns.DnsResponse.Abort | src/ESPressio_Dns.hpp:160-164 | the same for Abort |
| Dns.DnsResponse.Destroy | src/ESPressio_Dns.hpp:120-122 | the same for the destructor |

## Left out

- Middleware.HandleRequest: how deeply Handle is entered again has an arbitrary bound, and the bodies of such a call use continuations of their own; continuations lent across invocations and unbounded re-entry are covered by the step machine of `PipelineRuns`. `PipelineTermination` and `PipelineReentry` say when it ends.
- Ingress.BodyReader.ReadInto: an answer names the bytes that the claimed range holds after the read, whether this read stored them or they were there before; which of the two is not distinguished.
- Lifecycle.ServingIsConstant: is about the stored handler and configuration; a handler already admitted may go on after Stop, as in the code.
- HttpService under interleaving: the service uses the handle registry and snapshot of the pipeline, whose interleavings are proved once, in `PipelineRuns` and `PipelineHandles`.
- DnsServer under interleaving: its locked sections are proved to be those of the machine in `Lifecycle`, whose runs are not repeated.
- Checks of the configuration before the first lock of Initialize, getters, capability bits: one-branch facts. Destruction of a server is not modelled.
- Observers are arbitrary callbacks outside the lock; for what every run keeps, what they call back into the server is what further threads call. Between Stop's last locked section and its reset no callback runs, so in `Lifecycle.LiveResetExactly` the threads are real threads.
- A continuation's test and set of its flag is one atomic step, although the flag is not atomic in the code; a continuation number that names no continuation is refused.
- Locks are atomic steps; real memory ordering, exceptions, allocation failure, memory policies and the lifetime of borrowed views are not modelled.
- Handle counters are unbounded: wrap-around after 2^64 - 1 issues is not modelled. `size_t` has 32 bits, except in `HandshakeHeaders`, where its width is arbitrary.
- HTTP and DNS handlers are arbitrary strategies over what they have seen, each with an arbitrary limit on its number of operations: every run that ends is a run of such a handler.
- Error body texts and the content-type table are parameters. The page table of the error responder enters the responder as the function its entries denote.
- The accepting ends of the ingresses: request ids, event queueing, the receiver handover and the final Accepted status.
- `ESPRESSIO_COMMAND_MAX_RAW_LENGTH` is any value from 2 to 65536, the size of the array; the library that defines it is not part of this model.
- WebSocket endpoint and client facades, the event bridge, transports and event classes, configuration and TLS validation, clock synchronisation, state snapshots and persistence: forwarding, or logic that lives in packages that are not part of this model.
