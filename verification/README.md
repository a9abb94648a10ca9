# kaigate gateway core in Dafny

A functional model of the decision logic of the kaigate API gateway, with proofs about it. Every component is written as immutable data plus pure transition functions. Locks are erased, and the clock (`now`, in nanoseconds), random draws and the outcomes of foreign calls are explicit parameters.

The model covers:

- **Route table** (`RouteTable`, `RouteSelection`):
  - routes grouped under `Method + "-" + Path`;
  - add, remove and update, with validation and per-key ID uniqueness;
  - `MatchRoute` and the weighted choice `selectRoute`, with the `rand.Intn` result passed in as `draw`.
- **Circuit breaker** (`CircuitBreaker`): the per-service closed/open/half-open machine with its counters and change stamps, the reset operations and the fallback switch.
- **Token bucket and limiter manager** (`RateLimiter`):
  - tokens are exact reals;
  - get-or-create by key.
- **Proxy-route installer and reload bookkeeping** (`HttpRouter`, `Server`):
  - the installer is a fold over the declarations;
  - the gin engine is abstracted to the set of paths that have handlers, plus the set of paths gin would reject for another reason;
  - the `registeredProxyRoutes` set, the reload and the reload endpoint;
  - the CORS middleware;
  - the embedding-input and chat-message normalisers.
- **WebSocket registry** (`WebSocket`):
  - connections with an open flag and a send queue bounded at 100;
  - idempotent close, the heartbeat sweep and `Broadcast`;
  - frame dispatch with the `ping` and `echo` handlers;
  - connection IDs built from 16 draws.
- **MCP and AI-agent managers** (`ServiceManager`, `McpManager`, `AgentManager`):
  - a factory registry with a lazy instance and config cache;
  - `Create` and `Init` outcomes are parameters.
- **MCP base and example service** (`McpService`): the config map, the response builders, tool dispatch and the calculator.

Shared modules:

- `Wrappers`: `Option`, and `Result` for Go's `(value, error)` pairs.
- `Json`: decoded `interface{}` values, with numbers as reals.
- `Collections`: enumerations of sets, which model Go's unordered `range` over a map.

Where code iterates over a map, the iteration order is a parameter `order` that enumerates the keys. The results are proved either for every order or as order-independent.

## Model

| member | source | states |
|---|---|---|
| RouteTable.Validate | pkg/router/router.go:64-78 | A nil route, then an empty path, method or service name, is reported with its own error in the source's order; an empty ID passes |
| RouteTable.AddRoute | pkg/router/router.go:63-106 | A validation error or an ID already present under the route's key leaves the table unchanged. Otherwise the route is appended at the end of its key's list and no other key changes. The same ID under a different key is accepted |
| RouteTable.RemoveRoute | pkg/router/router.go:109-140 | "route not found" iff no key holds the ID. Otherwise every entry with the ID is removed from the first key (in iteration order) that holds one, and that key is deleted if its list empties |
| RouteTable.RemoveRouteFrame | pkg/router/router.go:114-139 | In a table without empty lists, a miss leaves the table unchanged, and a hit changes only the key where the ID was found |
| RouteTable.RemoveLoop | pkg/router/router.go:114-137 | The loop rewrites every visited key without the ID, deletes emptied keys and stops at the first key that held the ID |
| RouteTable.UpdateRoute | pkg/router/router.go:168-180 | A nil route is refused. A failed removal ("route not found") is returned without adding anything. A route that then fails validation stays removed, with the validation error. In a table without empty lists: success iff the ID was found, the route is valid, and its own key is the key the ID was removed from or does not hold the ID; "route with same ID already exists" iff the ID survives under the route's own key; keys other than those two are unchanged. On success the route ends its key's list |
| RouteTable.GetRoute | pkg/router/router.go:143-152 | The list stored under `Method-Path`, present iff the key is |
| RouteTable.GetAllRoutes | pkg/router/router.go:155-165 | Key by key in iteration order: the `i`-th key's list sits at the offset given by the lengths of the lists before it, and the length is the sum of the list lengths, so nothing is lost or repeated; an entry is listed iff some key holds it |
| RouteTable.AddThenGet | pkg/router/router.go:63-152 | After a successful AddRoute, GetRoute on the route's method and path returns the old list with the route appended |
| RouteTable.AddGrowsAll | pkg/router/router.go:63-165 | After a successful AddRoute, GetAllRoutes lists exactly one more entry, including the new route, whatever the iteration orders before and after |
| Collections.LengthSumTotal | pkg/router/router.go:155-165 | Summing the list lengths key by key, in any order that enumerates the keys, gives the number of entries in the table: the size of GetAllRoutes does not depend on the iteration order |
| RouteTable.MatchRoute | pkg/router/router.go:183-208 | No match iff the key is absent or none of its entries is enabled; a match is the weighted choice, for the given draw, among the enabled entries of that key in their stored order |
| RouteTable.EnabledOfAppend | pkg/router/router.go:192-198 | The enabled entries of a concatenation are those of the first part followed by those of the second, so filtering keeps the stored order |
| RouteTable.SelectRoute | pkg/router/router.go:211-237 | The weighted choice returns an element of the list it is given |
| RouteTable.NewRouter | pkg/router/router.go:49-60 | The new router holds exactly the key `GET-/api/v1/echo`, with the test route as its only entry |
| RouteTable.DefaultRouteMatches | pkg/router/router.go:49-60 | For every draw, GET /api/v1/echo on a new router matches the test route |
| RouteTable.AddPreservesWellFormed | pkg/router/router.go:81-95 | AddRoute keeps the invariant: valid entries, filed under their own key, unique IDs per key, no empty lists |
| RouteTable.RemovePreservesWellFormed | pkg/router/router.go:114-139 | RemoveRoute keeps the same invariant |
| RouteTable.UpdatePreservesWellFormed | pkg/router/router.go:168-180 | UpdateRoute keeps the same invariant |
| RouteTable.AddRemoveRoundTrip | pkg/router/router.go:63-140 | Adding a route whose ID is unused and then removing that ID restores the original table, for every iteration order |
| RouteSelection.SelectIndex | pkg/router/router.go:213-236 | The chosen index is in range. With total 0 it is the uniformly drawn index |
| RouteSelection.Walk | pkg/router/router.go:227-236 | The walk returns the first index whose running sum exceeds the draw, or index 0 when none does |
| RouteSelection.SelectedIff | pkg/router/router.go:224-233 | With non-negative weights and a draw in [0, total), index i is chosen iff prefix(i) <= draw < prefix(i) + weight_i |
| RouteSelection.SelectionFrequency | pkg/router/router.go:213-233 | With non-negative weights, exactly weight_i of the `total` possible draws select entry i |
| RouteSelection.UniformWhenWeightless | pkg/router/router.go:218-221 | With total weight 0, each index is chosen by exactly one of the `len` draws |
| RouteSelection.FallthroughIsFirst | pkg/router/router.go:235-236 | When no running sum exceeds the draw, the walk falls through to the first entry |
| RouteSelection.PrefixMonotone | pkg/router/router.go:227-230 | With non-negative weights, the running sum never decreases |
| CircuitBreaker.NewCircuitBreaker | pkg/router/circuit_breaker.go:34-46 | Error threshold 5, timeout 10 s, success threshold 2, fallback enabled, no service recorded |
| CircuitBreaker.Lookup | pkg/router/circuit_breaker.go:148-156 | An unseen service is recorded as closed with no change stamp; a known service is left as it is |
| CircuitBreaker.SetServiceState | pkg/router/circuit_breaker.go:159-162 | The state is set and stamped with `now`; nothing else changes |
| CircuitBreaker.ResetCounts | pkg/router/circuit_breaker.go:165-168 | Both counts of the service become 0; nothing else changes |
| CircuitBreaker.AllowRequest | pkg/router/circuit_breaker.go:49-85 | Rejected iff the fallback switch is on, the service is open and the timeout has not elapsed. An open service whose timeout has elapsed moves to half-open stamped with `now`. Every other case changes nothing beyond the first-lookup record |
| CircuitBreaker.RecordSuccess | pkg/router/circuit_breaker.go:88-111 | Closed: the error count becomes 0. Half-open: the success count grows, and at the threshold both counts are zeroed and the service closes. Open: no change |
| CircuitBreaker.RecordFailure | pkg/router/circuit_breaker.go:114-145 | Closed: the error count grows, and the service opens once the count reaches the threshold (the count is kept). Half-open: the service opens at once. Open: no change |
| CircuitBreaker.ResetService | pkg/router/circuit_breaker.go:236-242 | One service becomes closed, with zero counts and a stamp of `now`; other services are untouched |
| CircuitBreaker.ResetAll | pkg/router/circuit_breaker.go:245-255 | Every recorded service becomes closed, with zero counts and a stamp of `now`. Thresholds, timeout, the fallback switch and the global state are unchanged, and a service with no recorded state keeps its stamp |
| CircuitBreaker.SetErrorThreshold | pkg/router/circuit_breaker.go:201-205 | The error threshold is set; the other settings and every per-service record are unchanged |
| CircuitBreaker.SetTimeout | pkg/router/circuit_breaker.go:208-212 | The timeout is set; the other settings and every per-service record are unchanged |
| CircuitBreaker.SetSuccessThreshold | pkg/router/circuit_breaker.go:215-219 | The success threshold is set; the other settings and every per-service record are unchanged |
| CircuitBreaker.EnableFallback | pkg/router/circuit_breaker.go:222-226 | The breaker is switched on (`disableFallback` false); the thresholds, timeout and records are unchanged |
| CircuitBreaker.DisableFallback | pkg/router/circuit_breaker.go:229-233 | The breaker is switched off (`disableFallback` true); the thresholds, timeout and records are unchanged |
| CircuitBreaker.ErrorThresholdGovernsTrip | pkg/router/circuit_breaker.go:114-130 | After SetErrorThreshold(t), a failure opens a closed service iff its error count reaches t |
| CircuitBreaker.SuccessThresholdGovernsClose | pkg/router/circuit_breaker.go:88-101 | After SetSuccessThreshold(t), a success closes a half-open service iff its success count reaches t |
| CircuitBreaker.TimeoutGovernsRetry | pkg/router/circuit_breaker.go:63-72 | After SetTimeout(d), an open service with a recorded change is admitted iff at least d has elapsed since the change |
| CircuitBreaker.SwitchRoundTrip | pkg/router/circuit_breaker.go:222-233 | Switching the breaker off and back on (or on and back off) gives the breaker back |
| CircuitBreaker.SettersPreserveValid | pkg/router/circuit_breaker.go:201-233 | Every setter keeps the bookkeeping invariant |
| CircuitBreaker.ResetAllIsResetEach | pkg/router/circuit_breaker.go:245-255 | ResetAll equals ResetService applied to the recorded services one by one, in any order |
| CircuitBreaker.FailuresBelowThreshold | pkg/router/circuit_breaker.go:122-134 | Fewer failures than the threshold keep a closed service closed and are all counted |
| CircuitBreaker.TripsAtThreshold | pkg/router/circuit_breaker.go:122-134 | From a clean closed state, the service opens on exactly the threshold-th failure |
| CircuitBreaker.SuccessesBelowThreshold | pkg/router/circuit_breaker.go:96-104 | Successes short of the threshold keep a half-open service half-open and are all counted |
| CircuitBreaker.Recovers | pkg/router/circuit_breaker.go:96-104 | A half-open service with k successes counted closes after exactly threshold - k more, with both counts zeroed |
| CircuitBreaker.DisabledAdmitsAll | pkg/router/circuit_breaker.go:57-59 | With fallback disabled, every service is admitted and no state or stamp changes |
| CircuitBreaker.OpenRetriesAfterTimeout | pkg/router/circuit_breaker.go:62-71 | An open, stamped service is admitted in half-open exactly `timeout` after its last change |
| CircuitBreaker.OutageScenario | pkg/router/circuit_breaker.go:49-145 | With the defaults: 5 failures open the service; a request at +5 s is rejected; one at +10 s is admitted half-open; 2 successes close it again |
| CircuitBreaker.LeftoverSuccessesCarryOver | pkg/router/circuit_breaker.go:136-139 | A failed half-open trial keeps its success count, so the next half-open period needs fewer successes |
| CircuitBreaker.NewIsValid | pkg/router/circuit_breaker.go:34-46 | The new breaker satisfies the bookkeeping invariant: counts are non-negative, and a service that is not closed has a change stamp |
| CircuitBreaker.AllowPreservesValid | pkg/router/circuit_breaker.go:49-85 | AllowRequest keeps that invariant |
| CircuitBreaker.SuccessPreservesValid | pkg/router/circuit_breaker.go:88-111 | RecordSuccess keeps that invariant |
| CircuitBreaker.FailurePreservesValid | pkg/router/circuit_breaker.go:114-145 | RecordFailure keeps that invariant |
| CircuitBreaker.ResetPreservesValid | pkg/router/circuit_breaker.go:236-255 | ResetService and ResetAll keep that invariant |
| RateLimiter.NewRateLimiter | pkg/router/rate_limiter.go:23-31 | Enabled, with a full bucket (tokens = burst) and a refill stamp of `now` |
| RateLimiter.Refill | pkg/router/rate_limiter.go:48-58 | The refilled level is the smaller of tokens + elapsed * rate and burst: at most each, and equal to one of them |
| RateLimiter.Allow | pkg/router/rate_limiter.go:34-69 | A disabled limiter admits and is unchanged. An enabled one restamps `lastRefill`, and admits iff the refilled level is at least 1, consuming exactly one token; a rejection consumes nothing. With rate >= 0 and a non-decreasing clock, 0 <= tokens <= burst is preserved |
| RateLimiter.SetRate | pkg/router/rate_limiter.go:72-76 | Only the rate changes |
| RateLimiter.SetBurst | pkg/router/rate_limiter.go:79-87 | The new burst is set, and tokens are clamped down to it |
| RateLimiter.Enable | pkg/router/rate_limiter.go:89-94 | The limiter is enabled; rate, burst, tokens and the refill stamp are unchanged |
| RateLimiter.Disable | pkg/router/rate_limiter.go:96-101 | The limiter is disabled; rate, burst, tokens and the refill stamp are unchanged |
| RateLimiter.SwitchRoundTrip | pkg/router/rate_limiter.go:89-101 | Disabling then enabling an enabled limiter gives it back, and vice versa; a disabled limiter admits without spending or restamping; both keep the token bounds |
| RateLimiter.InstantCallsAdmit | pkg/router/rate_limiter.go:34-69 | Right after a refill, calls at the same instant are admitted while whole tokens last, each consuming one |
| RateLimiter.EmptyRejects | pkg/router/rate_limiter.go:61-68 | With less than one token and no time elapsed, the call is rejected and nothing is consumed |
| RateLimiter.BurstThenRefillScenario | pkg/router/rate_limiter.go:34-69 | Rate 10, burst 10: 10 admits, then a reject; after 100 ms one admit, then a reject |
| RateLimiter.DisabledAdmitsAll | pkg/router/rate_limiter.go:35-37 | A disabled limiter admits any number of calls and stays untouched |
| RateLimiter.NewRateLimitManager | pkg/router/rate_limiter.go:126-132 | No limiters, and the given defaults |
| RateLimiter.GetRateLimiter | pkg/router/rate_limiter.go:135-166 | The stored limiter, or a new full one with the defaults, which is then stored |
| RateLimiter.AllowKey | pkg/router/rate_limiter.go:34-69 | Allow on the shared limiter for a key (created with the defaults if absent): the answer is that limiter's, the limiter is stored back updated, and every other key and the manager defaults are unchanged |
| RateLimiter.GetIsStable | pkg/router/rate_limiter.go:135-166 | A second lookup returns the stored limiter and changes nothing |
| RateLimiter.RemoveRateLimiter | pkg/router/rate_limiter.go:169-175 | Only that key is deleted; an absent key is a no-op |
| RateLimiter.UpdateRateLimiter | pkg/router/rate_limiter.go:178-190 | The limiter is created if absent, then gets the new rate and burst (tokens clamped), keeping its refill stamp; other keys and the manager's default rate and burst are unchanged |
| RateLimiter.EnableRateLimiter | pkg/router/rate_limiter.go:193-200 | The limiter is created if absent, then enabled; other keys are unchanged |
| RateLimiter.DisableRateLimiter | pkg/router/rate_limiter.go:203-210 | The limiter is created if absent, then disabled; other keys are unchanged |
| RateLimiter.DisabledKeyAdmits | pkg/router/rate_limiter.go:203-210 | After DisableRateLimiter, calls for that key are admitted |
| RateLimiter.RemoveThenGetIsFresh | pkg/router/rate_limiter.go:135-175 | After removal, the next lookup builds a full limiter with the defaults |
| HttpRouter.Install | pkg/protocol/http/router.go:494-542 | Declarations are processed in order, and ineligible ones are skipped. A panic escapes iff an eligible path is one gin rejects. Each installed path is eligible, new to the engine, reported once, and added to the engine. With no panic, every declared path new to the engine is installed. An empty list installs nothing. Exactly the paths new to the engine and declared before the first rejected eligible path are installed, and the callbacks come in the order of each path's first declaration |
| HttpRouter.RejectionStopsThePass | pkg/protocol/http/router.go:519-530 | A rejected first path ends the pass: a later valid path is neither installed nor reported |
| HttpRouter.CallbacksInDeclarationOrder | pkg/protocol/http/router.go:533-539 | Two new valid paths are installed and reported in the order they are declared |
| HttpRouter.InstallIdempotent | pkg/protocol/http/router.go:519-530 | A second pass over the engine a clean pass produced installs nothing and calls no callback |
| HttpRouter.Cors | pkg/protocol/http/router.go:127-143 | The four CORS headers are always set. OPTIONS is answered with 200 and aborted; every other method continues |
| HttpRouter.CorsPreflightOnly | pkg/protocol/http/router.go:127-143 | The headers are the same for every method; a request is either answered or passed on, never both; all methods other than OPTIONS are treated alike |
| HttpRouter.StringsOf | pkg/protocol/http/router.go:327-332 | Exactly the string elements of the array are kept, and nothing is added |
| HttpRouter.StringsOfAppend | pkg/protocol/http/router.go:327-332 | The string filter distributes over concatenation, so order is kept |
| HttpRouter.StringsOfAllStrings | pkg/protocol/http/router.go:327-332 | An array of strings passes through unchanged |
| HttpRouter.EmbeddingInput | pkg/protocol/http/router.go:323-335 | An array yields its strings, a string yields itself, and anything else yields nothing |
| HttpRouter.ToMessage | pkg/protocol/http/router.go:201-208 | Role and content are the string fields when present, and "" otherwise |
| HttpRouter.ChatMessages | pkg/protocol/http/router.go:195-211 | Non-objects are dropped. An all-object list maps item by item to messages |
| HttpRouter.ChatMessagesAppend | pkg/protocol/http/router.go:195-211 | Normalisation distributes over concatenation, so order is kept |
| Server.NewServer | pkg/bootstrap/server.go:66-128 | Starts from an empty record. Start-up succeeds iff the installer does not panic and no proxy path collides with the API group. The record then holds exactly the declared paths, and the engine holds those plus the API paths |
| Server.ReloadProxyRoutes | pkg/bootstrap/server.go:131-155 | A config error is returned with the server untouched. Otherwise the record is cleared and then holds exactly the paths this pass installed, none of them previously on the engine. If an eligible path is rejected, the outcome is `panicked` (the call never returns an error) and the record holds the new paths declared before the rejected one; if none is, the error is nil |
| Server.ReloadKeepsConsistent | pkg/bootstrap/server.go:131-155 | Recorded paths always have handlers on the engine |
| Server.ReloadUnchangedForgets | pkg/bootstrap/server.go:143-151 | Reloading an unchanged configuration after start-up records no path |
| Server.ReloadDropsEarlierPaths | pkg/bootstrap/server.go:143-151 | A path recorded before a successful reload is absent from the record after it |
| Server.ProxyRoutesInfo | pkg/bootstrap/server.go:221-225 | The listing holds each recorded path exactly once |
| Server.HandleReloadProxyRoutes | pkg/bootstrap/server.go:174-192 | A reload error gives 500 with "Failed to reload proxy routes: " + the error. An escaping panic is turned into 500 by the admin engine's recovery middleware, with no error text and no listing. Otherwise the reply is 200 with the listing of the new record |
| WebSocket.NewConn | pkg/protocol/websocket/router.go:96-106 | A connection under the generated ID, open, with an empty queue |
| WebSocket.NewRegistry | pkg/protocol/websocket/router.go:56-81 | No connections; "ping" and "echo" are bound to their handlers |
| WebSocket.AddConnection | pkg/protocol/websocket/router.go:283-287 | GetConnection then returns the connection, replacing any earlier one with that ID; other IDs are unchanged |
| WebSocket.RemoveConnection | pkg/protocol/websocket/router.go:290-294 | That ID is gone and others are unchanged; an absent ID is a no-op |
| WebSocket.GetConnection | pkg/protocol/websocket/router.go:297-302 | Present iff registered, and then the stored connection |
| WebSocket.RegisterHandler | pkg/protocol/websocket/router.go:315-319 | The type maps to the new handler, replacing any earlier one; other types are unchanged |
| WebSocket.RegisterHandlerRebinds | pkg/protocol/websocket/router.go:315-319 | A second registration for a type replaces the first; registering the binding already present changes nothing |
| WebSocket.RegisteredTypeIsHandled | pkg/protocol/websocket/router.go:194-319 | A frame whose "type" was registered is dispatched to the handler registered for it |
| WebSocket.Send | pkg/protocol/websocket/router.go:250-260 | On an open connection, the message is queued when fewer than 100 are waiting, and dropped otherwise; the queue never exceeds 100 |
| WebSocket.Close | pkg/protocol/websocket/router.go:263-280 | The first call marks the connection closed and removes its ID; on a closed connection nothing happens |
| WebSocket.CloseIdempotent | pkg/protocol/websocket/router.go:263-280 | Closing twice is the same as closing once |
| WebSocket.LiveInvariant | pkg/protocol/websocket/router.go:96-106 | Adding a fresh connection, removing, and closing keep every registered connection open, within 100 messages and filed under its own ID |
| WebSocket.Sweep | pkg/protocol/websocket/router.go:322-344 | Each connection with room gets exactly one pong; each full connection is closed and removed; unvisited connections are unchanged |
| WebSocket.SweepAnyOrder | pkg/protocol/websocket/router.go:330-341 | The sweep's result does not depend on the map's iteration order |
| WebSocket.Broadcast | pkg/protocol/websocket/router.go:305-312 | The message is queued on every connection with room; full connections are unchanged and no connection is removed |
| WebSocket.Dispatch | pkg/protocol/websocket/router.go:194-215 | A frame is skipped iff it does not decode to an object with a string "type". Otherwise the registered handler runs, or none is found. Ping queues a pong. Echo sends `{"type":"echo","data":d}` when the frame carries `data`, and nothing otherwise |
| WebSocket.HandlePing | pkg/protocol/websocket/router.go:348-353 | A pong is always sent |
| WebSocket.HandleEcho | pkg/protocol/websocket/router.go:356-383 | With a "data" key, {"type":"echo","data":d} is sent; without one, nothing is sent |
| WebSocket.PingRepliesPong | pkg/protocol/websocket/router.go:348-353 | With the router's handlers, a ping frame on a connection with room queues exactly one pong |
| WebSocket.EchoRepliesData | pkg/protocol/websocket/router.go:356-383 | An echo frame's data comes back in the reply |
| WebSocket.GenerateConnId | pkg/protocol/websocket/router.go:433-441 | 16 characters, each the alphabet letter its draw picks |
| WebSocket.LettersSpelledOut | pkg/protocol/websocket/router.go:435 | The alphabet is a-z, then A-Z, then 0-9 |
| WebSocket.ConnIdInjective | pkg/protocol/websocket/router.go:433-441 | Different draws give different IDs |
| ServiceManager.ConfigOrEmpty | pkg/service/mcp/manager.go:104-106 | A nil configuration becomes the empty map |
| ServiceManager.GetFactory | pkg/service/mcp/manager.go:192-198 | The registered factory, present iff registered (the agent manager's copy is at pkg/service/ai_agent/manager.go:177-183) |
| ServiceManager.GetConfig | pkg/service/mcp/manager.go:201-207 | The stored configuration, present iff stored (the agent manager's copy is at pkg/service/ai_agent/manager.go:186-192) |
| ServiceManager.ListAvailable | pkg/service/mcp/manager.go:158-167 | Every factory name exactly once (ListAvailableAgents, pkg/service/ai_agent/manager.go:141-151, is the same loop) |
| ServiceManager.Close | pkg/service/mcp/manager.go:170-189 | No instance or configuration remains; factories are kept (the agent manager's Close, pkg/service/ai_agent/manager.go:154-174, is the same) |
| ServiceManager.LookupsAgree | pkg/service/mcp/manager.go:192-207 | Under the invariant, a name with a cached instance has a stored config, and a name with a stored config has a factory |
| McpManager.RegisterFactory | pkg/service/mcp/manager.go:32-57 | Succeeds iff the factory is non-nil, its name non-empty and unregistered. On success only that name's factory is set; otherwise the manager is unchanged with the matching error |
| McpManager.GetMcpService | pkg/service/mcp/manager.go:60-124 | An empty name is refused. A cached instance is returned, ignoring the config. Without a factory: "factory not found". A Create error stores nothing; an Init error stores only the config. Success caches the instance with the config (nil becomes empty) and touches no other name |
| McpManager.ReleaseMcpService | pkg/service/mcp/manager.go:127-155 | An empty name, or one without an instance, is refused. Otherwise the instance and config of that name only are removed |
| McpManager.RegisterThenGetFactory | pkg/service/mcp/manager.go:32-198 | A factory registered under a fresh name is what GetFactory returns, and a request for that name then creates the service |
| McpManager.FactoryNotFoundIff | pkg/service/mcp/manager.go:60-124 | "factory not found" is reported iff the name is non-empty and has neither a cached instance nor a factory |
| McpManager.GetIsCached | pkg/service/mcp/manager.go:66-82 | After a successful request, every later request returns the same instance and changes nothing, whatever the factory would do |
| McpManager.ReleaseThenGetRecreates | pkg/service/mcp/manager.go:94-155 | After a release, the next request builds from the factory and stores the new config |
| McpManager.InitFailureLeavesConfig | pkg/service/mcp/manager.go:107-116 | An Init failure leaves a config without an instance, which Release refuses and only Close clears |
| McpManager.RegisterPreservesValid | pkg/service/mcp/manager.go:32-57 | Instances stay within configs, and configs within registered factories |
| AgentManager.RegisterFactory | pkg/service/ai_agent/manager.go:32-50 | A nil factory or empty name is refused. Otherwise the factory is stored, replacing any earlier one |
| AgentManager.GetAiAgent | pkg/service/ai_agent/manager.go:53-110 | A cached instance is returned (no empty-name check). Without a factory: "AI Agent factory not found: " + name. Any failure stores nothing. Success stores the instance and the config together |
| AgentManager.ReleaseAiAgent | pkg/service/ai_agent/manager.go:113-138 | Always succeeds. An absent name changes nothing; otherwise that name's instance and config are removed |
| AgentManager.OperationsKeepPaired | pkg/service/ai_agent/manager.go:21-174 | Every operation keeps instances and configs on the same names, all within the registered factories |
| AgentManager.ReleaseIdempotent | pkg/service/ai_agent/manager.go:113-138 | Releasing twice is the same as releasing once |
| AgentManager.ReplaceKeepsInstance | pkg/service/ai_agent/manager.go:45 | Re-registering a name keeps the instance already created |
| McpService.NewBaseService | pkg/service/mcp/base_service.go:21-28 | The given name and version, and an empty configuration |
| McpService.Init | pkg/service/mcp/base_service.go:31-41 | Always succeeds; the configuration becomes the argument, or empty for nil |
| McpService.SetConfig | pkg/service/mcp/base_service.go:106-108 | GetConfigValue then returns the value, and other keys are unchanged |
| McpService.GetConfigValue | pkg/service/mcp/base_service.go:111-114 | Present iff the key is set |
| McpService.InitForgetsSettings | pkg/service/mcp/base_service.go:31-41 | Init replaces values set earlier |
| McpService.SuccessResponse | pkg/service/mcp/base_service.go:117-122 | Success, carrying the data, with no error |
| McpService.ErrorResponse | pkg/service/mcp/base_service.go:125-133 | Failure, no data, and an error map with exactly `code` and `message` |
| McpService.BaseStub | pkg/service/mcp/base_service.go:62-88 | Call, BatchCall, ListServices and GetService fail with "<name> not implemented" |
| McpService.BaseNoError | pkg/service/mcp/base_service.go:44-49 | Close and HealthCheck return no error (HealthCheck is at lines 91-93) |
| McpService.BaseStubsNameThemselves | pkg/service/mcp/base_service.go:62-88 | Each stub fails with a message beginning with its own name, so the four messages are different |
| McpService.ExampleOverridesStubs | pkg/service/mcp/base_service.go:44-93 | Where the base Call and ListServices fail, the example answers; Close and HealthCheck succeed |
| McpService.NewExampleService | pkg/service/mcp/example_service.go:21-25 | Name "example-mcp-service", version "1.0.0" |
| McpService.FactoryNameIsServiceName | pkg/service/mcp/example_service.go:125-127 | The factory's name equals the service's name |
| McpService.ListServices | pkg/service/mcp/example_service.go:114-117 | Exactly echo, get_time and calculate, each once |
| McpService.Apply | pkg/service/mcp/example_service.go:87-103 | Defined iff the operation is add, subtract or multiply, or a divide by a non-zero number. With exact reals, each result is undone by the inverse operation; multiplying by zero gives zero |
| McpService.Calculate | pkg/service/mcp/example_service.go:72-111 | nil params: INVALID_PARAMS "Params cannot be nil". Missing or mistyped a, b or operation: INVALID_PARAMS "Missing or invalid parameters". Divide by 0: DIVISION_BY_ZERO. Unknown operation: INVALID_OPERATION naming it. Success iff none of these, with result, operation, a and b in the data |
| McpService.Call | pkg/service/mcp/example_service.go:40-69 | Never a Go error. echo returns {"echo": params}; get_time returns the supplied time; calculate as above; any other tool gives UNKNOWN_TOOL "Unknown tool: <name>" |
| McpService.ErrorCodes | pkg/service/mcp/example_service.go:40-111 | Every failed response carries one of INVALID_PARAMS, DIVISION_BY_ZERO, INVALID_OPERATION, UNKNOWN_TOOL |
| McpService.KnownToolsAreListed | pkg/service/mcp/example_service.go:46-68 | UNKNOWN_TOOL is returned iff the tool is not one ListServices reports |
| McpService.DivideThenMultiply | pkg/service/mcp/example_service.go:95-110 | With exact reals, a successful division's result times the divisor is the dividend |
| McpService.DivideByZeroReported | pkg/service/mcp/example_service.go:95-97 | Division by zero is reported for every dividend |
| McpService.ExampleThroughManager | pkg/service/mcp/manager.go:32-124 | The example factory, once registered, yields the example service, and the config it was initialised with is stored |

## Left out

- HTTP and gin plumbing is out: the reverse proxy and `url.Parse`, JSON binding, the logger and recovery middleware, route groups, and the WebSocket upgrader. These are foreign libraries. The engine is only the set of paths that have handlers.
- The AI, MCP and status handlers are out, apart from the two normalisers and the proxy listing, because they only forward to the managers and serialise the replies.
- The WebSocket read and write pumps, deadlines, the ping ticker and the locks are out; the model is sequential. It does not model these hazards in the source:
  - the pumps close `CloseChan` directly, so a later `Close` skips the rest of its work;
  - the sweep calls `Close` while holding the read lock, and `Close` waits for the write lock in `RemoveConnection`. So the first full connection blocks the heartbeat goroutine forever. Every later `AddConnection`, `RemoveConnection` or `RegisterHandler` then blocks. New readers such as `GetConnection` and `Broadcast` block behind the waiting writer. The removal stated for `WebSocket.Sweep` is the reading of the sweep body without locks;
  - `RecvChan` is never drained, so the read pump blocks after 100 frames (the model does not push to it at all).
- WebSocket.Send: the precondition that the connection is open stands for the source's behaviour on a closed one, where a send to the closed `SendChan` can panic.
- WebSocket.Sweep and WebSocket.Broadcast: these require every registered connection to be open, which every operation of the model keeps true. Connections the pumps close behind the registry's back are out.
- The AI-agent and MCP WebSocket endpoints build connections the same way as the plain one; their message handling is out.
- Logging is out; log calls are no-ops.
- The circuit breaker's and the limiters' `GetState` and `GetAllRateLimiters` are out: they only build snapshot maps for display.
- CallAsync on the base service is out: it starts a goroutine.
- The server lifecycle is out: `Start`, `Stop`, signal handling and shutdown timeouts.
- Config loading is out: YAML, file reads and flags. The installer takes the declaration list, and the reload takes the config reload's outcome as a `Result`.
- The AI-agent example and base agent are out: they hold only constant stub responses, sleeps, clock-based IDs and goroutine streams.
- The command-line programs are out.
- Floating point is out. Tokens, elapsed seconds and calculator operands are exact reals, with no float64 rounding, infinities or NaN.
- Clock formatting is out: `get_time` receives the already formatted RFC 3339 string.
- Randomness is out: `rand.Intn` results are the `draw` parameters, and seeding from the clock is not modelled.
- Service and agent instances are opaque handles. The `Init` a manager calls mutates the object behind the handle; the managers only see its outcome. The `Close` calls in Release and Close have no effect beyond a logged error.
- Server.NewServer: gin refuses a proxy path that the API group registers again, and start-up fails. The model reports this as `None` only for an exact collision with an API path. It does not model gin's path-tree conflicts: a proxy wildcard such as `/api/*rest` installs cleanly on the fresh engine, then gin panics when `/api/v1/health` is added, outside the installer's recover. Start-up fails there, but the model returns `Some`. It also does not model gin's per-method registration, where a proxy path could coexist with a route for a different method.
- Server.ReloadProxyRoutes and HttpRouter.Install: the engine is a set of paths, so gin's per-method registration is not modelled on a running engine either. A reloaded proxy path equal to a POST-only API path, such as `/api/v1/ai-agent/chat`, really gets its GET and other handlers registered before gin panics on the duplicate POST; the installer recovers that panic. The model reports the path as simply already present, neither installed nor recorded.
- Pointer aliasing is out. GetRoute and GetAllRoutes hand out the stored `*Route` pointers (pkg/router/router.go:143-165), and GetRateLimiter a shared `*RateLimiter`. The MCP manager stores the config map it is given and passes the same map to `Init`, which keeps it (pkg/service/mcp/manager.go:107-110, pkg/service/mcp/base_service.go:35). A later `SetConfig` on the service therefore also changes what the manager's `GetConfig` returns; the model keeps the two maps as separate values. A caller may mutate a stored route in place, for example its method or path, and leave it under a key that no longer matches. The model's entries are values, so `RouteTable.WellFormed` (each entry filed under its own key) is an invariant of the table operations only, not of the source with such callers.
- RouteSelection.SelectIndex: Go's 64-bit `int` is not modelled. `totalWeight += route.Weight` (pkg/router/router.go:215) can wrap to a negative total for huge weights, which are not validated, and then `rand.Intn` panics. The model's sums are unbounded integers.
- McpService.Apply and McpService.DivideThenMultiply: the inverse properties hold for exact reals. In float64, 1.0/49.0*49.0 is not 1.0, so the program only approximates them.
- CircuitBreaker.ResetAll: one `now` stands for the separate clock reads of the loop.
- RouteTable.MatchRoute: selection properties assume non-negative weights. A negative total makes `rand.Intn` panic, and no draw exists for it.
- The managers' double-checked locking collapses to a single step.

Behaviours of the code that a reader might not expect, all modelled as written:

- RemoveRoute removes every entry with the ID from the key where it is first found, not a single entry.
- ID uniqueness is checked per key, so the same ID may appear under two keys.
- The retry test of `canTryAgain` is `>=` the timeout.
- The success count is not reset when a half-open service opens again (see LeftoverSuccessesCarryOver).
- Route weights are not validated: zero and negative weights are accepted by AddRoute.
