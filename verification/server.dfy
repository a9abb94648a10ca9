/**
  The proxy-route bookkeeping of pkg/bootstrap/server.go: the set of proxy paths the
  registration callback recorded, the engine it cannot remove routes from, and the
  reload that clears the record and re-runs the installer.
 */
module Server {
  import opened Wrappers
  import opened Collections
  import opened HttpRouter

  /** The paths `RegisterRoutes` adds after the proxy routes: the API group under /api/v1. */
  const ApiPaths: set<string> := {
    "/api/v1/health", "/api/v1/version",
    "/api/v1/ai-agent/chat", "/api/v1/ai-agent/completion",
    "/api/v1/ai-agent/embedding", "/api/v1/ai-agent/models",
    "/api/v1/mcp/command", "/api/v1/mcp/services"}

  /** The HTTP engine's registered paths and the `registeredProxyRoutes` set. */
  datatype Server = Server(engine: set<string>, registered: set<string>)

  /** The recorded paths all have handlers on the engine. */
  predicate Consistent(s: Server)
  {
    s.registered <= s.engine
  }

  /**
    NewServer: an empty record; the proxy routes are installed first on a fresh engine
    with the callback recording each installed path, then the API routes are added.
    A panic escaping the installer, or a proxy path that the API group registers
    again, ends start-up (None).
   */
  function NewServer(decls: seq<ProxyDecl>, malformed: set<string>): (s: Option<Server>)
    ensures var r := Install(decls, {}, malformed);
            s.Some? <==> !r.panicked && Elements(r.installed) !! ApiPaths
    ensures s.Some? ==> Consistent(s.value)
    ensures s.Some? ==> forall p :: p in s.value.registered <==> Declares(decls, p)
    ensures s.Some? ==> s.value.engine == s.value.registered + ApiPaths
  {
    var r := Install(decls, {}, malformed);
    if r.panicked || !(Elements(r.installed) !! ApiPaths) then None
    else Some(Server(r.engine + ApiPaths, Elements(r.installed)))
  }

  /** What ReloadProxyRoutes returned: the config error, or nil; and whether an installer panic escaped. */
  datatype Reload = Reload(server: Server, err: Option<string>, panicked: bool)

  /**
    ReloadProxyRoutes: a failed config reload is returned with nothing touched;
    otherwise the record is cleared and the installer runs against the current engine,
    the callback recording exactly the paths it newly installs.
   */
  function ReloadProxyRoutes(s: Server, config: Result<seq<ProxyDecl>, string>, malformed: set<string>): (o: Reload)
    ensures config.Failure? ==> o == Reload(s, Some(config.error), false)
    ensures config.Success? ==> o.err.None?
    ensures config.Success? ==>
              var r := Install(config.value, s.engine, malformed);
              && o.server.registered == Elements(r.installed)
              && o.server.engine == s.engine + o.server.registered
              && o.panicked == r.panicked
    ensures config.Success? ==> o.server.registered !! s.engine
    ensures config.Success? ==> forall p :: p in o.server.registered ==> Declares(config.value, p)
    ensures config.Success? ==>
              forall p :: p in o.server.registered <==>
                p !in s.engine && Declares(config.value[..FirstHit(config.value, malformed)], p)
    ensures config.Success? && !o.panicked ==>
              forall p :: Declares(config.value, p) ==> (p in o.server.registered <==> p !in s.engine)
  {
    match config
    case Failure(e) => Reload(s, Some(e), false)
    case Success(decls) =>
      var r := Install(decls, s.engine, malformed);
      Reload(Server(r.engine, Elements(r.installed)), None, r.panicked)
  }

  /** Every operation keeps the record within the engine. */
  lemma ReloadKeepsConsistent(s: Server, config: Result<seq<ProxyDecl>, string>, malformed: set<string>)
    requires Consistent(s)
    ensures Consistent(ReloadProxyRoutes(s, config, malformed).server)
  {
  }

  /**
    Reloading an unchanged configuration after a clean start records nothing: the
    engine still holds every configured path, so the installer skips them all.
   */
  lemma ReloadUnchangedForgets(decls: seq<ProxyDecl>, malformed: set<string>)
    requires NewServer(decls, malformed).Some?
    ensures var s := NewServer(decls, malformed).value;
            var o := ReloadProxyRoutes(s, Success(decls), malformed);
            && o.err.None? && !o.panicked
            && o.server.registered == {}
            && o.server.engine == s.engine
  {
    var s := NewServer(decls, malformed).value;
    var o := ReloadProxyRoutes(s, Success(decls), malformed);
    assert !Install(decls, s.engine, malformed).panicked;
  }

  /** A path recorded before a successful reload is never in the record after it. */
  lemma ReloadDropsEarlierPaths(s: Server, decls: seq<ProxyDecl>, malformed: set<string>, p: string)
    requires Consistent(s) && p in s.registered
    ensures p !in ReloadProxyRoutes(s, Success(decls), malformed).server.registered
  {
  }

  /** The `proxy_routes` listing of the status and reload responses: every recorded path once, in map order. */
  method ProxyRoutesInfo(s: Server) returns (routes: seq<string>)
    ensures Enumerates(routes, s.registered)
  {
    routes := SetToSeq(s.registered);
  }

  /** The reload endpoint's reply: status 500 with the error, or 200 with the listing. */
  datatype Reply = Reply(status: int, error: Option<string>, proxyRoutes: seq<string>)

  /**
    handleReloadProxyRoutes: a reload error becomes 500 with "Failed to reload proxy
    routes: " and the error; an escaping panic is turned into 500 by gin's recovery;
    otherwise 200 with the recorded paths.
   */
  method HandleReloadProxyRoutes(s: Server, config: Result<seq<ProxyDecl>, string>, malformed: set<string>)
    returns (s': Server, reply: Reply)
    ensures s' == ReloadProxyRoutes(s, config, malformed).server
    ensures config.Failure? ==>
              reply == Reply(500, Some("Failed to reload proxy routes: " + config.error), [])
    ensures reply.status == 200 <==> config.Success? && !ReloadProxyRoutes(s, config, malformed).panicked
    ensures reply.status == 200 ==> Enumerates(reply.proxyRoutes, s'.registered)
    ensures config.Success? && ReloadProxyRoutes(s, config, malformed).panicked ==> reply == Reply(500, None, [])
  {
    var o := ReloadProxyRoutes(s, config, malformed);
    s' := o.server;
    if o.err.Some? {
      reply := Reply(500, Some("Failed to reload proxy routes: " + o.err.value), []);
    } else if o.panicked {
      reply := Reply(500, None, []);
    } else {
      var routes := ProxyRoutesInfo(s');
      reply := Reply(200, None, routes);
    }
  }
}
