/**
  DefaultMCPServiceManager (pkg/service/mcp/manager.go): factories may be registered
  once per name; an instance is created, configured and initialised on first request
  and cached; releasing removes it.
 */
module McpManager {
  import opened Wrappers
  import opened ServiceManager

  /**
    RegisterFactory: a nil factory, an empty name and an already registered name are
    refused with the manager unchanged; otherwise the factory is added under its name.
   */
  function RegisterFactory<F, I>(m: Manager<F, I>, factory: Option<Factory<F>>): (d: Done<F, I>)
    ensures factory.None? ==> d == Done(Some("factory cannot be nil"), m)
    ensures factory.Some? && factory.value.name == "" ==> d == Done(Some("factory name cannot be empty"), m)
    ensures factory.Some? && factory.value.name != "" && factory.value.name in m.factories ==>
              d == Done(Some("factory already registered"), m)
    ensures d.err.None? <==> factory.Some? && factory.value.name != "" && factory.value.name !in m.factories
    ensures d.err.None? ==>
              && GetFactory(d.manager, factory.value.name) == Some(factory.value.impl)
              && (forall n :: n != factory.value.name ==> GetFactory(d.manager, n) == GetFactory(m, n))
              && d.manager.instances == m.instances && d.manager.configs == m.configs
  {
    match factory
    case None => Done(Some("factory cannot be nil"), m)
    case Some(f) =>
      if f.name == "" then Done(Some("factory name cannot be empty"), m)
      else if f.name in m.factories then Done(Some("factory already registered"), m)
      else Done(None, m.(factories := m.factories[f.name := f.impl]))
  }

  /**
    GetMCPService. `create` is what the factory's Create returns and `initErr` the
    error Init returns, if any. An empty name is refused; a cached instance is
    returned as is; without a factory the call fails; a Create error stores nothing;
    an Init error is returned after the configuration has been stored; otherwise the
    new instance is cached with its configuration (a nil configuration becomes empty).
   */
  function GetMcpService<F, I>(m: Manager<F, I>, name: string, config: Option<Config>,
                               create: Result<I, string>, initErr: Option<string>): (g: Got<F, I, I>)
    ensures name == "" ==> g == Got(Failure("service name cannot be empty"), m)
    ensures name != "" && name in m.instances ==> g == Got(Success(m.instances[name]), m)
    ensures name != "" && name !in m.instances && name !in m.factories ==>
              g == Got(Failure("factory not found"), m)
    ensures g.result.Success? <==>
              name != "" && (name in m.instances || (name in m.factories && create.Success? && initErr.None?))
    ensures name != "" && name !in m.instances && name in m.factories && create.Failure? ==>
              g == Got(Failure(create.error), m)
    ensures name != "" && name !in m.instances && name in m.factories && create.Success? && initErr.Some? ==>
              && g.result == Failure(initErr.value)
              && g.manager == m.(configs := m.configs[name := ConfigOrEmpty(config)])
    ensures g.result.Success? && name !in m.instances ==>
              && g.result.value == create.value
              && Instance(g.manager, name) == Some(create.value)
              && GetConfig(g.manager, name) == Some(ConfigOrEmpty(config))
              && (forall n :: n != name ==> Instance(g.manager, n) == Instance(m, n))
              && (forall n :: n != name ==> GetConfig(g.manager, n) == GetConfig(m, n))
    ensures g.manager.factories == m.factories
    ensures Valid(m) ==> Valid(g.manager)
  {
    if name == "" then Got(Failure("service name cannot be empty"), m)
    else if name in m.instances then Got(Success(m.instances[name]), m)
    else if name !in m.factories then Got(Failure("factory not found"), m)
    else
      match create
      case Failure(e) => Got(Failure(e), m)
      case Success(service) =>
        var withConfig := m.(configs := m.configs[name := ConfigOrEmpty(config)]);
        match initErr
        case Some(e) => Got(Failure(e), withConfig)
        case None => Got(Success(service), withConfig.(instances := m.instances[name := service]))
  }

  /**
    ReleaseMCPService: an empty name and a name without an instance are refused;
    otherwise the instance is closed (a Close error is only logged) and it and its
    configuration are removed.
   */
  function ReleaseMcpService<F, I>(m: Manager<F, I>, name: string): (d: Done<F, I>)
    ensures name == "" ==> d == Done(Some("service name cannot be empty"), m)
    ensures name != "" && name !in m.instances ==> d == Done(Some("service instance not found"), m)
    ensures d.err.None? <==> name != "" && name in m.instances
    ensures d.err.None? ==>
              && Instance(d.manager, name).None? && GetConfig(d.manager, name).None?
              && (forall n :: n != name ==> Instance(d.manager, n) == Instance(m, n))
              && (forall n :: n != name ==> GetConfig(d.manager, n) == GetConfig(m, n))
    ensures d.manager.factories == m.factories
    ensures Valid(m) ==> Valid(d.manager)
  {
    if name == "" then Done(Some("service name cannot be empty"), m)
    else if name !in m.instances then Done(Some("service instance not found"), m)
    else Done(None, m.(instances := m.instances - {name}, configs := m.configs - {name}))
  }

  /** A factory registered under a fresh name is what GetFactory then returns, and what a request for that name uses. */
  lemma RegisterThenGetFactory<F, I>(m: Manager<F, I>, f: Factory<F>, config: Option<Config>, service: I)
    requires Valid(m) && f.name != "" && GetFactory(m, f.name).None?
    ensures var m' := RegisterFactory(m, Some(f)).manager;
            && GetFactory(m', f.name) == Some(f.impl)
            && GetMcpService(m', f.name, config, Success(service), None).result == Success(service)
  {
  }

  /** "factory not found" is reported exactly when the name has neither a cached instance nor a factory. */
  lemma FactoryNotFoundIff<F, I>(m: Manager<F, I>, name: string, config: Option<Config>,
                                 create: Result<I, string>, initErr: Option<string>)
    requires create.Failure? ==> create.error != "factory not found"
    requires initErr.Some? ==> initErr.value != "factory not found"
    ensures GetMcpService(m, name, config, create, initErr).result == Failure("factory not found") <==>
              name != "" && Instance(m, name).None? && GetFactory(m, name).None?
  {
  }

  /** RegisterFactory keeps instances within registered factories. */
  lemma RegisterPreservesValid<F, I>(m: Manager<F, I>, factory: Option<Factory<F>>)
    requires Valid(m)
    ensures Valid(RegisterFactory(m, factory).manager)
  {
  }

  /** A second request for a name that succeeded returns the same instance and changes nothing, whatever the factory would do now. */
  lemma GetIsCached<F, I>(m: Manager<F, I>, name: string, config: Option<Config>,
                              create: Result<I, string>, initErr: Option<string>,
                              config2: Option<Config>, create2: Result<I, string>, initErr2: Option<string>)
    requires GetMcpService(m, name, config, create, initErr).result.Success?
    ensures var g := GetMcpService(m, name, config, create, initErr);
            GetMcpService(g.manager, name, config2, create2, initErr2) == Got(g.result, g.manager)
  {
  }

  /** After a release the next request builds a fresh instance from the factory and the new configuration. */
  lemma ReleaseThenGetRecreates<F, I>(m: Manager<F, I>, name: string, config: Option<Config>, next: I)
    requires name != "" && name in m.instances && name in m.factories
    ensures var m' := ReleaseMcpService(m, name).manager;
            var g := GetMcpService(m', name, config, Success(next), None);
            && g.result == Success(next)
            && GetConfig(g.manager, name) == Some(ConfigOrEmpty(config))
  {
  }

  /**
    An Init failure leaves a configuration without an instance, which ReleaseMCPService
    then refuses to remove: only Close clears it.
   */
  lemma InitFailureLeavesConfig<F, I>(m: Manager<F, I>, name: string, config: Option<Config>, service: I, e: string)
    requires name != "" && name !in m.instances && name in m.factories
    ensures var g := GetMcpService(m, name, config, Success(service), Some(e));
            && GetConfig(g.manager, name) == Some(ConfigOrEmpty(config))
            && Instance(g.manager, name).None?
            && ReleaseMcpService(g.manager, name) == Done(Some("service instance not found"), g.manager)
            && GetConfig(Close(g.manager), name).None?
  {
  }
}
