/**
  DefaultAIAgentManager (pkg/service/ai_agent/manager.go): the same shape as the MCP
  manager with different edge cases: registering a name again replaces the factory,
  a request stores nothing unless Create and Init both succeed, and releasing a name
  without an instance succeeds.
 */
module AgentManager {
  import opened Wrappers
  import opened ServiceManager

  /** RegisterFactory: a nil factory and an empty name are refused; otherwise the factory is stored, replacing any earlier one. */
  function RegisterFactory<F, I>(m: Manager<F, I>, factory: Option<Factory<F>>): (d: Done<F, I>)
    ensures factory.None? ==> d == Done(Some("factory cannot be nil"), m)
    ensures factory.Some? && factory.value.name == "" ==> d == Done(Some("factory name cannot be empty"), m)
    ensures d.err.None? <==> factory.Some? && factory.value.name != ""
    ensures d.err.None? ==>
              && GetFactory(d.manager, factory.value.name) == Some(factory.value.impl)
              && (forall n :: n != factory.value.name ==> GetFactory(d.manager, n) == GetFactory(m, n))
              && d.manager.instances == m.instances && d.manager.configs == m.configs
  {
    match factory
    case None => Done(Some("factory cannot be nil"), m)
    case Some(f) =>
      if f.name == "" then Done(Some("factory name cannot be empty"), m)
      else Done(None, m.(factories := m.factories[f.name := f.impl]))
  }

  /**
    GetAIAgent: a cached instance is returned as is (the empty name included);
    without a factory the call fails naming the agent; a Create or Init error stores
    nothing; otherwise the instance and its configuration are stored together.
   */
  function GetAiAgent<F, I>(m: Manager<F, I>, name: string, config: Option<Config>,
                            create: Result<I, string>, initErr: Option<string>): (g: Got<F, I, I>)
    ensures name in m.instances ==> g == Got(Success(m.instances[name]), m)
    ensures name !in m.instances && name !in m.factories ==>
              g == Got(Failure("AI Agent factory not found: " + name), m)
    ensures g.result.Success? <==> name in m.instances || (name in m.factories && create.Success? && initErr.None?)
    ensures g.result.Failure? ==> g.manager == m
    ensures name !in m.instances && name in m.factories && create.Failure? ==> g.result == Failure(create.error)
    ensures name !in m.instances && name in m.factories && create.Success? && initErr.Some? ==>
              g.result == Failure(initErr.value)
    ensures g.result.Success? && name !in m.instances ==>
              && g.result.value == create.value
              && Instance(g.manager, name) == Some(create.value)
              && GetConfig(g.manager, name) == Some(ConfigOrEmpty(config))
              && (forall n :: n != name ==> Instance(g.manager, n) == Instance(m, n))
              && (forall n :: n != name ==> GetConfig(g.manager, n) == GetConfig(m, n))
    ensures g.manager.factories == m.factories
  {
    if name in m.instances then Got(Success(m.instances[name]), m)
    else if name !in m.factories then Got(Failure("AI Agent factory not found: " + name), m)
    else
      match create
      case Failure(e) => Got(Failure(e), m)
      case Success(agent) =>
        match initErr
        case Some(e) => Got(Failure(e), m)
        case None =>
          Got(Success(agent), m.(instances := m.instances[name := agent],
                                 configs := m.configs[name := ConfigOrEmpty(config)]))
  }

  /** ReleaseAIAgent: a missing instance is a success; otherwise it and its configuration are removed. */
  function ReleaseAiAgent<F, I>(m: Manager<F, I>, name: string): (d: Done<F, I>)
    ensures d.err.None?
    ensures name !in m.instances ==> d.manager == m
    ensures Instance(d.manager, name).None?
    ensures name in m.instances ==> GetConfig(d.manager, name).None?
    ensures forall n :: n != name ==> Instance(d.manager, n) == Instance(m, n)
    ensures forall n :: n != name ==> GetConfig(d.manager, n) == GetConfig(m, n)
    ensures d.manager.factories == m.factories
  {
    if name !in m.instances then Done(None, m)
    else Done(None, m.(instances := m.instances - {name}, configs := m.configs - {name}))
  }

  /** The agent manager's invariant: exactly the cached agents have a configuration, and each has a factory. */
  predicate Paired<F, I>(m: Manager<F, I>)
  {
    m.instances.Keys == m.configs.Keys <= m.factories.Keys
  }

  /** Every operation keeps instances and configurations paired. */
  lemma OperationsKeepPaired<F, I>(m: Manager<F, I>, factory: Option<Factory<F>>, name: string,
                                   config: Option<Config>, create: Result<I, string>, initErr: Option<string>)
    requires Paired(m)
    ensures Paired(NewManager<F, I>())
    ensures Paired(RegisterFactory(m, factory).manager)
    ensures Paired(GetAiAgent(m, name, config, create, initErr).manager)
    ensures Paired(ReleaseAiAgent(m, name).manager)
    ensures Paired(Close(m))
  {
  }

  /** Releasing twice is releasing once, and both succeed. */
  lemma ReleaseIdempotent<F, I>(m: Manager<F, I>, name: string)
    ensures var d := ReleaseAiAgent(m, name);
            ReleaseAiAgent(d.manager, name) == d
  {
  }

  /** Re-registering a name does not drop the agent already created from the old factory. */
  lemma ReplaceKeepsInstance<F, I>(m: Manager<F, I>, name: string, f: F)
    requires name != "" && name in m.instances
    ensures Instance(RegisterFactory(m, Some(Factory(name, f))).manager, name) == Instance(m, name)
  {
  }
}
