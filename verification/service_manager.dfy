/**
  The state shared by the two service managers (pkg/service/mcp/manager.go and
  pkg/service/ai_agent/manager.go): factories keyed by their name, the instances
  created from them, and the configuration each instance was given. The factory and
  instance objects are type parameters; what their `Create`, `Init` and `Close`
  calls do is supplied by the caller of each operation.
 */
module ServiceManager {
  import opened Wrappers
  import opened Collections
  import Json

  /** A `map[string]interface{}` configuration. */
  type Config = map<string, Json.Value>

  /** A non-nil factory together with what its `Name()` returns. */
  datatype Factory<F> = Factory(name: string, impl: F)

  datatype Manager<F, I> = Manager(factories: map<string, F>, instances: map<string, I>, configs: map<string, Config>)

  /** The result of an operation that returns a value or an error, and the manager afterwards. */
  datatype Got<F, I, T> = Got(result: Result<T, string>, manager: Manager<F, I>)

  /** The result of an operation that returns only an error, and the manager afterwards. */
  datatype Done<F, I> = Done(err: Option<string>, manager: Manager<F, I>)

  /** The constructor: three empty maps. */
  function NewManager<F, I>(): (m: Manager<F, I>)
    ensures m.factories == map[] && m.instances == map[] && m.configs == map[]
  {
    Manager(map[], map[], map[])
  }

  /** A nil configuration is replaced by an empty one. */
  function ConfigOrEmpty(config: Option<Config>): (c: Config)
    ensures config.None? ==> c == map[]
    ensures config.Some? ==> c == config.value
  {
    config.GetOr(map[])
  }

  /** GetFactory: the factory registered under the name, if any. */
  function GetFactory<F, I>(m: Manager<F, I>, name: string): (f: Option<F>)
    ensures f.Some? <==> name in m.factories
    ensures f.Some? ==> f.value == m.factories[name]
  {
    if name in m.factories then Some(m.factories[name]) else None
  }

  /** GetConfig: the configuration stored for the name, if any. */
  function GetConfig<F, I>(m: Manager<F, I>, name: string): (c: Option<Config>)
    ensures c.Some? <==> name in m.configs
    ensures c.Some? ==> c.value == m.configs[name]
  {
    if name in m.configs then Some(m.configs[name]) else None
  }

  /** The cached instance for the name, if any. */
  function Instance<F, I>(m: Manager<F, I>, name: string): (i: Option<I>)
    ensures i.Some? <==> name in m.instances
    ensures i.Some? ==> i.value == m.instances[name]
  {
    if name in m.instances then Some(m.instances[name]) else None
  }

  /** ListAvailableServices / ListAvailableAgents: every registered factory name once, in map order. */
  method ListAvailable<F, I>(m: Manager<F, I>) returns (names: seq<string>)
    ensures Enumerates(names, m.factories.Keys)
    ensures |names| == |m.factories|
  {
    names := SetToSeq(m.factories.Keys);
  }

  /**
    Close: every instance is closed (errors are only logged) and the instance and
    configuration maps are emptied; the factories stay registered.
   */
  function Close<F, I>(m: Manager<F, I>): (m': Manager<F, I>)
    ensures m'.factories == m.factories
    ensures forall name :: Instance(m', name).None? && GetConfig(m', name).None?
  {
    m.(instances := map[], configs := map[])
  }

  /** Instances exist only for registered factories, and each has its configuration stored. */
  predicate Valid<F, I>(m: Manager<F, I>)
  {
    m.instances.Keys <= m.configs.Keys <= m.factories.Keys
  }

  /** Under the invariant, every name with a cached instance also has a stored configuration and a factory. */
  lemma LookupsAgree<F, I>(m: Manager<F, I>, name: string)
    requires Valid(m)
    ensures Instance(m, name).Some? ==> GetConfig(m, name).Some?
    ensures GetConfig(m, name).Some? ==> GetFactory(m, name).Some?
  {
  }

  lemma NewAndCloseValid<F, I>(m: Manager<F, I>)
    requires Valid(m)
    ensures Valid(NewManager<F, I>())
    ensures Valid(Close(m))
  {
  }
}
