/**
  The MCP service base (pkg/service/mcp/base_service.go) and the example service
  built on it (pkg/service/mcp/example_service.go): configuration handling, the two
  response shapes and the example's tool dispatch, including its calculator.
  Numbers are reals; float64 rounding, infinities and NaN are not modelled.
 */
module McpService {
  import opened Wrappers
  import Json
  import opened ServiceManager
  import McpManager

  /** A BaseMCPService: its name, version and configuration. */
  datatype Service = Service(name: string, version: string, config: Config)

  /** An MCPServiceResponse: `data` is present on success, the `code`/`message` error map on failure. */
  datatype Response = Response(success: bool, data: Json.Value, error: Option<Config>)

  /** A request's tool name and parameters (`None` is a nil parameter map). */
  datatype Request = Request(serviceName: string, toolName: string, params: Option<Config>)

  /** NewBaseMCPService: the given name and version, an empty configuration. */
  function NewBaseService(name: string, version: string): (s: Service)
    ensures s.name == name && s.version == version && s.config == map[]
  {
    Service(name, version, map[])
  }

  /** Init: the configuration is replaced (a nil one by an empty map); it never fails. */
  function Init(s: Service, config: Option<Config>): (r: Result<Service, string>)
    ensures r.Success?
    ensures r.value.name == s.name && r.value.version == s.version
    ensures r.value.config == ConfigOrEmpty(config)
  {
    Success(s.(config := ConfigOrEmpty(config)))
  }

  /** SetConfig: one key set, the rest of the configuration kept. */
  function SetConfig(s: Service, key: string, value: Json.Value): (s': Service)
    ensures GetConfigValue(s', key) == Some(value)
    ensures forall k :: k != key ==> GetConfigValue(s', k) == GetConfigValue(s, k)
    ensures s'.name == s.name && s'.version == s.version
  {
    s.(config := s.config[key := value])
  }

  /** GetConfigValue: the value under the key, if set. */
  function GetConfigValue(s: Service, key: string): (v: Option<Json.Value>)
    ensures v.Some? <==> key in s.config
    ensures v.Some? ==> v.value == s.config[key]
  {
    if key in s.config then Some(s.config[key]) else None
  }

  /** Setting a key to the value it already has changes nothing. */
  lemma SetExistingIsIdentity(s: Service, key: string)
    requires key in s.config
    ensures SetConfig(s, key, s.config[key]) == s
  {
  }

  /** Initialising again replaces everything SetConfig stored. */
  lemma InitForgetsSettings(s: Service, key: string, value: Json.Value, config: Option<Config>)
    requires key !in ConfigOrEmpty(config)
    ensures GetConfigValue(Init(SetConfig(s, key, value), config).value, key).None?
  {
  }

  /** CreateSuccessResponse: a successful response carrying the data and no error. */
  function SuccessResponse(data: Json.Value): (r: Response)
    ensures r.success && r.data == data && r.error.None?
  {
    Response(true, data, None)
  }

  /** CreateErrorResponse: a failed response whose error map holds exactly the code and the message. */
  function ErrorResponse(code: string, message: string): (r: Response)
    ensures !r.success && r.data == Json.Null
    ensures r.error.Some? && r.error.value.Keys == {"code", "message"}
    ensures Json.StringField(r.error.value, "code") == Some(code)
    ensures Json.StringField(r.error.value, "message") == Some(message)
  {
    Response(false, Json.Null, Some(map["code" := Json.Str(code), "message" := Json.Str(message)]))
  }

  /** The base Call, BatchCall, ListServices and GetService are not implemented: each returns an error naming itself. */
  function BaseStub(operation: string): (r: Result<Response, string>)
    requires operation in {"Call", "BatchCall", "ListServices", "GetService"}
    ensures r == Failure(operation + " not implemented")
  {
    Failure(operation + " not implemented")
  }

  /** The base Close and HealthCheck do nothing but succeed (a logged message aside). */
  function BaseNoError(operation: string): (err: Option<string>)
    requires operation in {"Close", "HealthCheck"}
    ensures err.None?
  {
    None
  }

  /** The four stubs report four different errors, each naming its operation in front. */
  lemma BaseStubsNameThemselves(op1: string, op2: string)
    requires op1 in {"Call", "BatchCall", "ListServices", "GetService"}
    requires op2 in {"Call", "BatchCall", "ListServices", "GetService"}
    ensures BaseStub(op1).Failure? && BaseStub(op1).error[..|op1|] == op1
    ensures BaseStub(op1) == BaseStub(op2) <==> op1 == op2
  {
    if BaseStub(op1) == BaseStub(op2) {
      assert |op1| == |op2|;
      assert op1 == BaseStub(op1).error[..|op1|];
    }
  }

  // ---------------------------------------------------------------------------
  // The example service

  const ExampleName := "example-mcp-service"
  const ExampleVersion := "1.0.0"

  /** What the example factory's Name returns; spelled out separately in the source. */
  const ExampleFactoryName := "example-mcp-service"

  /** The factory registers under the very name the service reports. */
  lemma FactoryNameIsServiceName()
    ensures ExampleFactoryName == NewExampleService().name
  {
  }

  /** NewExampleMCPService, which the example factory's Create returns without error. */
  function NewExampleService(): (s: Service)
    ensures s.name == ExampleName && s.version == ExampleVersion && s.config == map[]
  {
    NewBaseService(ExampleName, ExampleVersion)
  }

  const ExampleTools: seq<string> := ["echo", "get_time", "calculate"]

  /** The example's ListServices: its three tools, each listed once, never an error. */
  function ListServices(s: Service): (r: Result<seq<string>, string>)
    ensures r.Success? && |r.value| == 3
    ensures forall i, j :: 0 <= i < j < |r.value| ==> r.value[i] != r.value[j]
    ensures forall t :: t in r.value <==> t in {"echo", "get_time", "calculate"}
  {
    Success(ExampleTools)
  }

  /**
    The arithmetic of the four operations the calculator knows; `None` for an unknown
    one or division by zero. Operands are exact reals, so each operation is undone
    exactly by its inverse; float64 arithmetic only approximates this.
   */
  function Apply(op: string, a: real, b: real): (r: Option<real>)
    ensures r.Some? <==> op in {"add", "subtract", "multiply"} || (op == "divide" && b != 0.0)
    ensures op == "add" && r.Some? ==> r.value - b == a
    ensures op == "subtract" && r.Some? ==> r.value + b == a
    ensures op == "divide" && r.Some? ==> r.value * b == a
    ensures op == "multiply" && b != 0.0 ==> r.Some? && r.value / b == a
    ensures op == "multiply" && b == 0.0 ==> r == Some(0.0)
  {
    match op
    case "add" => Some(a + b)
    case "subtract" => Some(a - b)
    case "multiply" => MultiplyUndone(a, b); Some(a * b)
    case "divide" => if b == 0.0 then None else DivideUndone(a, b); Some(a / b)
    case _ => None
  }

  lemma MultiplyUndone(a: real, b: real)
    ensures b != 0.0 ==> (a * b) / b == a
    ensures b == 0.0 ==> a * b == 0.0
  {
  }

  lemma DivideUndone(a: real, b: real)
    requires b != 0.0
    ensures (a / b) * b == a
  {
  }

  /** The parameters are present, `a` and `b` are numbers and `operation` is a string. */
  predicate WellTyped(params: Option<Config>)
  {
    && params.Some?
    && Json.NumberField(params.value, "a").Some?
    && Json.NumberField(params.value, "b").Some?
    && Json.StringField(params.value, "operation").Some?
  }

  /**
    handleCalculateRequest: a nil parameter map, then a missing or mistyped `a`, `b`
    or `operation`, then division by zero, then an unknown operation are reported as
    error responses; otherwise the result is returned with the operands and operation.
   */
  function Calculate(params: Option<Config>): (r: Response)
    ensures params.None? ==> r == ErrorResponse("INVALID_PARAMS", "Params cannot be nil")
    ensures params.Some? &&
            (Json.NumberField(params.value, "a").None? || Json.NumberField(params.value, "b").None? ||
             Json.StringField(params.value, "operation").None?) ==>
              r == ErrorResponse("INVALID_PARAMS", "Missing or invalid parameters")
    ensures WellTyped(params) && params.value["operation"].s == "divide" && params.value["b"].n == 0.0 ==>
              r == ErrorResponse("DIVISION_BY_ZERO", "Cannot divide by zero")
    ensures WellTyped(params) && params.value["operation"].s !in {"add", "subtract", "multiply", "divide"} ==>
              r == ErrorResponse("INVALID_OPERATION", "Unknown operation: " + params.value["operation"].s)
    ensures r.success <==>
              WellTyped(params) && Apply(params.value["operation"].s, params.value["a"].n, params.value["b"].n).Some?
    ensures r.success ==>
              var op := params.value["operation"].s;
              var a := params.value["a"].n;
              var b := params.value["b"].n;
              r == SuccessResponse(Json.Object(map[
                     "result" := Json.Number(Apply(op, a, b).value),
                     "operation" := Json.Str(op), "a" := Json.Number(a), "b" := Json.Number(b)]))
  {
    match params
    case None => ErrorResponse("INVALID_PARAMS", "Params cannot be nil")
    case Some(p) =>
      var a := Json.NumberField(p, "a");
      var b := Json.NumberField(p, "b");
      var op := Json.StringField(p, "operation");
      if a.None? || b.None? || op.None? then ErrorResponse("INVALID_PARAMS", "Missing or invalid parameters")
      else if op.value == "divide" && b.value == 0.0 then ErrorResponse("DIVISION_BY_ZERO", "Cannot divide by zero")
      else
        match Apply(op.value, a.value, b.value)
        case None => ErrorResponse("INVALID_OPERATION", "Unknown operation: " + op.value)
        case Some(result) =>
          SuccessResponse(Json.Object(map[
            "result" := Json.Number(result),
            "operation" := Json.Str(op.value), "a" := Json.Number(a.value), "b" := Json.Number(b.value)]))
  }

  /**
    The example's Call, dispatching on the tool name. `now` is the current time
    already formatted as RFC 3339. The call itself never returns an error: failures
    are error responses.
   */
  function Call(s: Service, req: Request, now: string): (r: Result<Response, string>)
    ensures r.Success?
    ensures req.toolName == "echo" ==>
              r.value == SuccessResponse(Json.Object(map["echo" := ParamsValue(req.params)]))
    ensures req.toolName == "get_time" ==>
              r.value == SuccessResponse(Json.Object(map["current_time" := Json.Str(now)]))
    ensures req.toolName == "calculate" ==> r.value == Calculate(req.params)
    ensures req.toolName !in ExampleTools ==>
              r.value == ErrorResponse("UNKNOWN_TOOL", "Unknown tool: " + req.toolName)
  {
    match req.toolName
    case "echo" => Success(SuccessResponse(Json.Object(map["echo" := ParamsValue(req.params)])))
    case "get_time" => Success(SuccessResponse(Json.Object(map["current_time" := Json.Str(now)])))
    case "calculate" => Success(Calculate(req.params))
    case _ => Success(ErrorResponse("UNKNOWN_TOOL", "Unknown tool: " + req.toolName))
  }

  /** How the parameter map encodes as JSON: nil is `null`. */
  function ParamsValue(params: Option<Config>): (v: Json.Value)
    ensures params.None? <==> v == Json.Null
    ensures params.Some? ==> v == Json.Object(params.value)
  {
    match params
    case None => Json.Null
    case Some(p) => Json.Object(p)
  }

  /** Every failed response carries one of the example's four error codes. */
  lemma ErrorCodes(s: Service, req: Request, now: string)
    ensures var r := Call(s, req, now).value;
            !r.success ==>
              r.error.Some? && "code" in r.error.value &&
              r.error.value["code"] in {Json.Str("INVALID_PARAMS"), Json.Str("DIVISION_BY_ZERO"),
                                        Json.Str("INVALID_OPERATION"), Json.Str("UNKNOWN_TOOL")}
  {
  }

  /** A tool the example lists never yields UNKNOWN_TOOL, and every other tool name does. */
  lemma KnownToolsAreListed(s: Service, req: Request, now: string)
    ensures var r := Call(s, req, now).value;
            (r.error.Some? && r.error.value == ErrorResponse("UNKNOWN_TOOL", "Unknown tool: " + req.toolName).error.value)
              <==> req.toolName !in ExampleTools
  {
    var r := Call(s, req, now).value;
    if req.toolName == "calculate" && r.error.Some? {
      assert Json.StringField(r.error.value, "code") != Some("UNKNOWN_TOOL");
    }
  }

  /**
    In the exact-real model, multiplying the quotient back by the divisor gives the
    dividend (float64 division rounds, so the program only approximates this).
   */
  lemma DivideThenMultiply(a: real, b: real)
    requires b != 0.0
    ensures var r := Calculate(Some(map["a" := Json.Number(a), "b" := Json.Number(b), "operation" := Json.Str("divide")]));
            r.success && r.data.Object? && "result" in r.data.fields &&
            r.data.fields["result"].Number? && r.data.fields["result"].n * b == a
  {
    var p := map["a" := Json.Number(a), "b" := Json.Number(b), "operation" := Json.Str("divide")];
    assert Json.NumberField(p, "a") == Some(a);
    assert Json.NumberField(p, "b") == Some(b);
    assert Json.StringField(p, "operation") == Some("divide");
  }

  /**
    The example overrides what the base leaves unimplemented: where the base Call and
    ListServices fail, the example's answer, and Close and HealthCheck succeed in both.
   */
  lemma ExampleOverridesStubs(s: Service, req: Request, now: string)
    ensures BaseStub("Call").Failure? && Call(s, req, now).Success?
    ensures BaseStub("ListServices").Failure? && ListServices(s).Success?
    ensures BaseNoError("Close").None? && BaseNoError("HealthCheck").None?
  {
  }

  /** Division by zero is reported, whatever the dividend. */
  lemma DivideByZeroReported(a: real)
    ensures Calculate(Some(map["a" := Json.Number(a), "b" := Json.Number(0.0), "operation" := Json.Str("divide")]))
            == ErrorResponse("DIVISION_BY_ZERO", "Cannot divide by zero")
  {
    var p := map["a" := Json.Number(a), "b" := Json.Number(0.0), "operation" := Json.Str("divide")];
    assert Json.NumberField(p, "a") == Some(a);
    assert Json.NumberField(p, "b") == Some(0.0);
    assert Json.StringField(p, "operation") == Some("divide");
  }

  /**
    The example factory, registered with a manager and asked for its service, yields
    the example service and stores the configuration it was initialised with.
   */
  lemma ExampleThroughManager(config: Option<Config>)
    ensures var m := McpManager.RegisterFactory(NewManager<(), Service>(), Some(Factory(ExampleFactoryName, ()))).manager;
            var g := McpManager.GetMcpService(m, ExampleName, config, Success(NewExampleService()), None);
            && g.result == Success(NewExampleService())
            && GetConfig(g.manager, ExampleName) == Some(Init(NewExampleService(), config).value.config)
  {
  }
}
