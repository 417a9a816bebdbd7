/**
 * The reader service: the registry of reader endpoints, the request every operation sends to
 * a reader's REST interface, and the error object every failed operation throws.
 *
 * The HTTP transport is a parameter: `send` answers a request with a response or with the
 * error the HTTP library raised. Between the library and the service sits the HTTP client's
 * response interceptor, which replaces every library error by a plain `{status, message,
 * details}` object (`Intercept`).
 */
module Lector {
  import opened Wrappers
  import opened Strings
  import opened Json

  // ---------------------------------------------------------------------------------------
  // Registry

  datatype Credentials = Credentials(username: string, password: string)

  datatype ReaderConfig = ReaderConfig(host: string, auth: Credentials)

  /** The reader every operation addresses when the caller names none. */
  const DefaultLectorId: string := "reader1"

  const Reader1: ReaderConfig := ReaderConfig("https://172.16.100.196", Credentials("root", "impinj"))
  const Reader2: ReaderConfig := ReaderConfig("https://172.16.100.197", Credentials("root", "impinj"))

  /** `lectoresConfig`: the two registered readers. */
  const Registry: map<string, ReaderConfig> := map["reader1" := Reader1, "reader2" := Reader2]

  /**
   * `getLectorConfig`: the registered entry, or `fallback` (the process-wide default reader
   * configuration, which lives outside this model) for any other id.
   */
  function GetLectorConfig(fallback: ReaderConfig, lectorId: string): (c: ReaderConfig)
    ensures lectorId == "reader1" ==> c.host == "https://172.16.100.196" && c.auth == Credentials("root", "impinj")
    ensures lectorId == "reader2" ==> c.host == "https://172.16.100.197" && c.auth == Credentials("root", "impinj")
    ensures lectorId != "reader1" && lectorId != "reader2" ==> c == fallback
  {
    if lectorId in Registry then Registry[lectorId] else fallback
  }

  // ---------------------------------------------------------------------------------------
  // HTTP

  datatype Verb = GET | POST | PUT

  /** One HTTP request; `auth` absent means the HTTP client's instance-wide credentials. */
  datatype Request = Request(verb: Verb, url: string, body: Option<Value>, auth: Option<Credentials>)

  datatype HttpResponse = HttpResponse(status: int, data: Value)

  /** An error raised by the HTTP library; `response` is present when the reader answered. */
  datatype AxiosError = AxiosError(message: string, response: Option<HttpResponse>)

  /** The `{status, message, details}` object the interceptor rejects with and every service throws. */
  datatype ServiceError = ServiceError(status: int, message: string, details: Value)

  /**
   * The response interceptor: `status` is the reader's status unless there was no (or a zero)
   * status, then 500; `details` is the reader's body when truthy, otherwise the message.
   */
  function Intercept(e: AxiosError): (r: ServiceError)
    ensures r.message == e.message
    ensures e.response.None? ==> r.status == 500 && r.details == Str(e.message)
    ensures e.response.Some? ==> r.status == (if e.response.value.status != 0 then e.response.value.status else 500)
    ensures e.response.Some? && Truthy(e.response.value.data) ==> r.details == e.response.value.data
    ensures e.response.Some? && !Truthy(e.response.value.data) ==> r.details == Str(e.message)
  {
    match e.response
    case None => ServiceError(500, e.message, Str(e.message))
    case Some(resp) =>
      ServiceError(
        if resp.status != 0 then resp.status else 500,
        e.message,
        if Truthy(resp.data) then resp.data else Str(e.message))
  }

  /**
   * A service's `catch`: it reads `error.response?.status` and `error.response?.data`, but
   * what it catches is the interceptor's object, which has no `response`. So the status is
   * always 500 and the details are the caught object's message.
   */
  function Rethrow(caught: ServiceError, message: string): (r: ServiceError)
    ensures r.status == 500 && r.message == message && r.details == Str(caught.message)
  {
    ServiceError(500, message, Str(caught.message))
  }

  /** Whatever the reader answered, even a 404 with a body, a service error carries 500 and the library's message. */
  lemma RethrowHidesReaderStatus(e: AxiosError, message: string)
    ensures Rethrow(Intercept(e), message) == ServiceError(500, message, Str(e.message))
  {
  }

  // ---------------------------------------------------------------------------------------
  // Operations

  /** The reader operations; absent arguments take the defaults of the service's signatures. */
  datatype Operation =
    | GetStatus
    | StartReading(perfil: Option<string>)
    | StopReading
    | GetMqttConfig
    | UpdateMqttConfig(mqttConfig: Option<Value>)
    | ConfigureMqttForTags(brokerUrl: Option<string>, clientId: Option<string>, username: Option<string>, password: Option<string>)
    | Reiniciar
    | ConfigureGpos(gpoConfigurations: Option<Value>)

  /** The two operations that hand the reader's answer back; the others return `true`. */
  predicate ReturnsData(op: Operation) {
    op.GetStatus? || op.GetMqttConfig?
  }

  /** The two reads are GETs, the three commands POSTs, the configuration writes PUTs. */
  function VerbOf(op: Operation): (v: Verb)
    ensures v == GET <==> ReturnsData(op)
    ensures v == POST <==> op.StartReading? || op.StopReading? || op.Reiniciar?
  {
    match op
    case GetStatus => GET
    case GetMqttConfig => GET
    case StartReading(_) => POST
    case StopReading => POST
    case Reiniciar => POST
    case UpdateMqttConfig(_) => PUT
    case ConfigureMqttForTags(_, _, _, _) => PUT
    case ConfigureGpos(_) => PUT
  }

  function PathOf(op: Operation): (p: string)
    ensures StartsWith(p, "/api/v1/")
  {
    match op
    case GetStatus => "/api/v1/status"
    case StartReading(perfil) => "/api/v1/profiles/inventory/presets/" + perfil.GetOr("TEST") + "/start"
    case StopReading => "/api/v1/profiles/stop"
    case GetMqttConfig => "/api/v1/mqtt"
    case UpdateMqttConfig(_) => "/api/v1/mqtt"
    case ConfigureMqttForTags(_, _, _, _) => "/api/v1/mqtt"
    case Reiniciar => "/api/v1/device/restart"
    case ConfigureGpos(_) => "/api/v1/device/gpos"
  }

  /**
   * The MQTT configuration `configureMqttForTags` installs on the reader, with the members in
   * the order the object literal lists them. `clientId` and `topicRoot` are fixed to
   * `"impinj"`; a missing broker URL is dropped when the body is serialised.
   */
  function TagsConfig(brokerUrl: Option<string>, username: string, password: string): (v: Value)
    ensures Prop(v, "clientId") == Some(Str("impinj")) && Prop(v, "topicRoot") == Some(Str("impinj"))
  {
    var lead, rest := TagsLead(brokerUrl), TagsRest(username, password);
    TagsLeadKeys(brokerUrl);
    TagsRestKeys(username, password);
    GetAppend(lead, rest, "clientId");
    GetAppend(lead, rest, "topicRoot");
    Obj(lead + rest)
  }

  function TagsLead(brokerUrl: Option<string>): seq<Member> {
    [Member("enabled", Bool(true))] + (if brokerUrl.Some? then [Member("brokerUrl", Str(brokerUrl.value))] else [])
  }

  function TagsRest(username: string, password: string): seq<Member> {
    [ Member("clientId", Str("impinj")),
      Member("username", Str(username)),
      Member("password", Str(password)),
      Member("topicRoot", Str("impinj")),
      Member("retainMessages", Bool(false)),
      Member("qualityOfService", Num(1.0)),
      Member("tags", TagReportConfig),
      Member("connection", ConnectionConfig)]
  }

  /** What the reader includes in every tag report, and how often it reports. */
  const TagReportConfig: Value := Obj([
    Member("enabled", Bool(true)),
    Member("format", Str("json")),
    Member("includeAllRssi", Bool(true)),
    Member("includeAntennaPort", Bool(true)),
    Member("includePeakRssi", Bool(true)),
    Member("includePhase", Bool(true)),
    Member("includeSeenCount", Bool(true)),
    Member("includeDopplerFrequency", Bool(true)),
    Member("includeChannel", Bool(true)),
    Member("reportFilter", Obj([
      Member("tagAgeIntervalSeconds", Num(0.2)),
      Member("minSeenCount", Num(1.0))]))])

  /** The reader's broker connection timings. */
  const ConnectionConfig: Value := Obj([
    Member("keepAliveSeconds", Num(30.0)),
    Member("reconnectDelaySeconds", Num(5.0)),
    Member("timeoutSeconds", Num(60.0))])

  /** The request body: none for reads, `{}` for the POST commands. */
  function BodyOf(op: Operation): (b: Option<Value>)
    ensures ReturnsData(op) ==> b.None?
    ensures VerbOf(op) == POST ==> b == Some(Obj([]))
    ensures VerbOf(op) == PUT ==> (b.None? <==> op.UpdateMqttConfig? && op.mqttConfig.None?)
  {
    match op
    case GetStatus => None
    case GetMqttConfig => None
    case StartReading(_) => Some(Obj([]))
    case StopReading => Some(Obj([]))
    case Reiniciar => Some(Obj([]))
    case UpdateMqttConfig(cfg) => cfg
    case ConfigureMqttForTags(brokerUrl, _, username, password) =>
      Some(TagsConfig(brokerUrl, username.GetOr("root"), password.GetOr("root")))
    case ConfigureGpos(gpos) =>
      Some(Obj(if gpos.Some? then [Member("gpoConfigurations", gpos.value)] else []))
  }

  /** The request an operation sends for reader `lectorId` (default `reader1`). */
  function RequestOf(fallback: ReaderConfig, lectorId: Option<string>, op: Operation): (r: Request)
    ensures var c := GetLectorConfig(fallback, lectorId.GetOr(DefaultLectorId));
      && r.url == c.host + PathOf(op) && r.auth == Some(c.auth)
    ensures r.verb == VerbOf(op) && r.body == BodyOf(op)
  {
    var c := GetLectorConfig(fallback, lectorId.GetOr(DefaultLectorId));
    Request(VerbOf(op), c.host + PathOf(op), BodyOf(op), Some(c.auth))
  }

  /** The message of the error each operation throws: the operation's own wording, then the reader's id. */
  function ErrorMessage(op: Operation, lectorId: string): (m: string)
    ensures |lectorId| <= |m| && m[|m| - |lectorId|..] == lectorId
  {
    ErrorLead(op) + lectorId
  }

  function ErrorLead(op: Operation): string {
    match op
    case GetStatus => "Error al obtener estado del lector "
    case StartReading(_) => "Error al iniciar lectura en lector "
    case StopReading => "Error al detener lectura en lector "
    case GetMqttConfig => "Error al obtener configuración MQTT del lector "
    case UpdateMqttConfig(_) => "Error al actualizar configuración MQTT del lector "
    case ConfigureMqttForTags(_, _, _, _) => "Error al configurar MQTT para tags en el lector "
    case Reiniciar => "Error al reiniciar el lector "
    case ConfigureGpos(_) => "Error al configurar GPOs del lector "
  }

  /**
   * One service call: the request goes out through `send` and the interceptor; a response
   * yields its body for the two reads and `true` otherwise, an error yields the service's
   * error object.
   */
  function Perform(fallback: ReaderConfig, lectorId: Option<string>, op: Operation,
                   send: Request -> Result<HttpResponse, AxiosError>): (r: Result<Value, ServiceError>)
    ensures var reply := send(RequestOf(fallback, lectorId, op));
      && (r.Success? <==> reply.Success?)
      && (reply.Success? && ReturnsData(op) ==> r.value == reply.value.data)
      && (reply.Success? && !ReturnsData(op) ==> r.value == Bool(true))
      && (reply.Failure? ==> r.error == ServiceError(500, ErrorMessage(op, lectorId.GetOr(DefaultLectorId)), Str(reply.error.message)))
  {
    match send(RequestOf(fallback, lectorId, op))
    case Success(resp) => if ReturnsData(op) then Success(resp.data) else Success(Bool(true))
    case Failure(e) => Failure(Rethrow(Intercept(e), ErrorMessage(op, lectorId.GetOr(DefaultLectorId))))
  }

  /** With every argument left out, starting a reading POSTs `{}` to reader1's `TEST` preset. */
  lemma StartReadingDefaults(fallback: ReaderConfig)
    ensures RequestOf(fallback, None, StartReading(None))
         == Request(POST, "https://172.16.100.196" + "/api/v1/profiles/inventory/presets/TEST/start",
                    Some(Obj([])), Some(Credentials("root", "impinj")))
  {
    assert GetLectorConfig(fallback, "reader1") == Reader1;
    assert PathOf(StartReading(None)) == "/api/v1/profiles/inventory/presets/TEST/start";
  }

  /** Any id but the two registered ones addresses the fallback reader with its credentials. */
  lemma UnknownReaderUsesFallback(fallback: ReaderConfig, lectorId: string, op: Operation)
    requires lectorId != "reader1" && lectorId != "reader2"
    ensures var r := RequestOf(fallback, Some(lectorId), op);
      && StartsWith(r.url, fallback.host) && r.auth == Some(fallback.auth)
  {
    var r := RequestOf(fallback, Some(lectorId), op);
    assert r.url[..|fallback.host|] == fallback.host;
  }

  /**
   * `configureMqttForTags` ignores its `clientId` argument: the request is the same whatever
   * it is, and the body always names the client and the topic root `impinj`.
   */
  lemma TagsIgnoreClientId(fallback: ReaderConfig, lectorId: Option<string>, brokerUrl: Option<string>,
                           c1: Option<string>, c2: Option<string>, username: Option<string>, password: Option<string>)
    ensures RequestOf(fallback, lectorId, ConfigureMqttForTags(brokerUrl, c1, username, password))
         == RequestOf(fallback, lectorId, ConfigureMqttForTags(brokerUrl, c2, username, password))
    ensures var body := BodyOf(ConfigureMqttForTags(brokerUrl, c1, username, password)).value;
      && Prop(body, "clientId") == Some(Str("impinj")) && Prop(body, "topicRoot") == Some(Str("impinj"))
  {
  }

  lemma TagsLeadKeys(brokerUrl: Option<string>)
    ensures !HasKey(TagsLead(brokerUrl), "clientId") && !HasKey(TagsLead(brokerUrl), "topicRoot")
  {
    var lead := TagsLead(brokerUrl);
    assert forall i :: 0 <= i < |lead| ==> lead[i].key in {"enabled", "brokerUrl"};
    HasKeyIndex(lead, "clientId");
    HasKeyIndex(lead, "topicRoot");
  }

  lemma TagsRestKeys(username: string, password: string)
    ensures Get(TagsRest(username, password), "clientId") == Some(Str("impinj"))
    ensures Get(TagsRest(username, password), "topicRoot") == Some(Str("impinj"))
  {
    var rest := TagsRest(username, password);
    assert "clientId"[0] != "topicRoot"[0] && "username"[0] != "topicRoot"[0] && "password"[0] != "topicRoot"[0];
    assert Get(rest, "topicRoot") == Get(rest[1..], "topicRoot");
    assert Get(rest[1..], "topicRoot") == Get(rest[2..], "topicRoot");
    assert Get(rest[2..], "topicRoot") == Get(rest[3..], "topicRoot");
    assert rest[3..][0] == Member("topicRoot", Str("impinj"));
  }

  /** `configureGpos` wraps the list under the single key `gpoConfigurations`. */
  lemma ConfigureGposBody(fallback: ReaderConfig, lectorId: Option<string>, gpos: Value)
    ensures var r := RequestOf(fallback, lectorId, ConfigureGpos(Some(gpos)));
      && r.verb == PUT && EndsWithPath(r.url, "/api/v1/device/gpos")
      && r.body == Some(Obj([Member("gpoConfigurations", gpos)]))
  {
  }

  predicate EndsWithPath(url: string, path: string) {
    |path| <= |url| && url[|url| - |path|..] == path
  }
}
