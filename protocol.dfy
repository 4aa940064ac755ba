/** The values that cross the bridge between the window manager and the host
    process: event names, the arguments of emitted events, the registry's
    entities and the handlers the manager installs. */
module Protocol {
  import opened Int32Text

  /** The events exchanged over the socket. The first three are responses
      the host sends, the others requests the manager emits. */
  datatype EventName =
    | WindowCreatedEvent
    | WindowClosedEvent
    | ViewCreatedEvent
    | CreateWindowRequest
    | CreateViewRequest
    | QuitOnAllClosedRequest

  /** The name each event travels under. */
  function WireName(e: EventName): string
  {
    match e
    case WindowCreatedEvent => "BrowserWindowCreated"
    case WindowClosedEvent => "BrowserWindowClosed"
    case ViewCreatedEvent => "BrowserViewCreated"
    case CreateWindowRequest => "createBrowserWindow"
    case CreateViewRequest => "createBrowserView"
    case QuitOnAllClosedRequest => "quit-app-window-all-closed-event"
  }

  /** No two events share a name on the wire, so telling them apart by
      constructor is telling them apart by name. */
  lemma WireNameInjective(a: EventName, b: EventName)
    ensures WireName(a) == WireName(b) ==> a == b
  {
    if a != b {
      match a
      case WindowCreatedEvent => assert WireName(a)[7] == 'W' && WireName(a)[13] == 'C' && WireName(a)[15] == 'e';
      case WindowClosedEvent => assert WireName(a)[7] == 'W' && WireName(a)[13] == 'C' && WireName(a)[15] == 'o';
      case ViewCreatedEvent => assert WireName(a)[7] == 'V' && |WireName(a)| == 18;
      case CreateWindowRequest => assert WireName(a)[0] == 'c' && WireName(a)[13] == 'W';
      case CreateViewRequest => assert WireName(a)[0] == 'c' && WireName(a)[13] == 'V';
      case QuitOnAllClosedRequest => assert WireName(a)[0] == 'q';
    }
  }

  /** A window or view proxy, known locally by the id the host assigned. */
  datatype BrowserWindow = BrowserWindow(id: Int32)
  datatype BrowserView = BrowserView(id: Int32)

  /** The geometry fields of `BrowserWindowOptions` that the manager reads and
      rewrites before emitting them. */
  datatype Bounds = Bounds(width: Int32, height: Int32, x: Int32, y: Int32)

  /** `BrowserViewConstructorOptions`, passed through unchanged: its
      properties by name, as the host reads them. */
  datatype ViewOptions = ViewOptions(properties: map<string, string>)

  /** The JSON serializer settings an options object is written with. */
  datatype SerializerConfig = SerializerConfig(camelCaseNames: bool, ignoreNulls: bool, ignoreDefaults: bool)

  /** The manager's `_jsonSerializer` field: omits nulls and default values. */
  const FIELD_SERIALIZER: SerializerConfig := SerializerConfig(true, true, true)
  /** The serializer built inline before an emission: omits only nulls. */
  const INLINE_SERIALIZER: SerializerConfig := SerializerConfig(true, true, false)

  /** An argument of an emitted event. */
  datatype Arg =
    | BoolArg(flag: bool)
    | TextArg(text: string)
    | WindowOptionsArg(serializer: SerializerConfig, bounds: Bounds)
    | ViewOptionsArg(serializer: SerializerConfig, options: ViewOptions)

  /** The handlers the manager installs on the socket. A creation handler
      names the result slot (the pending task) it completes. */
  datatype Handler =
    | WindowCreatedHandler(request: nat)
    | WindowClosedHandler
    | ViewCreatedHandler(request: nat)
}
