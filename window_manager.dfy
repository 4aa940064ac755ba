/** The window manager: the `IsQuitOnWindowAllClosed` flag, the local lists of
    windows and views, and the creation protocol over the bridge socket. Each
    creation arms a one-shot response handler, then emits its request; the
    handler, when the host answers, removes every handler under its name,
    parses the new id, appends the proxy to the list and completes the
    caller's result slot. */
module WindowManagement {
  import opened Wrappers
  import opened Int32Text
  import opened Protocol
  import opened BridgeSocket
  import opened Registry
  import opened Quirks

  /** The caller's `BrowserWindowOptions`, reduced to the fields the manager
      reads and overwrites. */
  class BrowserWindowOptions {
    var width: Int32
    var height: Int32
    var x: Int32
    var y: Int32

    constructor (initial: Bounds)
      ensures Snapshot() == initial
    {
      width, height, x, y := initial.width, initial.height, initial.x, initial.y;
    }

    function Snapshot(): Bounds
      reads this
    {
      Bounds(width, height, x, y)
    }
  }

  /** What became of a response event the host sent. */
  datatype Delivery =
    | NoHandler    // no handler was installed at that position: nothing ran
    | Handled      // the handler ran and completed its result slot
    | ParseFailed  // the handler ran, but `int.Parse` threw after its `Off`

  /** A `BrowserViewConstructorOptions` built with no
      arguments: no property set. */
  const DEFAULT_VIEW_OPTIONS: ViewOptions := ViewOptions(map[])

  /** Every installed creation handler still has an open result slot (so a
      slot is completed at most once), and at most one reconciliation handler
      is installed. */
  ghost predicate SlotsOpen(handlers: HandlerTable, windowResults: seq<Option<BrowserWindow>>,
                            viewResults: seq<Option<BrowserView>>)
  {
    (forall h | h in Registered(handlers, WindowCreatedEvent) ::
       h.WindowCreatedHandler? && h.request < |windowResults| && windowResults[h.request].None?)
    && (forall h | h in Registered(handlers, ViewCreatedEvent) ::
          h.ViewCreatedHandler? && h.request < |viewResults| && viewResults[h.request].None?)
    && (forall h | h in Registered(handlers, WindowClosedEvent) :: h.WindowClosedHandler?)
    && |Registered(handlers, WindowClosedEvent)| <= 1
  }

  /** A new open window slot breaks nothing. */
  lemma SlotsOpenNewWindowSlot(handlers: HandlerTable, windowResults: seq<Option<BrowserWindow>>,
                               viewResults: seq<Option<BrowserView>>)
    requires SlotsOpen(handlers, windowResults, viewResults)
    ensures SlotsOpen(handlers, windowResults + [None], viewResults)
  {
  }

  /** A new open view slot breaks nothing. */
  lemma SlotsOpenNewViewSlot(handlers: HandlerTable, windowResults: seq<Option<BrowserWindow>>,
                             viewResults: seq<Option<BrowserView>>)
    requires SlotsOpen(handlers, windowResults, viewResults)
    ensures SlotsOpen(handlers, windowResults, viewResults + [None])
  {
  }

  /** The handlers `CreateWindowAsync` installs for an open slot keep the
      invariant. */
  lemma SlotsOpenInstallWindow(handlers: HandlerTable, windowResults: seq<Option<BrowserWindow>>,
                               viewResults: seq<Option<BrowserView>>, request: nat)
    requires SlotsOpen(handlers, windowResults, viewResults)
    requires request < |windowResults| && windowResults[request].None?
    ensures SlotsOpen(handlers
      [WindowCreatedEvent := Registered(handlers, WindowCreatedEvent) + [WindowCreatedHandler(request)]]
      [WindowClosedEvent := [WindowClosedHandler]], windowResults, viewResults)
  {
  }

  /** The handler `CreateBrowserViewAsync` installs for an open slot keeps
      the invariant. */
  lemma SlotsOpenInstallView(handlers: HandlerTable, windowResults: seq<Option<BrowserWindow>>,
                             viewResults: seq<Option<BrowserView>>, request: nat)
    requires SlotsOpen(handlers, windowResults, viewResults)
    requires request < |viewResults| && viewResults[request].None?
    ensures SlotsOpen(handlers
      [ViewCreatedEvent := Registered(handlers, ViewCreatedEvent) + [ViewCreatedHandler(request)]],
      windowResults, viewResults)
  {
  }

  /** Removing every window-creation handler keeps the invariant, and then
      completing a window slot does too. */
  lemma SlotsOpenWindowCompleted(handlers: HandlerTable, windowResults: seq<Option<BrowserWindow>>,
                                 viewResults: seq<Option<BrowserView>>, request: nat, window: Option<BrowserWindow>)
    requires SlotsOpen(handlers, windowResults, viewResults) && request < |windowResults|
    ensures SlotsOpen(handlers - {WindowCreatedEvent}, windowResults, viewResults)
    ensures SlotsOpen(handlers - {WindowCreatedEvent}, windowResults[request := window], viewResults)
  {
  }

  /** Removing every view-creation handler keeps the invariant, and then
      completing a view slot does too. */
  lemma SlotsOpenViewCompleted(handlers: HandlerTable, windowResults: seq<Option<BrowserWindow>>,
                               viewResults: seq<Option<BrowserView>>, request: nat, view: Option<BrowserView>)
    requires SlotsOpen(handlers, windowResults, viewResults) && request < |viewResults|
    ensures SlotsOpen(handlers - {ViewCreatedEvent}, windowResults, viewResults)
    ensures SlotsOpen(handlers - {ViewCreatedEvent}, windowResults, viewResults[request := view])
  {
  }

  class WindowManager {
    const socket: Socket
    var isQuitOnWindowAllClosed: bool
    var browserWindows: seq<BrowserWindow>
    var browserViews: seq<BrowserView>
    /** One result slot per `CreateWindowAsync` call, in call order: the
        `TaskCompletionSource` each call returns the task of. */
    var windowResults: seq<Option<BrowserWindow>>
    /** One result slot per `CreateBrowserViewAsync` call. */
    var viewResults: seq<Option<BrowserView>>

    ghost function WindowCreatedHandlers(): seq<Handler>
      reads this, socket
    {
      Registered(socket.handlers, WindowCreatedEvent)
    }

    ghost function WindowClosedHandlers(): seq<Handler>
      reads this, socket
    {
      Registered(socket.handlers, WindowClosedEvent)
    }

    ghost function ViewCreatedHandlers(): seq<Handler>
      reads this, socket
    {
      Registered(socket.handlers, ViewCreatedEvent)
    }

    /** The socket's table is the one its log builds, every installed handler
        has an open slot, and every creation request went out while its
        response handler was installed. */
    ghost predicate Valid()
      reads this, socket
    {
      socket.Valid()
      && SlotsOpen(socket.handlers, windowResults, viewResults)
      && ArmedWhenEmitted(socket.calls, CreateWindowRequest, WindowCreatedEvent)
      && ArmedWhenEmitted(socket.calls, CreateViewRequest, ViewCreatedEvent)
    }

    /** Both request/response pairs stay armed when `call` is logged. */
    static lemma KeepArmed(calls: seq<SocketCall>, call: SocketCall)
      requires ArmedWhenEmitted(calls, CreateWindowRequest, WindowCreatedEvent)
      requires ArmedWhenEmitted(calls, CreateViewRequest, ViewCreatedEvent)
      requires call.EmitCall? && call.name == CreateWindowRequest ==>
        Registered(Replay(calls), WindowCreatedEvent) != []
      requires call.EmitCall? && call.name == CreateViewRequest ==>
        Registered(Replay(calls), ViewCreatedEvent) != []
      ensures ArmedWhenEmitted(calls + [call], CreateWindowRequest, WindowCreatedEvent)
      ensures ArmedWhenEmitted(calls + [call], CreateViewRequest, ViewCreatedEvent)
    {
      ArmedWhenEmittedExtend(calls, call, CreateWindowRequest, WindowCreatedEvent);
      ArmedWhenEmittedExtend(calls, call, CreateViewRequest, ViewCreatedEvent);
    }

    /** The invariant read position by position: every creation request in
        the log went out while a handler for its response was installed. */
    lemma RequestsWentOutArmed(j: nat)
      requires Valid() && j < |socket.calls| && socket.calls[j].EmitCall?
      ensures socket.calls[j].name == CreateWindowRequest ==>
        Registered(Replay(socket.calls[..j]), WindowCreatedEvent) != []
      ensures socket.calls[j].name == CreateViewRequest ==>
        Registered(Replay(socket.calls[..j]), ViewCreatedEvent) != []
    {
      if socket.calls[j].name == CreateWindowRequest {
        ArmedWhenEmittedAt(socket.calls, CreateWindowRequest, WindowCreatedEvent, j);
      } else if socket.calls[j].name == CreateViewRequest {
        ArmedWhenEmittedAt(socket.calls, CreateViewRequest, ViewCreatedEvent, j);
      }
    }

    constructor ()
      ensures Valid() && fresh(socket) && socket.calls == []
      ensures isQuitOnWindowAllClosed
      ensures browserWindows == [] && browserViews == []
      ensures windowResults == [] && viewResults == []
    {
      socket := new Socket();
      isQuitOnWindowAllClosed := true;
      browserWindows, browserViews := [], [];
      windowResults, viewResults := [], [];
    }

    /** The `IsQuitOnWindowAllClosed` setter: tells the host, then records. */
    method SetIsQuitOnWindowAllClosed(value: bool)
      requires Valid()
      modifies this, socket
      ensures Valid()
      ensures isQuitOnWindowAllClosed == value
      ensures socket.calls == old(socket.calls) + [EmitCall(QuitOnAllClosedRequest, [BoolArg(value)])]
      ensures Emissions(socket.calls) == old(Emissions(socket.calls)) + [Emission(QuitOnAllClosedRequest, [BoolArg(value)])]
      ensures socket.handlers == old(socket.handlers)
      ensures browserWindows == old(browserWindows) && browserViews == old(browserViews)
      ensures windowResults == old(windowResults) && viewResults == old(viewResults)
    {
      KeepArmed(socket.calls, EmitCall(QuitOnAllClosedRequest, [BoolArg(value)]));
      socket.Emit(QuitOnAllClosedRequest, [BoolArg(value)]);
      isQuitOnWindowAllClosed := value;
    }

    /** `CreateWindowAsync(options, loadUrl)`. `osDescription` is
        `RuntimeInformation.OSDescription` and `webPort` is
        `BridgeSettings.WebPort`. The result is the index of the call's result
        slot, which the `BrowserWindowCreated` handler completes. */
    method CreateWindow(options: BrowserWindowOptions, osDescription: string, webPort: string,
                        loadUrl: string := DEFAULT_LOAD_URL)
      returns (request: nat)
      requires Valid()
      modifies this, socket, options
      ensures Valid()
      ensures request == |old(windowResults)| && windowResults == old(windowResults) + [None]
      ensures options.Snapshot() == Compensated(old(options.Snapshot()), IsWindows10(osDescription))
      ensures socket.calls == old(socket.calls) + [
        OnCall(WindowCreatedEvent, WindowCreatedHandler(request)),
        OffCall(WindowClosedEvent),
        OnCall(WindowClosedEvent, WindowClosedHandler),
        EmitCall(CreateWindowRequest,
          [WindowOptionsArg(SerializerFor(old(options.Snapshot())), options.Snapshot()),
           TextArg(LoadUrlFor(loadUrl, webPort))])]
      ensures Emissions(socket.calls) == old(Emissions(socket.calls)) + [
        Emission(CreateWindowRequest,
          [WindowOptionsArg(SerializerFor(old(options.Snapshot())), options.Snapshot()),
           TextArg(LoadUrlFor(loadUrl, webPort))])]
      ensures socket.handlers == old(socket.handlers)
        [WindowCreatedEvent := old(WindowCreatedHandlers()) + [WindowCreatedHandler(request)]]
        [WindowClosedEvent := [WindowClosedHandler]]
      ensures isQuitOnWindowAllClosed == old(isQuitOnWindowAllClosed)
      ensures browserWindows == old(browserWindows) && browserViews == old(browserViews)
      ensures viewResults == old(viewResults)
    {
      request := |windowResults|;
      SlotsOpenNewWindowSlot(socket.handlers, windowResults, viewResults);
      windowResults := windowResults + [None];
      InstallWindowHandlers(request);

      var url := loadUrl;
      if IsLocalhost(url) {
        url := url + ":" + webPort;
      }
      assert url == LoadUrlFor(loadUrl, webPort);
      EmitWindowRequest(options, osDescription, url);
    }

    /** The tail of `CreateWindowAsync`: the options are adjusted in place,
        then sent with the URL in a `createBrowserWindow` request. */
    method EmitWindowRequest(options: BrowserWindowOptions, osDescription: string, url: string)
      requires Valid() && Registered(socket.handlers, WindowCreatedEvent) != []
      modifies socket, options
      ensures Valid()
      ensures options.Snapshot() == Compensated(old(options.Snapshot()), IsWindows10(osDescription))
      ensures socket.calls == old(socket.calls) + [EmitCall(CreateWindowRequest,
        [WindowOptionsArg(SerializerFor(old(options.Snapshot())), options.Snapshot()), TextArg(url)])]
      ensures Emissions(socket.calls) == old(Emissions(socket.calls)) + [Emission(CreateWindowRequest,
        [WindowOptionsArg(SerializerFor(old(options.Snapshot())), options.Snapshot()), TextArg(url)])]
      ensures socket.handlers == old(socket.handlers)
    {
      var serializer := AdjustOptions(options, osDescription);
      var args := [WindowOptionsArg(serializer, options.Snapshot()), TextArg(url)];
      KeepArmed(socket.calls, EmitCall(CreateWindowRequest, args));
      socket.Emit(CreateWindowRequest, args);
    }

    /** The handler set-up of `CreateWindowAsync`: a `BrowserWindowCreated`
        handler for result slot `request` is added to any already there, and
        the `BrowserWindowClosed` handler is replaced by a new one. */
    method InstallWindowHandlers(request: nat)
      requires Valid() && request < |windowResults| && windowResults[request].None?
      modifies socket
      ensures Valid()
      ensures socket.calls == old(socket.calls) + [
        OnCall(WindowCreatedEvent, WindowCreatedHandler(request)),
        OffCall(WindowClosedEvent),
        OnCall(WindowClosedEvent, WindowClosedHandler)]
      ensures Emissions(socket.calls) == old(Emissions(socket.calls))
      ensures socket.handlers == old(socket.handlers)
        [WindowCreatedEvent := old(WindowCreatedHandlers()) + [WindowCreatedHandler(request)]]
        [WindowClosedEvent := [WindowClosedHandler]]
    {
      ghost var calls0 := socket.calls;
      SlotsOpenInstallWindow(socket.handlers, windowResults, viewResults, request);
      ghost var withCreated := socket.handlers
        [WindowCreatedEvent := WindowCreatedHandlers() + [WindowCreatedHandler(request)]];
      var onCreated := OnCall(WindowCreatedEvent, WindowCreatedHandler(request));
      KeepArmed(socket.calls, onCreated);
      socket.On(WindowCreatedEvent, WindowCreatedHandler(request));
      KeepArmed(socket.calls, OffCall(WindowClosedEvent));
      socket.Off(WindowClosedEvent);
      assert socket.handlers == withCreated - {WindowClosedEvent};
      assert Registered(socket.handlers, WindowClosedEvent) + [WindowClosedHandler] == [WindowClosedHandler];
      KeepArmed(socket.calls, OnCall(WindowClosedEvent, WindowClosedHandler));
      socket.On(WindowClosedEvent, WindowClosedHandler);
      assert socket.handlers == withCreated[WindowClosedEvent := [WindowClosedHandler]];
      assert socket.calls == calls0 + [onCreated, OffCall(WindowClosedEvent), OnCall(WindowClosedEvent, WindowClosedHandler)];
    }

    /** The option adjustments of `CreateWindowAsync`, written into the
        caller's object; the result is the serializer the options are then
        emitted with. */
    static method AdjustOptions(options: BrowserWindowOptions, osDescription: string)
      returns (serializer: SerializerConfig)
      modifies options
      ensures options.Snapshot() == Compensated(old(options.Snapshot()), IsWindows10(osDescription))
      ensures serializer == SerializerFor(old(options.Snapshot()))
    {
      // Workaround for electron/electron issue 4045 on Windows 10.
      if IsWindows10(osDescription) {
        options.width := Add32(options.width, WIDTH_DELTA);
        options.height := Add32(options.height, HEIGHT_DELTA);
      }

      if options.x == -1 && options.y == -1 {
        options.x, options.y := 0, 0;
        serializer := FIELD_SERIALIZER;
      } else {
        if IsWindows10(osDescription) {
          options.x := Add32(options.x, -X_DELTA);
        }
        serializer := INLINE_SERIALIZER;
      }
    }

    /** `CreateWindowAsync(loadUrl)`: the same, with a new options object.
        `defaults` is the geometry a new `BrowserWindowOptions` starts with. */
    method CreateWindowWithDefaults(defaults: Bounds, osDescription: string, webPort: string,
                                    loadUrl: string := DEFAULT_LOAD_URL)
      returns (request: nat)
      requires Valid()
      modifies this, socket
      ensures Valid()
      ensures request == |old(windowResults)| && windowResults == old(windowResults) + [None]
      ensures socket.calls == old(socket.calls) + [
        OnCall(WindowCreatedEvent, WindowCreatedHandler(request)),
        OffCall(WindowClosedEvent),
        OnCall(WindowClosedEvent, WindowClosedHandler),
        EmitCall(CreateWindowRequest,
          [WindowOptionsArg(SerializerFor(defaults), Compensated(defaults, IsWindows10(osDescription))),
           TextArg(LoadUrlFor(loadUrl, webPort))])]
      ensures Emissions(socket.calls) == old(Emissions(socket.calls)) + [
        Emission(CreateWindowRequest,
          [WindowOptionsArg(SerializerFor(defaults), Compensated(defaults, IsWindows10(osDescription))),
           TextArg(LoadUrlFor(loadUrl, webPort))])]
      ensures socket.handlers == old(socket.handlers)
        [WindowCreatedEvent := old(WindowCreatedHandlers()) + [WindowCreatedHandler(request)]]
        [WindowClosedEvent := [WindowClosedHandler]]
      ensures isQuitOnWindowAllClosed == old(isQuitOnWindowAllClosed)
      ensures browserWindows == old(browserWindows) && browserViews == old(browserViews)
      ensures viewResults == old(viewResults)
    {
      var options := new BrowserWindowOptions(defaults);
      request := CreateWindow(options, osDescription, webPort, loadUrl);
    }

    /** `CreateBrowserViewAsync(options)`. The result is the index of the
        call's result slot, which the `BrowserViewCreated` handler completes. */
    method CreateBrowserView(options: ViewOptions) returns (request: nat)
      requires Valid()
      modifies this, socket
      ensures Valid()
      ensures request == |old(viewResults)| && viewResults == old(viewResults) + [None]
      ensures socket.calls == old(socket.calls) + [
        OnCall(ViewCreatedEvent, ViewCreatedHandler(request)),
        EmitCall(CreateViewRequest, [ViewOptionsArg(INLINE_SERIALIZER, options)])]
      ensures Emissions(socket.calls) == old(Emissions(socket.calls)) + [
        Emission(CreateViewRequest, [ViewOptionsArg(INLINE_SERIALIZER, options)])]
      ensures socket.handlers == old(socket.handlers)
        [ViewCreatedEvent := old(ViewCreatedHandlers()) + [ViewCreatedHandler(request)]]
      ensures isQuitOnWindowAllClosed == old(isQuitOnWindowAllClosed)
      ensures browserWindows == old(browserWindows) && browserViews == old(browserViews)
      ensures windowResults == old(windowResults)
    {
      request := |viewResults|;
      SlotsOpenNewViewSlot(socket.handlers, windowResults, viewResults);
      viewResults := viewResults + [None];
      SlotsOpenInstallView(socket.handlers, windowResults, viewResults, request);
      KeepArmed(socket.calls, OnCall(ViewCreatedEvent, ViewCreatedHandler(request)));
      socket.On(ViewCreatedEvent, ViewCreatedHandler(request));
      var args := [ViewOptionsArg(INLINE_SERIALIZER, options)];
      KeepArmed(socket.calls, EmitCall(CreateViewRequest, args));
      socket.Emit(CreateViewRequest, args);
    }

    /** `CreateBrowserViewAsync()`: the same, with new options. */
    method CreateBrowserViewWithDefaults() returns (request: nat)
      requires Valid()
      modifies this, socket
      ensures Valid()
      ensures request == |old(viewResults)| && viewResults == old(viewResults) + [None]
      ensures socket.calls == old(socket.calls) + [
        OnCall(ViewCreatedEvent, ViewCreatedHandler(request)),
        EmitCall(CreateViewRequest, [ViewOptionsArg(INLINE_SERIALIZER, DEFAULT_VIEW_OPTIONS)])]
      ensures Emissions(socket.calls) == old(Emissions(socket.calls)) + [
        Emission(CreateViewRequest, [ViewOptionsArg(INLINE_SERIALIZER, DEFAULT_VIEW_OPTIONS)])]
      ensures socket.handlers == old(socket.handlers)
        [ViewCreatedEvent := old(ViewCreatedHandlers()) + [ViewCreatedHandler(request)]]
      ensures isQuitOnWindowAllClosed == old(isQuitOnWindowAllClosed)
      ensures browserWindows == old(browserWindows) && browserViews == old(browserViews)
      ensures windowResults == old(windowResults)
    {
      request := CreateBrowserView(DEFAULT_VIEW_OPTIONS);
    }

    /** The host sends `BrowserWindowCreated` with `payload` and the socket
        runs the handler at position `k` under that name (which of several
        installed handlers runs is the socket's choice). The handler removes
        every `BrowserWindowCreated` handler, then parses the id; on success it
        appends the new window and completes its own result slot, which was
        still open. */
    method DeliverWindowCreated(k: nat, payload: string) returns (outcome: Delivery)
      requires Valid()
      modifies this, socket
      ensures Valid()
      ensures outcome == NoHandler <==> k >= |old(WindowCreatedHandlers())|
      ensures outcome == NoHandler ==>
        socket.calls == old(socket.calls) && socket.handlers == old(socket.handlers) &&
        browserWindows == old(browserWindows) && windowResults == old(windowResults)
      ensures outcome != NoHandler ==>
        socket.calls == old(socket.calls) + [OffCall(WindowCreatedEvent)] &&
        socket.handlers == old(socket.handlers) - {WindowCreatedEvent}
      ensures outcome == ParseFailed ==>
        ParseInt32(payload).None? &&
        browserWindows == old(browserWindows) && windowResults == old(windowResults)
      ensures outcome == Handled ==>
        ParseInt32(payload).Some? &&
        var request := old(WindowCreatedHandlers())[k].request;
        var window := BrowserWindow(ParseInt32(payload).value);
        request < |old(windowResults)| && old(windowResults)[request].None? &&
        browserWindows == old(browserWindows) + [window] &&
        windowResults == old(windowResults)[request := Some(window)]
      ensures outcome != NoHandler ==> WindowCreatedHandlers() == []
      ensures isQuitOnWindowAllClosed == old(isQuitOnWindowAllClosed)
      ensures browserViews == old(browserViews) && viewResults == old(viewResults)
    {
      var pending := Registered(socket.handlers, WindowCreatedEvent);
      if k >= |pending| {
        return NoHandler;
      }
      var handler := pending[k];
      assert handler in pending;
      ghost var slot := Some(BrowserWindow(if ParseInt32(payload).Some? then ParseInt32(payload).value else 0));
      SlotsOpenWindowCompleted(socket.handlers, windowResults, viewResults, handler.request, slot);
      KeepArmed(socket.calls, OffCall(WindowCreatedEvent));
      socket.Off(WindowCreatedEvent);
      var id := ParseInt32(payload);
      if id.None? {
        return ParseFailed;
      }
      var window := BrowserWindow(id.value);
      browserWindows := browserWindows + [window];
      windowResults := windowResults[handler.request := Some(window)];
      outcome := Handled;
    }

    /** The host sends `BrowserWindowClosed` with the ids of the windows still
        open, and the socket runs the handler at position `k` under that name.
        The handler walks the window list by index and removes each window
        whose id is not reported, advancing the index after a removal as
        well. */
    method DeliverWindowClosed(k: nat, reported: seq<Int32>) returns (handled: bool)
      requires Valid()
      modifies this
      ensures Valid()
      ensures handled == (k < |WindowClosedHandlers()|)
      ensures browserWindows == if handled then Reconciled(old(browserWindows), reported) else old(browserWindows)
      ensures isQuitOnWindowAllClosed == old(isQuitOnWindowAllClosed)
      ensures browserViews == old(browserViews)
      ensures windowResults == old(windowResults) && viewResults == old(viewResults)
    {
      handled := k < |Registered(socket.handlers, WindowClosedEvent)|;
      if handled {
        RemoveClosedWindows(reported);
      }
    }

    /** The body of the `BrowserWindowClosed` handler: walks the window list
        by index and removes each window whose id is not reported, advancing
        the index after a removal as well. */
    method RemoveClosedWindows(reported: seq<Int32>)
      modifies this`browserWindows
      ensures browserWindows == Reconciled(old(browserWindows), reported)
    {
      ghost var windows := browserWindows;
      ghost var done: seq<BrowserWindow> := [];
      ghost var m := 0;
      var index := 0;
      while index < |browserWindows|
        invariant 0 <= m <= |windows|
        invariant browserWindows == done + windows[m..]
        invariant index == |done| || (m == |windows| && index == |done| + 1)
        invariant done + Reconciled(windows[m..], reported) == Reconciled(windows, reported)
        decreases |windows| - m
      {
        assert browserWindows[..index] == done && browserWindows[index..] == windows[m..];
        ReconciledStep(windows, reported, done, m);
        if browserWindows[index].id !in reported {
          assert browserWindows[index + 1..] == windows[m + 1..];
          browserWindows := browserWindows[..index] + browserWindows[index + 1..];
          assert browserWindows == done + windows[m + 1..];
          if m + 1 < |windows| {
            done, m := done + [windows[m + 1]], m + 2;
          } else {
            m := m + 1;
          }
        } else {
          done, m := done + [windows[m]], m + 1;
        }
        index := index + 1;
      }
    }

    /** The host sends `BrowserViewCreated` with `payload` and the socket runs
        the handler at position `k` under that name. Like the window handler,
        but for the view list; the window list and the reconciliation handler
        are left alone. */
    method DeliverViewCreated(k: nat, payload: string) returns (outcome: Delivery)
      requires Valid()
      modifies this, socket
      ensures Valid()
      ensures outcome == NoHandler <==> k >= |old(ViewCreatedHandlers())|
      ensures outcome == NoHandler ==>
        socket.calls == old(socket.calls) && socket.handlers == old(socket.handlers) &&
        browserViews == old(browserViews) && viewResults == old(viewResults)
      ensures outcome != NoHandler ==>
        socket.calls == old(socket.calls) + [OffCall(ViewCreatedEvent)] &&
        socket.handlers == old(socket.handlers) - {ViewCreatedEvent}
      ensures outcome == ParseFailed ==>
        ParseInt32(payload).None? &&
        browserViews == old(browserViews) && viewResults == old(viewResults)
      ensures outcome == Handled ==>
        ParseInt32(payload).Some? &&
        var request := old(ViewCreatedHandlers())[k].request;
        var view := BrowserView(ParseInt32(payload).value);
        request < |old(viewResults)| && old(viewResults)[request].None? &&
        browserViews == old(browserViews) + [view] &&
        viewResults == old(viewResults)[request := Some(view)]
      ensures outcome != NoHandler ==> ViewCreatedHandlers() == []
      ensures isQuitOnWindowAllClosed == old(isQuitOnWindowAllClosed)
      ensures browserWindows == old(browserWindows) && windowResults == old(windowResults)
    {
      var pending := Registered(socket.handlers, ViewCreatedEvent);
      if k >= |pending| {
        return NoHandler;
      }
      var handler := pending[k];
      assert handler in pending;
      ghost var slot := Some(BrowserView(if ParseInt32(payload).Some? then ParseInt32(payload).value else 0));
      SlotsOpenViewCompleted(socket.handlers, windowResults, viewResults, handler.request, slot);
      KeepArmed(socket.calls, OffCall(ViewCreatedEvent));
      socket.Off(ViewCreatedEvent);
      var id := ParseInt32(payload);
      if id.None? {
        return ParseFailed;
      }
      var view := BrowserView(id.value);
      browserViews := browserViews + [view];
      viewResults := viewResults[handler.request := Some(view)];
      outcome := Handled;
    }
  }
}
