/** Whole conversations between a caller, the window manager and the host,
    built from the manager's operations. */
module Scenarios {
  import opened Wrappers
  import opened Int32Text
  import opened Protocol
  import opened WindowManagement

  /** A window is requested while no other request is pending, and the host
      answers with its id as text: the window is appended and the caller's
      result holds it. */
  method CreateAndAnswer(m: WindowManager, options: BrowserWindowOptions, osDescription: string,
                         webPort: string, id: Int32)
    returns (request: nat)
    requires m.Valid() && m.WindowCreatedHandlers() == []
    modifies m, m.socket, options
    ensures m.Valid()
    ensures request < |m.windowResults| && m.windowResults[request] == Some(BrowserWindow(id))
    ensures m.browserWindows == old(m.browserWindows) + [BrowserWindow(id)]
    ensures m.WindowCreatedHandlers() == []
  {
    request := m.CreateWindow(options, osDescription, webPort);
    AnswerOnly(m, request, id);
  }

  /** The answer to the only pending window request: its slot is completed
      with the window the host reports. */
  method AnswerOnly(m: WindowManager, request: nat, id: Int32)
    requires m.Valid() && m.WindowCreatedHandlers() == [WindowCreatedHandler(request)]
    requires request < |m.windowResults| && m.windowResults[request].None?
    modifies m, m.socket
    ensures m.Valid()
    ensures |m.windowResults| == |old(m.windowResults)|
    ensures m.windowResults[request] == Some(BrowserWindow(id))
    ensures m.browserWindows == old(m.browserWindows) + [BrowserWindow(id)]
    ensures m.WindowCreatedHandlers() == []
  {
    ParseIntTextRoundTrip(id);
    var outcome := m.DeliverWindowCreated(0, IntText(id));
  }

  /** Two windows are requested before the host answers. On a socket that
      runs one of the handlers installed under a name per event, the first
      answer runs one of the two, and that handler removes both, so exactly
      one caller gets a window and the other request is never completed. */
  method OverlappingRequests(m: WindowManager, first: BrowserWindowOptions, second: BrowserWindowOptions,
                             osDescription: string, webPort: string, k: nat, id: Int32)
    returns (a: nat, b: nat)
    requires m.Valid() && m.WindowCreatedHandlers() == []
    requires k < 2
    modifies m, m.socket, first, second
    ensures m.Valid()
    ensures a < b == |m.windowResults| - 1
    ensures m.windowResults[a] == (if k == 0 then Some(BrowserWindow(id)) else None)
    ensures m.windowResults[b] == (if k == 1 then Some(BrowserWindow(id)) else None)
    ensures m.browserWindows == old(m.browserWindows) + [BrowserWindow(id)]
    ensures m.WindowCreatedHandlers() == []
  {
    a := m.CreateWindow(first, osDescription, webPort);
    b := m.CreateWindow(second, osDescription, webPort);
    AnswerOneOfTwo(m, a, b, k, id);
  }

  /** The answer to two pending window requests, whose handlers are installed
      in request order, on a socket that runs one handler per event: only the
      slot of the handler at position `k` is completed. */
  method AnswerOneOfTwo(m: WindowManager, a: nat, b: nat, k: nat, id: Int32)
    requires m.Valid() && m.WindowCreatedHandlers() == [WindowCreatedHandler(a), WindowCreatedHandler(b)]
    requires a < b == |m.windowResults| - 1 && m.windowResults[a].None? && m.windowResults[b].None?
    requires k < 2
    modifies m, m.socket
    ensures m.Valid()
    ensures |m.windowResults| == |old(m.windowResults)|
    ensures m.windowResults[a] == (if k == 0 then Some(BrowserWindow(id)) else None)
    ensures m.windowResults[b] == (if k == 1 then Some(BrowserWindow(id)) else None)
    ensures m.browserWindows == old(m.browserWindows) + [BrowserWindow(id)]
    ensures m.WindowCreatedHandlers() == []
  {
    ParseIntTextRoundTrip(id);
    var outcome := m.DeliverWindowCreated(k, IntText(id));
  }
}
