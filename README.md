# ElectronNET window manager, modelled in Dafny

This project models the window manager of ElectronNET.API
(`ElectronNET.API/WindowManager.cs`). The manager is the .NET side of the
bridge to the Electron host process. It keeps local lists of the browser
windows and browser views the host has created. It runs a small
request/response protocol over a named-event socket:

- **Creation.** `CreateWindowAsync` and `CreateBrowserViewAsync` first arm a
  one-shot listener for `BrowserWindowCreated` / `BrowserViewCreated`, then
  emit `createBrowserWindow` / `createBrowserView`. When the answer arrives,
  the listener removes every handler under its name, parses the new id with
  `int.Parse`, appends a proxy to the list and completes the caller's task.
- **Reconciliation.** Every window creation replaces the `BrowserWindowClosed`
  handler. On each report of the ids still open, that handler walks the
  window list by index and removes windows whose id is missing. One pass
  does not remove all of them: see "## Findings".
- **Adjustments before sending.** A bare `http://localhost` URL, in any case,
  gets `:` and the web port appended. On Windows 10 the window is made 14
  pixels wider and 7 taller (the workaround for electron/electron issue 4045).
  An unset position (-1, -1) becomes (0, 0). Any other position moves 7
  pixels left on Windows 10. The options object is written with one of two
  serializer configurations. All of this is written into the caller's own
  options object.
- **`IsQuitOnWindowAllClosed`.** The flag starts true. Its setter emits
  `quit-app-window-all-closed-event` with the new value, then stores it.

Modules, one per file:

- `Wrappers`: `Option`.
- `Int32Text`: C# `int`. It covers unchecked addition, `int.Parse` with the
  default integer style, and the decimal text of an id.
- `Strings`: `ToUpper` for the characters that matter, and ordinal
  `Contains`.
- `Protocol`: event names and their wire names, entities, emitted arguments,
  serializer settings and handlers.
- `BridgeSocket`: the socket as a class. It holds a handler table keyed by
  event, plus an append-only log of every `On`, `Off` and `Emit`. The table is
  always the replay of the log.
- `Registry`: the reconciliation pass as written (`Reconciled`), the clean set
  difference (`Filtered`) and a corrected loop (`RemoveUnreported`).
- `Quirks`: the URL test and rewrite, the Windows 10 test, and the geometry
  adjustment.
- `WindowManagement`: the manager and the options object as classes. Each
  task is a result slot (`Option`) that its handler completes.
- `Scenarios`: whole conversations built from the manager's methods.

The code installs a new `BrowserWindowCreated` handler per request without
clearing older ones. How the socket dispatches an event to several handlers
under one name is not part of this model. The model takes one reading: each
incoming event runs one of the installed handlers. Which one runs is an
input, the position `k`, to each `Deliver…` method. A `k` past the end means
no handler was installed.

Three behaviours of the code are worth stating plainly:

- The adjustments overwrite the fields of the caller's own options object.
  `Quirks.CompensationCompoundsOnWindows10` shows that reusing the object on
  Windows 10 applies the size deltas twice. The position deltas also apply
  twice, except from two start positions that the first adjustment leaves or
  lands on (-1, -1).
- Creation never calls `Off` on the response name before its `On`, so
  overlapping requests stack their handlers (`Scenarios.OverlappingRequests`).
- Width and height change on Windows 10 whatever the position, x moves only
  when the position is set, and (-1, -1) becomes (0, 0) on every platform.

## Model

| member | source | states |
|---|---|---|
| WindowManagement.WindowManager.constructor | ElectronNET.API/WindowManager.cs:57-75 | the flag starts true; both lists, the socket's handler table and its log start empty; the invariant holds |
| WindowManagement.WindowManager.SetIsQuitOnWindowAllClosed | ElectronNET.API/WindowManager.cs:48-56 | one `quit-app-window-all-closed-event` is emitted carrying the value; afterwards the flag reads back as that value; no handler, list or slot changes |
| WindowManagement.WindowManager.CreateWindow | ElectronNET.API/WindowManager.cs:93-160 | opens a new result slot; logs exactly On(created), Off(closed), On(closed), then one `createBrowserWindow` emit carrying the adjusted options, the serializer for the original position and the rewritten URL; the caller's options end up `Compensated`; the handler table gains the slot's handler and holds exactly one closed handler; lists and the flag are unchanged |
| WindowManagement.WindowManager.InstallWindowHandlers | ElectronNET.API/WindowManager.cs:97-120 | the created handler for the slot is added after any already installed; the closed handler is replaced so exactly one remains; nothing is emitted |
| WindowManagement.WindowManager.EmitWindowRequest | ElectronNET.API/WindowManager.cs:127-157 | the options are adjusted in place and sent in one `createBrowserWindow` emit with the URL; the handler table is unchanged |
| WindowManagement.WindowManager.AdjustOptions | ElectronNET.API/WindowManager.cs:129-151 | the options object's new geometry is `Compensated` of its old geometry for the platform; the serializer is the field one for an unset position (-1, -1) and the inline one otherwise |
| WindowManagement.WindowManager.CreateWindowWithDefaults | ElectronNET.API/WindowManager.cs:82-85 | the same call log, emission and handler table as `CreateWindow` on a fresh options object: the emitted geometry is `Compensated(defaults)` and the serializer follows the default position; lists, view slots and the flag are unchanged |
| WindowManagement.WindowManager.CreateBrowserView | ElectronNET.API/WindowManager.cs:185-209 | opens a new view slot; logs exactly On(view created) then one `createBrowserView` emit of the options with the inline serializer; only the view-created entry of the handler table changes; windows, window slots and the flag are untouched |
| WindowManagement.WindowManager.CreateBrowserViewWithDefaults | ElectronNET.API/WindowManager.cs:173-176 | the same call log, emission and handler table as `CreateBrowserView` with empty view options: only the view-created entry of the table changes; lists, window slots and the flag are unchanged |
| WindowManagement.WindowManager.DeliverWindowCreated | ElectronNET.API/WindowManager.cs:97-106 | a handler runs iff `k` is below the number installed; when one runs, every created handler is removed (Off logged); a payload `int.Parse` rejects adds nothing and completes nothing; otherwise exactly one window with the parsed id is appended and the handler's own slot, which was still open, is completed with it; views untouched |
| WindowManagement.WindowManager.DeliverWindowClosed | ElectronNET.API/WindowManager.cs:109-120 | if the closed handler is installed the window list becomes `Reconciled(old list, report)`, otherwise it is unchanged; nothing else changes |
| WindowManagement.WindowManager.RemoveClosedWindows | ElectronNET.API/WindowManager.cs:113-118 | the index loop with `RemoveAt` leaves exactly `Reconciled(old list, report)` |
| WindowManagement.WindowManager.DeliverViewCreated | ElectronNET.API/WindowManager.cs:189-199 | as for windows, on the view list and view slots; the window list, window slots and the closed handler are untouched |
| WindowManagement.WindowManager.KeepArmed | ElectronNET.API/WindowManager.cs:97-156 | logging any call keeps the invariant that every creation request was sent while its response handler was installed, provided a request is only sent while that handler is installed |
| WindowManagement.WindowManager.RequestsWentOutArmed | ElectronNET.API/WindowManager.cs:97-156 | read position by position in the log: every `createBrowserWindow` / `createBrowserView` request went out while a handler for its response was installed |
| WindowManagement.SlotsOpenInstallWindow | ElectronNET.API/WindowManager.cs:97-109 | installing the created handler for an open slot and replacing the closed handler keeps every installed handler pointing at an open slot, with at most one closed handler |
| WindowManagement.SlotsOpenInstallView | ElectronNET.API/WindowManager.cs:189-199 | installing the view handler for an open slot keeps the invariant |
| WindowManagement.SlotsOpenNewWindowSlot | ElectronNET.API/WindowManager.cs:95 | a new open window slot keeps the invariant |
| WindowManagement.SlotsOpenNewViewSlot | ElectronNET.API/WindowManager.cs:187 | a new open view slot keeps the invariant |
| WindowManagement.SlotsOpenWindowCompleted | ElectronNET.API/WindowManager.cs:99-105 | after every created handler is removed, completing a slot keeps the invariant, so `SetResult` never meets a completed slot |
| WindowManagement.SlotsOpenViewCompleted | ElectronNET.API/WindowManager.cs:191-198 | the same for views |
| Scenarios.CreateAndAnswer | ElectronNET.API/WindowManager.cs:93-106 | with no request pending, creating a window and answering with its id as text appends exactly that window and completes the caller's slot with it; no created handler remains, so a duplicate answer finds none |
| Scenarios.AnswerOnly | ElectronNET.API/WindowManager.cs:97-105 | with one window handler installed, for an open slot, answering with an id as text completes that slot with the window, appends it once and leaves no created handler |
| Scenarios.OverlappingRequests | ElectronNET.API/WindowManager.cs:97-106 | two requests before any answer, on a socket that runs one handler per event: the first answer completes exactly the slot of the handler that ran; the other slot stays open for good, because no created handler remains |
| Scenarios.AnswerOneOfTwo | ElectronNET.API/WindowManager.cs:97-105 | with two window handlers installed in request order, on a socket that runs one handler per event: an answer completes only the slot of the handler that runs, appends one window and leaves no created handler |
| BridgeSocket.Socket.On | ElectronNET.API/WindowManager.cs:97 | the handler is appended under its event, the call is logged, nothing is emitted, and the table stays the replay of the log |
| BridgeSocket.Socket.Off | ElectronNET.API/WindowManager.cs:108 | every handler under the event is removed, the call is logged, nothing is emitted |
| BridgeSocket.Socket.Emit | ElectronNET.API/WindowManager.cs:53 | exactly one emission is appended to the emitted events; the handler table is unchanged |
| BridgeSocket.ArmedWhenEmittedAt | ElectronNET.API/WindowManager.cs:97-156 | the log invariant, position by position: each creation request in the log was preceded by a state where its response handler was installed |
| BridgeSocket.ArmedWhenEmittedExtend | ElectronNET.API/WindowManager.cs:97-156 | logging a call keeps that invariant when a request is only sent while its handler is installed |
| Protocol.WireName | ElectronNET.API/WindowManager.cs:53 | definition: the six event names as the code spells them (lines 53, 97, 108-109, 140, 189, 206); `WireNameInjective` states that they are distinct |
| Protocol.WireNameInjective | ElectronNET.API/WindowManager.cs:97-109 | no two events share a wire name, so events compared by constructor are events compared by name |
| Registry.Reconciled | ElectronNET.API/WindowManager.cs:113-118 | one reconciliation pass never makes the list longer |
| Registry.Filtered | ElectronNET.API/WindowManager.cs:113-118 | definition of the evidently intended result, the set difference; `FilteredCounts` states what it keeps |
| Registry.ReconciledKeepsOnlyListed | ElectronNET.API/WindowManager.cs:113-118 | every window left after a pass was in the list before it |
| Registry.ReconciledKeepsIdsDistinct | ElectronNET.API/WindowManager.cs:113-118 | a pass over a list whose ids are distinct leaves a list whose ids are distinct |
| Registry.AppendKeepsIdsDistinct | ElectronNET.API/WindowManager.cs:103 | appending a window, as a handled `BrowserWindowCreated` does, keeps the ids distinct exactly when they were distinct and its id was not listed yet |
| Registry.ReconciledKeepsOrder | ElectronNET.API/WindowManager.cs:113-118 | survivors are a subsequence of the old list: relative order is kept |
| Registry.ReconciledKeepsReported | ElectronNET.API/WindowManager.cs:115 | a window whose id is reported is never removed: its number of occurrences is unchanged |
| Registry.ReconciledRemovesOnlyUnreported | ElectronNET.API/WindowManager.cs:115-117 | no window gains occurrences, and a window that loses any has an unreported id |
| Registry.ReconciledAllReported | ElectronNET.API/WindowManager.cs:113-118 | a report naming every window leaves the list as it was |
| Registry.ReconciledRemovesOne | ElectronNET.API/WindowManager.cs:113-118 | a report missing some window's id removes at least one window |
| Registry.FilteredCounts | ElectronNET.API/WindowManager.cs:111-119 | the intended result keeps every occurrence of a reported window and no occurrence of an unreported one |
| Registry.FilteredOfReconciled | ElectronNET.API/WindowManager.cs:113-118 | filtering what one pass left gives the same as filtering the original list |
| Registry.RepeatedReportsConverge | ElectronNET.API/WindowManager.cs:113-118 | handling the same report at least as many times as there are windows leaves exactly `Filtered`: only reported windows, in order |
| Registry.ReconciledSkipsSuccessor | ElectronNET.API/WindowManager.cs:113-118 | windows 1, 2, 3 with report {1, 3} give 1, 3; with report {1} the pass also gives 1, 3 (window 3 slid into the removed slot and was passed over), where the intended result is 1 |
| Registry.RemoveUnreported | ElectronNET.API/WindowManager.cs:113-118 | the corrected loop, which advances the index only past a kept window, returns exactly `Filtered(windows, report)` |
| Quirks.IsWindows10 | ElectronNET.API/WindowManager.cs:162-165 | the test holds iff `Windows 10` occurs at some index of the OS description |
| Quirks.IsLocalhost | ElectronNET.API/WindowManager.cs:122 | definition: the upper-cased URL equals `HTTP://LOCALHOST`; `IsLocalhostCharacterised` states which URLs pass |
| Quirks.LoadUrlFor | ElectronNET.API/WindowManager.cs:122-125 | definition of the URL sent; `DefaultLoadUrlGetsPort` and `LoadUrlForIdempotent` state its properties |
| Quirks.Compensated | ElectronNET.API/WindowManager.cs:129-149 | definition of the adjusted geometry; the four `Compensat…` lemmas below state it case by case |
| Quirks.SerializerFor | ElectronNET.API/WindowManager.cs:135-156 | definition: the field serializer (lines 211-216) for an unset position, the inline one (lines 151-155) otherwise; `AdjustOptions` ties it to the original position |
| Quirks.IsLocalhostCharacterised | ElectronNET.API/WindowManager.cs:122 | the upper-casing test accepts exactly the 16-character strings that spell `http://localhost` in any mix of cases, counting the long s `ſ` as an `s` |
| Quirks.UpperCharMatches | ElectronNET.API/WindowManager.cs:122 | per character: upper-casing to the letter of the literal holds iff the character is that letter in either case |
| Quirks.DefaultLoadUrlGetsPort | ElectronNET.API/WindowManager.cs:82 | the default URL is sent as `http://localhost:` followed by the web port |
| Quirks.LoadUrlForIdempotent | ElectronNET.API/WindowManager.cs:122-125 | the rewrite keeps the URL as written as a prefix, and applying it to its own result changes nothing |
| Quirks.IsLocalhostMixedCase | ElectronNET.API/WindowManager.cs:122 | `HTTP://LocalHost` counts as localhost |
| Quirks.IsLocalhostRejects | ElectronNET.API/WindowManager.cs:122 | a trailing path or another scheme does not |
| Quirks.IsWindows10Examples | ElectronNET.API/WindowManager.cs:162-165 | the Windows 10 and Windows 11 OS descriptions both contain `Windows 10`; a macOS one does not |
| Quirks.CompensatedOnWindows10 | ElectronNET.API/WindowManager.cs:129-149 | on Windows 10, without overflow: width +14 and height +7; an unset position becomes (0, 0); any other x moves by -7 and y stays |
| Quirks.CompensatedElsewhere | ElectronNET.API/WindowManager.cs:135-149 | elsewhere the size is kept, an unset position becomes (0, 0) and any other position is kept |
| Quirks.CompensationCompoundsOnWindows10 | ElectronNET.API/WindowManager.cs:129-149 | adjusting the same options twice on Windows 10, without overflow, adds 28 to width and 14 to height from every position; x moves by -14 with y kept, except from the unset position (-1, -1), which ends at (-7, 0), and from (6, -1), which ends at (0, 0) |
| Quirks.CompensationIdempotentElsewhere | ElectronNET.API/WindowManager.cs:135-149 | off Windows 10 a second adjustment changes nothing |
| Strings.Contains | ElectronNET.API/WindowManager.cs:164 | true iff the text occurs at some index of the string |
| Int32Text.Wrap32 | ElectronNET.API/WindowManager.cs:131-132 | the result is an `int` congruent to the input modulo 2^32, equal to it when it fits |
| Int32Text.Add32 | ElectronNET.API/WindowManager.cs:131-132 | `int` addition: the exact sum when it fits, wrapped by 2^32 on overflow in either direction |
| Int32Text.ParseInt32 | ElectronNET.API/WindowManager.cs:102 | definition of `int.Parse`; the `Parse…` lemmas below state what it accepts and rejects |
| Int32Text.IntText | ElectronNET.API/WindowManager.cs:101 | definition of an `int`'s decimal text; `ParseIntTextRoundTrip` states that `int.Parse` reads it back |
| Int32Text.ParseIntTextRoundTrip | ElectronNET.API/WindowManager.cs:101-102 | every `int` id sent as its decimal text is parsed back to that id |
| Int32Text.ParseDigits | ElectronNET.API/WindowManager.cs:102 | plain digits parse to their value, or fail when the value is above the `int` range |
| Int32Text.ParseNegatedDigits | ElectronNET.API/WindowManager.cs:102 | `-` then digits parses to the negated value, or fails below the `int` range |
| Int32Text.ParsePlusDigits | ElectronNET.API/WindowManager.cs:102 | `+` then digits parses to the value itself |
| Int32Text.ParseIgnoresPadding | ElectronNET.API/WindowManager.cs:102 | white space before and after the number does not change the result |
| Int32Text.ParseRejectsMalformed | ElectronNET.API/WindowManager.cs:102 | a stray character or an empty payload is a format error |
| Int32Text.NatTextDigits | ElectronNET.API/WindowManager.cs:101 | the decimal text of a natural number is non-empty, all digits, and has that value |
| Int32Text.TrimStartDropsPadding | ElectronNET.API/WindowManager.cs:102 | leading white space, and only that, is dropped |
| Int32Text.TrimEndDropsPadding | ElectronNET.API/WindowManager.cs:102 | trailing white space, and only that, is dropped |

## Left out

- The `Instance` singleton and its double-checked locking (WindowManager.cs:18-40) are thread-safe initialisation only. The model has one manager object, built by its constructor.
- Concurrency: handlers run one at a time, to completion.
- `async`/`Task`: each task is a result slot (`Option`). The `Task` a call returns is the index of its slot.
- JSON: `JObject.FromObject`, the contract resolver and `JArray.ToObject<int[]>` are a foreign library. The model records which serializer settings are chosen and what the options hold. A report arrives as a sequence of `int`s, and a response payload as the text `id.ToString()` gives.
- The SocketIO transport and `BridgeConnector` are not part of this model. The socket is an explicit handler table plus a call log. Which stacked handler runs is the input `k`.
- `RuntimeInformation.OSDescription` and `BridgeSettings.WebPort` are inputs to each call. The web port is taken as the text that is interpolated into the URL.
- `BrowserWindowOptions` is reduced to the four fields the manager reads and writes. Its default values are an input (`defaults`) to `CreateWindowWithDefaults`, because that class is not part of this model. `BrowserViewConstructorOptions` is a map of properties passed through unchanged.
- `BrowserWindow` and `BrowserView` are values holding only their id. Reference identity is not modelled, and neither is anything done through `IBrowserWindow.cs`, which holds only declarations.
- The `BrowserWindows` and `BrowserViews` getters are plain field reads here. The live read-only view of `AsReadOnly` is not modelled.
- Strings.Upper: maps only the characters whose upper case is ASCII (`a`-`z`, `ı`, `ſ`). Every other character is left as it is, which cannot change a comparison with the ASCII literal `HTTP://LOCALHOST`. `ToUpper` uses the current culture, but cultures differ only on `i`, and the literal has no `I`, so the result is the same in every culture.
- Int32Text.ParseInt32: follows `NumberStyles.Integer`. It accepts white space, one sign and decimal digits, and fails on overflow. Two exceptions. `int.Parse` also accepts trailing `'\0'` characters (`"42\0"` reads as 42), where `ParseInt32` fails. Culture-specific signs are not modelled. Neither can occur in the text of a JSON number the host sends as an id.
- Null arguments: a null `loadUrl` or `options` passed to `CreateWindowAsync` throws `NullReferenceException` at lines 122, 131 or 135. That happens after both handlers are installed (lines 97-120) and before anything is emitted, so a `BrowserWindowCreated` handler is left installed for a request that never goes out. A null `options` passed to `CreateBrowserViewAsync` makes `JObject.FromObject` throw at line 206, after the `BrowserViewCreated` handler is installed at line 189, so a view handler is likewise left behind. The model's arguments are never null, so it captures neither case.
- WindowManagement.WindowManager.DeliverWindowCreated: assumes that one incoming event runs one of the installed handlers, chosen by the input `k`. It does not model a socket that runs every handler under the name.
- Scenarios.OverlappingRequests: holds only on a socket that runs one handler per event. A socket that ran both stacked handlers on the first answer would complete both slots and append the window twice.
- Scenarios.AnswerOneOfTwo: the same assumption and the same consequence as `Scenarios.OverlappingRequests`.
- Unique ids: the code never checks that an id the host sends is new. A repeated id from the host lists two windows with that id. `Registry.AppendKeepsIdsDistinct` states exactly when ids stay distinct. `Registry.ReconciledKeepsIdsDistinct` states that reconciliation never breaks distinctness.

## Findings

| source | as written | input that shows it | evidently intended | confidence | as-written member | corrected member |
|---|---|---|---|---|---|---|
| ElectronNET.API/WindowManager.cs:113-118 | after `RemoveAt(index)` the loop still increments `index`, so the window that slides into the freed position is not checked in that pass | windows with ids 1, 2, 3 and report [1]: the pass leaves 1, 3 | remove every window whose id is not reported, leaving 1 | not executed | Registry.ReconciledSkipsSuccessor | Registry.RemoveUnreported |

The manager's `BrowserWindowClosed` handler (`RemoveClosedWindows`) keeps
the behaviour as written, because it models this code.
`Registry.RemoveUnreported` is the corrected loop, proved equal to the set
difference `Filtered`. `Registry.RepeatedReportsConverge` bounds the damage:
a report that is repeated once per window reaches that same result.
