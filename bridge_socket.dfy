/** The named-event socket behind `BridgeConnector.Socket`, as the window
    manager uses it: `On` adds a handler under a name, `Off` removes every
    handler under a name, `Emit` sends an event. The socket keeps the table of
    installed handlers and an append-only log of every call made on it. */
module BridgeSocket {
  import opened Protocol

  datatype SocketCall =
    | OnCall(name: EventName, handler: Handler)
    | OffCall(name: EventName)
    | EmitCall(name: EventName, args: seq<Arg>)

  /** One event sent to the host. */
  datatype Emission = Emission(name: EventName, args: seq<Arg>)

  type HandlerTable = map<EventName, seq<Handler>>

  /** The handlers installed under `name`, in the order they were added. */
  function Registered(table: HandlerTable, name: EventName): seq<Handler>
  {
    if name in table then table[name] else []
  }

  function Step(table: HandlerTable, call: SocketCall): HandlerTable
  {
    match call
    case OnCall(name, handler) => table[name := Registered(table, name) + [handler]]
    case OffCall(name) => table - {name}
    case EmitCall(_, _) => table
  }

  /** The handler table that a log of calls leaves behind, starting empty. */
  function Replay(calls: seq<SocketCall>): HandlerTable
    decreases |calls|
  {
    if calls == [] then map[] else Step(Replay(calls[..|calls| - 1]), calls[|calls| - 1])
  }

  /** The events a log of calls has sent, in order. */
  function Emissions(calls: seq<SocketCall>): seq<Emission>
    decreases |calls|
  {
    if calls == [] then []
    else
      var last := calls[|calls| - 1];
      Emissions(calls[..|calls| - 1]) + if last.EmitCall? then [Emission(last.name, last.args)] else []
  }

  /** Every `request` event in the log was sent while a `response` handler
      was installed, so a response the host sends back cannot arrive before
      a handler exists for it. */
  ghost predicate ArmedWhenEmitted(calls: seq<SocketCall>, request: EventName, response: EventName)
    decreases |calls|
  {
    calls == [] ||
    (ArmedWhenEmitted(calls[..|calls| - 1], request, response) &&
     (calls[|calls| - 1].EmitCall? && calls[|calls| - 1].name == request ==>
        Registered(Replay(calls[..|calls| - 1]), response) != []))
  }

  /** The same property, stated position by position. */
  lemma {:induction false} ArmedWhenEmittedAt(calls: seq<SocketCall>, request: EventName, response: EventName, j: int)
    requires ArmedWhenEmitted(calls, request, response)
    requires 0 <= j < |calls| && calls[j].EmitCall? && calls[j].name == request
    ensures Registered(Replay(calls[..j]), response) != []
    decreases |calls|
  {
    if j < |calls| - 1 {
      var prefix := calls[..|calls| - 1];
      assert prefix[..j] == calls[..j] && prefix[j] == calls[j];
      ArmedWhenEmittedAt(prefix, request, response, j);
    }
  }

  lemma ArmedWhenEmittedExtend(calls: seq<SocketCall>, call: SocketCall, request: EventName, response: EventName)
    requires ArmedWhenEmitted(calls, request, response)
    requires call.EmitCall? && call.name == request ==> Registered(Replay(calls), response) != []
    ensures ArmedWhenEmitted(calls + [call], request, response)
  {
    assert (calls + [call])[..|calls|] == calls;
  }

  class Socket {
    var handlers: HandlerTable
    var calls: seq<SocketCall>

    /** The table is the one the log of calls builds. */
    ghost predicate Valid()
      reads this
    {
      handlers == Replay(calls)
    }

    constructor ()
      ensures Valid() && calls == [] && handlers == map[]
    {
      handlers := map[];
      calls := [];
    }

    method On(name: EventName, handler: Handler)
      requires Valid()
      modifies this
      ensures Valid()
      ensures calls == old(calls) + [OnCall(name, handler)]
      ensures handlers == old(handlers)[name := Registered(old(handlers), name) + [handler]]
      ensures Emissions(calls) == old(Emissions(calls))
    {
      handlers := handlers[name := Registered(handlers, name) + [handler]];
      calls := calls + [OnCall(name, handler)];
      assert calls[..|calls| - 1] == old(calls);
    }

    method Off(name: EventName)
      requires Valid()
      modifies this
      ensures Valid()
      ensures calls == old(calls) + [OffCall(name)]
      ensures handlers == old(handlers) - {name}
      ensures Registered(handlers, name) == []
      ensures Emissions(calls) == old(Emissions(calls))
    {
      handlers := handlers - {name};
      calls := calls + [OffCall(name)];
      assert calls[..|calls| - 1] == old(calls);
    }

    method Emit(name: EventName, args: seq<Arg>)
      requires Valid()
      modifies this
      ensures Valid()
      ensures calls == old(calls) + [EmitCall(name, args)]
      ensures handlers == old(handlers)
      ensures Emissions(calls) == old(Emissions(calls)) + [Emission(name, args)]
    {
      calls := calls + [EmitCall(name, args)];
      assert calls[..|calls| - 1] == old(calls);
    }
  }
}
