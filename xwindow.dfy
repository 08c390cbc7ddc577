/** The window session `xwin::XWindow`: its configuration, its listener
    registry and its event loop (src/main.cpp:62-148). The Xlib calls that
    open, create, map and close the window are not modelled; two constant
    fields stand for the title and geometry the constructor sends to the X
    server. */
module Xwin {
  import opened KeyCodes
  import opened Events
  import opened EventDispatch

  /** `XWindowConfig`: the geometry handed to `XCreateSimpleWindow`. */
  datatype XWindowConfig = XWindowConfig(width: u32, height: u32, posX: u32, posY: u32, borderWidth: u32)

  /** A position of (0, 0) leaves placement to the window manager, which
      centres a splash window. */
  predicate PlacedByWindowManager(c: XWindowConfig)
  {
    c.posX == 0 && c.posY == 0
  }

  /** The default `XWindowConfig{}`: 800 by 600, a one-pixel border, placed
      by the window manager. */
  function DefaultConfig(): (c: XWindowConfig)
    ensures c.width == 800 && c.height == 600 && c.borderWidth == 1
    ensures PlacedByWindowManager(c)
  {
    XWindowConfig(800, 600, 0, 0, 1)
  }

  /** The inner `for` loop of `start_event_loop`: invoke each listener of
      one type on `event`, in registration order, and OR the
      `QUIT_APPLICATION` results into the quit flag. */
  method InvokeListeners(listeners: seq<Listener>, event: Event) returns (results: seq<EventHandlerResult>, closeRequested: bool)
    ensures results == Batch(listeners, event)
    ensures closeRequested == BatchQuits(listeners, event)
  {
    results, closeRequested := [], false;
    for i := 0 to |listeners|
      invariant results == Batch(listeners[..i], event)
      invariant closeRequested == BatchQuits(listeners[..i], event)
    {
      assert listeners[..i + 1][..i] == listeners[..i];
      var result := listeners[i](event);
      results := results + [result];
      match result
      case QUIT_APPLICATION =>
        closeRequested := true;
      case OK =>
    }
    assert listeners[..|listeners|] == listeners;
  }

  class XWindow {
    /** The title passed to `XStoreName`. */
    const title: string
    /** The geometry passed to `XCreateSimpleWindow`. */
    const config: XWindowConfig
    /** `event_listeners_` */
    var eventListeners: ListenerMap

    /** Every entry was created by a registration, so none is empty. */
    ghost predicate Valid()
      reads this
    {
      NoEmptyEntries(eventListeners)
    }

    /** A new window has no listeners. */
    constructor (title: string, config: XWindowConfig)
      ensures Valid()
      ensures this.title == title && this.config == config
      ensures eventListeners == map[]
    {
      this.title := title;
      this.config := config;
      eventListeners := map[];
    }

    /** `register_event_listener`: append `listener` to the list of
        `eventType`, creating an empty list first when the type has none. */
    method RegisterEventListener(eventType: EventType, listener: Listener)
      requires Valid()
      modifies this
      ensures Valid()
      ensures eventListeners == Register(old(eventListeners), eventType, listener)
    {
      var listeners := if eventType in eventListeners then eventListeners[eventType] else [];
      eventListeners := eventListeners[eventType := listeners + [listener]];
    }

    /** `start_event_loop`, reading the events `XNextEvent` would deliver from
        `events`. Returns how many events were consumed, the batch of listener
        results each consumed event produced, and whether quitting was
        requested; `!closeRequested` means the input ran out, where the
        program itself would block in `XNextEvent`. */
    method StartEventLoop(events: seq<Event>) returns (consumed: nat, batches: seq<seq<EventHandlerResult>>, closeRequested: bool)
      requires Valid()
      ensures batches == Run(eventListeners, events)
      ensures consumed == |batches|
      ensures closeRequested <==> FirstQuit(eventListeners, events) < |events|
      ensures consumed == if closeRequested then FirstQuit(eventListeners, events) + 1 else |events|
      ensures forall k :: 0 <= k < consumed ==> (batches[k] == [] <==> events[k].eventType !in eventListeners)
    {
      consumed, batches, closeRequested := 0, [], false;
      while consumed < |events|
        invariant consumed <= |events|
        invariant !closeRequested
        invariant |batches| == consumed
        invariant batches == Run(eventListeners, events[..consumed])
        invariant FirstQuit(eventListeners, events[..consumed]) == consumed
        decreases |events| - consumed
      {
        var event := events[consumed];
        RunPrefixExtends(eventListeners, events, consumed);
        consumed := consumed + 1;

        if event.eventType !in eventListeners {
          batches := batches + [[]];
          continue;
        }

        var results;
        results, closeRequested := InvokeListeners(eventListeners[event.eventType], event);
        batches := batches + [results];

        if closeRequested {
          break;
        }
      }
      if closeRequested {
        RunStopsWithinPrefix(eventListeners, events, consumed);
      } else {
        assert events[..consumed] == events;
      }
      RunSkipsExactlyUnlistened(eventListeners, events);
    }
  }
}
