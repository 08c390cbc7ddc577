/** The values that flow through the dispatch table: events, listener results
    and listeners (src/main.cpp:52-60). */
module Events {
  import opened KeyCodes

  /** `EventType`: the X event's integer type tag. */
  type EventType = int

  /** The `KeyPress` tag of the X11 core protocol (value 2 in X.h). */
  const KeyPress: EventType := 2

  /** The two fields of an `XEvent` that the launcher reads: the type tag and,
      for key presses, `xkey.keycode`. */
  datatype Event = Event(eventType: EventType, keycode: u32)

  /** `EventHandlerResult`: what a listener tells the loop. */
  datatype EventHandlerResult = OK | QUIT_APPLICATION

  /** `EventListener`: a callback from an event to a result. */
  type Listener = Event -> EventHandlerResult
}
