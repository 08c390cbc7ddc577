/** What `main` wires together: one window, one listener that quits on
    Escape, and the event loop (src/main.cpp:152-166). */
module Launcher {
  import opened KeyCodes
  import opened Events
  import opened EventDispatch
  import opened Xwin

  /** The lambda registered for `KeyPress`: quit on the Escape key code. */
  function EscapeListener(e: Event): (r: EventHandlerResult)
    ensures r == QUIT_APPLICATION <==> e.keycode == 0x09
    ensures e.keycode != 0x09 ==> r == OK
  {
    if Is(e.keycode, ESC) then QUIT_APPLICATION else OK
  }

  /** An event that makes the launcher quit: a key press of Escape. */
  predicate IsEscapePress(e: Event)
  {
    e.eventType == KeyPress && e.keycode == 0x09
  }

  /** The table `main` builds: `EscapeListener` alone, under `KeyPress`. */
  function LauncherTable(): (m: ListenerMap)
    ensures m.Keys == {KeyPress}
    ensures ListenersOf(m, KeyPress) == [EscapeListener]
  {
    Register(map[], KeyPress, EscapeListener)
  }

  /** With that table an event ends the loop exactly when it is an Escape key
      press; every other event, of any type or key code, lets it go on. */
  lemma LauncherQuitsOnlyOnEscape(e: Event)
    ensures EventQuits(LauncherTable(), e) <==> IsEscapePress(e)
  {
    var ls := ListenersOf(LauncherTable(), e.eventType);
    if e.eventType == KeyPress {
      assert ls == [EscapeListener];
      assert ls[..0] == [];
      assert BatchQuits(ls, e) == (EscapeListener(e) == QUIT_APPLICATION);
    }
  }

  /** Over a whole input, the first Escape key press is where the loop stops. */
  lemma {:induction false} FirstQuitIsFirstEscape(events: seq<Event>, n: nat)
    requires n <= |events|
    requires forall k :: 0 <= k < n ==> !IsEscapePress(events[k])
    requires n < |events| ==> IsEscapePress(events[n])
    ensures FirstQuit(LauncherTable(), events) == n
  {
    var q := FirstQuit(LauncherTable(), events);
    if q < n {
      LauncherQuitsOnlyOnEscape(events[q]);
    } else if q > n {
      LauncherQuitsOnlyOnEscape(events[n]);
    }
  }

  /** `main` without the Xlib set-up: create the window with the default
      configuration, register the Escape listener for key presses and run the
      loop over `events`. The loop consumes every event up to and including
      the first Escape key press and then returns; if there is none, it
      consumes the whole input. */
  method Launch(events: seq<Event>) returns (consumed: nat, closeRequested: bool)
    ensures consumed <= |events|
    ensures closeRequested <==> exists j :: 0 <= j < |events| && IsEscapePress(events[j])
    ensures closeRequested ==> 0 < consumed && IsEscapePress(events[consumed - 1])
    ensures forall k :: 0 <= k < consumed - 1 ==> !IsEscapePress(events[k])
    ensures !closeRequested ==> consumed == |events|
  {
    var window := new XWindow("X11 Launcher", DefaultConfig());
    window.RegisterEventListener(KeyPress, EscapeListener);
    var batches;
    consumed, batches, closeRequested := window.StartEventLoop(events);

    forall k | 0 <= k < |events| ensures EventQuits(LauncherTable(), events[k]) <==> IsEscapePress(events[k]) {
      LauncherQuitsOnlyOnEscape(events[k]);
    }
  }
}
