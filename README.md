# x11-launcher: the event-listener dispatch of `xwin::XWindow`, in Dafny

The launcher opens one X11 window and runs an event loop. The window object
keeps a table from X event type to an ordered list of listeners.
`register_event_listener` appends a listener to the list of its type.
`start_event_loop` takes events one at a time and invokes, in registration
order, every listener registered for the event's type. It ORs their
`QUIT_APPLICATION` results into `closeRequested`, and it leaves the loop only
after the whole batch has run. `main` registers a single `KeyPress` listener,
which quits when the key code is Escape (`0x09`).

The model has five modules:

- `KeyCodes` (keycodes.dfy): the `u32` key code, `KeyCode::Code` and `KeyCode::is`.
- `Events` (events.dfy): `Event` (type tag and key code), `EventHandlerResult`,
  and `Listener` as a pure function value.
- `EventDispatch` (dispatch.dfy): the table as a `map<EventType, seq<Listener>>`
  and the meaning of registration and of the loop as functions. `Run` gives
  the batch of listener results for each event the loop consumes. `FirstQuit`
  gives the position of the first event whose batch requests quitting. The
  lemmas about them are also here.
- `Xwin` (xwindow.dfy): `XWindowConfig` with its defaults, and the class
  `XWindow`. Its `eventListeners` field is reassigned by
  `RegisterEventListener`. The class invariant `Valid` says that no entry
  of the table is empty, because only registration creates entries.
  `StartEventLoop` relies on it: a consumed event gets an empty batch exactly
  when its type has no entry. `StartEventLoop` holds the source's outer loop.
  `InvokeListeners` holds its inner `for` loop over one type's listeners.
  Both are proved equal to `Run`, `FirstQuit`, `Batch` and `BatchQuits`.
  In the source, `closeRequested` is one flag that lives across events. It is
  always false when a batch starts, because the loop leaves as soon as it is
  set. So `InvokeListeners` starts each batch with a fresh flag.
- `Launcher` (launcher.dfy): the Escape listener and `main` as `Launch`.

The model replaces the blocking `XNextEvent` with a finite input sequence.
`StartEventLoop` returns how many events it consumed, the result batch of
each consumed event, and `closeRequested`. When `closeRequested` is false,
the input ran out at the point where the program would block waiting for the
next event. The value of `KeyPress` (2) is the X11 core protocol's. X.h is
not part of this model.

## Model

| member | source | states |
|---|---|---|
| KeyCodes.Is | src/main.cpp:41-50 | `is(v, ESC)` holds exactly when `v` is `0x09` |
| Launcher.EscapeListener | src/main.cpp:158-162 | the listener returns `QUIT_APPLICATION` if and only if the key code is `0x09`, and `OK` otherwise |
| Xwin.DefaultConfig | src/main.cpp:62-68 | the default configuration is 800 by 600 with a one-pixel border, at (0, 0) so the window manager places it |
| Xwin.XWindow.constructor | src/main.cpp:72-96 | a new window has an empty listener table; its two constant fields record the title sent through `XStoreName` and the geometry sent through `XCreateSimpleWindow` |
| EventDispatch.ListenersOf | src/main.cpp:109 | the list of a type without an entry is empty, as `operator[]` default-constructs it; in a table built by registration a type's list is empty exactly when the type has no entry |
| EventDispatch.Register | src/main.cpp:108-110 | registering appends the listener at the end of its type's list (which is empty if the type had no entry), so the list grows by exactly one; every other type's list stays unchanged; the type gains an entry; no entry ever becomes empty |
| Xwin.XWindow.RegisterEventListener | src/main.cpp:108-110 | the table afterwards is `Register` of the old table, and it still has no empty entry, which `StartEventLoop` relies on |
| EventDispatch.RegisterAllAppends | src/main.cpp:108-110 | registering a sequence of listeners, duplicates included, appends exactly that sequence to the type's list; nothing is removed, reordered or merged, and other types are untouched |
| EventDispatch.Batch | src/main.cpp:125-134 | a batch has exactly one result per listener |
| EventDispatch.BatchQuits | src/main.cpp:126-134 | the quit flag ORed over a list of listeners stays unset when every listener returns `OK` |
| EventDispatch.BatchAt | src/main.cpp:125-134 | the i-th result of a batch is the i-th registered listener's result on the event, so every listener runs exactly once, in registration order |
| EventDispatch.BatchAppend | src/main.cpp:125-134 | running two lists of listeners one after the other gives their two batches in that order |
| Xwin.InvokeListeners | src/main.cpp:125-134 | the `for` loop over one type's listeners produces exactly that list's batch, and the flag it ORs together is the quit flag of that batch |
| EventDispatch.BatchQuitsIffSomeListenerQuits | src/main.cpp:126-134 | the ORed flag is set if and only if some listener in the list returns `QUIT_APPLICATION`, including listeners after the first one that quit |
| EventDispatch.BatchQuitsIffQuitInResults | src/main.cpp:126-134 | the ORed flag is set if and only if the batch of results contains a `QUIT_APPLICATION` |
| EventDispatch.Dispatch | src/main.cpp:119-134 | one event runs as many listeners as its type has, and none when the type has no entry |
| EventDispatch.EventQuits | src/main.cpp:119-138 | an event whose type has no entry never ends the loop |
| EventDispatch.RegisteredListenersRunInOrder | src/main.cpp:125-134 | after registering N listeners for a type, an event of that type first runs the listeners registered earlier and then each of the N once, in registration order |
| EventDispatch.UnlistenedEventIsSkipped | src/main.cpp:119-122 | in a table built by registration, an event's type has no entry exactly when its batch is empty, and such an event cannot request quitting |
| EventDispatch.EventQuitsIffSomeListenerQuits | src/main.cpp:126-134 | a batch requests quitting if and only if some listener in it returns `QUIT_APPLICATION`; `OK` never sets the flag |
| EventDispatch.Run | src/main.cpp:115-139 | the loop never consumes more events than the input holds; where it stops and what each consumed event runs are stated by `RunStopsAfterFirstQuit`, `RunDispatchesEachConsumedEvent` and `RunCharacterized` |
| EventDispatch.FirstQuit | src/main.cpp:115-139 | no event before the returned position requests quitting, and the event at that position does unless the position is the end of the input |
| EventDispatch.FirstQuitIsUnique | src/main.cpp:115-139 | any position before which no event requests quitting, and at which one does unless it is the end of the input, is the first quitting position |
| EventDispatch.FirstQuitFindsAnyQuit | src/main.cpp:136-138 | the first quitting position lies inside the input if and only if some event in it requests quitting |
| EventDispatch.RunStopsAfterFirstQuit | src/main.cpp:115-139 | the loop consumes the events up to and including the first one that requests quitting, or all of them when none does |
| EventDispatch.RunDispatchesEachConsumedEvent | src/main.cpp:115-134 | the k-th consumed event is the k-th input event, and its full batch is run |
| EventDispatch.RunCharacterized | src/main.cpp:115-139 | any sequence of batches that dispatches the events in order, up to and including the first quitting one (or all of them), is the loop's run |
| EventDispatch.RunExtends | src/main.cpp:115-139 | while no event has requested quitting, one more event appends its full batch to the run, and the loop stops there exactly when that event quits |
| EventDispatch.RunIgnoresRest | src/main.cpp:136-138 | once an event has requested quitting, no later input is read and the first quitting position does not move |
| EventDispatch.RunSkipsExactlyUnlistened | src/main.cpp:119-122 | in a table built by registration, a consumed event gets an empty batch exactly when its type has no entry |
| EventDispatch.UnlistenedPrefixIsSkipped | src/main.cpp:119-122 | events whose type has no entry are consumed with empty batches, and the loop then continues exactly as it would have without them |
| Xwin.XWindow.StartEventLoop | src/main.cpp:112-140 | the loop produces exactly the batches of `Run`, one per consumed event; `closeRequested` holds exactly when the first quitting position lies inside the input; the loop consumes through that event, or the whole input when there is none; a consumed event has an empty batch exactly when its type has no entry |
| Launcher.LauncherTable | src/main.cpp:158-162 | the table `main` builds has one entry, `KeyPress`, whose list is the Escape listener alone |
| Launcher.LauncherQuitsOnlyOnEscape | src/main.cpp:158-162 | with the table `main` builds, an event requests quitting if and only if it is a `KeyPress` with key code `0x09` |
| Launcher.FirstQuitIsFirstEscape | src/main.cpp:156-164 | with that table, the loop stops at the first Escape key press of the input |
| Launcher.Launch | src/main.cpp:152-166 | running `main` over an input quits if and only if the input holds an Escape key press; it consumes events through the first one and no further; with no Escape it consumes the whole input; no other event ends the loop |

## Left out

- The Xlib session in the `XWindow` constructor (src/main.cpp:72-96) is not modelled: `XOpenDisplay`, `assert(display_)`, `XCreateSimpleWindow`, `XStoreName`, the `_NET_WM_WINDOW_TYPE` splash hint of the Extended Window Manager Hints set through `XChangeProperty`, `XSelectInput` and `XMapWindow`. These are foreign calls. The model keeps the title and the configuration as the values those calls receive, and the empty listener table.
- The destructor's `XCloseDisplay` and the `handle()`/`window()` accessors are not modelled. They are foreign calls or expose foreign handles.
- The error handlers `xlib_error_handler` and `xlib_io_error_handler`, `die`, and their installation in `main` (src/main.cpp:16-19, 23-39, 153-154) are not modelled. They are called by Xlib, not by the modelled code. The protocol-error handler only prints the error fields to stderr and returns 0, so the session goes on. The I/O-error handler calls `die`, which prints a message and exits with status 1.
- Xwin.XWindow.StartEventLoop: blocking in `XNextEvent` is modelled as reading the next element of a finite input. A run that has not quit when the input is exhausted stands for the program waiting forever.
- The `XEvent` union is reduced to its type tag and `xkey.keycode`.
- Listeners are pure function values, because the only listener the program registers is pure. Side effects of other possible callbacks are outside the model.
- The process exit code of `main` is not modelled.
