/** The dispatch table `EventListenerMap` and the meaning of the event loop,
    as functions on values. The class `Xwin.XWindow` is proved against these. */
module EventDispatch {
  import opened Events

  /** `EventListenerMap`: event type to the listeners registered for it, in
      registration order. */
  type ListenerMap = map<EventType, seq<Listener>>

  /** The list `event_listeners_[t]` denotes: empty when `t` has no entry, as
      `operator[]` default-constructs a missing vector. */
  function ListenersOf(m: ListenerMap, t: EventType): (ls: seq<Listener>)
    ensures t !in m ==> ls == []
    ensures NoEmptyEntries(m) ==> (ls == [] <==> t !in m)
  {
    if t in m then m[t] else []
  }

  /** Only registration creates entries, and it never creates an empty one. */
  ghost predicate NoEmptyEntries(m: ListenerMap)
  {
    forall t :: t in m ==> m[t] != []
  }

  /** `register_event_listener(t, l)`: append `l` to the list for `t`. */
  function Register(m: ListenerMap, t: EventType, l: Listener): (r: ListenerMap)
    ensures ListenersOf(r, t) == ListenersOf(m, t) + [l]
    ensures |ListenersOf(r, t)| == |ListenersOf(m, t)| + 1
    ensures forall u :: u != t ==> ListenersOf(r, u) == ListenersOf(m, u)
    ensures r.Keys == m.Keys + {t}
    ensures NoEmptyEntries(m) ==> NoEmptyEntries(r)
  {
    m[t := ListenersOf(m, t) + [l]]
  }

  /** Registering the listeners `ls` for `t`, one after the other. */
  function RegisterAll(m: ListenerMap, t: EventType, ls: seq<Listener>): (r: ListenerMap)
    decreases |ls|
  {
    if ls == [] then m else RegisterAll(Register(m, t, ls[0]), t, ls[1..])
  }

  /** Registrations accumulate: nothing is dropped, reordered or merged, so the
      same listener registered twice is invoked twice. */
  lemma {:induction false} RegisterAllAppends(m: ListenerMap, t: EventType, ls: seq<Listener>)
    ensures ListenersOf(RegisterAll(m, t, ls), t) == ListenersOf(m, t) + ls
    ensures forall u :: u != t ==> ListenersOf(RegisterAll(m, t, ls), u) == ListenersOf(m, u)
    decreases |ls|
  {
    if ls != [] {
      var m' := Register(m, t, ls[0]);
      RegisterAllAppends(m', t, ls[1..]);
      assert ListenersOf(m, t) + [ls[0]] + ls[1..] == ListenersOf(m, t) + ls;
    }
  }

  /** The results of invoking the listeners `ls` on `e`, once each, in
      registration order: the inner `for` loop of `start_event_loop`. */
  function Batch(ls: seq<Listener>, e: Event): (rs: seq<EventHandlerResult>)
    ensures |rs| == |ls|
    decreases |ls|
  {
    if ls == [] then [] else Batch(ls[..|ls| - 1], e) + [ls[|ls| - 1](e)]
  }

  /** The i-th result of a batch is the i-th listener's result on the event. */
  lemma {:induction false} BatchAt(ls: seq<Listener>, e: Event, i: nat)
    requires i < |ls|
    ensures Batch(ls, e)[i] == ls[i](e)
    decreases |ls|
  {
    var init := ls[..|ls| - 1];
    if i < |init| {
      BatchAt(init, e, i);
      assert init[i] == ls[i];
    }
  }

  /** Running two lists of listeners one after the other gives the two
      batches one after the other. */
  lemma {:induction false} BatchAppend(a: seq<Listener>, b: seq<Listener>, e: Event)
    ensures Batch(a + b, e) == Batch(a, e) + Batch(b, e)
    decreases |b|
  {
    if b == [] {
      assert a + b == a;
    } else {
      var init := b[..|b| - 1];
      var last := b[|b| - 1](e);
      BatchAppend(a, init, e);
      var ab := a + b;
      forall i | 0 <= i < |a + init| ensures ab[..|ab| - 1][i] == (a + init)[i] {
        if i >= |a| {
          assert ab[i] == b[i - |a|] == init[i - |a|];
        }
      }
      assert ab[..|ab| - 1] == a + init;
      assert ab[|ab| - 1] == b[|b| - 1];
      calc {
        Batch(a + b, e);
        Batch(a + init, e) + [last];
        (Batch(a, e) + Batch(init, e)) + [last];
        Batch(a, e) + (Batch(init, e) + [last]);
        Batch(a, e) + Batch(b, e);
      }
    }
  }

  /** The batch one event triggers; empty when its type has no entry. */
  function Dispatch(m: ListenerMap, e: Event): (rs: seq<EventHandlerResult>)
    ensures |rs| == |ListenersOf(m, e.eventType)|
    ensures e.eventType !in m ==> rs == []
  {
    Batch(ListenersOf(m, e.eventType), e)
  }

  /** The quit flag after invoking the listeners `ls` on `e` one by one:
      the OR, in order, of "this result is `QUIT_APPLICATION`". */
  predicate BatchQuits(ls: seq<Listener>, e: Event)
    ensures (forall i :: 0 <= i < |ls| ==> ls[i](e) == OK) ==> !BatchQuits(ls, e)
    decreases |ls|
  {
    ls != [] && (BatchQuits(ls[..|ls| - 1], e) || ls[|ls| - 1](e) == QUIT_APPLICATION)
  }

  /** Does the batch of `e` request that the loop end? */
  predicate EventQuits(m: ListenerMap, e: Event)
    ensures EventQuits(m, e) ==> e.eventType in m
  {
    BatchQuits(ListenersOf(m, e.eventType), e)
  }

  /** The flag is set exactly when some listener returns `QUIT_APPLICATION`;
      listeners returning `OK` never set it. */
  lemma {:induction false} BatchQuitsIffSomeListenerQuits(ls: seq<Listener>, e: Event)
    ensures BatchQuits(ls, e) <==> exists i :: 0 <= i < |ls| && ls[i](e) == QUIT_APPLICATION
    decreases |ls|
  {
    if ls != [] {
      var init := ls[..|ls| - 1];
      BatchQuitsIffSomeListenerQuits(init, e);
      if exists i :: 0 <= i < |ls| && ls[i](e) == QUIT_APPLICATION {
        var i :| 0 <= i < |ls| && ls[i](e) == QUIT_APPLICATION;
        if i < |init| {
          assert init[i] == ls[i];
        }
      }
      if BatchQuits(init, e) {
        var i :| 0 <= i < |init| && init[i](e) == QUIT_APPLICATION;
        assert ls[i] == init[i];
      }
    }
  }

  /** The flag is set exactly when the batch of results holds a
      `QUIT_APPLICATION`. */
  lemma BatchQuitsIffQuitInResults(ls: seq<Listener>, e: Event)
    ensures BatchQuits(ls, e) <==> QUIT_APPLICATION in Batch(ls, e)
  {
    BatchQuitsIffSomeListenerQuits(ls, e);
    var rs := Batch(ls, e);
    if QUIT_APPLICATION in rs {
      var i :| 0 <= i < |rs| && rs[i] == QUIT_APPLICATION;
      BatchAt(ls, e, i);
    }
    if BatchQuits(ls, e) {
      var i :| 0 <= i < |ls| && ls[i](e) == QUIT_APPLICATION;
      BatchAt(ls, e, i);
      assert rs[i] == QUIT_APPLICATION;
    }
  }

  /** Registering `ls` for `t` and then delivering one event of type `t` runs
      the listeners registered before, then every listener of `ls` exactly
      once, in registration order. */
  lemma RegisteredListenersRunInOrder(m: ListenerMap, t: EventType, ls: seq<Listener>, e: Event)
    requires e.eventType == t
    ensures Dispatch(RegisterAll(m, t, ls), e) == Dispatch(m, e) + Batch(ls, e)
    ensures forall i :: 0 <= i < |ls| ==> Dispatch(RegisterAll(m, t, ls), e)[|Dispatch(m, e)| + i] == ls[i](e)
  {
    var before := ListenersOf(m, t);
    var after := ListenersOf(RegisterAll(m, t, ls), t);
    RegisterAllAppends(m, t, ls);
    BatchAppend(before, ls, e);
    var rs := Batch(after, e);
    assert rs == Batch(before, e) + Batch(ls, e);
    forall i | 0 <= i < |ls| ensures rs[|Batch(before, e)| + i] == ls[i](e) {
      BatchAt(ls, e, i);
    }
  }

  /** An event whose type has no entry invokes nothing and cannot end the loop;
      in a table built by registration that is exactly when its batch is empty. */
  lemma UnlistenedEventIsSkipped(m: ListenerMap, e: Event)
    requires NoEmptyEntries(m)
    ensures e.eventType !in m <==> Dispatch(m, e) == []
    ensures e.eventType !in m ==> !EventQuits(m, e)
  {
    if e.eventType in m {
      assert |Dispatch(m, e)| == |m[e.eventType]| > 0;
    }
  }

  /** A batch quits exactly when one of its listeners returns
      `QUIT_APPLICATION`; listeners returning `OK` never end the loop. */
  lemma EventQuitsIffSomeListenerQuits(m: ListenerMap, e: Event)
    ensures EventQuits(m, e) <==>
      exists i :: 0 <= i < |ListenersOf(m, e.eventType)| && ListenersOf(m, e.eventType)[i](e) == QUIT_APPLICATION
  {
    BatchQuitsIffSomeListenerQuits(ListenersOf(m, e.eventType), e);
  }

  /** The batches of the events the loop consumes from `events`: every event
      is dispatched in turn, and the loop stops after the first batch that
      requests quitting. */
  function Run(m: ListenerMap, events: seq<Event>): (bs: seq<seq<EventHandlerResult>>)
    ensures |bs| <= |events|
    decreases |events|
  {
    if events == [] then []
    else if EventQuits(m, events[0]) then [Dispatch(m, events[0])]
    else [Dispatch(m, events[0])] + Run(m, events[1..])
  }

  /** The position of the first event whose batch requests quitting, or
      `|events|` when there is none. */
  function FirstQuit(m: ListenerMap, events: seq<Event>): (n: nat)
    ensures n <= |events|
    ensures forall k :: 0 <= k < n ==> !EventQuits(m, events[k])
    ensures n < |events| ==> EventQuits(m, events[n])
    decreases |events|
  {
    if events == [] || EventQuits(m, events[0]) then 0 else 1 + FirstQuit(m, events[1..])
  }

  /** `FirstQuit` is determined by its contract: a position before which no
      event quits and at which one does, unless it is the end. */
  lemma FirstQuitIsUnique(m: ListenerMap, events: seq<Event>, n: nat)
    requires n <= |events|
    requires forall k :: 0 <= k < n ==> !EventQuits(m, events[k])
    requires n < |events| ==> EventQuits(m, events[n])
    ensures FirstQuit(m, events) == n
  {
  }

  /** Quitting is requested somewhere in `events` exactly when `FirstQuit`
      finds a position inside it. */
  lemma FirstQuitFindsAnyQuit(m: ListenerMap, events: seq<Event>)
    ensures FirstQuit(m, events) < |events| <==> exists j :: 0 <= j < |events| && EventQuits(m, events[j])
  {
  }

  /** The loop consumes exactly the events up to and including the first one
      whose batch requests quitting, and all of them when none does. */
  lemma {:induction false} RunStopsAfterFirstQuit(m: ListenerMap, events: seq<Event>)
    ensures |Run(m, events)| == if FirstQuit(m, events) < |events| then FirstQuit(m, events) + 1 else |events|
    decreases |events|
  {
    if events != [] && !EventQuits(m, events[0]) {
      RunStopsAfterFirstQuit(m, events[1..]);
    }
  }

  /** Every consumed event has its whole batch run, in input order. */
  lemma {:induction false} RunDispatchesEachConsumedEvent(m: ListenerMap, events: seq<Event>, k: nat)
    requires k < |Run(m, events)|
    ensures k < |events| && Run(m, events)[k] == Dispatch(m, events[k])
    decreases |events|
  {
    if k > 0 {
      RunDispatchesEachConsumedEvent(m, events[1..], k - 1);
    }
  }

  /** `Run` is determined by its two properties above: the batches of the
      events up to and including the first quitting one, each dispatched in
      input order. */
  lemma RunCharacterized(m: ListenerMap, events: seq<Event>, batches: seq<seq<EventHandlerResult>>)
    requires |batches| == if FirstQuit(m, events) < |events| then FirstQuit(m, events) + 1 else |events|
    requires forall k :: 0 <= k < |batches| ==> batches[k] == Dispatch(m, events[k])
    ensures batches == Run(m, events)
  {
    RunStopsAfterFirstQuit(m, events);
    forall k | 0 <= k < |batches| ensures Run(m, events)[k] == batches[k] {
      RunDispatchesEachConsumedEvent(m, events, k);
    }
  }

  /** One more turn of the loop: when no event of `xs` quits, delivering `e`
      next appends its batch, and `e` is the first quitting event exactly when
      it quits. */
  lemma {:induction false} RunExtends(m: ListenerMap, xs: seq<Event>, e: Event)
    requires FirstQuit(m, xs) == |xs|
    ensures Run(m, xs + [e]) == Run(m, xs) + [Dispatch(m, e)]
    ensures FirstQuit(m, xs + [e]) == if EventQuits(m, e) then |xs| else |xs| + 1
    decreases |xs|
  {
    if xs == [] {
      assert xs + [e] == [e];
    } else {
      assert (xs + [e])[0] == xs[0];
      assert (xs + [e])[1..] == xs[1..] + [e];
      RunExtends(m, xs[1..], e);
    }
  }

  /** Once the loop has stopped within `xs`, whatever input follows is never
      read. */
  lemma {:induction false} RunIgnoresRest(m: ListenerMap, xs: seq<Event>, ys: seq<Event>)
    requires FirstQuit(m, xs) < |xs|
    ensures Run(m, xs + ys) == Run(m, xs)
    ensures FirstQuit(m, xs + ys) == FirstQuit(m, xs)
    decreases |xs|
  {
    assert (xs + ys)[0] == xs[0];
    if !EventQuits(m, xs[0]) {
      assert (xs + ys)[1..] == xs[1..] + ys;
      RunIgnoresRest(m, xs[1..], ys);
    }
  }

  /** `RunExtends` for the first `n` events of an input, as the loop reads them. */
  lemma RunPrefixExtends(m: ListenerMap, events: seq<Event>, n: nat)
    requires n < |events|
    requires FirstQuit(m, events[..n]) == n
    ensures Run(m, events[..n + 1]) == Run(m, events[..n]) + [Dispatch(m, events[n])]
    ensures FirstQuit(m, events[..n + 1]) == if EventQuits(m, events[n]) then n else n + 1
  {
    assert events[..n + 1] == events[..n] + [events[n]];
    RunExtends(m, events[..n], events[n]);
  }

  /** `RunIgnoresRest` for an input the loop has stopped in after `n` events. */
  lemma RunStopsWithinPrefix(m: ListenerMap, events: seq<Event>, n: nat)
    requires n <= |events|
    requires FirstQuit(m, events[..n]) < n
    ensures Run(m, events) == Run(m, events[..n])
    ensures FirstQuit(m, events) == FirstQuit(m, events[..n])
  {
    assert events[..n] + events[n..] == events;
    RunIgnoresRest(m, events[..n], events[n..]);
  }

  /** In a table built by registration, a consumed event gets an empty batch
      exactly when its type has no entry. */
  lemma RunSkipsExactlyUnlistened(m: ListenerMap, events: seq<Event>)
    requires NoEmptyEntries(m)
    ensures forall k :: 0 <= k < |Run(m, events)| ==> (Run(m, events)[k] == [] <==> events[k].eventType !in m)
  {
    forall k | 0 <= k < |Run(m, events)| ensures Run(m, events)[k] == [] <==> events[k].eventType !in m {
      RunDispatchesEachConsumedEvent(m, events, k);
      UnlistenedEventIsSkipped(m, events[k]);
    }
  }

  /** A stretch of events nobody listens to is consumed with empty batches and
      does not change where the loop stops afterwards. */
  lemma {:induction false} UnlistenedPrefixIsSkipped(m: ListenerMap, skipped: seq<Event>, rest: seq<Event>)
    requires forall j :: 0 <= j < |skipped| ==> skipped[j].eventType !in m
    ensures |Run(m, skipped + rest)| == |skipped| + |Run(m, rest)|
    ensures forall k :: 0 <= k < |skipped| ==> Run(m, skipped + rest)[k] == []
    ensures Run(m, skipped + rest)[|skipped|..] == Run(m, rest)
    decreases |skipped|
  {
    if skipped != [] {
      var e := skipped[0];
      assert !EventQuits(m, e) && Dispatch(m, e) == [];
      assert (skipped + rest)[0] == e;
      assert (skipped + rest)[1..] == skipped[1..] + rest;
      UnlistenedPrefixIsSkipped(m, skipped[1..], rest);
      var r := Run(m, skipped + rest);
      assert r == [[]] + Run(m, skipped[1..] + rest);
      assert r[|skipped|..] == Run(m, skipped[1..] + rest)[|skipped| - 1..];
    } else {
      assert skipped + rest == rest;
    }
  }
}
