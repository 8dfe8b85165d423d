/** The useCookieState hook of src/library/useCookieState.ts as an explicit state
    machine. React's state cell, effect and callbacks become steps on a record
    holding the watched name, the observed value, the cookie jar and the
    registered subscription. Each step is one thing that can happen to a mounted
    hook: the initial read resolving, a change event, a polling tick, a call of the
    update or delete function, a write by someone else, a re-render with new
    arguments, or unmounting. */
module UseCookieState {
  import opened Wrappers
  import CookieStore
  import opened CookieChange

  datatype Hook = Hook(
    name: string,                        // the `name` argument of the latest render
    polyfillPollRateMs: Option<int>,     // the option of the latest render
    observed: Option<string>,            // the state value the hook returns
    store: CookieStore.Store,            // the page's cookie jar
    subscription: Subscription)          // what the effect has registered

  /** A step that may assign the state but leaves the name, the option, the jar and the subscription. */
  predicate OnlyObservedChanges(h: Hook, h': Hook)
  {
    h'.name == h.name && h'.polyfillPollRateMs == h.polyfillPollRateMs
    && h'.store == h.store && h'.subscription == h.subscription
  }

  /** Applies `setValue` to each callback argument in turn. */
  function ApplyCallbacks(observed: Option<string>, calls: seq<Option<string>>): (r: Option<string>)
    ensures |calls| == 0 ==> r == observed
    ensures |calls| > 0 ==> r == calls[|calls| - 1]
    decreases calls
  {
    if |calls| == 0 then observed else ApplyCallbacks(calls[0], calls[1..])
  }

  /** First render and its effect (lines 117, 119-134): the state starts at the
      default value, and the effect subscribes for `name`. The initial read is
      only started here; it lands later as `ResolveInitialRead`. */
  function Mount(native: bool, name: string, defaultValue: Option<string>,
                 polyfillPollRateMs: Option<int>, store: CookieStore.Store): (h: Hook)
    ensures h.observed == defaultValue
    ensures h.name == name && h.polyfillPollRateMs == polyfillPollRateMs && h.store == store
    ensures h.subscription == ListenForCookieChange(native, name, PollPeriod(polyfillPollRateMs))
  {
    Hook(name, polyfillPollRateMs, defaultValue,
         store, ListenForCookieChange(native, name, PollPeriod(polyfillPollRateMs)))
  }

  /** The `.then` of the initial read (lines 121-123). The read was started by an
      effect for `readName` and saw the jar `seen`, the jar as it was when the read
      ran. Its result becomes the state, with no check that the hook still watches
      `readName`. */
  function ResolveInitialRead(h: Hook, readNative: bool, readName: string, seen: CookieStore.Store): (h': Hook)
    ensures h'.observed.Some? <==> readName in seen
    ensures h'.observed.Some? ==> h'.observed.value == seen[readName]
    ensures OnlyObservedChanges(h, h')
  {
    h.(observed := CookieStore.GetCookie(readNative, seen, readName))
  }

  /** updateCookie (lines 138-143): writes the jar and leaves the state alone;
      the new value reaches the state only through a notification. */
  function UpdateCookie(h: Hook, newValue: string): (h': Hook)
    ensures h'.store == CookieStore.SetCookie(h.store, h.name, newValue)
    ensures h'.observed == h.observed && h'.subscription == h.subscription
    ensures h'.name == h.name && h'.polyfillPollRateMs == h.polyfillPollRateMs
  {
    h.(store := CookieStore.SetCookie(h.store, h.name, newValue))
  }

  /** _deleteCookie (lines 145-147): removes the cookie from the jar and leaves the state alone. */
  function DeleteCookie(h: Hook): (h': Hook)
    ensures h'.store == CookieStore.DeleteCookie(h.store, h.name)
    ensures h'.observed == h.observed && h'.subscription == h.subscription
    ensures h'.name == h.name && h'.polyfillPollRateMs == h.polyfillPollRateMs
  {
    h.(store := CookieStore.DeleteCookie(h.store, h.name))
  }

  /** Another tab, the server or other code replaces the jar. */
  function ExternalWrite(h: Hook, store: CookieStore.Store): (h': Hook)
    ensures h'.store == store
    ensures h'.observed == h.observed && h'.subscription == h.subscription
    ensures h'.name == h.name && h'.polyfillPollRateMs == h.polyfillPollRateMs
  {
    h.(store := store)
  }

  /** A native change event reaches the registered listener (lines 127-131). */
  function ReceiveEvent(h: Hook, event: ChangeEvent): (h': Hook)
    ensures OnlyObservedChanges(h, h')
    ensures !h.subscription.ChangeListener? ==> h'.observed == h.observed
    ensures h.subscription.ChangeListener? ==>
              var calls := OnCookieChange(event, h.subscription.name);
              && (calls == [] ==> h'.observed == h.observed)
              && (calls != [] ==> h'.observed == calls[0])
  {
    h.(observed := ApplyCallbacks(h.observed, HearEvent(h.subscription, event)))
  }

  /** The polling interval elapses once (lines 127-131 with 63-70). */
  function ReceiveTick(h: Hook): (h': Hook)
    ensures OnlyObservedChanges(h, h')
    ensures !h.subscription.PollingInterval? ==> h'.observed == h.observed
    ensures h.subscription.PollingInterval? ==>
              h'.observed == if h.subscription.name in h.store && h.store[h.subscription.name] != ""
                             then Some(h.store[h.subscription.name]) else None
  {
    h.(observed := ApplyCallbacks(h.observed, HearTick(h.subscription, h.store)))
  }

  /** A later render (line 134): when the name or the poll rate differ, the effect's
      clean-up releases the old subscription and a new one is made for the new
      arguments; the state is not reset to the default. With the same arguments the
      effect does not run again. */
  function Rerender(h: Hook, native: bool, name: string, polyfillPollRateMs: Option<int>): (h': Hook)
    ensures h'.observed == h.observed && h'.store == h.store
    ensures h'.name == name && h'.polyfillPollRateMs == polyfillPollRateMs
    ensures name == h.name && polyfillPollRateMs == h.polyfillPollRateMs ==> h'.subscription == h.subscription
    ensures name != h.name || polyfillPollRateMs != h.polyfillPollRateMs ==>
              h'.subscription == ListenForCookieChange(native, name, PollPeriod(polyfillPollRateMs))
  {
    if name == h.name && polyfillPollRateMs == h.polyfillPollRateMs then h
    else h.(name := name, polyfillPollRateMs := polyfillPollRateMs,
            subscription := ListenForCookieChange(native, name, PollPeriod(polyfillPollRateMs)))
  }

  /** Unmounting runs the effect's clean-up: the listener is removed or the interval cleared. */
  function Unmount(h: Hook): (h': Hook)
    ensures h'.subscription.Released?
    ensures h'.observed == h.observed && h'.store == h.store
    ensures h'.name == h.name && h'.polyfillPollRateMs == h.polyfillPollRateMs
  {
    h.(subscription := Released)
  }

  datatype Step =
    | ReadResolved(readNative: bool, readName: string, seen: CookieStore.Store)
    | Event(event: ChangeEvent)
    | Tick
    | Update(newValue: string)
    | Delete
    | External(store: CookieStore.Store)
    | Render(renderNative: bool, name: string, polyfillPollRateMs: Option<int>)
    | Unmounted

  /** The steps that may assign the observed value: the initial read and the listener callback. */
  predicate AssignsState(s: Step)
  {
    s.ReadResolved? || s.Event? || s.Tick?
  }

  /** The subscription, while there is one, is for the name the hook was last rendered with. */
  predicate WatchesOwnName(h: Hook)
  {
    h.subscription.Released? || h.subscription.name == h.name
  }

  function Next(h: Hook, s: Step): (h': Hook)
    ensures !AssignsState(s) ==> h'.observed == h.observed
    ensures WatchesOwnName(h) ==> WatchesOwnName(h')
  {
    match s
    case ReadResolved(native, name, seen) => ResolveInitialRead(h, native, name, seen)
    case Event(event) => ReceiveEvent(h, event)
    case Tick => ReceiveTick(h)
    case Update(v) => UpdateCookie(h, v)
    case Delete => DeleteCookie(h)
    case External(store) => ExternalWrite(h, store)
    case Render(native, name, rate) => Rerender(h, native, name, rate)
    case Unmounted => Unmount(h)
  }

  function Run(h: Hook, steps: seq<Step>): Hook
    decreases steps
  {
    if |steps| == 0 then h else Next(Run(h, steps[..|steps| - 1]), steps[|steps| - 1])
  }

  /** No step of `steps` is a render or an unmount. */
  predicate KeepsSubscription(steps: seq<Step>)
    decreases |steps|
  {
    |steps| == 0 || (!steps[|steps| - 1].Render? && !steps[|steps| - 1].Unmounted? && KeepsSubscription(steps[..|steps| - 1]))
  }

  /** The event the native store emits for a write of one cookie. */
  function WriteEvent(name: string, value: string): ChangeEvent
  {
    ChangeEvent([CookieStore.Cookie(name, value)], [])
  }

  /** The event the native store emits for the removal of one cookie that exists.
      Removing a cookie that does not exist changes nothing and emits no event. */
  function RemovalEvent(name: string): ChangeEvent
  {
    ChangeEvent([], [CookieStore.Cookie(name, "")])
  }

  // ---------------------------------------------------------------------------
  // Properties

  /** When the poll rate option is omitted, the fallback polls every 1000 ms; a
      supplied rate is used as it is, zero and negative ones included. */
  lemma PollRateOption(name: string, defaultValue: Option<string>, store: CookieStore.Store, rate: int)
    ensures Mount(false, name, defaultValue, None, store).subscription == PollingInterval(name, 1000)
    ensures Mount(false, name, defaultValue, Some(rate), store).subscription == PollingInterval(name, rate)
  {
  }

  /** The watched name's update, notified through the native listener, shows the new value. */
  lemma UpdateThenEvent(h: Hook, reader: bool, v: string)
    requires h.subscription == ChangeListener(h.name)
    ensures var h' := ReceiveEvent(UpdateCookie(h, v), WriteEvent(h.name, v));
            h'.observed == Some(v) && CookieStore.GetCookie(reader, h'.store, h.name) == Some(v)
  {
    assert IsFirstNamed(WriteEvent(h.name, v).changed, h.name, 0);
  }

  /** The watched name's update, seen by the next polling tick, shows the new value,
      unless the value is empty, which the tick reports as null. */
  lemma UpdateThenTick(h: Hook, reader: bool, v: string)
    requires h.subscription.PollingInterval? && h.subscription.name == h.name
    ensures var h' := ReceiveTick(UpdateCookie(h, v));
            && (v != "" ==> h'.observed == Some(v))
            && (v == "" ==> h'.observed == None)
            && CookieStore.GetCookie(reader, h'.store, h.name) == Some(v)
  {
  }

  /** After a delete, the state becomes null (not the default) once the deletion is
      noticed: at the next tick on the fallback, and through the removal event on the
      native store when the cookie existed. Deleting a cookie that does not exist
      emits no event, so on the native store the state keeps its value, which is
      still the default when the initial read has not landed. */
  lemma DeleteThenNotify(h: Hook, reader: bool)
    requires !h.subscription.Released? && h.subscription.name == h.name
    ensures CookieStore.GetCookie(reader, DeleteCookie(h).store, h.name) == None
    ensures h.subscription.PollingInterval? ==> ReceiveTick(DeleteCookie(h)).observed == None
    ensures h.subscription.ChangeListener? && h.name in h.store ==>
              ReceiveEvent(DeleteCookie(h), RemovalEvent(h.name)).observed == None
    ensures h.subscription.ChangeListener? && h.name !in h.store ==>
              DeleteCookie(h).store == h.store && DeleteCookie(h).observed == h.observed
  {
    if h.subscription.ChangeListener? {
      assert IsFirstNamed(RemovalEvent(h.name).deleted, h.name, 0);
    }
  }

  /** A change event about other cookies leaves the state alone. */
  lemma OtherCookieEventIgnored(h: Hook, other: string, v: string)
    requires h.subscription == ChangeListener(h.name) && other != h.name
    ensures ReceiveEvent(h, WriteEvent(other, v)).observed == h.observed
    ensures ReceiveEvent(h, RemovalEvent(other)).observed == h.observed
  {
  }

  /** A name change keeps the old observed value and does not guard the initial read:
      a read of the previous name that lands after a notification for the new name
      overwrites it with the previous name's cookie, while the hook goes on
      listening for the new name. */
  lemma StaleReadOverwrites(h: Hook, name2: string, v2: string, readNative: bool, seen: CookieStore.Store)
    requires h.subscription == ChangeListener(h.name) && name2 != h.name
    ensures var h1 := Rerender(h, true, name2, h.polyfillPollRateMs);
            var h2 := ReceiveEvent(h1, WriteEvent(name2, v2));
            var h3 := Next(h2, ReadResolved(readNative, h.name, seen));
            && h1.observed == h.observed
            && h1.subscription == ChangeListener(name2)
            && h2.observed == Some(v2)
            && h3.subscription == ChangeListener(name2) && h3.name == name2
            && h3.observed == CookieStore.GetCookie(readNative, seen, h.name)
            && (h.name in seen ==> h3.observed == Some(seen[h.name]))
  {
    assert IsFirstNamed(WriteEvent(name2, v2).changed, name2, 0);
  }

  /** Single source of truth: over any run, the observed value can change only by
      the initial read, a change event or a polling tick. Updates, deletes, outside
      writes, re-renders and unmounting never touch it. */
  lemma {:induction false} ObservedOnlyFromNotifications(h: Hook, steps: seq<Step>)
    requires forall i :: 0 <= i < |steps| ==> !AssignsState(steps[i])
    ensures Run(h, steps).observed == h.observed
    decreases steps
  {
    if |steps| != 0 {
      ObservedOnlyFromNotifications(h, steps[..|steps| - 1]);
    }
  }

  /** After unmounting, no event or tick changes the observed value; only a late
      initial read (or a new render, which an unmounted component never gets) could. */
  lemma {:induction false} UnmountedIsDeaf(h: Hook, steps: seq<Step>)
    requires h.subscription.Released?
    requires forall i :: 0 <= i < |steps| ==> !steps[i].ReadResolved? && !steps[i].Render?
    ensures Run(h, steps).observed == h.observed
    ensures Run(h, steps).subscription.Released?
    decreases steps
  {
    if |steps| != 0 {
      UnmountedIsDeaf(h, steps[..|steps| - 1]);
    }
  }

  /** Steps that are neither renders nor unmounting keep the subscription and the name. */
  lemma {:induction false} SubscriptionKept(h: Hook, steps: seq<Step>)
    requires KeepsSubscription(steps)
    ensures Run(h, steps).subscription == h.subscription
    ensures Run(h, steps).name == h.name
    decreases steps
  {
    if |steps| != 0 {
      SubscriptionKept(h, steps[..|steps| - 1]);
    }
  }

  /** Convergence of the fallback: whatever happened to the jar meanwhile, the next
      tick makes the state what the tick reads from the jar as it is now: its value,
      or null when absent or empty. */
  lemma PollingConverges(h: Hook, steps: seq<Step>)
    requires h.subscription.PollingInterval? && h.subscription.name == h.name
    requires KeepsSubscription(steps)
    ensures ReceiveTick(Run(h, steps)).observed == PollTick(Run(h, steps).store, h.name)[0]
  {
    SubscriptionKept(h, steps);
  }

  /** Convergence of the native backend: whatever happened meanwhile, the event for a
      write of the watched cookie makes the state that value. */
  lemma EventConverges(h: Hook, steps: seq<Step>, v: string)
    requires h.subscription == ChangeListener(h.name)
    requires KeepsSubscription(steps)
    ensures ReceiveEvent(Run(h, steps), WriteEvent(h.name, v)).observed == Some(v)
  {
    SubscriptionKept(h, steps);
    assert IsFirstNamed(WriteEvent(h.name, v).changed, h.name, 0);
  }

  /** Every step keeps the subscription on the hook's own name. */
  lemma {:induction false} StepsKeepWatch(h: Hook, steps: seq<Step>)
    requires WatchesOwnName(h)
    ensures WatchesOwnName(Run(h, steps))
    decreases steps
  {
    if |steps| != 0 {
      StepsKeepWatch(h, steps[..|steps| - 1]);
    }
  }

  /** Every hook reachable from mounting, through any renders with new names or
      rates, listens or polls for the name it was last rendered with (or has
      released its subscription). */
  lemma {:induction false} ReachableWatchesOwnName(native: bool, name: string, defaultValue: Option<string>,
                                                   polyfillPollRateMs: Option<int>, store: CookieStore.Store, steps: seq<Step>)
    ensures WatchesOwnName(Run(Mount(native, name, defaultValue, polyfillPollRateMs, store), steps))
  {
    StepsKeepWatch(Mount(native, name, defaultValue, polyfillPollRateMs, store), steps);
  }

  /** Convergence for every reachable hook, re-renders included: a tick makes the
      state what a poll of the current jar gives for the current name, and a write
      event for the current name makes the state the written value. */
  lemma ReachableConverges(native: bool, name: string, defaultValue: Option<string>,
                           polyfillPollRateMs: Option<int>, store: CookieStore.Store, steps: seq<Step>, v: string)
    ensures var h := Run(Mount(native, name, defaultValue, polyfillPollRateMs, store), steps);
            && (h.subscription.PollingInterval? ==> ReceiveTick(h).observed == PollTick(h.store, h.name)[0])
            && (h.subscription.ChangeListener? ==> ReceiveEvent(h, WriteEvent(h.name, v)).observed == Some(v))
  {
    var h := Run(Mount(native, name, defaultValue, polyfillPollRateMs, store), steps);
    ReachableWatchesOwnName(native, name, defaultValue, polyfillPollRateMs, store, steps);
    assert IsFirstNamed(WriteEvent(h.name, v).changed, h.name, 0);
  }

  /** The component test's scenario on the fallback, polling every 5 ms: the default
      shows first, then the initial read of the empty jar replaces it with null (the
      flash the source's comment warns of). An update shows after the next tick, and
      after a delete the next tick shows null, not the default the test expects to
      see again. */
  lemma TestScenarioOnFallback()
    ensures var h0 := Mount(false, "TEST-COOKIE-NAME", Some("i-am-default-value"), Some(5), map[]);
            var hr := Next(h0, ReadResolved(false, "TEST-COOKIE-NAME", map[]));
            var h1 := ReceiveTick(UpdateCookie(hr, "the-new-value"));
            var h2 := ReceiveTick(DeleteCookie(h1));
            && h0.observed == Some("i-am-default-value")
            && h0.subscription == PollingInterval("TEST-COOKIE-NAME", 5)
            && hr.observed == None
            && h1.observed == Some("the-new-value")
            && CookieStore.JsCookieGet(h1.store, "TEST-COOKIE-NAME") == Some("the-new-value")
            && h2.observed == None
            && CookieStore.JsCookieGet(h2.store, "TEST-COOKIE-NAME") == None
  {
  }
}
