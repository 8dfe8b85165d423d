# use-cookie-state in Dafny

A model of the `useCookieState` React hook of the use-cookie-state demo
application (`src/library/useCookieState.ts`). The hook mirrors one browser
cookie into a component's state. It reads and writes the cookie through the
native `cookieStore` API when the browser has one, and through the `js-cookie`
library otherwise. It learns about changes from `cookieStore` change events, or
on the fallback by polling the cookie on an interval.

The model has four modules:

- `Wrappers` (`wrappers.dfy`): `Option`, standing for JavaScript's `null`/`undefined`.
- `CookieStore` (`cookie_store.dfy`): the page's cookie jar as a `map<string, string>`.
  It holds `getCookie`/`setCookie`/`deleteCookie` and the two raw readers they
  use (`cookieStore.get` and `Cookies.get`). The native-or-fallback test
  `"cookieStore" in window` is made on every call. For reads it is the boolean
  parameter `native`. The two backends are taken to read and write one jar, and
  writes are the same map update on either backend. The limits of this abstraction
  are listed under "Left out".
- `CookieChange` (`cookie_change.dfy`): `listenForCookieChange`.
  - A change event is a pair of lists of `{name, value}` records.
  - `OnCookieChange` is the listener. `PollTick` is one interval tick.
  - `ListenForCookieChange` gives what gets registered: a `ChangeListener` or a
    `PollingInterval`. `Released` is what is left once the clean-up function has run.
  - Each call of `onChange(x)` becomes the element `x` of a list. So "fires
    exactly once" means that the list has one element.
- `UseCookieState` (`use_cookie_state.dfy`): the hook as a record
  `Hook(name, polyfillPollRateMs, observed, store, subscription)`. Each
  discrete step is a function on that record:
  - the initial read resolving, for the name and the jar it read;
  - a change event or an interval tick reaching the subscription;
  - `updateCookie` and `_deleteCookie`;
  - a write by someone else;
  - a re-render with new arguments;
  - unmounting.

  `Run` applies a list of steps in order. The helpers `CookieChange.HearEvent`
  (an event reaching the listener registered at line 54) and
  `CookieChange.HearTick` (a tick of the interval set at line 63) carry no
  contract of their own. The `ReceiveEvent` and `ReceiveTick` rows state what
  they do.

Behaviour the code has, which the model keeps:

- A cookie whose value is the empty string is seen in three different ways.
  `getCookie` reports `""`, because `??` keeps it. A change event reports `""`,
  because the found record object is truthy. The polling tick reports `null`,
  because of the truthiness test at line 65.
- Polling fires on every tick, whether or not the value changed.
- The poll rate is not checked. An omitted option gives 1000, and any number
  that is given is used as it is.
- The initial read stores its result unconditionally, with no check of the name
  it read. On the native store, `cookieStore.get` is awaited, so after a name
  change a read of the old name can resolve late and overwrite the state. On the
  fallback this cannot happen: `Cookies.get` runs synchronously inside the effect,
  and its result lands straight after.
- A name change does not reset the state to the default value.
- After a delete and its notification the state is `null`, not the default
  value. The component test at `src/library/useCookieState.test.tsx` line 61
  expects the default text to be shown again after a delete. The code sets
  `null` (lines 50 and 68), and the model follows the code.
- Errors from the backend are not handled. The promises of `setCookie` and
  `deleteCookie` are not awaited. Nothing is propagated, so the model has no
  error path.

The environment is modelled as follows:

- The events the native store sends for the hook's own writes are
  `WriteEvent(name, value)`, a one-entry `changed` list, and
  `RemovalEvent(name)`, a one-entry `deleted` list. This is what the Cookie
  Store API delivers for a single `set`, and for a single `delete` of a cookie
  that exists. Deleting a cookie that does not exist changes nothing and
  delivers no event. The hook's code does not produce these events.
- Clocks and event delivery are not modelled. A tick or an event is simply a
  step that someone takes.

## Model

| member | source | states |
|---|---|---|
| `CookieStore.NativeGet` | src/library/cookieStore.d.ts:17-18 | `cookieStore.get` gives a record exactly when the cookie exists; the record carries the name and the stored value |
| `CookieStore.JsCookieGet` | src/library/useCookieState.ts:11 | `Cookies.get` gives a value exactly when the cookie exists, and that value is the stored one (empty string included) |
| `CookieStore.GetCookie` | src/library/useCookieState.ts:6-12 | on either backend: present exactly when the cookie exists, with its stored value; absent is null, never an error |
| `CookieStore.SetCookie` | src/library/useCookieState.ts:14-20 | the jar gains the name with the new value, and every other cookie keeps its value |
| `CookieStore.DeleteCookie` | src/library/useCookieState.ts:22-28 | the jar loses exactly that name, and every other cookie keeps its value |
| `CookieStore.SetThenGet` | src/library/useCookieState.ts:6-20 | round trip: after a set, a get on either backend returns the value written (one jar, no encoding) |
| `CookieStore.DeleteThenGet` | src/library/useCookieState.ts:6-12 | after a delete, a get on either backend returns null |
| `CookieStore.WritesAreLocal` | src/library/useCookieState.ts:14-28 | set and delete of one name leave the reads of every other name unchanged |
| `CookieStore.DeleteIdempotent` | src/library/useCookieState.ts:22-28 | deleting twice equals deleting once; deleting an absent cookie changes nothing |
| `CookieStore.BackendsAgree` | src/library/useCookieState.ts:6-12 | on one jar, the native read (a record, then its value) and the fallback read report the same thing for every name |
| `CookieChange.Find` | src/library/useCookieState.ts:38-40 | `Array.find` by name: none exactly when no entry has the name, otherwise the first entry that has it |
| `CookieChange.Named` | src/library/useCookieState.ts:38-48 | the entries that the name test can match: every kept entry has the name, and the result is no longer than the input |
| `CookieChange.NamedMembers` | src/library/useCookieState.ts:38-48 | the entries kept by the name test are exactly the entries of the list that have the name: none fabricated, none dropped |
| `CookieChange.OnCookieChange` | src/library/useCookieState.ts:37-52 | fires at most once; fires exactly when the name is in `changed` or in `deleted`; fires with null exactly when it is only in `deleted` |
| `CookieChange.PollTick` | src/library/useCookieState.ts:63-70 | fires exactly once; with the value when the cookie is present and non-empty, with null when it is absent or empty |
| `CookieChange.PollPeriod` | src/library/useCookieState.ts:33 | the default parameter applied to `options?.polyfillPollRateMs` (line 132): an omitted rate gives 1000, and a given rate is passed on unchanged |
| `CookieChange.ListenForCookieChange` | src/library/useCookieState.ts:30-76 | a change listener exactly when the native store exists, otherwise an interval with the given period; both watch the given name |
| `CookieChange.ChangedFiresFirstMatch` | src/library/useCookieState.ts:38-43 | a name in `changed` fires once, with the value of the first `changed` entry of that name |
| `CookieChange.ChangedWinsOverDeleted` | src/library/useCookieState.ts:41-51 | a name in both lists fires once with a value, never with null (early return) |
| `CookieChange.DeletedOnlyFiresNull` | src/library/useCookieState.ts:46-51 | a name only in `deleted` fires once, with null |
| `CookieChange.UnmentionedIsSilent` | src/library/useCookieState.ts:37-52 | a name in neither list fires nothing |
| `CookieChange.FindIgnoresOtherNames` | src/library/useCookieState.ts:38-40 | the first match by name is the same when entries with other names are dropped |
| `CookieChange.OtherNamesIrrelevant` | src/library/useCookieState.ts:37-52 | two events with the same entries for the watched name cause the same callbacks, whatever other entries they hold |
| `CookieChange.AppendOtherNames` | src/library/useCookieState.ts:37-52 | appending entries for other names to the end of either list never changes the outcome |
| `CookieChange.PollPresent` | src/library/useCookieState.ts:64-66 | a present non-empty cookie is polled as its value |
| `CookieChange.PollAbsentOrEmpty` | src/library/useCookieState.ts:64-69 | an absent or empty cookie is polled as null |
| `CookieChange.EmptyValueReadersDisagree` | src/library/useCookieState.ts:8-11 | for an empty cookie, getCookie and the change listener give "" while the polling tick gives null |
| `UseCookieState.ApplyCallbacks` | src/library/useCookieState.ts:129-131 | successive `setValue` calls leave the state at the last argument, or unchanged when there are none |
| `UseCookieState.Mount` | src/library/useCookieState.ts:117-134 | the first observed value equals the default; the hook records its name, option and jar; the effect subscribes for the hook's name with the resolved poll period |
| `UseCookieState.ResolveInitialRead` | src/library/useCookieState.ts:121-123 | the state becomes the read name's value in the jar the read saw (null when absent), whatever name the hook now watches; nothing else changes |
| `UseCookieState.UpdateCookie` | src/library/useCookieState.ts:138-143 | writes the value under the hook's name and changes only the jar, not the state |
| `UseCookieState.DeleteCookie` | src/library/useCookieState.ts:145-147 | removes the hook's cookie and changes only the jar, not the state |
| `UseCookieState.ExternalWrite` | src/library/useCookieState.test.tsx:70-71 | a write by another party replaces the jar and changes neither the state nor the subscription |
| `UseCookieState.ReceiveEvent` | src/library/useCookieState.ts:127-131 | only a change listener hears events; the state becomes the listener's callback argument if it fires, and stays otherwise |
| `UseCookieState.ReceiveTick` | src/library/useCookieState.ts:63-70 | only an interval ticks; the state becomes the jar's value for the watched name, or null when it is absent or empty |
| `UseCookieState.Rerender` | src/library/useCookieState.ts:119-134 | a new name or poll rate re-subscribes for the new arguments; the same arguments keep the subscription; the state is kept in both cases |
| `UseCookieState.Unmount` | src/library/useCookieState.ts:56-75 | clean-up releases the subscription and leaves the state, the jar, the name and the option |
| `UseCookieState.Next` | src/library/useCookieState.ts:117-147 | a step other than the initial read, an event or a tick never changes the observed value |
| `UseCookieState.PollRateOption` | src/library/useCookieState.ts:33 | an omitted poll rate polls every 1000 ms; a given rate, zero or negative included, is used unchanged |
| `UseCookieState.UpdateThenEvent` | src/library/useCookieState.ts:136-143 | after an update and its change event, the state and a read of the cookie both equal the new value |
| `UseCookieState.UpdateThenTick` | src/library/useCookieState.ts:138-143 | after an update and a tick, the state is the new value (null if it is empty), and a read of the cookie gives the new value |
| `UseCookieState.DeleteThenNotify` | src/library/useCookieState.ts:145-147 | after a delete a read gives null; the next tick, or the removal event when the cookie existed, makes the state null (not the default); deleting an absent cookie on the native store leaves jar and state as they were |
| `UseCookieState.OtherCookieEventIgnored` | src/library/useCookieState.ts:38-51 | events about other cookies leave the state alone |
| `UseCookieState.StaleReadOverwrites` | src/library/useCookieState.ts:119-134 | a name change keeps the state and re-subscribes for the new name; a late read of the old name then overwrites the new name's notification with the old cookie's value, while the hook still listens for the new name |
| `UseCookieState.TestScenarioOnFallback` | src/library/useCookieState.test.tsx:52-64 | the delete test on the fallback: default first, null once the initial read of the empty jar lands, the new value after an update and a tick, then null (not the default) after a delete and a tick, with the jar matching |
| `UseCookieState.SubscriptionKept` | src/library/useCookieState.ts:119-134 | without a render or an unmount, the subscription and the watched name stay the same |
| `UseCookieState.ObservedOnlyFromNotifications` | src/library/useCookieState.ts:117-147 | single source of truth: in any run with no initial read, event or tick, the observed value never changes |
| `UseCookieState.UnmountedIsDeaf` | src/library/useCookieState.ts:56-75 | after unmount, no event, tick, update, delete or outside write changes the state, and nothing resubscribes |
| `UseCookieState.StepsKeepWatch` | src/library/useCookieState.ts:119-134 | every step keeps a subscription on the hook's current name: re-renders subscribe for the name they render with |
| `UseCookieState.ReachableWatchesOwnName` | src/library/useCookieState.ts:117-147 | every hook reachable from mounting is subscribed for the name it was last rendered with, or has released its subscription |
| `UseCookieState.ReachableConverges` | src/library/useCookieState.ts:127-131 | for every hook reachable from mounting, re-renders included, a tick makes the state a poll of the current jar for the current name, and a write event for that name makes the state the written value |
| `UseCookieState.PollingConverges` | src/library/useCookieState.ts:63-70 | on the fallback, after any run of steps without a render or unmount, the next tick makes the state what a poll of the current jar gives: its value, or null when absent or empty |
| `UseCookieState.EventConverges` | src/library/useCookieState.ts:37-43 | on the native store, after any run of steps without a render or unmount, the change event for a write of the watched cookie makes the state that value |

## Left out

- React scheduling: when effects run, re-render batching, and the identity of callbacks. Each of these is a step on the `Hook` record instead.
- React discards a state update on an unmounted component. `ResolveInitialRead` still assigns the state after `Unmount`. The reason is that the dropping is done by React, not by the hook.
- Timers and listeners: `setInterval`/`clearInterval` timing and the registration of listeners. A tick or an event is a discrete step. Clearing the interval or removing the listener is `Released`.
- The asynchronous timing of `getCookie`. The jar that the initial read saw is a parameter of `ResolveInitialRead`. On the native store, that moment depends on when `cookieStore.get` resolves.
- UseCookieState.ResolveInitialRead: on the fallback, `getCookie` does not await (line 11). The read sees the jar as it is when the effect runs, and its `.then` lands straight after, before any tick, event or click. The model lets a `ReadResolved` step land at any later step and with any jar on either backend. This over-approximates the fallback: runs such as a late fallback read of an old name cannot happen in the source.
- The `js-cookie` library and the parsing of `document.cookie`. The jar is a map. Cookie attributes (domain, path, expiry, sameSite) are not modelled.
- The `cookieStore` API beyond the record shape. Its events for the hook's own writes are the assumed `WriteEvent`/`RemovalEvent`.
- The demo component `src/responsive_cookies/components/UserProfile1.tsx`, the page layout `src/app/page.tsx` and `vitest.config.js`. These are presentation and configuration.
- CookieStore.BackendsAgree: holds of the model's single jar, not of every browser. js-cookie percent-encodes values on write and decodes them on read, while `cookieStore.get` returns the raw stored string. So `Cookies.set("n", "a b")` followed by the native `getCookie` gives `"a%20b"`. Encoding is not modelled, so the model's reads return the value written on either backend. `CookieStore.SetThenGet` has the same limit when the writing and reading backends differ.
- UseCookieState.Mount: `polyfillPollRateMs` is a JavaScript `number` and is an `int` here. Fractional, `NaN` and infinite rates are not modelled, and neither is how `setInterval` treats them.
- Stale-read cancellation, poll-interval validation and error propagation. The code has none of them, so the model has none either.
