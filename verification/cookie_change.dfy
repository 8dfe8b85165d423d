/** listenForCookieChange in src/library/useCookieState.ts: the classification of a
    native change event, the polling tick of the fallback, and the subscription
    the function sets up. A callback invocation `onChange(x)` is recorded as the
    element `x` of a list, so "fires exactly once" reads `|calls| == 1`. */
module CookieChange {
  import opened Wrappers
  import opened CookieStore

  /** A batch of cookie changes delivered by the native store. */
  datatype ChangeEvent = ChangeEvent(changed: seq<Cookie>, deleted: seq<Cookie>)

  /** The period used when the caller gives none (`pollingRate = 1000`). */
  const DefaultPollingRate: int := 1000

  /** `i` is the position of the first entry of `cookies` named `name`. */
  ghost predicate IsFirstNamed(cookies: seq<Cookie>, name: string, i: int)
  {
    && 0 <= i < |cookies|
    && cookies[i].name == name
    && forall j :: 0 <= j < i ==> cookies[j].name != name
  }

  /** Some entry of `cookies` is named `name`. */
  ghost predicate Mentions(cookies: seq<Cookie>, name: string)
  {
    exists i :: 0 <= i < |cookies| && cookies[i].name == name
  }

  /** `cookies.find(cookie => cookie.name === name)`: the first entry with that name. */
  function Find(cookies: seq<Cookie>, name: string): (r: Option<Cookie>)
    ensures r.None? <==> !Mentions(cookies, name)
    ensures forall i :: IsFirstNamed(cookies, name, i) ==> r == Some(cookies[i])
  {
    if |cookies| == 0 then None
    else if cookies[0].name == name then Some(cookies[0])
    else
      var r := Find(cookies[1..], name);
      assert forall i :: IsFirstNamed(cookies, name, i) ==> IsFirstNamed(cookies[1..], name, i - 1);
      assert Mentions(cookies[1..], name) ==> Mentions(cookies, name) by {
        if Mentions(cookies[1..], name) {
          var k :| 0 <= k < |cookies[1..]| && cookies[1..][k].name == name;
          assert cookies[k + 1].name == name;
        }
      }
      r
  }

  /** The entries of `cookies` named `name`, in their original order. */
  function Named(cookies: seq<Cookie>, name: string): (r: seq<Cookie>)
    ensures |r| <= |cookies|
    ensures forall i :: 0 <= i < |r| ==> r[i].name == name
  {
    if |cookies| == 0 then []
    else if cookies[0].name == name then [cookies[0]] + Named(cookies[1..], name)
    else Named(cookies[1..], name)
  }

  /** `Named` keeps exactly the entries with the name: nothing is added and no
      entry with the name is dropped. */
  lemma {:induction false} NamedMembers(cookies: seq<Cookie>, name: string)
    ensures forall c :: c in Named(cookies, name) <==> c in cookies && c.name == name
    decreases cookies
  {
    if |cookies| != 0 {
      NamedMembers(cookies[1..], name);
      assert cookies == [cookies[0]] + cookies[1..];
    }
  }

  /** The change listener (lines 37-52): the first `changed` entry with the watched
      name fires with its value and ends the scan; otherwise a `deleted` entry with
      that name fires with null; otherwise nothing fires. The found object is always
      truthy, so a changed cookie with an empty value fires with "". */
  function OnCookieChange(event: ChangeEvent, name: string): (calls: seq<Option<string>>)
    ensures |calls| <= 1
    ensures |calls| == 1 <==> Mentions(event.changed, name) || Mentions(event.deleted, name)
    ensures |calls| == 1 && calls[0].None? <==> !Mentions(event.changed, name) && Mentions(event.deleted, name)
  {
    match Find(event.changed, name)
    case Some(found) => [Some(found.value)]
    case None =>
      match Find(event.deleted, name)
      case Some(_) => [None]
      case None => []
  }

  /** JavaScript truthiness of what `Cookies.get` returns: undefined and "" are falsy. */
  predicate Truthy(cookie: Option<string>)
  {
    cookie.Some? && cookie.value != ""
  }

  /** One tick of the polling interval (lines 63-70): read the cookie with js-cookie
      and fire once, with the value when it is truthy and with null otherwise,
      whether or not it changed since the previous tick. */
  function PollTick(store: Store, name: string): (calls: seq<Option<string>>)
    ensures |calls| == 1
    ensures calls[0].Some? <==> name in store && store[name] != ""
    ensures calls[0].Some? ==> calls[0].value == store[name]
  {
    var cookie := JsCookieGet(store, name);
    if Truthy(cookie) then [cookie] else [None]
  }

  /** The polling period handed to listenForCookieChange: the hook passes
      `options?.polyfillPollRateMs`, and JavaScript's default parameter replaces
      only an omitted value. Nothing checks that the period is positive. */
  function PollPeriod(polyfillPollRateMs: Option<int>): (period: int)
    ensures polyfillPollRateMs.None? ==> period == DefaultPollingRate
    ensures polyfillPollRateMs.Some? ==> period == polyfillPollRateMs.value
  {
    match polyfillPollRateMs
    case None => DefaultPollingRate
    case Some(rate) => rate
  }

  /** What listenForCookieChange leaves registered; `Released` once its clean-up
      function has run. */
  datatype Subscription =
    | ChangeListener(name: string)
    | PollingInterval(name: string, period: int)
    | Released

  /** listenForCookieChange: a change listener when the native store exists,
      otherwise an interval of the given period. */
  function ListenForCookieChange(native: bool, name: string, pollingRate: int): (sub: Subscription)
    ensures native <==> sub.ChangeListener?
    ensures !sub.Released? && sub.name == name
    ensures sub.PollingInterval? ==> sub.period == pollingRate
  {
    if native then ChangeListener(name) else PollingInterval(name, pollingRate)
  }

  /** The callbacks a native change event causes through a subscription. Only a
      registered change listener hears events. */
  function HearEvent(sub: Subscription, event: ChangeEvent): seq<Option<string>>
  {
    match sub
    case ChangeListener(name) => OnCookieChange(event, name)
    case _ => []
  }

  /** The callbacks one elapsed interval causes through a subscription. Only a
      running interval ticks. */
  function HearTick(sub: Subscription, store: Store): seq<Option<string>>
  {
    match sub
    case PollingInterval(name, _) => PollTick(store, name)
    case _ => []
  }

  // ---------------------------------------------------------------------------
  // Properties of the change listener

  /** A changed entry with the watched name fires once, with the value of the first such entry. */
  lemma ChangedFiresFirstMatch(event: ChangeEvent, name: string, i: int)
    requires IsFirstNamed(event.changed, name, i)
    ensures OnCookieChange(event, name) == [Some(event.changed[i].value)]
  {
  }

  /** `changed` takes priority: a name in both lists fires with its changed value, never null. */
  lemma ChangedWinsOverDeleted(event: ChangeEvent, name: string, i: int, j: int)
    requires 0 <= i < |event.changed| && event.changed[i].name == name
    requires 0 <= j < |event.deleted| && event.deleted[j].name == name
    ensures |OnCookieChange(event, name)| == 1
    ensures OnCookieChange(event, name)[0].Some?
  {
  }

  /** A name that is only deleted fires once, with null. */
  lemma DeletedOnlyFiresNull(event: ChangeEvent, name: string, j: int)
    requires !Mentions(event.changed, name)
    requires 0 <= j < |event.deleted| && event.deleted[j].name == name
    ensures OnCookieChange(event, name) == [None]
  {
  }

  /** A name in neither list fires nothing. */
  lemma UnmentionedIsSilent(event: ChangeEvent, name: string)
    requires !Mentions(event.changed, name) && !Mentions(event.deleted, name)
    ensures OnCookieChange(event, name) == []
  {
  }

  /** Find sees only the entries with the name it looks for. */
  lemma {:induction false} FindIgnoresOtherNames(cookies: seq<Cookie>, name: string)
    ensures Find(cookies, name) == Find(Named(cookies, name), name)
  {
    if |cookies| == 0 {
    } else if cookies[0].name == name {
      assert Named(cookies, name)[0] == cookies[0];
    } else {
      FindIgnoresOtherNames(cookies[1..], name);
    }
  }

  /** Adding, removing or reordering entries with other names never changes what
      the listener does: only the entries with the watched name matter. */
  lemma OtherNamesIrrelevant(e1: ChangeEvent, e2: ChangeEvent, name: string)
    requires Named(e1.changed, name) == Named(e2.changed, name)
    requires Named(e1.deleted, name) == Named(e2.deleted, name)
    ensures OnCookieChange(e1, name) == OnCookieChange(e2, name)
  {
    FindIgnoresOtherNames(e1.changed, name);
    FindIgnoresOtherNames(e2.changed, name);
    FindIgnoresOtherNames(e1.deleted, name);
    FindIgnoresOtherNames(e2.deleted, name);
  }

  /** In particular, appending entries for other names to either list changes nothing. */
  lemma {:induction false} AppendOtherNames(event: ChangeEvent, name: string, moreChanged: seq<Cookie>, moreDeleted: seq<Cookie>)
    requires forall k :: 0 <= k < |moreChanged| ==> moreChanged[k].name != name
    requires forall k :: 0 <= k < |moreDeleted| ==> moreDeleted[k].name != name
    ensures OnCookieChange(ChangeEvent(event.changed + moreChanged, event.deleted + moreDeleted), name)
         == OnCookieChange(event, name)
  {
    NamedAppendOthers(event.changed, moreChanged, name);
    NamedAppendOthers(event.deleted, moreDeleted, name);
    OtherNamesIrrelevant(ChangeEvent(event.changed + moreChanged, event.deleted + moreDeleted), event, name);
  }

  /** Entries with other names appended to a list add nothing to its entries with `name`. */
  lemma {:induction false} NamedAppendOthers(cookies: seq<Cookie>, more: seq<Cookie>, name: string)
    requires forall k :: 0 <= k < |more| ==> more[k].name != name
    ensures Named(cookies + more, name) == Named(cookies, name)
  {
    if |cookies| == 0 {
      assert cookies + more == more;
      NamedOfOthers(more, name);
    } else {
      assert (cookies + more)[1..] == cookies[1..] + more;
      NamedAppendOthers(cookies[1..], more, name);
    }
  }

  /** A list without an entry named `name` has no entries with that name. */
  lemma {:induction false} NamedOfOthers(cookies: seq<Cookie>, name: string)
    requires forall k :: 0 <= k < |cookies| ==> cookies[k].name != name
    ensures Named(cookies, name) == []
  {
    if |cookies| != 0 {
      NamedOfOthers(cookies[1..], name);
    }
  }

  // ---------------------------------------------------------------------------
  // Properties of the polling tick

  /** A present, non-empty cookie is reported with its value. */
  lemma PollPresent(store: Store, name: string)
    requires name in store && store[name] != ""
    ensures PollTick(store, name) == [Some(store[name])]
  {
  }

  /** An absent cookie and an empty cookie are both reported as null. */
  lemma PollAbsentOrEmpty(store: Store, name: string)
    requires name !in store || store[name] == ""
    ensures PollTick(store, name) == [None]
  {
  }

  /** An empty cookie is seen differently by the three readers: getCookie and the
      change listener report "", the polling tick reports null. */
  lemma EmptyValueReadersDisagree(native: bool, store: Store, name: string)
    requires name in store && store[name] == ""
    ensures GetCookie(native, store, name) == Some("")
    ensures OnCookieChange(ChangeEvent([Cookie(name, "")], []), name) == [Some("")]
    ensures PollTick(store, name) == [None]
  {
    assert IsFirstNamed([Cookie(name, "")], name, 0);
  }
}
