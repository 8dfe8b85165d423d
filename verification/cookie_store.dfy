/** The cookie jar of the page and the three polyfilled wrappers around it
    (getCookie, setCookie, deleteCookie in src/library/useCookieState.ts).

    The native `cookieStore` and the `js-cookie` fallback are taken to read and
    write one jar, a map from name to value. Which backend serves a read is
    decided per call by `"cookieStore" in window`; it is the parameter `native`
    of `GetCookie`. */
module CookieStore {
  import opened Wrappers

  /** The part of a browser cookie record that the hook looks at. */
  datatype Cookie = Cookie(name: string, value: string)

  /** At most one value per cookie name. */
  type Store = map<string, string>

  /** `cookieStore.get(name)`: the cookie record, or null when there is none. */
  function NativeGet(store: Store, name: string): (r: Option<Cookie>)
    ensures r.Some? <==> name in store
    ensures r.Some? ==> r.value.name == name && r.value.value == store[name]
  {
    if name in store then Some(Cookie(name, store[name])) else None
  }

  /** `Cookies.get(name)` of js-cookie: the value, or undefined when there is none.
      An empty value is returned as the empty string, not as undefined. */
  function JsCookieGet(store: Store, name: string): (r: Option<string>)
    ensures r.Some? <==> name in store
    ensures r.Some? ==> r.value == store[name]
  {
    if name in store then Some(store[name]) else None
  }

  /** getCookie: `(await cookieStore.get(name))?.value ?? null` on the native
      backend, `Cookies.get(name) ?? null` on the fallback. `??` only replaces
      null/undefined, so a cookie with an empty value is reported as "". */
  function GetCookie(native: bool, store: Store, name: string): (r: Option<string>)
    ensures r.Some? <==> name in store
    ensures r.Some? ==> r.value == store[name]
  {
    if native then
      match NativeGet(store, name)
      case Some(c) => Some(c.value)
      case None => None
    else
      JsCookieGet(store, name)
  }

  /** setCookie: `cookieStore.set(name, value)` on the native backend,
      `Cookies.set(name, value)` on the fallback. Both are taken to write the same
      jar entry, so the backend does not appear here. */
  function SetCookie(store: Store, name: string, value: string): (r: Store)
    ensures r.Keys == store.Keys + {name}
    ensures r[name] == value
    ensures forall other :: other in store && other != name ==> r[other] == store[other]
  {
    store[name := value]
  }

  /** deleteCookie: `cookieStore.delete(name)` or `Cookies.remove(name)`.
      Removing a cookie that is not there is not an error. */
  function DeleteCookie(store: Store, name: string): (r: Store)
    ensures r.Keys == store.Keys - {name}
    ensures forall other :: other in r ==> r[other] == store[other]
  {
    store - {name}
  }

  /** Either backend reads back the value written. */
  lemma SetThenGet(reader: bool, store: Store, name: string, value: string)
    ensures GetCookie(reader, SetCookie(store, name, value), name) == Some(value)
  {
  }

  /** After a delete, either backend reports the cookie as absent. */
  lemma DeleteThenGet(reader: bool, store: Store, name: string)
    ensures GetCookie(reader, DeleteCookie(store, name), name) == None
  {
  }

  /** Writing or deleting one cookie leaves every other cookie as it was. */
  lemma WritesAreLocal(reader: bool, store: Store, name: string, value: string, other: string)
    requires other != name
    ensures GetCookie(reader, SetCookie(store, name, value), other) == GetCookie(reader, store, other)
    ensures GetCookie(reader, DeleteCookie(store, name), other) == GetCookie(reader, store, other)
  {
  }

  /** Deleting twice is the same as deleting once, and deleting an absent cookie changes nothing. */
  lemma DeleteIdempotent(store: Store, name: string)
    ensures DeleteCookie(DeleteCookie(store, name), name) == DeleteCookie(store, name)
    ensures name !in store ==> DeleteCookie(store, name) == store
  {
  }

  /** The native read (a record, then its value) and the fallback read (a value)
      report the same thing for every jar and name. */
  lemma BackendsAgree(store: Store, name: string)
    ensures GetCookie(true, store, name) == GetCookie(false, store, name)
  {
  }
}
