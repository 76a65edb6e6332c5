# gosm session manager, modelled in Dafny

This project models the core of gosm, a small Go session manager:

- **The in-memory provider** (`memory/memory.go`). It keeps sessions in a map from session id to list element. It also keeps a `container/list` ordered by access:
  - a new session is linked in;
  - a touched session is moved to the front;
  - the garbage-collection pass removes sessions from the back while they are expired.
- **The manager** (`session/session.go`):
  - draws random session ids and retries until the provider accepts one;
  - writes the query-escaped id into a cookie;
  - reads a session back from a cookie;
  - destroys a session named by a cookie;
  - runs the provider's collection pass.

Files and modules:

- `basics.dfy`: `Option` and `Result`.
- `orders.dfy` (module `Orders`): the provider's list as a sequence of ids. `Erase` is `list.Remove` and `ToFront` is `list.MoveToFront`.
- `expiry.dfy` (module `Expiry`):
  - the expiry test of `SessionGC`;
  - `Survivors`, the length of the list prefix the pass leaves;
  - the recency-order invariant `RecencySorted`;
  - lemmas on which list operations keep that invariant.
- `memory.dfy` (module `Memory`): the classes `SessionStore` and `Provider`.
  - `SessionStore` has the Go fields: id, access time, value map and provider.
  - `Provider` keeps `sessions` (id to store; Go maps the id to the list element that holds the store) and `order` (the ids in the list, front first) in place of `list`.
  - `Provider` also has a ghost map `time` of access times, used only for proofs. The `lock` field is left out.
  - Beside the Go methods, the class has helper steps with no Go counterpart: `EvictBack` (one eviction of the pass), `Stamp` and `Relink` (the two halves of a touch). It also has the corrected insertion `SessionInitAtFront`.
  - `Provider.Valid()` ties the map, the list (`order`) and a ghost map of access times together, and every method keeps it.
  - `Provider.Touched` states exactly what `SessionUpdate` changes.
- `session.dfy` (module `Session`): the class `Manager`, the cookie-to-id functions, the id-generation retry loop, and client sequences (start then get, start then destroy).

How the model represents the environment:

- Time is whole seconds and is passed into every method that reads the clock.
- The random source is a sequence of draws. Each draw is the base64url text of 256 random bytes, or `None` when the read failed.
- `url.QueryEscape`/`url.QueryUnescape` are a `UrlCodec`. Its functions are constrained by `QueryCodec`:
  - unescaping undoes escaping;
  - `""` escapes to `""`;
  - `=` never survives escaping.
- A request's cookie is an `Option<string>`.

A textbook LRU session store is built differently from gosm in a few places. The model follows gosm:

- An LRU store links a new entry at the front of its list. gosm links it at the **back** (`PushBack`).
- An LRU store usually expires an entry once its idle time reaches the lifetime. gosm's test is strict: a session is expired when `timeAccessed + maxlifetime < now`.
- An eviction pass often reports how many entries it removed. gosm's `SessionGC` returns nothing.
- An id generator usually bounds its retries and reports a failed random read. gosm's retry loop has no bound, and a failed read yields the id `""` with the error ignored.
- Because of the back insertion, gosm's list is **not** always sorted by access time. See the Findings.

## Model

| member | source | states |
|---|---|---|
| Orders.Erase | memory/memory.go:83-89 | Unlinking an id leaves exactly the other ids. It keeps the list free of duplicates, and shortens it by one exactly when the id was present. |
| Orders.EraseAt | memory/memory.go:84-86 | Removing the element at position i closes the gap: the other elements keep their relative order. |
| Orders.EraseIdempotent | memory/memory.go:83-89 | Destroying an id twice leaves the same list as destroying it once. |
| Orders.ToFront | memory/memory.go:116 | `list.MoveToFront`: the id comes first, the list holds exactly the old ids plus that id, and it stays duplicate-free. |
| Orders.ToFrontPermutes | memory/memory.go:114-117 | Moving a live id to the front puts it at position 0. The list keeps the same length and ids, stays duplicate-free, and the other ids keep their order. |
| Expiry.Expired | memory/memory.go:101 | A session is expired exactly when it has been idle for strictly more than `maxlifetime` seconds. |
| Expiry.ExpiredStaysExpired | memory/memory.go:101 | An expired session stays expired as the clock moves on, and any older access is expired too. |
| Expiry.Survivors | memory/memory.go:95-107 | The pass's stopping point n: every session behind n is expired, and the session just before n (if any) is not. |
| Expiry.SurvivorsUnique | memory/memory.go:95-107 | Only one cut point has the back-removal property, so the pass's result is determined. |
| Expiry.LiveBackShieldsExpired | memory/memory.go:101-106 | A live session at the back stops the pass at once, so every session in front of it survives, expired or not. |
| Expiry.SortedSurvivorsAreLive | memory/memory.go:91-108 | On a recency-sorted list, the pass keeps no expired session: it removes exactly the expired ones. |
| Expiry.AppendKeepsRecencyIff | memory/memory.go:71 | Appending a new session stamped now keeps the list recency-sorted exactly when it was sorted and no listed session was accessed before now, which in practice means all within the same second. |
| Expiry.EraseKeepsRecency | memory/memory.go:86 | Removing a session keeps a recency-sorted list sorted. |
| Expiry.ToFrontKeepsRecency | memory/memory.go:114-117 | Touching a session at a time no earlier than any access keeps the list recency-sorted. |
| Expiry.PushFrontKeepsRecency | memory/memory.go:71 | Linking a new session at the front, at a time no earlier than any access, keeps the list recency-sorted. This is the corrected insertion. |
| Expiry.PrefixKeepsRecency | memory/memory.go:95-107 | Any prefix of a recency-sorted list is sorted, so the pass keeps the invariant. |
| Memory.SessionStore.constructor | memory/memory.go:66-70 | A new store has the given id, access time and provider, and an empty value map. |
| Memory.SessionStore.Set | memory/memory.go:32-36 | The key maps to the value afterwards and nothing else in the map changes. The provider then touches this session: it is moved to the front with the new access time. A store that is no longer live keeps its access time, because the touch finds nothing (line 114). Other stores' values are unchanged. |
| Memory.SessionStore.Get | memory/memory.go:38-44 | Returns the stored value, or None when the key is absent. The value map is unchanged and the session is touched. A store that is no longer live keeps its access time. |
| Memory.SessionStore.Delete | memory/memory.go:46-50 | The key is gone afterwards and nothing else in the map changes. The session is touched. A store that is no longer live keeps its access time. |
| Memory.SessionIdIsKey | memory/memory.go:52-54 | The id a live store reports is the key the provider files it under (lines 72, 84, 114). So the touch that Set, Get and Delete request reaches that same store. |
| Memory.Provider.constructor | memory/memory.go:19-24 | A new provider has no sessions and an empty list, and is valid. |
| Memory.Provider.SessionInit | memory/memory.go:56-74 | A duplicate id gives NotUnique with no change. Otherwise a fresh store with that id, access time and an empty value map is added to the map, appended at the back of the list, and its time recorded. Expiry.AppendKeepsRecencyIff says when the new list is still ordered. |
| Memory.Provider.SessionInitAtFront | memory/memory.go:56-74 | Corrected insertion: same as SessionInit but linked at the front. It keeps the list recency-sorted whenever no access lies in the future. |
| Memory.Provider.SessionRead | memory/memory.go:76-81 | Succeeds exactly when the id is live, returning that id's store. Otherwise NotValid. Nothing changes. |
| Memory.Provider.SessionDestroy | memory/memory.go:83-89 | The id leaves the map and the list and the other sessions stay in order. An absent id changes nothing. Keeps the recency order. |
| Memory.Provider.EvictBack | memory/memory.go:102-103 | Removes the last session of the list from both the list and the map. |
| Memory.Provider.SessionGC | memory/memory.go:91-108 | Leaves exactly the prefix given by Survivors, with the remaining stores and times unchanged. When nothing is evicted, nothing changes. Keeps the recency order. |
| Memory.Provider.Stamp | memory/memory.go:115 | A live session gets the new access time, and its values, the map and the list are unchanged. |
| Memory.Provider.Relink | memory/memory.go:116 | A live session moves to the front of the list, and the map and times are unchanged. |
| Memory.Provider.SessionUpdate | memory/memory.go:110-119 | A live session gets the new access time and moves to the front, and nothing else changes. An absent id changes nothing. Keeps the recency order, and the front then holds the latest access. |
| Memory.StaleSessionSurvivesGc | memory/memory.go:56-108 | "a" is created at 0 and "b" at 10, then the pass runs with lifetime 5 at time 10. The list is then [a, b] and "a" is expired but kept. |
| Session.SessionId | session/session.go:44-53 | A failed read of the random source is reported and yields the id "". Otherwise the id is the encoded draw. |
| Session.FirstFresh | session/session.go:56-68 | The draw at which the retry loop stops is the first whose id is not live. Every earlier draw collided, and None means every draw collided. |
| Session.FailedDrawIssuesEmptyId | session/session.go:44-62 | A failed random read yields id "" and the error is ignored. If "" is not live, the loop stops there and issues a session with id "". |
| Session.FailedDrawsCollideWithEmptyId | session/session.go:56-68 | Once "" is live, failed reads never produce a new session: the loop can only spin. |
| Session.RequestedSid | session/session.go:89-94 | GetSession asks the provider for an id exactly when the cookie exists and is non-empty. |
| Session.DestroyedSid | session/session.go:108-116 | DestroySession destroys an id exactly when the cookie exists and is non-empty. |
| Session.StartedCookieResolves | session/session.go:76-94 | The cookie StartSession sets for a non-empty id leads GetSession back to that id. |
| Session.EmptyIdCookieIgnored | session/session.go:76-110 | The session with id "" gets an empty cookie, so GetSession and DestroySession both ignore it. |
| Session.DestroyByStartedCookieMisses | session/session.go:78-116 | For an id containing '=', DestroySession with the started cookie names a different id, and the session stays in the list. |
| Session.UnescapedDestroyRemovesStarted | session/session.go:93-116 | Destroying by the unescaped cookie value removes the started session. |
| Session.Manager.constructor | session/session.go:36-41 | The manager holds the given provider, cookie name and lifetime. |
| Session.Manager.GenerateNewSession | session/session.go:56-68 | Tries draws in order until the provider accepts one. Succeeds exactly when FirstFresh finds a non-live id, returning a fresh store for that id. Every collision leaves the provider unchanged. |
| Session.Manager.StartSession | session/session.go:71-84 | A session is started exactly when FirstFresh finds a draw whose id is not live, and it carries that draw's id. The new store has access time now and an empty value map. It is added to the map, appended to the list, and its time recorded. The cookie holds the query-escaped id. When no draw is fresh there is no session, no cookie and no change. |
| Session.Manager.GetSession | session/session.go:87-101 | Returns the live store of the unescaped cookie id, or None without a usable cookie or for an unknown id. Nothing changes. |
| Session.Manager.DestroySession | session/session.go:105-129 | Without a non-empty cookie nothing changes and no cookie is cleared. Otherwise the raw cookie value is destroyed and the cookie is cleared. |
| Session.Manager.DestroySessionUnescaped | session/session.go:105-129 | Corrected destroy: the same with the unescaped cookie value. |
| Session.Manager.GC | session/session.go:132-141 | Runs the provider's pass with the manager's lifetime, with the same result as Provider.SessionGC. |
| Session.StartThenGet | session/session.go:71-101 | A session just started is found again through its own cookie exactly when its id is non-empty. |
| Session.StartThenDestroy | session/session.go:71-129 | A session just started under an id containing '=' is still live after DestroySession with its own cookie. |
| Session.StartThenDestroyUnescaped | session/session.go:71-129 | With the corrected destroy, a session just started under a non-empty id is gone afterwards. |

## Left out

- Locking (`sync.Mutex` in the provider and the manager) and concurrency. Every method runs alone. Concurrent callers are not modelled.
- `Manager.Init`, the goroutine it starts, and `time.AfterFunc` rescheduling: one call of `GC` is modelled, not the timer. `fmt.Println` is output only.
- `crypto/rand`, `io.ReadFull` and `base64.URLEncoding`: each call of `sessionId` is one supplied draw, already encoded, or None for a failed read.
- `net/http`: cookie lookup by name is an `Option<string>` argument. Setting a cookie is a returned value. Cookie attributes (`Path`, `HttpOnly`, `Expires`, `MaxAge`) are not modelled.
- `url.QueryEscape`/`url.QueryUnescape` are abstract functions constrained by `QueryCodec`. The error of `QueryUnescape` is folded into its result.
- `time.Now()` becomes a parameter in whole seconds. Sub-second precision of `timeAccessed` is dropped, because the Go comparison uses `Unix()` seconds.
- Memory.Provider.SessionGC: uses one `now` for the whole pass. Go reads the clock again for each element it tests (memory.go:101). A pass that crosses a second boundary can therefore evict sessions that the model, with the earlier `now`, keeps.
- The Go `error` results that are always nil (`Set`, `Delete`, `SessionDestroy`, `SessionUpdate`) are not returned.
- The `Provider` and `Session` interfaces: the manager is modelled over the in-memory provider only.
- `container/list` elements and their pointers are represented by the list of session ids.
- Memory.Provider.SessionGC: does not model int64 overflow of `timeAccessed.Unix() + maxlifetime`, because integers are unbounded here.
- Session.Manager.GenerateNewSession: Go loops forever while ids collide. The model stops after the supplied draws and then returns no session, because an unbounded loop cannot be proved to terminate.
- Session.Manager.StartSession: when no draw is fresh it returns no session and no cookie. Go would never return in that case.
- Memory.SessionStore.Get: Go returns nil both for a missing key and for a stored nil. The model returns Some(value) for any stored value.

## Findings

| source | as written | input that shows it | evidently intended | confidence | as-written member | corrected member |
|---|---|---|---|---|---|---|
| session/session.go:116 | DestroySession passes the raw, still query-escaped cookie value to SessionDestroy | Any session id containing '=': every base64url encoding of 256 random bytes ends in "==", which the cookie holds as "%3D%3D". The destroy looks up a different id, and the session survives logout. | Unescape the cookie value first, as GetSession does on line 93 | high; not executed | Session.DestroyByStartedCookieMisses | Session.Manager.DestroySessionUnescaped |
| memory/memory.go:71 | SessionInit links a new session at the back of the list, while the collection pass assumes the back holds the oldest access | Create "a" at time 0 and "b" at time 10, then collect with lifetime 5 at time 10. "b" is at the back and live, so the pass stops, and "a" (idle 10 s) is kept. | Link new sessions at the front (PushFront), so the list stays ordered by access and the pass removes every expired session | medium; not executed | Memory.StaleSessionSurvivesGc | Memory.Provider.SessionInitAtFront |

The manager calls the as-written `SessionInit` and `DestroySession`, as gosm does. The corrected members stand beside them, with their properties proved:

- `Memory.Provider.SessionInitAtFront`, with `Expiry.PushFrontKeepsRecency` and `Expiry.SortedSurvivorsAreLive`;
- `Session.Manager.DestroySessionUnescaped`, with `Session.UnescapedDestroyRemovesStarted` and `Session.StartThenDestroyUnescaped`.
