/**
 * The session manager: issuing a new session under a fresh random id, and
 * deciding which id a request's cookie hands to the provider.
 *
 * The request's session cookie is an `Option<string>` (None: the request has
 * no cookie of the manager's name). `url.QueryEscape` and `url.QueryUnescape`
 * are the two functions of a `UrlCodec`. The random source is a sequence of
 * draws, one per call of `sessionId`, each the base64url text of the random
 * bytes or None when reading them failed. Time is whole seconds, passed in.
 */
module Session {
  import opened Basics
  import opened Orders
  import opened Expiry
  import opened Memory

  /** `url.QueryEscape`, and `url.QueryUnescape` with its error dropped (Go then yields ""). */
  datatype UrlCodec = UrlCodec(escape: string -> string, unescape: string -> string)

  /**
   * What the model relies on about query escaping: unescaping undoes
   * escaping, the empty string escapes to itself, and `=` never survives
   * escaping (it becomes `%3D`).
   */
  ghost predicate QueryCodec(url: UrlCodec) {
    && (forall s :: url.unescape(url.escape(s)) == s)
    && url.escape("") == ""
    && (forall s :: '=' !in url.escape(s))
  }

  /**
   * `sessionId`: the id made from one draw of the random source, and whether
   * reading the source failed; a failed read yields the id "".
   */
  function SessionId(draw: Option<string>): (r: (string, bool))
    ensures r.1 <==> draw.None?
    ensures r.1 ==> r.0 == ""
    ensures !r.1 ==> r.0 == draw.value
  {
    match draw
    case None => ("", true)
    case Some(token) => (token, false)
  }

  /**
   * Where the retry loop of `generateNewSession` stops: the index of the first
   * draw whose id is not live, or None when every draw collides.
   */
  function FirstFresh(draws: seq<Option<string>>, live: set<string>): (k: Option<nat>)
    ensures k.Some? ==> k.value < |draws| && SessionId(draws[k.value]).0 !in live
    ensures k.Some? ==> forall j :: 0 <= j < k.value ==> SessionId(draws[j]).0 in live
    ensures k.None? ==> forall j :: 0 <= j < |draws| ==> SessionId(draws[j]).0 in live
  {
    if draws == [] then None
    else if SessionId(draws[0]).0 !in live then Some(0)
    else
      match FirstFresh(draws[1..], live)
      case None => None
      case Some(k) => Some(k + 1)
  }

  /**
   * A failed read of the random source still issues a session, under the id
   * "", as long as no session with that id is live.
   */
  lemma FailedDrawIssuesEmptyId(draws: seq<Option<string>>, live: set<string>)
    requires draws != [] && draws[0].None? && "" !in live
    ensures FirstFresh(draws, live) == Some(0) && SessionId(draws[0]) == ("", true)
  {
  }

  /**
   * Once a session with id "" is live, failed reads of the random source can
   * never produce a new session: each offers "" again and collides.
   */
  lemma FailedDrawsCollideWithEmptyId(draws: seq<Option<string>>, live: set<string>)
    requires "" in live
    requires forall j :: 0 <= j < |draws| ==> draws[j].None?
    ensures FirstFresh(draws, live).None?
  {
  }

  /** The id `GetSession` asks the provider for: none without a non-empty cookie, else the unescaped cookie value. */
  function RequestedSid(cookie: Option<string>, url: UrlCodec): (r: Option<string>)
    ensures r.Some? <==> cookie.Some? && cookie.value != ""
  {
    if cookie.None? || cookie.value == "" then None
    else Some(url.unescape(cookie.value))
  }

  /** The id `DestroySession` asks the provider to destroy: none without a non-empty cookie, else the raw cookie value. */
  function DestroyedSid(cookie: Option<string>): (r: Option<string>)
    ensures r.Some? <==> cookie.Some? && cookie.value != ""
  {
    if cookie.None? || cookie.value == "" then None
    else Some(cookie.value)
  }

  /** The cookie `StartSession` sets for a non-empty id leads `GetSession` back to that id. */
  lemma StartedCookieResolves(sid: string, url: UrlCodec)
    requires QueryCodec(url) && sid != ""
    ensures RequestedSid(Some(url.escape(sid)), url) == Some(sid)
  {
    assert url.unescape(url.escape(sid)) == sid && url.unescape(url.escape("")) == "";
  }

  /**
   * The session created after a failed read of the random source has id "";
   * its cookie is empty, so neither `GetSession` nor `DestroySession` ever
   * reaches it.
   */
  lemma EmptyIdCookieIgnored(url: UrlCodec)
    requires QueryCodec(url)
    ensures RequestedSid(Some(url.escape("")), url) == None
    ensures DestroyedSid(Some(url.escape(""))) == None
  {
  }

  /**
   * `DestroySession` with the cookie `StartSession` set for an id containing
   * `=` (every base64url id of 256 random bytes ends in `==`) names a different
   * id, so the session stays in the list.
   */
  lemma DestroyByStartedCookieMisses(order: seq<string>, sid: string, url: UrlCodec)
    requires QueryCodec(url) && '=' in sid && sid in order
    ensures DestroyedSid(Some(url.escape(sid))) == Some(url.escape(sid))
    ensures url.escape(sid) != sid
    ensures sid in Erase(order, url.escape(sid))
  {
    assert '=' !in url.escape(sid);
  }

  /** Destroying by the unescaped cookie value, as `GetSession` reads it, removes the started session. */
  lemma UnescapedDestroyRemovesStarted(order: seq<string>, sid: string, url: UrlCodec)
    requires QueryCodec(url) && sid != ""
    ensures RequestedSid(Some(url.escape(sid)), url) == Some(sid)
    ensures sid !in Erase(order, sid)
  {
    StartedCookieResolves(sid, url);
  }

  /** The manager: cookie name, idle lifetime in seconds, and the provider it drives. */
  class Manager<K(==), V> {
    const cookieName: string
    const maxlifetime: int
    const provider: Provider<K, V>

    /** NewManager. */
    constructor (provider: Provider<K, V>, cookieName: string, maxlifetime: int)
      ensures this.provider == provider && this.cookieName == cookieName && this.maxlifetime == maxlifetime
    {
      this.provider := provider;
      this.cookieName := cookieName;
      this.maxlifetime := maxlifetime;
    }

    /**
     * `generateNewSession`: offers the id of one draw after another to
     * `SessionInit` until one is accepted. The read error is ignored, so a
     * failed draw still offers "".
     */
    method GenerateNewSession(draws: seq<Option<string>>, now: int) returns (session: Option<SessionStore<K, V>>, sid: string)
      requires provider.Valid()
      modifies provider
      ensures provider.Valid()
      ensures session.Some? <==> FirstFresh(draws, old(provider.sessions).Keys).Some?
      ensures session.Some? ==>
        && sid == SessionId(draws[FirstFresh(draws, old(provider.sessions).Keys).value]).0
        && sid !in old(provider.sessions) && fresh(session.value)
        && session.value.sid == sid && session.value.timeAccessed == now && session.value.value == map[]
        && provider.order == old(provider.order) + [sid]
        && provider.sessions == old(provider.sessions)[sid := session.value]
        && provider.time == old(provider.time)[sid := now]
      ensures session.None? ==>
        provider.order == old(provider.order) && provider.sessions == old(provider.sessions) && provider.time == old(provider.time)
    {
      var i := 0;
      while i < |draws|
        invariant 0 <= i <= |draws|
        invariant provider.Valid()
        invariant provider.order == old(provider.order) && provider.sessions == old(provider.sessions)
        invariant provider.time == old(provider.time)
        invariant forall j :: 0 <= j < i ==> SessionId(draws[j]).0 in old(provider.sessions)
      {
        var (candidate, _) := SessionId(draws[i]);
        var r := provider.SessionInit(candidate, now);
        if r.Ok? {
          return Some(r.value), candidate;
        }
        i := i + 1;
      }
      return None, "";
    }

    /**
     * `StartSession`: creates a session under a fresh id and returns it with the
     * value of the cookie it sets, the escaped id.
     */
    method StartSession(draws: seq<Option<string>>, now: int, url: UrlCodec)
      returns (session: Option<SessionStore<K, V>>, cookie: Option<string>)
      requires provider.Valid()
      modifies provider
      ensures provider.Valid()
      ensures session.Some? <==> FirstFresh(draws, old(provider.sessions).Keys).Some?
      ensures session.Some? ==>
        && session.value.sid == SessionId(draws[FirstFresh(draws, old(provider.sessions).Keys).value]).0
        && cookie == Some(url.escape(session.value.sid))
        && session.value.sid !in old(provider.sessions) && fresh(session.value)
        && session.value.timeAccessed == now && session.value.value == map[]
        && provider.sessions == old(provider.sessions)[session.value.sid := session.value]
        && provider.order == old(provider.order) + [session.value.sid]
        && provider.time == old(provider.time)[session.value.sid := now]
      ensures session.None? ==>
        && cookie.None?
        && provider.order == old(provider.order) && provider.sessions == old(provider.sessions)
        && provider.time == old(provider.time)
    {
      var sid;
      session, sid := GenerateNewSession(draws, now);
      if session.Some? {
        cookie := Some(url.escape(sid));
      } else {
        cookie := None;
      }
    }

    /**
     * `GetSession`: the live session the cookie names after unescaping, or
     * None when there is no non-empty cookie or no such session.
     */
    method GetSession(cookie: Option<string>, url: UrlCodec) returns (session: Option<SessionStore<K, V>>)
      requires provider.Valid()
      ensures cookie.None? || cookie.value == "" ==> session.None?
      ensures cookie.Some? && cookie.value != "" ==>
        (session.Some? <==> url.unescape(cookie.value) in provider.order)
      ensures session.Some? ==>
        && RequestedSid(cookie, url) == Some(session.value.sid)
        && provider.sessions[session.value.sid] == session.value
    {
      if cookie.None? || cookie.value == "" {
        return None;
      }
      var sid := url.unescape(cookie.value);
      var r := provider.SessionRead(sid);
      if r.Err? {
        return None;
      }
      return Some(r.value);
    }

    /**
     * `DestroySession`: destroys the session named by the RAW cookie value and
     * answers with a clearing cookie; does nothing without a non-empty cookie.
     */
    method DestroySession(cookie: Option<string>) returns (clearsCookie: bool)
      requires provider.Valid()
      modifies provider
      ensures provider.Valid()
      ensures clearsCookie <==> cookie.Some? && cookie.value != ""
      ensures DestroyedSid(cookie).None? ==>
        provider.order == old(provider.order) && provider.sessions == old(provider.sessions)
      ensures DestroyedSid(cookie).Some? ==>
        && provider.order == Erase(old(provider.order), cookie.value)
        && provider.sessions == old(provider.sessions) - {cookie.value}
    {
      if cookie.None? || cookie.value == "" {
        return false;
      }
      provider.SessionDestroy(cookie.value);
      clearsCookie := true;
    }

    /** `DestroySession` unescaping the cookie value first, as `GetSession` does. */
    method DestroySessionUnescaped(cookie: Option<string>, url: UrlCodec) returns (clearsCookie: bool)
      requires provider.Valid()
      modifies provider
      ensures provider.Valid()
      ensures clearsCookie <==> cookie.Some? && cookie.value != ""
      ensures RequestedSid(cookie, url).None? ==>
        provider.order == old(provider.order) && provider.sessions == old(provider.sessions)
      ensures RequestedSid(cookie, url).Some? ==>
        && provider.order == Erase(old(provider.order), RequestedSid(cookie, url).value)
        && provider.sessions == old(provider.sessions) - {RequestedSid(cookie, url).value}
    {
      if cookie.None? || cookie.value == "" {
        return false;
      }
      provider.SessionDestroy(url.unescape(cookie.value));
      clearsCookie := true;
    }

    /** `GC`: one eviction pass of the provider with the manager's lifetime. */
    method GC(now: int)
      requires provider.Valid()
      modifies provider
      ensures provider.Valid()
      ensures provider.order ==
        old(provider.order)[..Survivors(old(provider.order), old(provider.time), maxlifetime, now)]
      ensures forall id :: id in provider.sessions ==>
        id in old(provider.sessions) && provider.sessions[id] == old(provider.sessions)[id]
    {
      provider.SessionGC(maxlifetime, now);
    }
  }

  /**
   * A session started and then looked up with the cookie it set: found again,
   * unless its id is "" (a failed read of the random source).
   */
  method StartThenGet<K(==), V>(m: Manager<K, V>, draws: seq<Option<string>>, now: int, url: UrlCodec)
    returns (started: Option<SessionStore<K, V>>, found: Option<SessionStore<K, V>>)
    requires QueryCodec(url) && m.provider.Valid()
    modifies m.provider
    ensures started.Some? ==> (found == started <==> started.value.sid != "")
  {
    var cookie;
    started, cookie := m.StartSession(draws, now, url);
    if started.Some? {
      var sid := started.value.sid;
      if sid != "" {
        StartedCookieResolves(sid, url);
      } else {
        EmptyIdCookieIgnored(url);
      }
    }
    found := m.GetSession(cookie, url);
  }

  /**
   * A session started under an id containing `=`, then destroyed with the
   * cookie it set: it is still live afterwards.
   */
  method StartThenDestroy<K(==), V>(m: Manager<K, V>, draws: seq<Option<string>>, now: int, url: UrlCodec)
    returns (started: Option<SessionStore<K, V>>)
    requires QueryCodec(url) && m.provider.Valid()
    modifies m.provider
    ensures started.Some? && '=' in started.value.sid ==> started.value.sid in m.provider.sessions
  {
    var cookie;
    started, cookie := m.StartSession(draws, now, url);
    if started.Some? && '=' in started.value.sid {
      DestroyByStartedCookieMisses(m.provider.order, started.value.sid, url);
    }
    var cleared := m.DestroySession(cookie);
  }

  /**
   * The same sequence with the corrected destroy: the started session is gone
   * afterwards, unless its id is "" (whose cookie is empty).
   */
  method StartThenDestroyUnescaped<K(==), V>(m: Manager<K, V>, draws: seq<Option<string>>, now: int, url: UrlCodec)
    returns (started: Option<SessionStore<K, V>>)
    requires QueryCodec(url) && m.provider.Valid()
    modifies m.provider
    ensures started.Some? && started.value.sid != "" ==> started.value.sid !in m.provider.sessions
  {
    var cookie;
    started, cookie := m.StartSession(draws, now, url);
    if started.Some? && started.value.sid != "" {
      UnescapedDestroyRemovesStarted(m.provider.order, started.value.sid, url);
    }
    var cleared := m.DestroySessionUnescaped(cookie, url);
  }
}
