/**
 * The in-memory session provider: a map from session id to session plus a
 * recency list of the same sessions, front = most recently touched. The Go
 * `container/list` is represented by the sequence of ids it links, in order.
 * Time is whole seconds, passed in as `now` where the source reads the clock.
 */
module Memory {
  import opened Basics
  import opened Orders
  import opened Expiry

  /** The two errors the provider returns. */
  datatype Error =
    | NotUnique  // "session sid not unique!"
    | NotValid   // "session not valid!"

  /** One session: its fixed id, its last access time and its value map, updated in place. */
  class SessionStore<K(==), V> {
    const sid: string
    var timeAccessed: int
    var value: map<K, V>
    const provider: Provider<K, V>

    constructor (sid: string, now: int, provider: Provider<K, V>)
      ensures this.sid == sid && this.provider == provider
      ensures timeAccessed == now && value == map[]
    {
      this.sid := sid;
      this.provider := provider;
      timeAccessed := now;
      value := map[];
    }

    /** Stores `v` under `key`, then touches the session. */
    method Set(key: K, v: V, now: int)
      requires provider.Valid()
      modifies this, provider, provider.Live(sid)
      ensures value == old(value)[key := v]
      ensures provider.Valid() && provider.Touched(sid, now)
      ensures forall s :: s in old(provider.Live(sid)) && s != this ==> s.value == old(s.value)
      ensures this in old(provider.Live(sid)) ==> timeAccessed == now
      ensures this !in old(provider.Live(sid)) ==> timeAccessed == old(timeAccessed)
    {
      value := value[key := v];
      provider.SessionUpdate(sid, now);
    }

    /** Touches the session, then returns the value under `key`, or None (Go's nil) if there is none. */
    method Get(key: K, now: int) returns (r: Option<V>)
      requires provider.Valid()
      modifies provider, provider.Live(sid)
      ensures key in old(value) ==> r == Some(old(value)[key])
      ensures key !in old(value) ==> r == None
      ensures value == old(value)
      ensures provider.Valid() && provider.Touched(sid, now)
      ensures forall s :: s in old(provider.Live(sid)) && s != this ==> s.value == old(s.value)
      ensures this in old(provider.Live(sid)) ==> timeAccessed == now
      ensures this !in old(provider.Live(sid)) ==> timeAccessed == old(timeAccessed)
    {
      provider.SessionUpdate(sid, now);
      if key in value {
        r := Some(value[key]);
      } else {
        r := None;
      }
    }

    /** Removes `key` (nothing happens to the map if it is absent), then touches the session. */
    method Delete(key: K, now: int)
      requires provider.Valid()
      modifies this, provider, provider.Live(sid)
      ensures value == old(value) - {key}
      ensures key !in value && forall k :: k in old(value) && k != key ==> k in value && value[k] == old(value)[k]
      ensures provider.Valid() && provider.Touched(sid, now)
      ensures forall s :: s in old(provider.Live(sid)) && s != this ==> s.value == old(s.value)
      ensures this in old(provider.Live(sid)) ==> timeAccessed == now
      ensures this !in old(provider.Live(sid)) ==> timeAccessed == old(timeAccessed)
    {
      value := value - {key};
      provider.SessionUpdate(sid, now);
    }

    /** The session's id, fixed when the session was created. */
    function SessionID(): (id: string)
      ensures id == sid
    {
      sid
    }
  }

  /** The provider: the id-to-session map and the recency list. */
  class Provider<K(==), V> {
    var sessions: map<string, SessionStore<K, V>>
    var order: seq<string>
    /** Last access time of every live session, kept equal to the sessions' own fields. */
    ghost var time: map<string, int>

    /**
     * The structural invariant: every listed id once, the listed ids are
     * exactly the map's keys, and each id maps to the session carrying it.
     */
    ghost predicate Valid()
      reads this, sessions.Values
    {
      && Distinct(order)
      && (forall id :: id in sessions <==> id in order)
      && time.Keys == sessions.Keys
      && (forall id :: id in sessions ==>
            sessions[id].sid == id && sessions[id].provider == this && sessions[id].timeAccessed == time[id])
    }

    /** The session object a touch of `sid` may change. */
    function Live(sid: string): set<SessionStore<K, V>>
      reads this
    {
      if sid in sessions then {sessions[sid]} else {}
    }

    /** The effect of touching `sid` at `now` on the provider. */
    twostate predicate Touched(sid: string, now: int)
      reads this
    {
      && sessions == old(sessions)
      && (sid in old(sessions) ==> order == ToFront(old(order), sid) && time == old(time)[sid := now])
      && (sid !in old(sessions) ==> order == old(order) && time == old(time))
    }

    /** NewProvider. */
    constructor ()
      ensures Valid() && order == [] && sessions == map[]
    {
      sessions := map[];
      order := [];
      time := map[];
    }

    /**
     * Creates session `sid` at `now` and links it at the BACK of the list, or
     * fails without any change when `sid` is already live.
     */
    method SessionInit(sid: string, now: int) returns (r: Result<SessionStore<K, V>, Error>)
      requires Valid()
      modifies this
      ensures Valid()
      ensures sid in old(sessions) ==> r == Err(NotUnique) && order == old(order) && sessions == old(sessions)
      ensures sid !in old(sessions) ==>
        && r.Ok? && fresh(r.value)
        && r.value.sid == sid && r.value.timeAccessed == now && r.value.value == map[] && r.value.provider == this
        && order == old(order) + [sid] && sessions == old(sessions)[sid := r.value]
      ensures time == if sid in old(sessions) then old(time) else old(time)[sid := now]
    {
      if sid in sessions {
        return Err(NotUnique);
      }
      var s := new SessionStore(sid, now, this);
      AppendKeepsIds(order, sessions.Keys, sessions.Keys + {sid}, sid);
      order := order + [sid];
      sessions := sessions[sid := s];
      time := time[sid := now];
      r := Ok(s);
    }

    /**
     * `SessionInit` with the new session linked at the FRONT of the list, the
     * place the eviction pass assumes: it keeps the list ordered by access time.
     */
    method SessionInitAtFront(sid: string, now: int) returns (r: Result<SessionStore<K, V>, Error>)
      requires Valid()
      modifies this
      ensures Valid()
      ensures sid in old(sessions) ==> r == Err(NotUnique) && order == old(order) && sessions == old(sessions)
      ensures sid !in old(sessions) ==>
        && r.Ok? && fresh(r.value)
        && r.value.sid == sid && r.value.timeAccessed == now && r.value.value == map[] && r.value.provider == this
        && order == [sid] + old(order) && sessions == old(sessions)[sid := r.value]
      ensures time == if sid in old(sessions) then old(time) else old(time)[sid := now]
      ensures RecencySorted(old(order), old(time)) && NotAfter(old(time), now) ==> RecencySorted(order, time)
    {
      if sid in sessions {
        return Err(NotUnique);
      }
      var s := new SessionStore(sid, now, this);
      PushFrontKeepsIds(order, sessions.Keys, sessions.Keys + {sid}, sid);
      order := [sid] + order;
      sessions := sessions[sid := s];
      time := time[sid := now];
      if RecencySorted(old(order), old(time)) && NotAfter(old(time), now) {
        PushFrontKeepsRecency(old(order), old(time), sid, now);
      }
      r := Ok(s);
    }

    /** Looks `sid` up; reads nothing else and changes nothing. */
    method SessionRead(sid: string) returns (r: Result<SessionStore<K, V>, Error>)
      requires Valid()
      ensures r.Ok? <==> sid in order
      ensures r.Ok? ==> r.value == sessions[sid] && r.value.sid == sid
      ensures r.Err? ==> r.error == NotValid
    {
      if sid in sessions {
        return Ok(sessions[sid]);
      }
      return Err(NotValid);
    }

    /** Unlinks and forgets `sid` if it is live; does nothing otherwise. */
    method SessionDestroy(sid: string)
      requires Valid()
      modifies this
      ensures Valid()
      ensures order == Erase(old(order), sid)
      ensures sessions == old(sessions) - {sid}
      ensures time == old(time) - {sid}
      ensures RecencySorted(old(order), old(time)) ==> RecencySorted(order, time)
    {
      if sid in sessions {
        sessions := sessions - {sid};
        order := Erase(order, sid);
        time := time - {sid};
        if RecencySorted(old(order), old(time)) {
          EraseKeepsRecency(old(order), old(time), sid);
          RecencyTransfer(order, old(time), time);
        }
      }
    }

    /** Removes the session at the back of the list from both the list and the map. */
    method EvictBack()
      requires Valid() && order != []
      modifies this
      ensures Valid()
      ensures order == old(order)[..|old(order)| - 1]
      ensures sessions == old(sessions) - {old(order)[|old(order)| - 1]}
      ensures time == old(time) - {old(order)[|old(order)| - 1]}
    {
      var back := order[|order| - 1];
      DropBackKeepsIds(order, sessions.Keys, sessions.Keys - {back});
      order := order[..|order| - 1];
      sessions := sessions - {back};
      time := time - {back};
    }

    /**
     * Evicts from the back of the list while the back session is expired,
     * stopping at the first one that is not.
     */
    method SessionGC(maxlifetime: int, now: int)
      requires Valid()
      modifies this
      ensures Valid()
      ensures order == old(order)[..Survivors(old(order), old(time), maxlifetime, now)]
      ensures Agrees(time, old(time)) && Agrees(sessions, old(sessions))
      ensures |order| == |old(order)| ==> time == old(time) && sessions == old(sessions)
      ensures RecencySorted(old(order), old(time)) ==> RecencySorted(order, time)
    {
      ghost var t0 := time;
      ghost var n := Survivors(order, t0, maxlifetime, now);
      while order != []
        invariant Valid()
        invariant |order| <= |old(order)| && order == old(order)[..|order|]
        invariant Agrees(time, t0) && Agrees(sessions, old(sessions))
        invariant |order| == |old(order)| ==> time == t0 && sessions == old(sessions)
        invariant Survivors(order, t0, maxlifetime, now) == n
        decreases |order|
      {
        var back := order[|order| - 1];
        if sessions[back].timeAccessed + maxlifetime < now {
          SweepStep(order, old(order), t0, maxlifetime, now);
          AgreesRemove(time, t0, back);
          AgreesRemove(sessions, old(sessions), back);
          EvictBack();
        } else {
          break;
        }
      }
      if RecencySorted(old(order), old(time)) {
        PrefixKeepsRecency(old(order), old(time), |order|);
        RecencyTransfer(order, old(time), time);
      }
    }

    /** The first half of a touch: the live session `sid` gets access time `now`; the list is not yet moved. */
    method Stamp(sid: string, now: int)
      requires Valid() && sid in sessions
      modifies this, sessions[sid]
      ensures Valid()
      ensures sessions == old(sessions) && order == old(order) && time == old(time)[sid := now]
      ensures sessions[sid].value == old(sessions[sid].value)
    {
      var s := sessions[sid];
      s.timeAccessed := now;
      time := time[sid := now];
      assert time.Keys == sessions.Keys;
      forall id | id in sessions
        ensures sessions[id].timeAccessed == time[id]
      {
        if id != sid {
          assert sessions[id].sid != s.sid;
        }
      }
    }

    /** The second half of a touch: the live session `sid` moves to the front of the list. */
    method Relink(sid: string)
      requires Valid() && sid in sessions
      modifies this
      ensures Valid()
      ensures sessions == old(sessions) && time == old(time) && order == ToFront(old(order), sid)
    {
      ToFrontKeepsIds(order, sessions.Keys, sid);
      order := ToFront(order, sid);
    }

    /**
     * Touches `sid`: stamps it `now` and moves it to the front; does nothing
     * when `sid` is not live, so a destroyed or evicted id stays gone.
     */
    method SessionUpdate(sid: string, now: int)
      requires Valid()
      modifies this, Live(sid)
      ensures Valid() && Touched(sid, now)
      ensures sid in old(sessions) ==> sessions[sid].value == old(sessions[sid].value)
      ensures sid in old(sessions) && NotAfter(old(time), now) ==>
        order[0] == sid && forall id :: id in time ==> time[id] <= time[order[0]]
      ensures RecencySorted(old(order), old(time)) && NotAfter(old(time), now) ==>
        RecencySorted(order, time)
    {
      if sid in sessions {
        Stamp(sid, now);
        Relink(sid);
        if RecencySorted(old(order), old(time)) && NotAfter(old(time), now) {
          ToFrontKeepsRecency(old(order), old(time), sid, now);
        }
      }
    }
  }

  /**
   * The id a live store reports is the key the provider files it under, so
   * `SessionUpdate(st.sid)` from a store method reaches that same store.
   */
  lemma SessionIdIsKey<K, V>(p: Provider<K, V>, st: SessionStore<K, V>)
    requires p.Valid() && st in p.sessions.Values
    ensures st.SessionID() in p.sessions && p.sessions[st.SessionID()] == st
    ensures p.Live(st.SessionID()) == {st}
  {
    var id :| id in p.sessions && p.sessions[id] == st;
  }

  /**
   * Two sessions created ten seconds apart, then a pass with a five-second
   * lifetime at the second one's creation time: the first session is expired
   * but survives, because the newer one was linked behind it.
   */
  method StaleSessionSurvivesGc() returns (p: Provider<string, string>)
    ensures p.Valid() && p.order == ["a", "b"]
    ensures Expired(p.time["a"], 5, 10) && !Expired(p.time["b"], 5, 10)
  {
    p := CreateTwoSessions();
    ghost var order, time := p.order, p.time;
    LiveBackShieldsExpired(order, time, 5, 10);
    p.SessionGC(5, 10);
    assert p.order == order[..|order|] == order;
  }

  /** Session "a" created at time 0, then session "b" at time 10, in a new provider. */
  method CreateTwoSessions() returns (p: Provider<string, string>)
    ensures fresh(p) && p.Valid() && p.order == ["a", "b"] && p.time == map["a" := 0, "b" := 10]
  {
    p := new Provider();
    var a := p.SessionInit("a", 0);
    var b := p.SessionInit("b", 10);
  }
}
