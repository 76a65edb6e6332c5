/**
 * Idle expiry of the in-memory provider: the test that decides whether a
 * session is stale, the part of the recency list a garbage-collection pass
 * keeps, and the ordering by access time that the pass relies on.
 * Times are whole seconds (`time.Time.Unix()`).
 */
module Expiry {
  import opened Orders

  /** The staleness test of `SessionGC`: strictly more than `maxlifetime` seconds idle. */
  function Expired(accessed: int, maxlifetime: int, now: int): (r: bool)
    ensures r <==> now - accessed > maxlifetime
  {
    accessed + maxlifetime < now
  }

  /** Once expired, a session stays expired as the clock moves on, and an older access is expired too. */
  lemma ExpiredStaysExpired(accessed: int, accessed': int, maxlifetime: int, now: int, later: int)
    requires Expired(accessed, maxlifetime, now) && now <= later && accessed' <= accessed
    ensures Expired(accessed', maxlifetime, later)
  {
  }

  /**
   * How many elements, counted from the front, a garbage-collection pass keeps:
   * it drops elements from the back while they are expired and stops at the
   * first one that is not. The kept part is the front, the dropped part the
   * longest expired suffix.
   */
  function Survivors(order: seq<string>, time: map<string, int>, maxlifetime: int, now: int): (n: nat)
    requires forall id :: id in order ==> id in time
    ensures n <= |order|
    ensures forall k :: n <= k < |order| ==> Expired(time[order[k]], maxlifetime, now)
    ensures n > 0 ==> !Expired(time[order[n - 1]], maxlifetime, now)
    decreases |order|
  {
    if order == [] then 0
    else if Expired(time[order[|order| - 1]], maxlifetime, now) then
      Survivors(order[..|order| - 1], time, maxlifetime, now)
    else |order|
  }

  /** The two properties of `Survivors` pin it down: the dropped suffix is exactly the longest expired one. */
  lemma SurvivorsUnique(order: seq<string>, time: map<string, int>, maxlifetime: int, now: int, m: nat)
    requires forall id :: id in order ==> id in time
    requires m <= |order|
    requires forall k :: m <= k < |order| ==> Expired(time[order[k]], maxlifetime, now)
    requires m > 0 ==> !Expired(time[order[m - 1]], maxlifetime, now)
    ensures m == Survivors(order, time, maxlifetime, now)
  {
  }

  /**
   * When the element at the back is not expired the pass removes nothing at
   * all, however stale the elements in front of it are.
   */
  lemma LiveBackShieldsExpired(order: seq<string>, time: map<string, int>, maxlifetime: int, now: int)
    requires forall id :: id in order ==> id in time
    requires order != [] && !Expired(time[order[|order| - 1]], maxlifetime, now)
    ensures Survivors(order, time, maxlifetime, now) == |order|
  {
  }

  /** Access times never increase from the front of the list to its back. */
  ghost predicate RecencySorted(order: seq<string>, time: map<string, int>) {
    && (forall id :: id in order ==> id in time)
    && (forall i, j :: 0 <= i < j < |order| ==> time[order[j]] <= time[order[i]])
  }

  /** No recorded access lies after `now`: the clock has not run backwards. */
  ghost predicate NotAfter(time: map<string, int>, now: int) {
    forall id :: id in time ==> time[id] <= now
  }

  /**
   * On a list ordered by access time, everything a pass keeps is live: the
   * pass then removes exactly the expired sessions.
   */
  lemma SortedSurvivorsAreLive(order: seq<string>, time: map<string, int>, maxlifetime: int, now: int)
    requires RecencySorted(order, time)
    ensures forall k :: 0 <= k < Survivors(order, time, maxlifetime, now) ==>
      !Expired(time[order[k]], maxlifetime, now)
  {
    var n := Survivors(order, time, maxlifetime, now);
    forall k | 0 <= k < n
      ensures !Expired(time[order[k]], maxlifetime, now)
    {
      assert time[order[n - 1]] <= time[order[k]];
    }
  }

  /**
   * Appending a new session stamped `now` at the back keeps the list ordered
   * exactly when no session already in the list was accessed before `now`.
   */
  lemma AppendKeepsRecencyIff(order: seq<string>, time: map<string, int>, sid: string, now: int)
    requires forall id :: id in order ==> id in time
    requires sid !in order
    ensures RecencySorted(order + [sid], time[sid := now]) <==>
      RecencySorted(order, time) && forall id :: id in order ==> now <= time[id]
  {
    var t := time[sid := now];
    var s := order + [sid];
    if RecencySorted(s, t) {
      forall i, j | 0 <= i < j < |order|
        ensures time[order[j]] <= time[order[i]]
      {
        assert s[i] == order[i] && s[j] == order[j];
      }
      forall id | id in order
        ensures now <= time[id]
      {
        var k :| 0 <= k < |order| && order[k] == id;
        assert s[k] == id && s[|order|] == sid;
      }
    }
    if RecencySorted(order, time) && forall id :: id in order ==> now <= time[id] {
      forall i, j | 0 <= i < j < |s|
        ensures t[s[j]] <= t[s[i]]
      {
        assert s[i] == order[i] && s[i] in order;
        if j < |order| { assert s[j] == order[j] && s[j] in order; }
      }
    }
  }

  /** Agreeing on the listed ids is all that matters for the ordering. */
  lemma RecencyTransfer(order: seq<string>, time: map<string, int>, time': map<string, int>)
    requires RecencySorted(order, time)
    requires forall id :: id in order ==> id in time' && time'[id] == time[id]
    ensures RecencySorted(order, time')
  {
  }

  /** Dropping the front element keeps the list ordered. */
  lemma TailKeepsRecency(order: seq<string>, time: map<string, int>)
    requires RecencySorted(order, time) && order != []
    ensures RecencySorted(order[1..], time)
  {
    var tail := order[1..];
    forall i, j | 0 <= i < j < |tail| ensures time[tail[j]] <= time[tail[i]] {
      assert tail[i] == order[i + 1] && tail[j] == order[j + 1];
    }
  }

  /** Putting an element in front of an ordered list keeps it ordered when nothing behind it is more recent. */
  lemma ConsKeepsRecency(h: string, e: seq<string>, time: map<string, int>)
    requires RecencySorted(e, time) && h in time
    requires forall y :: y in e ==> time[y] <= time[h]
    ensures RecencySorted([h] + e, time)
  {
    var r := [h] + e;
    forall i, j | 0 <= i < j < |r| ensures time[r[j]] <= time[r[i]] {
      assert r[j] == e[j - 1] && r[j] in e;
      if i > 0 { assert r[i] == e[i - 1]; }
    }
  }

  /** Unlinking an element keeps the list ordered. */
  lemma {:induction false} EraseKeepsRecency(order: seq<string>, time: map<string, int>, x: string)
    requires RecencySorted(order, time)
    ensures RecencySorted(Erase(order, x), time)
    decreases |order|
  {
    if order != [] {
      var tail := order[1..];
      TailKeepsRecency(order, time);
      EraseKeepsRecency(tail, time, x);
      if order[0] != x {
        var e := Erase(tail, x);
        forall y | y in e ensures time[y] <= time[order[0]] {
          var k :| 0 <= k < |tail| && tail[k] == y;
          assert order[k + 1] == y;
        }
        ConsKeepsRecency(order[0], e, time);
      }
    }
  }

  /**
   * Touching an element (stamping it `now` and moving it to the front) keeps
   * the list ordered when the clock has not run backwards.
   */
  lemma ToFrontKeepsRecency(order: seq<string>, time: map<string, int>, sid: string, now: int)
    requires RecencySorted(order, time) && NotAfter(time, now) && sid in order
    ensures RecencySorted(ToFront(order, sid), time[sid := now])
  {
    var t := time[sid := now];
    var e := Erase(order, sid);
    EraseKeepsRecency(order, time, sid);
    RecencyTransfer(e, time, t);
    var r := ToFront(order, sid);
    forall i, j | 0 <= i < j < |r| ensures t[r[j]] <= t[r[i]] {
      assert r[j] == e[j - 1] && r[j] in e;
      if i > 0 { assert r[i] == e[i - 1]; }
    }
  }

  /**
   * Inserting a new session stamped `now` at the FRONT keeps the list ordered
   * when the clock has not run backwards.
   */
  lemma PushFrontKeepsRecency(order: seq<string>, time: map<string, int>, sid: string, now: int)
    requires RecencySorted(order, time) && NotAfter(time, now) && sid !in order
    ensures RecencySorted([sid] + order, time[sid := now])
  {
    var t := time[sid := now];
    RecencyTransfer(order, time, t);
    var r := [sid] + order;
    forall i, j | 0 <= i < j < |r| ensures t[r[j]] <= t[r[i]] {
      assert r[j] == order[j - 1] && r[j] in order;
      if i > 0 { assert r[i] == order[i - 1]; }
    }
  }

  /** Cutting the list at any point keeps the front part ordered. */
  lemma PrefixKeepsRecency(order: seq<string>, time: map<string, int>, n: nat)
    requires RecencySorted(order, time) && n <= |order|
    ensures RecencySorted(order[..n], time)
  {
    forall id | id in order[..n] ensures id in time {
      var k :| 0 <= k < n && order[..n][k] == id;
      assert order[k] == id;
    }
  }

  /** Every entry of `m` is also an entry of `m0`: `m` is `m0` with some keys removed. */
  ghost predicate Agrees<T>(m: map<string, T>, m0: map<string, T>) {
    forall id :: id in m ==> id in m0 && m[id] == m0[id]
  }

  /** Removing a key keeps a map in agreement with the original. */
  lemma AgreesRemove<T>(m: map<string, T>, m0: map<string, T>, x: string)
    requires Agrees(m, m0)
    ensures Agrees(m - {x}, m0)
  {
  }

  /**
   * One step of the pass: dropping an expired back element from a prefix of
   * `o0` leaves a shorter prefix with the same stopping point.
   */
  lemma SweepStep(order: seq<string>, o0: seq<string>, t0: map<string, int>, maxlifetime: int, now: int)
    requires forall id :: id in order ==> id in t0
    requires order != [] && |order| <= |o0| && order == o0[..|order|]
    requires Expired(t0[order[|order| - 1]], maxlifetime, now)
    ensures order[..|order| - 1] == o0[..|order| - 1]
    ensures Survivors(order[..|order| - 1], t0, maxlifetime, now) == Survivors(order, t0, maxlifetime, now)
  {
  }
}

