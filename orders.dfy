/**
 * The recency list of the in-memory provider, viewed as the sequence of the
 * session ids it holds, front (most recently touched) at index 0.
 * `Erase` is what `list.Remove(element)` does to that sequence and `ToFront`
 * what `list.MoveToFront(element)` does.
 */
module Orders {

  /** No id occurs twice in the list. */
  ghost predicate Distinct(s: seq<string>) {
    forall i, j :: 0 <= i < j < |s| ==> s[i] != s[j]
  }

  /** The list with the element carrying `x` unlinked (every occurrence, of which a valid list has at most one). */
  function Erase(s: seq<string>, x: string): (r: seq<string>)
    ensures forall y :: y in r <==> y in s && y != x
    ensures x !in s ==> r == s
    ensures Distinct(s) ==> Distinct(r)
    ensures Distinct(s) && x in s ==> |r| == |s| - 1
  {
    if s == [] then []
    else
      assert Distinct(s) ==> Distinct(s[1..]) && s[0] !in s[1..];
      if s[0] == x then Erase(s[1..], x)
      else [s[0]] + Erase(s[1..], x)
  }

  /** The list with the element carrying `x` moved to the front. */
  function ToFront(s: seq<string>, x: string): (r: seq<string>)
    ensures |r| > 0 && r[0] == x
    ensures forall y :: y in r <==> y == x || y in s
    ensures Distinct(s) ==> Distinct(r)
  {
    [x] + Erase(s, x)
  }

  /** Moving a listed id to the front keeps a duplicate-free list listing exactly `ids`. */
  lemma ToFrontKeepsIds(s: seq<string>, ids: set<string>, x: string)
    requires Distinct(s) && (forall y :: y in ids <==> y in s) && x in s
    ensures Distinct(ToFront(s, x)) && forall y :: y in ids <==> y in ToFront(s, x)
  {
    ToFrontPermutes(s, x);
  }

  /** Linking a new id at the back keeps a duplicate-free list, now listing `ids'`, which is `ids` plus that id. */
  lemma AppendKeepsIds(s: seq<string>, ids: set<string>, ids': set<string>, x: string)
    requires Distinct(s) && (forall y :: y in ids <==> y in s) && x !in s
    requires ids' == ids + {x}
    ensures Distinct(s + [x])
    ensures forall y :: y in ids' <==> y in s + [x]
  {
  }

  /** Linking a new id at the front keeps a duplicate-free list, now listing `ids'`, which is `ids` plus that id. */
  lemma PushFrontKeepsIds(s: seq<string>, ids: set<string>, ids': set<string>, x: string)
    requires Distinct(s) && (forall y :: y in ids <==> y in s) && x !in s
    requires ids' == ids + {x}
    ensures Distinct([x] + s)
    ensures forall y :: y in ids' <==> y in [x] + s
  {
  }

  /** Unlinking the back element keeps a duplicate-free list, now listing `ids` without that element's id. */
  lemma DropBackKeepsIds(s: seq<string>, ids: set<string>, rest: set<string>)
    requires Distinct(s) && (forall y :: y in ids <==> y in s) && s != []
    requires rest == ids - {s[|s| - 1]}
    ensures Distinct(s[..|s| - 1])
    ensures forall y :: y in rest <==> y in s[..|s| - 1]
  {
    var t := s[..|s| - 1];
    assert s == t + [s[|s| - 1]];
    forall y | y in t ensures y != s[|s| - 1] {
      var k :| 0 <= k < |t| && t[k] == y;
      assert s[k] == y;
    }
  }

  /** In a list without duplicates, unlinking the element at `i` closes the gap and keeps everything else in its place. */
  lemma {:induction false} EraseAt(s: seq<string>, i: nat)
    requires Distinct(s) && i < |s|
    ensures Erase(s, s[i]) == s[..i] + s[i + 1..]
  {
    if i == 0 {
      assert s[0] !in s[1..];
      assert s[..0] + s[1..] == s[1..];
    } else {
      assert Distinct(s[1..]);
      EraseAt(s[1..], i - 1);
      assert s[1..][i - 1] == s[i];
      assert s[1..][..i - 1] + s[1..][i..] == s[1..i] + s[i + 1..];
      assert s[..i] + s[i + 1..] == [s[0]] + (s[1..i] + s[i + 1..]);
    }
  }

  /** Unlinking an id a second time changes nothing: destroying is idempotent. */
  lemma EraseIdempotent(s: seq<string>, x: string)
    ensures Erase(Erase(s, x), x) == Erase(s, x)
  {
  }

  /**
   * Moving `x` to the front keeps the ids, keeps the list free of duplicates and
   * leaves the relative order of every other id as it was.
   */
  lemma ToFrontPermutes(s: seq<string>, x: string)
    requires Distinct(s) && x in s
    ensures Distinct(ToFront(s, x)) && |ToFront(s, x)| == |s|
    ensures forall y :: y in ToFront(s, x) <==> y in s
    ensures ToFront(s, x)[0] == x
    ensures Erase(ToFront(s, x), x) == Erase(s, x)
  {
    var r := ToFront(s, x);
    assert r[1..] == Erase(s, x);
  }
}
