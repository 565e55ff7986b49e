/**
 * Helpers shared by every persistent table of the model: each table is a
 * map from its numeric ID column to the row, and the queries the Java code
 * runs through JPA are written as set comprehensions over that map.
 */
module Tables {
  import opened Wrappers

  /** IDs are drawn from the database sequence `dp_sequence`, which starts at 100000. */
  const FirstId: int := 100000

  predicate IsMax(s: set<int>, m: int) {
    m in s && forall x :: x in s ==> x <= m
  }

  predicate IsMin(s: set<int>, m: int) {
    m in s && forall x :: x in s ==> m <= x
  }

  /** Every finite non-empty set of integers has a greatest element. */
  lemma {:induction false} MaxExists(s: set<int>)
    requires s != {}
    ensures exists m :: IsMax(s, m)
  {
    NonEmptyHasElement(s);
    var x :| x in s;
    if s == {x} {
      assert IsMax(s, x);
    } else {
      var rest := s - {x};
      assert s == rest + {x};
      MaxExists(rest);
      var m :| IsMax(rest, m);
      if x <= m {
        assert IsMax(s, m);
      } else {
        assert IsMax(s, x);
      }
    }
  }

  /** Every finite non-empty set of integers has a least element. */
  lemma {:induction false} MinExists(s: set<int>)
    requires s != {}
    ensures exists m :: IsMin(s, m)
  {
    NonEmptyHasElement(s);
    var x :| x in s;
    if s == {x} {
      assert IsMin(s, x);
    } else {
      var rest := s - {x};
      assert s == rest + {x};
      MinExists(rest);
      var m :| IsMin(rest, m);
      if m <= x {
        assert IsMin(s, m);
      } else {
        assert IsMin(s, x);
      }
    }
  }

  lemma NonEmptyHasElement(s: set<int>)
    requires s != {}
    ensures exists x :: x in s
  {
    if forall y :: y !in s {
      assert false;
    }
  }

  function MaxOf(s: set<int>): (m: int)
    requires s != {}
    ensures IsMax(s, m)
  {
    MaxExists(s);
    var m :| IsMax(s, m);
    m
  }

  function MinOf(s: set<int>): (m: int)
    requires s != {}
    ensures IsMin(s, m)
  {
    MinExists(s);
    var m :| IsMin(s, m);
    m
  }

  /**
   * The ID the shared sequence `dp_sequence` hands out when its next value
   * is `next`: never below `next` nor the initial value, and above every
   * live key, so no ID is issued twice. The caller's sequence continues
   * from the returned ID plus one.
   */
  function FreshId(used: set<int>, next: int): (k: int)
    ensures k !in used
    ensures FirstId <= k && next <= k
    ensures forall x :: x in used ==> x < k
  {
    var floor := if next < FirstId then FirstId else next;
    if used == {} then floor
    else
      var m := MaxOf(used);
      if m < floor then floor else m + 1
  }

  /** The sequence is ahead of a table: every live key was issued before `next`. */
  predicate InStep(used: set<int>, next: int) {
    FirstId <= next && forall x :: x in used ==> x < next
  }

  /** With the sequence ahead of the table, the new ID is exactly the sequence's next value. */
  lemma FreshIdIsNext(used: set<int>, next: int)
    requires InStep(used, next)
    ensures FreshId(used, next) == next
  {
    if used != {} {
      assert MaxOf(used) in used;
    }
  }

  /**
   * JPA's `getSingleResult` behind a catch-all: exactly one matching row
   * yields it; no row (NoResultException) and several rows
   * (NonUniqueResultException, caught by the caller's handler) both yield null.
   */
  function Only(s: set<int>): (r: Option<int>)
    ensures r.Some? <==> |s| == 1
    ensures r.Some? ==> s == {r.value}
  {
    if |s| == 1 then
      var m := MinOf(s);
      SingletonIs(s, m);
      Some(m)
    else None
  }

  lemma SingletonIs(s: set<int>, x: int)
    requires |s| == 1 && x in s
    ensures s == {x}
  {
    assert |s - {x}| == 0;
  }

  /**
   * A row of `m` among `keys` whose score is greatest, as an `order by ...
   * desc` query limited to one result returns it. Rows tied on the score
   * come back in an order the database picks; the model takes the least key.
   */
  function ArgMax<V>(m: map<int, V>, keys: set<int>, score: V -> int): (k: int)
    requires keys != {} && keys <= m.Keys
    ensures k in keys
    ensures forall j :: j in keys ==> score(m[j]) <= score(m[k])
  {
    var scores := set j | j in keys :: score(m[j]);
    ScoresNonEmpty(m, keys, score);
    var best := MaxOf(scores);
    var tied := set j | j in keys && score(m[j]) == best;
    TiedNonEmpty(m, keys, score, best);
    var k := MinOf(tied);
    assert forall j :: j in keys ==> score(m[j]) in scores;
    k
  }

  lemma ScoresNonEmpty<V>(m: map<int, V>, keys: set<int>, score: V -> int)
    requires keys != {} && keys <= m.Keys
    ensures (set j | j in keys :: score(m[j])) != {}
  {
    NonEmptyHasElement(keys);
    var i :| i in keys;
    var scores := set j | j in keys :: score(m[j]);
    assert score(m[i]) in scores;
  }

  lemma TiedNonEmpty<V>(m: map<int, V>, keys: set<int>, score: V -> int, best: int)
    requires keys <= m.Keys
    requires best in (set j | j in keys :: score(m[j]))
    ensures (set j | j in keys && score(m[j]) == best) != {}
  {
    var i :| i in keys && score(m[i]) == best;
    var tied := set j | j in keys && score(m[j]) == best;
    assert i in tied;
  }

  lemma OnlyMember(s: set<int>, x: int)
    requires x in s
    requires forall y :: y in s ==> y == x
    ensures |s| == 1
  {
    assert forall y :: y in s <==> y in {x};
    assert s == {x};
  }

  /** Two tables agree everywhere except, possibly, at `key`. */
  ghost predicate SameExcept<V>(m1: map<int, V>, m2: map<int, V>, key: int) {
    forall k :: k != key ==> (k in m1 <==> k in m2) && (k in m1 ==> m1[k] == m2[k])
  }
}
