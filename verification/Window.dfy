/** `ORDER BY timestamp LIMIT n`: which rows such a read may return.  Rows that tie at the cut are
    the engine's to choose, so this is a predicate and not a function. */
module Window {

  type Id = string

  type Times = map<Id, int>

  /** Which rows a read hands over of those it was to return: all of them, none when the query fails,
      and some when it breaks off or a row does not decode.  The store reports no difference. */
  type Keeps = Id -> bool

  ghost predicate ReadWhole(keeps: Keeps) { forall id :: keeps(id) }

  ghost predicate ReadFailed(keeps: Keeps) { forall id :: !keeps(id) }

  function Handed(win: set<Id>, keeps: Keeps): set<Id> { set id | id in win && keeps(id) }

  ghost predicate NoLaterThan(times: Times, win: set<Id>, others: set<Id>)
    requires win <= times.Keys && others <= times.Keys
  {
    forall w, k | w in win && k in others :: times[w] <= times[k]
  }

  /** The `limit` earliest rows, or all of them. */
  ghost predicate IsEarliest(times: Times, limit: nat, win: set<Id>) {
    && win <= times.Keys
    && |win| == (if |times| < limit then |times| else limit)
    && NoLaterThan(times, win, times.Keys - win)
  }

  /** The `limit` latest rows, or all of them. */
  ghost predicate IsLatest(times: Times, limit: nat, win: set<Id>) {
    && win <= times.Keys
    && |win| == (if |times| < limit then |times| else limit)
    && NoLaterThan(times, times.Keys - win, win)
  }

  lemma {:induction false} EarliestExists(times: Times, ids: set<Id>) returns (m: Id)
    requires ids != {} && ids <= times.Keys
    ensures m in ids && forall k | k in ids :: times[m] <= times[k]
    decreases |ids|
  {
    m :| m in ids;
    if ids - {m} != {} {
      var n := EarliestExists(times, ids - {m});
      if times[n] < times[m] {
        m := n;
      }
    }
  }

  /** One such read, built by taking the earliest remaining row each time. */
  method Earliest(times: Times, limit: nat) returns (win: set<Id>)
    ensures IsEarliest(times, limit, win)
  {
    win := {};
    var rest := times.Keys;
    while |win| < limit && rest != {}
      invariant win <= times.Keys && rest == times.Keys - win
      invariant |win| <= limit && |win| + |rest| == |times|
      invariant NoLaterThan(times, win, rest)
      decreases rest
    {
      ghost var e := EarliestExists(times, rest);
      var m :| m in rest && forall k | k in rest :: times[m] <= times[k];
      win := win + {m};
      rest := rest - {m};
    }
  }

  /** There always is such a read. */
  lemma {:induction false} EarliestWindowExists(times: Times, limit: nat) returns (win: set<Id>)
    ensures IsEarliest(times, limit, win)
    decreases limit
  {
    win := {};
    if limit > 0 {
      win := EarliestWindowExists(times, limit - 1);
      SubsetSize(win, times.Keys);
      if |times| >= limit {
        var m := EarliestExists(times, times.Keys - win);
        win := win + {m};
      }
    }
  }

  /** Reversing the clock turns the earliest rows into the latest. */
  method Latest(times: Times, limit: nat) returns (win: set<Id>)
    ensures IsLatest(times, limit, win)
  {
    var back: Times := map id | id in times :: -times[id];
    assert back.Keys == times.Keys;
    win := Earliest(back, limit);
  }

  /** A short read is a whole read. */
  lemma ShortIsAll(times: Times, limit: nat, win: set<Id>)
    requires win <= times.Keys && |win| == (if |times| < limit then |times| else limit)
    ensures |win| < limit ==> win == times.Keys
  {
    if |win| < limit {
      SameSize(win, times.Keys);
    }
  }

  lemma SameSize<T>(a: set<T>, b: set<T>)
    requires a <= b && |a| == |b|
    ensures a == b
  {
    assert |b| == |a| + |b - a| by {
      assert a + (b - a) == b;
    }
  }

  lemma SubsetSize<T>(a: set<T>, b: set<T>)
    requires a <= b
    ensures |a| <= |b|
    ensures |b - a| == |b| - |a|
  {
    assert a + (b - a) == b;
  }

  /** n different ids, all shorter than n. */
  lemma {:induction false} ManyIds(n: nat) returns (ids: set<Id>)
    ensures |ids| == n && forall id | id in ids :: |id| < n
  {
    ids := {};
    if n > 0 {
      ids := ManyIds(n - 1);
      ids := ids + {seq(n - 1, _ => 'x')};
    }
  }
}
