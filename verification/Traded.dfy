/** Grouped totals: what each pool has traded, and the protocol's total as the fold of it
    (storage/store_sqlite.go:222-258, storage/store_memory.go:482-501, indexer/valuation.go:214-234). */
module Traded {
  import opened Sums
  import opened Window

  datatype Total = Total(trades: nat, volume: real)

  /** Rows as a grouping sees them: the group, and the amount. */
  type Items = map<Id, (string, real)>

  function Groups(items: Items): set<string> {
    set id | id in items :: items[id].0
  }

  function Group(items: Items, k: string): map<Id, real> {
    map id | id in items && items[id].0 == k :: items[id].1
  }

  /** `SELECT COUNT(*), SUM(amount) ... GROUP BY`: each group's rows and their sum. */
  ghost function Grouped(items: Items): map<string, Total> {
    map k | k in Groups(items) :: Total(|Group(items, k)|, Sum(Group(items, k)))
  }

  ghost function OrNone(totals: map<string, Total>, k: string): Total {
    if k in totals then totals[k] else Total(0, 0.0)
  }

  lemma GroupStep(items: Items, id: Id, k: string, v: real, j: string)
    requires id !in items
    ensures Group(items[id := (k, v)], j) == if j == k then Group(items, k)[id := v] else Group(items, j)
    ensures id !in Group(items, k)
    ensures k !in Groups(items) ==> Group(items, k) == map[]
  {}

  lemma GroupsStep(items: Items, id: Id, k: string, v: real)
    requires id !in items
    ensures Groups(items[id := (k, v)]) == Groups(items) + {k}
  {
    var more := items[id := (k, v)];
    assert more[id].0 == k;
    forall j | j in items ensures more[j] == items[j] && more[j].0 in Groups(more) {
    }
  }

  /** One more row adds itself to its own group. */
  lemma GroupedStep(items: Items, id: Id, k: string, v: real)
    requires id !in items
    ensures Grouped(items[id := (k, v)])
         == Grouped(items)[k := Total(OrNone(Grouped(items), k).trades + 1, OrNone(Grouped(items), k).volume + v)]
  {
    hide Group, Groups, Sum;
    var more := items[id := (k, v)];
    GroupsStep(items, id, k, v);
    GroupStep(items, id, k, v, k);
    SumPut(Group(items, k), id, v);
    OneLonger(Group(items, k), id, v);
    EmptySum();
    forall j | j in Groups(items) ensures j != k ==> Group(more, j) == Group(items, j) {
      GroupStep(items, id, k, v, j);
    }
  }

  lemma EmptySum()
    ensures Sum<Id>(map[]) == 0.0
  {}

  lemma OneLonger(m: map<Id, real>, id: Id, v: real)
    requires id !in m
    ensures |m[id := v]| == |m| + 1
  {
    assert m[id := v].Keys == m.Keys + {id};
  }

  /** The memory store's fold, over its rows in any order, is the grouped query. */
  method Fold(items: Items) returns (out: map<string, Total>)
    ensures out == Grouped(items)
  {
    hide Grouped;
    out := map[];
    var todo := items.Keys;
    assert items - todo == map[];
    NoneGrouped();
    while todo != {}
      invariant todo <= items.Keys && out == Grouped(items - todo)
    {
      var id :| id in todo;
      var (k, v) := items[id];
      GroupedStep(items - todo, id, k, v);
      assert (items - todo)[id := (k, v)] == items - (todo - {id});
      todo := todo - {id};
      var t := if k in out then out[k] else Total(0, 0.0);
      out := out[k := Total(t.trades + 1, t.volume + v)];
    }
    assert items - todo == items;
  }

  lemma NoneGrouped()
    ensures Grouped(map[]) == map[]
  {
    assert Groups(map[]) == {};
  }

  // ----- the protocol total -----

  function Volumes(totals: map<string, Total>): map<string, real> {
    map k | k in totals :: totals[k].volume
  }

  function Trades(totals: map<string, Total>): map<string, real> {
    map k | k in totals :: totals[k].trades as real
  }

  function Amounts(items: Items): map<Id, real> {
    map id | id in items :: items[id].1
  }

  /** The protocol's volume and trade count, folded from the pools' figures, are those of all the
      rows: the two can never disagree. */
  lemma {:induction false} GroupsSumToAll(items: Items)
    ensures Sum(Volumes(Grouped(items))) == Sum(Amounts(items))
    ensures Sum(Trades(Grouped(items))) == |items| as real
    decreases |items|
  {
    hide Grouped, Sum;
    if items == map[] {
      NoneGrouped();
      EmptySum();
      NoTotals();
    } else {
      var id :| id in items;
      var less := items - {id};
      var (k, v) := items[id];
      FewerKeys(items, id);
      GroupsSumToAll(less);
      GroupedStep(less, id, k, v);
      assert less[id := (k, v)] == items;
      var t := Total(OrNone(Grouped(less), k).trades + 1, OrNone(Grouped(less), k).volume + v);
      assert Volumes(Grouped(items)) == Volumes(Grouped(less))[k := t.volume];
      assert Trades(Grouped(items)) == Trades(Grouped(less))[k := t.trades as real];
      assert Amounts(items) == Amounts(less)[id := v];
      SumPut(Volumes(Grouped(less)), k, t.volume);
      SumPut(Trades(Grouped(less)), k, t.trades as real);
      SumPut(Amounts(less), id, v);
    }
  }

  lemma NoTotals()
    ensures Sum(Volumes(map[])) == 0.0 && Sum(Trades(map[])) == 0.0 && Sum(Amounts(map[])) == 0.0
  {
    assert Volumes(map[]) == map[] && Trades(map[]) == map[] && Amounts(map[]) == map[];
  }

  /** The fold in the valuation pass. */
  method AllTime(totals: map<string, Total>) returns (volume: real, trades: nat)
    ensures volume == Sum(Volumes(totals)) && trades as real == Sum(Trades(totals))
  {
    volume, trades := 0.0, 0;
    var todo := totals.Keys;
    assert totals - todo == map[];
    NoTotals();
    while todo != {}
      invariant todo <= totals.Keys
      invariant volume == Sum(Volumes(totals - todo)) && trades as real == Sum(Trades(totals - todo))
    {
      var k :| k in todo;
      ghost var done := totals - todo;
      assert done[k := totals[k]] == totals - (todo - {k});
      assert Volumes(done[k := totals[k]]) == Volumes(done)[k := totals[k].volume];
      assert Trades(done[k := totals[k]]) == Trades(done)[k := totals[k].trades as real];
      SumPut(Volumes(done), k, totals[k].volume);
      SumPut(Trades(done), k, totals[k].trades as real);
      volume, trades := volume + totals[k].volume, trades + totals[k].trades;
      todo := todo - {k};
    }
    assert totals - todo == totals;
  }
}
