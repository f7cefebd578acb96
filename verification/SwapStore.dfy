/** The swap table with its promoted columns (storage/store_sqlite.go:66-165, 358-440).

    `dollars` is any function of the stored text.  SQL statements, transactions and JSON are
    oracles: a failing one is a parameter, and so are the rows a read skips or breaks off before. */
module SwapStore {
  import opened Text
  import opened Window
  import opened Heal
  import opened Traded
  import opened Sums

  type Dollars = string -> real

  /** A row: the document, and the columns promoted out of it. */
  datatype Stored = Stored(doc: Swap, timestamp: int, pool: string, amountUSD: real)

  /** `column`: whether the table has its amountUSD column yet. */
  datatype Db = Db(rows: map<Id, Stored>, column: bool)

  function Projected(d: Swap, dollars: Dollars): Stored {
    Stored(d, d.ts, d.pool, dollars(d.amountUSD))
  }

  /** Every column says what its document says. */
  ghost predicate Agrees(db: Db, dollars: Dollars) {
    && db.column
    && forall id | id in db.rows ::
         var s := db.rows[id];
         s.timestamp == s.doc.ts && s.pool == s.doc.pool && s.amountUSD == dollars(s.doc.amountUSD)
  }

  /** The other columns do; the amount may not. */
  ghost predicate OthersAgree(db: Db, dollars: Dollars) {
    forall id | id in db.rows :: db.rows[id].(amountUSD := 0.0) == Projected(db.rows[id].doc, dollars).(amountUSD := 0.0)
  }

  // ----- what each operation does -----

  function AfterSeed(db: Db, id: Id, d: Swap, dollars: Dollars): Db {
    db.(rows := db.rows[id := Projected(d, dollars)])
  }

  function Revalued(s: Stored, v: string, dollars: Dollars): Stored {
    s.(doc := s.doc.(amountUSD := v), amountUSD := dollars(v))
  }

  function AfterValue(db: Db, usd: map<Id, string>, dollars: Dollars): Db {
    db.(rows := RowsValued(db.rows, usd, dollars))
  }

  function RowsValued(rows: map<Id, Stored>, usd: map<Id, string>, dollars: Dollars): map<Id, Stored> {
    map id | id in rows :: if id in usd then Revalued(rows[id], usd[id], dollars) else rows[id]
  }

  lemma ValuedNone(rows: map<Id, Stored>, dollars: Dollars)
    ensures RowsValued(rows, map[], dollars) == rows
  {}

  lemma ValuedStep(rows: map<Id, Stored>, usd: map<Id, string>, id: Id, v: string, dollars: Dollars)
    requires id !in usd
    ensures RowsValued(rows, usd, dollars).Keys == rows.Keys
    ensures id in rows ==> RowsValued(rows, usd, dollars)[id] == rows[id]
    ensures RowsValued(rows, usd[id := v], dollars)
         == if id in rows then RowsValued(rows, usd, dollars)[id := Revalued(rows[id], v, dollars)]
            else RowsValued(rows, usd, dollars)
  {
    hide Revalued;
    var more, less := RowsValued(rows, usd[id := v], dollars), RowsValued(rows, usd, dollars);
    assert more.Keys == rows.Keys && less.Keys == rows.Keys;
    assert forall k | k in rows && k != id :: more[k] == less[k];
  }

  /** How many of the values have a row to go to. */
  function Hits(rows: map<Id, Stored>, usd: map<Id, string>): nat {
    |usd.Keys * rows.Keys|
  }

  lemma HitNone(rows: map<Id, Stored>)
    ensures Hits(rows, map[]) == 0
  {}

  lemma HitStep(rows: map<Id, Stored>, usd: map<Id, string>, id: Id, v: string)
    requires id !in usd
    ensures Hits(rows, usd[id := v]) == Hits(rows, usd) + if id in rows then 1 else 0
  {
    assert usd[id := v].Keys * rows.Keys == usd.Keys * rows.Keys + if id in rows then {id} else {};
  }

  /** Opening adds the column, at its default, to a table that has none, and fills it for the rows the
      fill gets to; a table that has one is left alone. */
  function AfterOpen(db: Db, dollars: Dollars, filled: set<Id>): Db {
    if db.column then db else Db(map id | id in db.rows :: Opened(db.rows[id], id, dollars, filled), true)
  }

  function Opened(s: Stored, id: Id, dollars: Dollars, filled: set<Id>): Stored {
    s.(amountUSD := if id in filled then dollars(s.doc.amountUSD) else 0.0)
  }

  class Store {
    const dollars: Dollars
    var rows: map<Id, Stored>
    var column: bool

    ghost function View(): Db
      reads this
    {
      Db(rows, column)
    }

    constructor (db: Db, dollars: Dollars)
      ensures View() == db && this.dollars == dollars
    {
      rows, column, this.dollars := db.rows, db.column, dollars;
    }

    /** A table whose fill read only some rows counts as filled. */
    method Init(reached: set<Id>, fails: bool) returns (ok: bool)
      modifies this
      ensures View() == AfterOpen(old(View()), dollars, if fails then {} else reached)
      ensures !ok ==> fails
    {
      if column {
        return true;
      }
      column := true;
      rows := map id | id in rows :: rows[id].(amountUSD := 0.0);
      ok := ProjectAmounts(reached, fails);
    }

    /** Copies the dollar value of each document the read reaches into a column that holds zeros. */
    method ProjectAmounts(reached: set<Id>, fails: bool) returns (ok: bool)
      requires forall id | id in rows :: rows[id].amountUSD == 0.0
      modifies this
      ensures column == old(column)
      ensures rows == map id | id in old(rows) :: Opened(old(rows)[id], id, dollars, if fails then {} else reached)
      ensures !ok ==> fails
    {
      var priced: map<Id, real> :=
        map id | id in rows && id in reached && dollars(rows[id].doc.amountUSD) != 0.0 :: dollars(rows[id].doc.amountUSD);
      if |priced| == 0 {
        assert priced == map[];
        assert forall id | id in rows :: id !in priced;
        return true;
      }
      if fails {
        return false;
      }
      var tx := rows;
      var todo := priced.Keys;
      while todo != {}
        invariant todo <= priced.Keys
        invariant tx == map id | id in rows :: if id in priced && id !in todo then rows[id].(amountUSD := priced[id]) else rows[id]
      {
        var id :| id in todo;
        todo := todo - {id};
        tx := tx[id := tx[id].(amountUSD := priced[id])];
      }
      rows := tx;
      return true;
    }

    method SeedSwap(id: Id, d: Swap, lost: bool)
      modifies this
      ensures View() == if lost then old(View()) else AfterSeed(old(View()), id, d, dollars)
    {
      if lost {
        return;
      }
      rows := rows[id := Stored(d, d.ts, d.pool, dollars(d.amountUSD))];
    }

    /** All or nothing: one failing read, write or commit rolls the whole batch back. */
    method ValueSwaps(usd: map<Id, string>, failing: set<Id>, commits: bool) returns (n: nat, err: bool)
      modifies this
      ensures err <==> usd != map[] && (!commits || exists id :: id in usd && id in failing)
      ensures View() == if err then old(View()) else AfterValue(old(View()), usd, dollars)
      ensures n == if err then 0 else Hits(old(rows), usd)
    {
      hide RowsValued, Revalued, Hits;
      ValuedNone(rows, dollars);
      if |usd| == 0 {
        assert usd == map[];
        HitNone(rows);
        return 0, false;
      }
      assert usd != map[];
      var tx, failed;
      tx, n, failed := WriteAll(rows, usd, failing, dollars);
      if failed || !commits {
        return 0, true;
      }
      rows := tx;
      return n, false;
    }
  }

  /** The transaction's loop, over its own copy of the rows. */
  method WriteAll(rows: map<Id, Stored>, usd: map<Id, string>, failing: set<Id>, dollars: Dollars)
    returns (tx: map<Id, Stored>, n: nat, failed: bool)
    ensures failed <==> exists id :: id in usd && id in failing
    ensures !failed ==> tx == RowsValued(rows, usd, dollars) && n == Hits(rows, usd)
  {
    hide RowsValued, Revalued, Hits;
    tx, n := rows, 0;
    var todo := usd.Keys;
    ghost var done: map<Id, string> := map[];
    ValuedNone(rows, dollars);
    HitNone(rows);
    while todo != {}
      invariant todo <= usd.Keys && done.Keys == usd.Keys - todo
      invariant forall id | id in done :: done[id] == usd[id] && id !in failing
      invariant tx == RowsValued(rows, done, dollars) && n == Hits(rows, done)
    {
      var id :| id in todo;
      if id in failing {
        return tx, n, true;
      }
      ValuedStep(rows, done, id, usd[id], dollars);
      HitStep(rows, done, id, usd[id]);
      done := done[id := usd[id]];
      todo := todo - {id};
      if id in tx {
        tx := tx[id := Revalued(tx[id], usd[id], dollars)];
        n := n + 1;
      }
    }
    assert done == usd;
    return tx, n, false;
  }

  // ----- every run -----

  datatype Op = Seed(id: Id, doc: Swap) | Value(usd: map<Id, string>, failed: bool) | Open(filled: set<Id>)

  function After(db: Db, op: Op, dollars: Dollars): Db {
    match op
    case Seed(id, d) => AfterSeed(db, id, d, dollars)
    case Value(usd, failed) => if failed then db else AfterValue(db, usd, dollars)
    case Open(filled) => AfterOpen(db, dollars, filled)
  }

  function Run(db: Db, ops: seq<Op>, dollars: Dollars): Db {
    if ops == [] then db else After(Run(db, ops[..|ops| - 1], dollars), ops[|ops| - 1], dollars)
  }

  lemma StepAgrees(db: Db, op: Op, dollars: Dollars)
    requires Agrees(db, dollars)
    ensures Agrees(After(db, op, dollars), dollars)
  {}

  /** Once the columns agree with the documents, every run of writes, valuations and re-openings keeps
      them so. */
  lemma {:induction false} RunAgrees(db: Db, ops: seq<Op>, dollars: Dollars)
    requires Agrees(db, dollars)
    ensures Agrees(Run(db, ops, dollars), dollars)
  {
    if ops != [] {
      hide Agrees, After;
      RunAgrees(db, ops[..|ops| - 1], dollars);
      StepAgrees(Run(db, ops[..|ops| - 1], dollars), ops[|ops| - 1], dollars);
    }
  }

  /** A database from before the column agrees after a first opening that gets to every row. */
  lemma FirstOpenAgrees(db: Db, filled: set<Id>, ops: seq<Op>, dollars: Dollars)
    requires !db.column && OthersAgree(db, dollars) && db.rows.Keys <= filled
    ensures Agrees(Run(AfterOpen(db, dollars, filled), ops, dollars), dollars)
  {
    forall id | id in db.rows ensures Opened(db.rows[id], id, dollars, filled) == Projected(db.rows[id].doc, dollars) {
      assert db.rows[id].(amountUSD := 0.0) == Projected(db.rows[id].doc, dollars).(amountUSD := 0.0);
    }
    RunAgrees(AfterOpen(db, dollars, filled), ops, dollars);
  }

  /** An operation that writes a row's column afresh. */
  predicate Writes(op: Op, id: Id) {
    match op
    case Seed(i, _) => i == id
    case Value(usd, failed) => !failed && id in usd
    case Open(_) => false
  }

  predicate Written(ops: seq<Op>, id: Id) {
    exists i | 0 <= i < |ops| :: Writes(ops[i], id)
  }

  /** What a run after a first opening has come to: a row it wrote agrees, any other is as the fill
      left it. */
  ghost predicate Stuck(now: Db, db: Db, filled: set<Id>, ops: seq<Op>, dollars: Dollars) {
    && now.column && db.rows.Keys <= now.rows.Keys
    && forall id | id in now.rows ::
         if id in db.rows && !Written(ops, id) then now.rows[id] == Opened(db.rows[id], id, dollars, filled)
         else now.rows[id] == Projected(now.rows[id].doc, dollars)
  }

  lemma WrittenStep(ops: seq<Op>)
    requires ops != []
    ensures forall id :: Written(ops, id) <==> Written(ops[..|ops| - 1], id) || Writes(ops[|ops| - 1], id)
  {
    var n := |ops| - 1;
    forall id ensures Written(ops, id) <==> Written(ops[..n], id) || Writes(ops[n], id) {
      if i :| 0 <= i < n && Writes(ops[..n][i], id) {
        assert Writes(ops[i], id);
      }
      if i :| 0 <= i < n && Writes(ops[i], id) {
        assert Writes(ops[..n][i], id);
      }
    }
  }

  lemma StuckStep(now: Db, db: Db, filled: set<Id>, ops: seq<Op>, dollars: Dollars)
    requires ops != [] && OthersAgree(db, dollars) && Stuck(now, db, filled, ops[..|ops| - 1], dollars)
    ensures Stuck(After(now, ops[|ops| - 1], dollars), db, filled, ops, dollars)
  {
    WrittenStep(ops);
    hide Written;
    var op := ops[|ops| - 1];
    var next := After(now, op, dollars);
    forall id | id in next.rows
      ensures if id in db.rows && !Written(ops, id) then next.rows[id] == Opened(db.rows[id], id, dollars, filled)
              else next.rows[id] == Projected(next.rows[id].doc, dollars)
    {
      if id in db.rows {
        assert db.rows[id].(amountUSD := 0.0) == Projected(db.rows[id].doc, dollars).(amountUSD := 0.0);
      }
    }
  }

  lemma {:induction false} RunIsStuck(db: Db, filled: set<Id>, ops: seq<Op>, dollars: Dollars)
    requires !db.column && OthersAgree(db, dollars)
    ensures Stuck(Run(AfterOpen(db, dollars, filled), ops, dollars), db, filled, ops, dollars)
  {
    if ops != [] {
      hide OthersAgree, Stuck, After, AfterOpen;
      RunIsStuck(db, filled, ops[..|ops| - 1], dollars);
      StuckStep(Run(AfterOpen(db, dollars, filled), ops[..|ops| - 1], dollars), db, filled, ops, dollars);
    }
  }

  /** But what that one fill misses no later opening repairs: the column is there, so the fill is taken
      for done.  After any run the columns agree exactly when every row that neither the fill got to
      nor the run itself wrote was worth nothing. */
  lemma MissedFillStays(db: Db, filled: set<Id>, ops: seq<Op>, dollars: Dollars)
    requires !db.column && OthersAgree(db, dollars)
    ensures Agrees(Run(AfterOpen(db, dollars, filled), ops, dollars), dollars)
       <==> forall id | id in db.rows && id !in filled && !Written(ops, id) :: dollars(db.rows[id].doc.amountUSD) == 0.0
  {
    RunIsStuck(db, filled, ops, dollars);
    hide Written, AfterOpen, Run;
    var end := Run(AfterOpen(db, dollars, filled), ops, dollars);
    forall id | id in db.rows && !Written(ops, id)
      ensures id in end.rows
      ensures end.rows[id] == Projected(end.rows[id].doc, dollars)
         <==> id in filled || dollars(db.rows[id].doc.amountUSD) == 0.0
    {
      assert db.rows[id].(amountUSD := 0.0) == Projected(db.rows[id].doc, dollars).(amountUSD := 0.0);
    }
  }

  /** What the documents come to: a row written holds the document written, one valued the same document
      with its new value, and no other changes, whatever fails. */
  lemma DocumentsAfter(db: Db, op: Op, dollars: Dollars, id: Id)
    ensures var was, now := Documents(db), Documents(After(db, op, dollars));
            match op
            case Seed(i, d) => now == was[i := d]
            case Value(usd, failed) =>
              && now.Keys == was.Keys
              && (id in was ==> now[id] == if !failed && id in usd then was[id].(amountUSD := usd[id]) else was[id])
            case Open(_) => now == was
  {}

  // ----- what the column is for -----

  /** The table as the grouped query reads it, and the documents as the memory store does. */
  function ColumnItems(db: Db): Items {
    map id | id in db.rows :: (Lower(db.rows[id].pool), db.rows[id].amountUSD)
  }

  function DocumentItems(docs: map<Id, Swap>, dollars: Dollars): Items {
    map id | id in docs :: (Lower(docs[id].pool), dollars(docs[id].amountUSD))
  }

  function Documents(db: Db): map<Id, Swap> {
    map id | id in db.rows :: db.rows[id].doc
  }

  /** After any run the grouped query over the columns answers what the memory store folds out of
      the documents, and the protocol's total is the sum over all of them. */
  lemma TradedAgree(db: Db, ops: seq<Op>, dollars: Dollars)
    requires Agrees(db, dollars)
    ensures var end := Run(db, ops, dollars);
            var totals := Grouped(ColumnItems(end));
            && totals == Grouped(DocumentItems(Documents(end), dollars))
            && Sum(Traded.Volumes(totals)) == Sum(Amounts(DocumentItems(Documents(end), dollars)))
            && Sum(Traded.Trades(totals)) == |end.rows| as real
  {
    hide Grouped, Sum;
    RunAgrees(db, ops, dollars);
    var end := Run(db, ops, dollars);
    assert ColumnItems(end) == DocumentItems(Documents(end), dollars);
    assert ColumnItems(end).Keys == end.rows.Keys;
    GroupsSumToAll(ColumnItems(end));
  }

  /** The heal rewrites a row's time and block alone, so no pool's figures move. */
  lemma HealKeepsTotals(before: Rows, after: Rows, dollars: Dollars)
    requires SameButTime(before, after)
    ensures DocumentItems(before, dollars) == DocumentItems(after, dollars)
  {
    forall id | id in before ensures before[id].pool == after[id].pool && before[id].amountUSD == after[id].amountUSD {
      assert before[id].(ts := 0, block := 0) == after[id].(ts := 0, block := 0);
    }
  }
}
