/** What the stored day rows add up to, pass after pass (indexer/series.go:249-322, 345-443). */
module SeriesStored {
  import opened Wrappers
  import opened Sums
  import opened DaySeries
  import opened SeriesBook
  import opened SeriesWrite

  /** The two figures the pools and the protocol both report of a day. */
  datatype Figure = Count | Volume
  {
    function Of(f: Fields): real {
      match this
      case Count => if f.txCount.Some? then f.txCount.value as real else 0.0
      case Volume => f.volumeUSD
    }
  }

  /** A day's stored rows of one kind, and what a batch computes for it. */
  function RowFigures(entities: Entities, kind: Kind, date: int, fig: Figure): map<EntityKey, real> {
    map key | key in entities && key.kind == kind && entities[key].fields.date == date :: fig.Of(entities[key].fields)
  }

  function CellFigures(batch: Batch, kind: Kind, date: int, fig: Figure): map<EntityKey, real> {
    map key | key in batch && key.kind == kind && batch[key].date == date :: fig.Of(FieldsOf(kind, batch[key]))
  }

  /** The cells that say nothing, and are not written. */
  function Quiet(batch: Batch): Batch {
    map key | key in batch && batch[key].Empty() :: batch[key]
  }

  /** The rows a pass does not write over. */
  function Kept(entities: Entities, batch: Batch): Entities { entities - Telling(batch).Keys }

  ghost function StoredSum(entities: Entities, kind: Kind, date: int, fig: Figure): real {
    Sum(RowFigures(entities, kind, date, fig))
  }

  ghost function BatchSum(batch: Batch, kind: Kind, date: int, fig: Figure): real {
    Sum(CellFigures(batch, kind, date, fig))
  }

  ghost predicate Conserves(entities: Entities, date: int, fig: Figure) {
    StoredSum(entities, PoolDay, date, fig) == StoredSum(entities, FactoryDay, date, fig)
  }

  // ----- one pass -----

  lemma CellsSplit(batch: Batch, kind: Kind, date: int, fig: Figure)
    ensures BatchSum(batch, kind, date, fig) == BatchSum(Telling(batch), kind, date, fig) + BatchSum(Quiet(batch), kind, date, fig)
  {
    hide FieldsOf, Cell.Empty, Sum;
    var told, quiet := CellFigures(Telling(batch), kind, date, fig), CellFigures(Quiet(batch), kind, date, fig);
    SumJoin(told, quiet);
    assert told + quiet == CellFigures(batch, kind, date, fig);
  }

  /** While the cache is in step and no write is lost, a pass leaves the telling cells and the rows it
      did not write over. */
  lemma RowsAfter(entities: Entities, written: Written, p: Pass, kind: Kind, date: int, fig: Figure)
    requires InStep(entities, written) && p.lost == {}
    ensures StoredSum(WriteMoved(entities, written, p), kind, date, fig)
         == BatchSum(Telling(p.batch), kind, date, fig) + StoredSum(Kept(entities, p.batch), kind, date, fig)
  {
    hide Sum;
    WrittenFields(entities, written, p);
    hide WriteMoved, InStep;
    RowsAre(entities, Telling(p.batch), WriteMoved(entities, written, p), kind, date, fig);
    var told, kept := CellFigures(Telling(p.batch), kind, date, fig), RowFigures(Kept(entities, p.batch), kind, date, fig);
    hide CellFigures, RowFigures;
    SumJoin(told, kept);
  }

  lemma RowsAre(entities: Entities, told: Batch, after: Entities, kind: Kind, date: int, fig: Figure)
    requires after.Keys == entities.Keys + told.Keys
    requires forall key | key in after ::
               after[key].fields == if key in told then FieldsOf(key.kind, told[key]) else entities[key].fields
    ensures var cells, kept := CellFigures(told, kind, date, fig), RowFigures(entities - told.Keys, kind, date, fig);
            cells.Keys !! kept.Keys && RowFigures(after, kind, date, fig) == cells + kept
  {
    hide Figure.Of;
    CellsDate();
    hide FieldsOf;
    var cells, kept := CellFigures(told, kind, date, fig), RowFigures(entities - told.Keys, kind, date, fig);
    var rows := RowFigures(after, kind, date, fig);
    forall key
      ensures key in rows <==> key in cells || key in kept
      ensures key in rows ==> rows[key] == (cells + kept)[key]
    {
      if key in told {
        assert key in after;
      }
    }
  }

  lemma CellsDate()
    ensures forall kind, c :: FieldsOf(kind, c).date == c.date
  {}

  lemma WrittenFields(entities: Entities, written: Written, p: Pass)
    requires InStep(entities, written) && p.lost == {}
    ensures var after, told := WriteMoved(entities, written, p), Telling(p.batch);
            && after.Keys == entities.Keys + told.Keys
            && forall key | key in after ::
                 after[key].fields == if key in told then FieldsOf(key.kind, told[key]) else entities[key].fields
  {
    hide FieldsOf, Cell.Empty;
  }

  /** After a pass whose own figures add up, the stored rows of a day do exactly when what the pass left
      unwritten of the pools comes to more than what it left of the protocol by as much as its silent
      pool cells exceed its silent protocol cell. */
  lemma PassConservesIff(entities: Entities, written: Written, p: Pass, date: int, fig: Figure)
    requires InStep(entities, written) && p.lost == {}
    requires BatchSum(p.batch, PoolDay, date, fig) == BatchSum(p.batch, FactoryDay, date, fig)
    ensures Conserves(WriteMoved(entities, written, p), date, fig)
       <==> (StoredSum(Kept(entities, p.batch), PoolDay, date, fig) - StoredSum(Kept(entities, p.batch), FactoryDay, date, fig)
             == BatchSum(Quiet(p.batch), PoolDay, date, fig) - BatchSum(Quiet(p.batch), FactoryDay, date, fig))
  {
    hide StoredSum, BatchSum, WriteMoved, InStep;
    RowsAfter(entities, written, p, PoolDay, date, fig);
    RowsAfter(entities, written, p, FactoryDay, date, fig);
    CellsSplit(p.batch, PoolDay, date, fig);
    CellsSplit(p.batch, FactoryDay, date, fig);
  }

  /** A silent cell has no volume; it may still have counted trades. */
  lemma QuietVolume(batch: Batch, kind: Kind, date: int)
    ensures BatchSum(Quiet(batch), kind, date, Volume) == 0.0
  {
    hide Sum;
    var m := CellFigures(Quiet(batch), kind, date, Volume);
    assert forall key | key in m :: m[key] == 0.0;
    SumZeros(m);
  }

  // ----- every run -----

  /** The pass touches nothing of the day, or writes over every pool and protocol row stored of it. */
  ghost predicate Replaces(entities: Entities, batch: Batch, date: int) {
    || (forall key | key in Telling(batch) ::
          batch[key].date != date && !(key in entities && entities[key].fields.date == date))
    || (forall key | key in entities && key.kind != TokenDay && entities[key].fields.date == date :: key in Telling(batch))
  }

  /** The pass's own figures of the day add up, and so do those of its silent cells. */
  ghost predicate AddsUp(batch: Batch, date: int, fig: Figure) {
    && BatchSum(batch, PoolDay, date, fig) == BatchSum(batch, FactoryDay, date, fig)
    && BatchSum(Quiet(batch), PoolDay, date, fig) == BatchSum(Quiet(batch), FactoryDay, date, fig)
  }

  lemma PassConserves(entities: Entities, written: Written, p: Pass, date: int, fig: Figure)
    requires InStep(entities, written) && p.lost == {} && Conserves(entities, date, fig)
    requires Replaces(entities, p.batch, date) && AddsUp(p.batch, date, fig)
    ensures Conserves(WriteMoved(entities, written, p), date, fig)
  {
    hide WriteMoved, InStep, Sum, Cell.Empty, FieldsOf, Telling, Quiet, Figure.Of;
    var told, kept := Telling(p.batch), Kept(entities, p.batch);
    ToldIsPart(p.batch);
    if forall key | key in told :: p.batch[key].date != date && !(key in entities && entities[key].fields.date == date) {
      forall kind: Kind ensures CellFigures(told, kind, date, fig) == map[]
        ensures RowFigures(kept, kind, date, fig) == RowFigures(entities, kind, date, fig)
      {
      }
      RowsAfter(entities, written, p, PoolDay, date, fig);
      RowsAfter(entities, written, p, FactoryDay, date, fig);
    } else {
      assert RowFigures(kept, PoolDay, date, fig) == map[] == RowFigures(kept, FactoryDay, date, fig);
      PassConservesIff(entities, written, p, date, fig);
    }
  }

  lemma ToldIsPart(batch: Batch)
    ensures Telling(batch).Keys <= batch.Keys && forall key | key in Telling(batch) :: Telling(batch)[key] == batch[key]
  {}

  /** Over any run of a process that loses no write, the stored pool rows of a day add up to the
      stored protocol row at every point, so long as each pass that touches the day writes over all
      that is stored of it. */
  lemma {:induction false} StoredConserves(entities: Entities, run: Passes, n: nat, date: int, fig: Figure)
    requires n <= |run| && Lossless(run) && Conserves(entities, date, fig)
    requires forall m: nat | m < n :: Replaces(Stored(entities, run, m), run[m].batch, date) && AddsUp(run[m].batch, date, fig)
    ensures Conserves(Stored(entities, run, n), date, fig)
  {
    hide Stored, Cached, Eager, Conserves, Replaces, AddsUp, InStep, WriteMoved, AlwaysWrite, Remember;
    if n == 0 {
      StoredFirst(entities, run);
    } else {
      StoredConserves(entities, run, n - 1, date, fig);
      RunInStep(entities, run, n - 1);
      PassOf(entities, run, n - 1);
      PassConserves(Stored(entities, run, n - 1), Cached(entities, run, n - 1), run[n - 1], date, fig);
    }
  }

  lemma StoredFirst(entities: Entities, run: Passes)
    ensures Stored(entities, run, 0) == entities
  {}

  // ----- a snapshot's batch -----

  function Keyed(kind: Kind, cells: Cells): Batch { map id | id in cells :: EntityKey(kind, id) := cells[id] }

  /** What a pass hands to the writer. */
  function BatchOf(tokens: Cells, pools: Cells, factory: Cells): Batch {
    Keyed(TokenDay, tokens) + Keyed(PoolDay, pools) + Keyed(FactoryDay, factory)
  }

  lemma {:induction false} SumKeyed(m: map<string, real>, n: map<EntityKey, real>, kind: Kind)
    requires forall key | key in n :: key.kind == kind && key.id in m && n[key] == m[key.id]
    requires forall id | id in m :: EntityKey(kind, id) in n
    ensures Sum(m) == Sum(n)
    decreases |m|
  {
    if m == map[] {
      assert n == map[];
    } else {
      var id :| id in m;
      FewerKeys(m, id);
      SumTake(m, id);
      SumTake(n, EntityKey(kind, id));
      SumKeyed(m - {id}, n - {EntityKey(kind, id)}, kind);
    }
  }

  lemma KeyedFigures(batch: Batch, cells: Cells, kind: Kind, date: int)
    requires kind != TokenDay
    requires forall id :: id in cells <==> EntityKey(kind, id) in batch
    requires forall id | id in cells :: batch[EntityKey(kind, id)] == cells[id]
    ensures BatchSum(batch, kind, date, Count) == Sum(Counts(cells, date))
    ensures BatchSum(batch, kind, date, Volume) == Sum(Volumes(cells, date))
  {
    hide Sum;
    forall key | key in batch && key.kind == kind ensures key.id in cells && batch[key] == cells[key.id] {
      assert key == EntityKey(kind, key.id);
    }
    SumKeyed(Counts(cells, date), CellFigures(batch, kind, date, Count), kind);
    SumKeyed(Volumes(cells, date), CellFigures(batch, kind, date, Volume), kind);
  }

  lemma BatchHolds(tokens: Cells, pools: Cells, factory: Cells)
    ensures var batch := BatchOf(tokens, pools, factory);
            && (forall id :: id in pools <==> EntityKey(PoolDay, id) in batch)
            && (forall id | id in pools :: batch[EntityKey(PoolDay, id)] == pools[id])
            && (forall id :: id in factory <==> EntityKey(FactoryDay, id) in batch)
            && (forall id | id in factory :: batch[EntityKey(FactoryDay, id)] == factory[id])
  {}

  /** The batch of every snapshot adds up on every day: in volume, and in counts exactly when its
      silent cells do. */
  lemma SnapshotAddsUp(s: Snapshot, tokens: Cells, pools: Cells, factory: Cells, date: int)
    requires s.Sound() && InTime(s.trades) && IsRolled(s, tokens, pools, factory)
    ensures var batch := BatchOf(tokens, pools, factory);
            && AddsUp(batch, date, Volume)
            && (AddsUp(batch, date, Count)
                <==> BatchSum(Quiet(batch), PoolDay, date, Count) == BatchSum(Quiet(batch), FactoryDay, date, Count))
  {
    hide BatchSum, BatchOf, IsRolled, Counts, Volumes, AllCounts, InTime, Snapshot.Sound;
    RolledConserves(s, tokens, pools, factory, date);
    BatchHolds(tokens, pools, factory);
    KeyedFigures(BatchOf(tokens, pools, factory), pools, PoolDay, date);
    KeyedFigures(BatchOf(tokens, pools, factory), factory, FactoryDay, date);
    QuietVolume(BatchOf(tokens, pools, factory), PoolDay, date);
    QuietVolume(BatchOf(tokens, pools, factory), FactoryDay, date);
  }

  // ----- a stored row, from the trades -----

  predicate Says(c: Cell) { c.candle.priced || c.volumeUSD != 0.0 || c.held }

  /** What a row of each kind shows of its cell. */
  predicate RowShows(f: Fields, kind: Kind, c: Cell) {
    && f.date == c.date && f.volumeUSD == c.volumeUSD
    && f.tvlUSD == (if c.held then Some(c.lockedUSD) else None)
    && f.tvl == (if kind == TokenDay && c.held then Some(c.locked) else None)
    && f.volume == (if kind == TokenDay then Some(c.volume) else None)
    && f.txCount == (if kind == TokenDay then None else Some(c.txCount))
    && f.candle == (if kind == FactoryDay then None else Some(c.candle))
  }

  /** A pass that loses no write, from a store in step with its cache: every cell that says something is
      shown by its row, whether written now or before, one not remembered as written carries the pass's
      own description of its token or pool, and every other row is as it was. */
  lemma StoredRowMeans(entities: Entities, written: Written, p: Pass, key: EntityKey)
    requires InStep(entities, written) && p.lost == {}
    ensures var after := WriteMoved(entities, written, p);
            && (key in p.batch && Says(p.batch[key]) ==> key in after && RowShows(after[key].fields, key.kind, p.batch[key]))
            && (key in p.batch && Says(p.batch[key]) && !(key in written && written[key] == p.batch[key]) ==>
                  after[key].ref == if key in p.refs then p.refs[key] else "")
            && (!(key in p.batch && Says(p.batch[key])) ==>
                  (key in after <==> key in entities) && (key in after ==> after[key] == entities[key]))
  {
    WrittenFields(entities, written, p);
    FieldsShow(key.kind);
    ToldSay(p.batch, key);
    OthersStay(entities, written, p, key);
    NewlyWritten(entities, written, p, key);
    hide InStep, WriteMoved, RowShows, Says, Telling, FieldsOf;
  }

  lemma FieldsShow(kind: Kind)
    ensures forall c :: RowShows(FieldsOf(kind, c), kind, c)
  {}

  lemma ToldSay(batch: Batch, key: EntityKey)
    ensures key in Telling(batch) <==> key in batch && Says(batch[key])
    ensures key in Telling(batch) ==> Telling(batch)[key] == batch[key]
  {}

  lemma NewlyWritten(entities: Entities, written: Written, p: Pass, key: EntityKey)
    requires p.lost == {}
    ensures key in Telling(p.batch) && !(key in written && written[key] == p.batch[key]) ==>
              var after := WriteMoved(entities, written, p);
              key in after && after[key].ref == if key in p.refs then p.refs[key] else ""
  {
    hide FieldsOf, Cell.Empty;
  }

  lemma OthersStay(entities: Entities, written: Written, p: Pass, key: EntityKey)
    ensures key !in Telling(p.batch) ==>
              var after := WriteMoved(entities, written, p);
              (key in after <==> key in entities) && (key in after ==> after[key] == entities[key])
  {
    hide FieldsOf, Cell.Empty;
  }

  /** So after such a pass the row of a pool's day, and of a token's, says what the snapshot's own trades
      of that day come to. */
  lemma StoredDayMeans(entities: Entities, written: Written, p: Pass, s: Snapshot, tokens: Cells, pools: Cells, factory: Cells, id: string)
    requires InStep(entities, written) && p.lost == {} && IsRolled(s, tokens, pools, factory)
    requires p.batch == BatchOf(tokens, pools, factory)
    ensures var after := WriteMoved(entities, written, p);
            && (id in pools && Says(pools[id]) ==>
                  && EntityKey(PoolDay, id) in after
                  && after[EntityKey(PoolDay, id)].fields.txCount == Some(|TradesAt(s.trades, id)|)
                  && after[EntityKey(PoolDay, id)].fields.volumeUSD == TotalUsd(TradesAt(s.trades, id)))
            && (id in tokens && Says(tokens[id]) ==>
                  && EntityKey(TokenDay, id) in after
                  && after[EntityKey(TokenDay, id)].fields.volume == Some(MovedAmount(s.trades, id))
                  && after[EntityKey(TokenDay, id)].fields.volumeUSD == MovedWorth(s.trades, id))
  {
    hide WriteMoved, InStep, IsRolled, TradesAt, TotalUsd, MovedAmount, MovedWorth;
    TokensHeld(tokens, pools, factory);
    BatchHolds(tokens, pools, factory);
    hide BatchOf;
    RolledDayMeans(s, tokens, pools, factory, id);
    StoredRowMeans(entities, written, p, EntityKey(PoolDay, id));
    StoredRowMeans(entities, written, p, EntityKey(TokenDay, id));
  }

  lemma TokensHeld(tokens: Cells, pools: Cells, factory: Cells)
    ensures var batch := BatchOf(tokens, pools, factory);
            && (forall id :: id in tokens <==> EntityKey(TokenDay, id) in batch)
            && (forall id | id in tokens :: batch[EntityKey(TokenDay, id)] == tokens[id])
  {}
}
