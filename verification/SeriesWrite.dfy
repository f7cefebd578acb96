/** Writing only the days that moved (indexer/series.go:249-322).

    A stored row has the fields its cell determines and one embedded reference (the token or pool as
    it was described at the time), which is not part of the cell the cache compares.  Number
    formatting is left out: the row holds the numbers.  The writer remembers a write as made even when
    the database refused it. */
module SeriesWrite {
  import opened Wrappers
  import opened DaySeries

  datatype Kind = TokenDay | PoolDay | FactoryDay

  datatype EntityKey = EntityKey(kind: Kind, id: string)

  /** What a row of its kind shows of a cell; `held` fields are absent when nothing was observed. */
  datatype Fields = Fields(date: int, volume: Option<real>, volumeUSD: real, txCount: Option<nat>,
                           tvl: Option<real>, tvlUSD: Option<real>, candle: Option<Candle>)

  datatype Row = Row(fields: Fields, ref: string)

  type Entities = map<EntityKey, Row>

  type Written = map<EntityKey, Cell>

  type Batch = map<EntityKey, Cell>

  function FieldsOf(kind: Kind, c: Cell): Fields {
    var usd := if c.held then Some(c.lockedUSD) else None;
    match kind
    case TokenDay =>
      Fields(c.date, Some(c.volume), c.volumeUSD, None, if c.held then Some(c.locked) else None, usd, Some(c.candle))
    case PoolDay =>
      Fields(c.date, None, c.volumeUSD, Some(c.txCount), None, usd, Some(c.candle))
    case FactoryDay =>
      Fields(c.date, None, c.volumeUSD, Some(c.txCount), None, usd, None)
  }

  function RowOf(key: EntityKey, c: Cell, refs: map<EntityKey, string>): Row {
    Row(FieldsOf(key.kind, c), if key in refs then refs[key] else "")
  }

  /** One pass: the cells it computed, how it described each key's token or pool, and the keys whose
      write the database loses without the writer hearing of it. */
  datatype Pass = Pass(batch: Batch, refs: map<EntityKey, string>, lost: set<EntityKey>)

  /** The cell says something and its write would reach the store. */
  predicate Due(p: Pass, key: EntityKey) { key in p.batch && !p.batch[key].Empty() && key !in p.lost }

  /** Write every cell that says something, every pass. */
  function AlwaysWrite(entities: Entities, p: Pass): Entities {
    entities + map key | key in p.batch && Due(p, key) :: RowOf(key, p.batch[key], p.refs)
  }

  predicate Moved(written: Written, batch: Batch, key: EntityKey) {
    key in batch && !batch[key].Empty() && !(key in written && written[key] == batch[key])
  }

  /** Write only the cells that differ from what was last written. */
  function WriteMoved(entities: Entities, written: Written, p: Pass): Entities {
    entities + MovedRows(written, p)
  }

  function MovedRows(written: Written, p: Pass): Entities {
    map key | key in p.batch && Moved(written, p.batch, key) && key !in p.lost :: RowOf(key, p.batch[key], p.refs)
  }

  /** What is remembered as written, whether or not the store has it. */
  function Remember(written: Written, batch: Batch): Written {
    written + Telling(batch)
  }

  /** The cells that say something. */
  function Telling(batch: Batch): Written {
    map key | key in batch && !batch[key].Empty() :: batch[key]
  }

  class Writer {
    var entities: Entities
    var written: Written

    constructor (entities: Entities)
      ensures this.entities == entities && written == map[]
    {
      this.entities, written := entities, map[];
    }

    /** The store's answer to a failed write is not looked at. */
    method Put(key: EntityKey, c: Cell, row: Row, lost: bool)
      modifies this
      ensures entities == if lost || (key in old(written) && old(written)[key] == c) then old(entities)
                          else old(entities)[key := row]
      ensures written == old(written)[key := c]
    {
      if key in written && written[key] == c {
        assert written[key := c] == written;
        return;
      }
      if !lost {
        entities := entities[key := row];
      }
      written := written[key := c];
    }

    /** One pass over the cells of the three series, each in map order. */
    method WriteSeries(p: Pass)
      modifies this
      ensures entities == WriteMoved(old(entities), old(written), p)
      ensures written == Remember(old(written), p.batch)
    {
      hide FieldsOf, RowOf, Cell.Empty, WriteMoved, Remember;
      var todo := p.batch.Keys;
      ghost var was, had := entities, written;
      assert p.batch - todo == map[];
      WriteStart(was, had, p);
      while todo != {}
        invariant todo <= p.batch.Keys
        invariant entities == WriteMoved(was, had, p.(batch := p.batch - todo))
        invariant written == Remember(had, p.batch - todo)
      {
        var key :| key in todo;
        var c := p.batch[key];
        ghost var done := p.batch - todo;
        assert p.batch - (todo - {key}) == done[key := c];
        WriteStep(was, had, p.(batch := done), key, c);
        RememberStep(had, done, key, c);
        todo := todo - {key};
        if c.Empty() {
          continue;
        }
        Put(key, c, RowOf(key, c, p.refs), key in p.lost);
      }
      assert p.batch - todo == p.batch;
    }
  }

  lemma WriteStart(was: Entities, had: Written, p: Pass)
    ensures WriteMoved(was, had, p.(batch := map[])) == was && Remember(had, map[]) == had
  {}

  lemma WriteStep(was: Entities, had: Written, done: Pass, key: EntityKey, c: Cell)
    requires key !in done.batch
    ensures WriteMoved(was, had, done.(batch := done.batch[key := c]))
         == if c.Empty() || (key in had && had[key] == c) || key in done.lost then WriteMoved(was, had, done)
            else WriteMoved(was, had, done)[key := RowOf(key, c, done.refs)]
  {
    hide FieldsOf, RowOf, Cell.Empty, MovedRows, Moved;
    MovedStep(had, done, key, c);
  }

  lemma RememberStep(had: Written, done: Batch, key: EntityKey, c: Cell)
    requires key !in done
    ensures Remember(had, done[key := c]) == if c.Empty() then Remember(had, done) else Remember(had, done)[key := c]
    ensures key in Remember(had, done) <==> key in had
    ensures key in had ==> Remember(had, done)[key] == had[key]
  {
    hide Cell.Empty, Telling;
    TellingStep(done, key, c);
  }

  lemma MovedStep(had: Written, done: Pass, key: EntityKey, c: Cell)
    requires key !in done.batch
    ensures key !in MovedRows(had, done)
    ensures MovedRows(had, done.(batch := done.batch[key := c]))
         == if c.Empty() || (key in had && had[key] == c) || key in done.lost then MovedRows(had, done)
            else MovedRows(had, done)[key := RowOf(key, c, done.refs)]
  {
    hide FieldsOf, RowOf, Cell.Empty;
    var more := done.batch[key := c];
    assert forall k | k in done.batch :: Moved(had, more, k) <==> Moved(had, done.batch, k);
  }

  lemma TellingStep(done: Batch, key: EntityKey, c: Cell)
    requires key !in done
    ensures key !in Telling(done)
    ensures Telling(done[key := c]) == if c.Empty() then Telling(done) else Telling(done)[key := c]
  {
    hide Cell.Empty;
  }

  // ----- refinement -----

  /** A row as it is compared: with its embedded reference, or by its fields alone. */
  function Shown(row: Row, whole: bool): Row { if whole then row else row.(ref := "") }

  predicate Shows(entities: Entities, key: EntityKey, row: Row, whole: bool) {
    key in entities && Shown(entities[key], whole) == Shown(row, whole)
  }

  ghost predicate SameShown(a: Entities, b: Entities, whole: bool) {
    a.Keys == b.Keys && forall key | key in a :: Shown(a[key], whole) == Shown(b[key], whole)
  }

  /** Every write the cache suppresses would have left the store as it is. */
  ghost predicate NoneMissed(entities: Entities, written: Written, p: Pass, whole: bool) {
    forall key | Due(p, key) && !Moved(written, p.batch, key) :: Shows(entities, key, RowOf(key, p.batch[key], p.refs), whole)
  }

  /** One pass, from stores that agree: they still agree exactly when no suppressed write was missed. */
  lemma PassAgreesIff(lazy: Entities, eager: Entities, written: Written, p: Pass, whole: bool)
    requires SameShown(lazy, eager, whole)
    ensures SameShown(WriteMoved(lazy, written, p), AlwaysWrite(eager, p), whole) <==> NoneMissed(lazy, written, p, whole)
  {
    hide FieldsOf, RowOf, Cell.Empty, Shown;
    var a, b := WriteMoved(lazy, written, p), AlwaysWrite(eager, p);
    forall key | Due(p, key) && !Moved(written, p.batch, key)
      ensures key in b && b[key] == RowOf(key, p.batch[key], p.refs)
      ensures key in a <==> key in lazy
      ensures key in a ==> a[key] == lazy[key]
    {
    }
    forall key | !(Due(p, key) && !Moved(written, p.batch, key))
      ensures key in a <==> key in b
      ensures key in a ==> Shown(a[key], whole) == Shown(b[key], whole)
    {
    }
  }

  type Passes = seq<Pass>

  /** The store and the cache after a run of passes of one process. */
  function Lazy(entities: Entities, run: Passes): (Entities, Written) {
    if run == [] then (entities, map[])
    else
      var (e, w) := Lazy(entities, run[..|run| - 1]);
      var p := run[|run| - 1];
      (WriteMoved(e, w, p), Remember(w, p.batch))
  }

  function Eager(entities: Entities, run: Passes): Entities {
    if run == [] then entities
    else AlwaysWrite(Eager(entities, run[..|run| - 1]), run[|run| - 1])
  }

  function Stored(entities: Entities, run: Passes, n: nat): Entities
    requires n <= |run|
  {
    Lazy(entities, run[..n]).0
  }

  function Cached(entities: Entities, run: Passes, n: nat): Written
    requires n <= |run|
  {
    Lazy(entities, run[..n]).1
  }

  lemma PassOf(entities: Entities, run: Passes, n: nat)
    requires n < |run|
    ensures Stored(entities, run, n + 1) == WriteMoved(Stored(entities, run, n), Cached(entities, run, n), run[n])
    ensures Cached(entities, run, n + 1) == Remember(Cached(entities, run, n), run[n].batch)
    ensures Eager(entities, run[..n + 1]) == AlwaysWrite(Eager(entities, run[..n]), run[n])
  {
    hide WriteMoved, AlwaysWrite, Remember;
    assert run[..n + 1][..n] == run[..n];
  }

  ghost predicate AgreeAt(entities: Entities, run: Passes, n: nat, whole: bool)
    requires n <= |run|
  {
    SameShown(Stored(entities, run, n), Eager(entities, run[..n]), whole)
  }

  ghost predicate NoneMissedIn(entities: Entities, run: Passes, n: nat, whole: bool)
    requires n < |run|
  {
    NoneMissed(Stored(entities, run, n), Cached(entities, run, n), run[n], whole)
  }

  ghost predicate AgreeUpTo(entities: Entities, run: Passes, n: nat, whole: bool)
    requires n <= |run|
  {
    forall m: nat | m <= n :: AgreeAt(entities, run, m, whole)
  }

  ghost predicate NoneMissedUpTo(entities: Entities, run: Passes, n: nat, whole: bool)
    requires n <= |run|
  {
    forall m: nat | m < n :: NoneMissedIn(entities, run, m, whole)
  }

  /** Over any run of a process, whatever the store held before and whichever writes were lost, what is
      stored is at every point what writing every day every pass would have stored if and only if each
      write a pass suppressed was of a row the store already showed. */
  lemma {:induction false} RunAgreesIff(entities: Entities, run: Passes, n: nat, whole: bool)
    requires n <= |run|
    ensures AgreeUpTo(entities, run, n, whole) <==> NoneMissedUpTo(entities, run, n, whole)
  {
    hide AgreeAt, NoneMissedIn;
    if n == 0 {
      StartAgrees(entities, run, whole);
    } else {
      RunAgreesIff(entities, run, n - 1, whole);
      if AgreeAt(entities, run, n - 1, whole) {
        StepAgreesIff(entities, run, n - 1, whole);
      }
    }
  }

  lemma StepAgreesIff(entities: Entities, run: Passes, n: nat, whole: bool)
    requires n < |run| && AgreeAt(entities, run, n, whole)
    ensures AgreeAt(entities, run, n + 1, whole) <==> NoneMissedIn(entities, run, n, whole)
  {
    hide WriteMoved, AlwaysWrite, Stored, Cached, Eager, NoneMissed, SameShown;
    PassOf(entities, run, n);
    PassAgreesIff(Stored(entities, run, n), Eager(entities, run[..n]), Cached(entities, run, n), run[n], whole);
  }

  lemma StartAgrees(entities: Entities, run: Passes, whole: bool)
    ensures AgreeAt(entities, run, 0, whole)
  {}

  // ----- while no write is lost -----

  /** What is remembered of a day is what its stored row shows. */
  ghost predicate InStep(entities: Entities, written: Written) {
    forall key | key in written :: key in entities && entities[key].fields == FieldsOf(key.kind, written[key])
  }

  ghost predicate Lossless(run: Passes) { forall i | 0 <= i < |run| :: run[i].lost == {} }

  lemma InStepKept(entities: Entities, written: Written, p: Pass)
    requires InStep(entities, written) && p.lost == {}
    ensures InStep(WriteMoved(entities, written, p), Remember(written, p.batch))
  {
    hide FieldsOf, Cell.Empty;
  }

  lemma {:induction false} RunInStep(entities: Entities, run: Passes, n: nat)
    requires n <= |run| && Lossless(run)
    ensures InStep(Stored(entities, run, n), Cached(entities, run, n))
  {
    hide WriteMoved, AlwaysWrite, Remember, InStep, Stored, Cached, Eager;
    if n == 0 {
      FreshInStep(entities, run);
    } else {
      RunInStep(entities, run, n - 1);
      PassOf(entities, run, n - 1);
      InStepKept(Stored(entities, run, n - 1), Cached(entities, run, n - 1), run[n - 1]);
    }
  }

  lemma FreshInStep(entities: Entities, run: Passes)
    ensures InStep(Stored(entities, run, 0), Cached(entities, run, 0))
  {}

  /** In step, a suppressed write could have changed nothing but the embedded reference. */
  lemma ReferencesAgreeIff(entities: Entities, written: Written, p: Pass)
    requires InStep(entities, written)
    ensures NoneMissed(entities, written, p, false)
    ensures NoneMissed(entities, written, p, true)
       <==> forall key | Due(p, key) && !Moved(written, p.batch, key) ::
              entities[key].ref == RowOf(key, p.batch[key], p.refs).ref
  {
    hide FieldsOf, Cell.Empty;
    forall key | Due(p, key) && !Moved(written, p.batch, key)
      ensures key in entities && entities[key].fields == RowOf(key, p.batch[key], p.refs).fields
    {
    }
  }

  /** While every write reaches the store, the fields of every stored row are at every point those of
      writing every day every pass. */
  lemma SuppressionRefines(entities: Entities, run: Passes, n: nat)
    requires n <= |run| && Lossless(run)
    ensures AgreeUpTo(entities, run, n, false)
  {
    hide AgreeUpTo, Stored, Cached, InStep, NoneMissed;
    forall m: nat | m < n ensures NoneMissedIn(entities, run, m, false) {
      RunInStep(entities, run, m);
      ReferencesAgreeIff(Stored(entities, run, m), Cached(entities, run, m), run[m]);
    }
    RunAgreesIff(entities, run, n, false);
  }

  // ----- one lost write -----

  /** n passes over one unchanging cell after a pass that lost its write. */
  function AfterLoss(key: EntityKey, c: Cell, refs: map<EntityKey, string>, n: nat): Passes {
    if n == 0 then [Pass(map[key := c], refs, {key})]
    else AfterLoss(key, c, refs, n - 1) + [Pass(map[key := c], refs, {})]
  }

  /** A lost write is never made good while its cell stands still, however many passes follow; writing
      every day would have made it good with the next. */
  lemma {:induction false} LostWriteStays(entities: Entities, key: EntityKey, c: Cell, refs: map<EntityKey, string>, n: nat)
    requires !c.Empty()
    ensures Lazy(entities, AfterLoss(key, c, refs, n)) == (entities, map[key := c])
    ensures Eager(entities, AfterLoss(key, c, refs, n)) == if n == 0 then entities else entities[key := RowOf(key, c, refs)]
  {
    hide WriteMoved, AlwaysWrite, Remember, RowOf, Cell.Empty;
    var run := AfterLoss(key, c, refs, n);
    if n == 0 {
      assert run[..0] == [];
      Loss(entities, key, c, refs);
    } else {
      LostWriteStays(entities, key, c, refs, n - 1);
      assert run[..|run| - 1] == AfterLoss(key, c, refs, n - 1);
      NoMove(entities, key, c, refs);
      NoMove(entities[key := RowOf(key, c, refs)], key, c, refs);
    }
  }

  lemma Loss(entities: Entities, key: EntityKey, c: Cell, refs: map<EntityKey, string>)
    ensures var p := Pass(map[key := c], refs, {key});
            && WriteMoved(entities, map[], p) == entities == AlwaysWrite(entities, p)
            && (!c.Empty() ==> Remember(map[], p.batch) == map[key := c])
  {
    hide RowOf, Cell.Empty;
  }

  lemma NoMove(entities: Entities, key: EntityKey, c: Cell, refs: map<EntityKey, string>)
    requires !c.Empty()
    ensures var p := Pass(map[key := c], refs, {});
            && WriteMoved(entities, map[key := c], p) == entities
            && Remember(map[key := c], p.batch) == map[key := c]
            && AlwaysWrite(entities, p) == entities[key := RowOf(key, c, refs)]
  {
    hide RowOf, Cell.Empty;
  }
}
