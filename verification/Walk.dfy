/** The valuation pass's walk through the swap table (indexer/series.go:82-99, 137-183,
    indexer/valuation.go:193-212, storage/store_sqlite.go:167-220).

    Only a row's id and timestamp matter here, so a table is a map from one to the other.  Which
    values a pass computes, and which trades it cannot price, is in Valuing. */
module Walk {
  import opened Window
  import opened Sorting

  /** Where ts's day begins, for a time at or after 1970; Go's `%` truncates (indexer/blocks.go:205-211). */
  function DayStart(ts: int): int {
    if ts >= 0 then ts - ts % 86400 else ts + (-ts) % 86400
  }

  lemma DayStartMonotone(a: int, b: int)
    requires a <= b
    ensures DayStart(a) <= DayStart(b)
  {
    DayIndex(a);
    DayIndex(b);
    hide DayStart;
  }

  /** The day a timestamp belongs to, counted from 1970. */
  lemma DayIndex(ts: int)
    ensures DayStart(ts) == 86400 * (if ts >= 0 then ts / 86400 else -((-ts) / 86400))
  {
    if ts >= 0 {
      assert ts == 86400 * (ts / 86400) + ts % 86400;
    } else {
      var m := -ts;
      assert m == 86400 * (m / 86400) + m % 86400;
    }
  }

  // ----- whole days -----

  ghost predicate IsFirstDay(swaps: Times, d: int) {
    (exists id :: id in swaps && DayStart(swaps[id]) == d) && forall id | id in swaps :: d <= DayStart(swaps[id])
  }

  ghost predicate IsLastDay(swaps: Times, d: int) {
    (exists id :: id in swaps && DayStart(swaps[id]) == d) && forall id | id in swaps :: DayStart(swaps[id]) <= d
  }

  function WithoutDay(swaps: Times, d: int): Times {
    map id | id in swaps && DayStart(swaps[id]) != d :: swaps[id]
  }

  /** A read that was cut loses the day its cut falls in, unless that is its only day. */
  ghost predicate IsWhole(kept: Times, swaps: Times, limit: nat, cutOldest: bool) {
    if |swaps| < limit then kept == swaps
    else if swaps == map[] then kept == map[]
    else exists lo, hi :: && IsFirstDay(swaps, lo) && IsLastDay(swaps, hi)
                          && kept == if lo == hi then swaps else WithoutDay(swaps, if cutOldest then lo else hi)
  }

  /** The days of a batch, in the order its map is ranged over. */
  function DaysOf(swaps: Times, order: seq<Id>): seq<int>
    requires forall id | id in order :: id in swaps
  {
    seq(|order|, i requires 0 <= i < |order| => DayStart(swaps[order[i]]))
  }

  function DropScanned(swaps: Times, lo: int, hi: int, cutOldest: bool): Times {
    if lo == hi then swaps else WithoutDay(swaps, if cutOldest then lo else hi)
  }

  ghost predicate IsListing(order: seq<Id>, ids: set<Id>) { NoDup(order) && Elements(order) == ids }

  /** What the scan comes to, for some order of the map. */
  ghost predicate Scanned(kept: Times, swaps: Times, limit: nat, cutOldest: bool) {
    if |swaps| < limit then kept == swaps
    else exists order :: && IsListing(order, swaps.Keys) && (forall id | id in order :: id in swaps)
                         && kept == DropScanned(swaps, ScanFirstDay(DaysOf(swaps, order)),
                                                ScanLastDay(DaysOf(swaps, order)), cutOldest)
  }

  method WholeDays(swaps: Times, limit: nat, cutOldest: bool) returns (kept: Times)
    ensures Scanned(kept, swaps, limit, cutOldest)
  {
    hide DayStart, DaysOf, ScanFirstDay, ScanLastDay, IsListing, WithoutDay;
    if |swaps| < limit {
      return swaps;
    }
    var lo, hi := 0, 0;
    var todo := swaps.Keys;
    ghost var order: seq<Id> := [];
    ListNothing(swaps);
    while todo != {}
      invariant todo <= swaps.Keys && IsListing(order, swaps.Keys - todo)
      invariant forall id | id in order :: id in swaps
      invariant lo == ScanFirstDay(DaysOf(swaps, order)) && hi == ScanLastDay(DaysOf(swaps, order))
    {
      var id :| id in todo;
      ghost var listed := swaps.Keys - todo;
      todo := todo - {id};
      var d := DayStart(swaps[id]);
      if lo == 0 || d < lo {
        lo := d;
      }
      if d > hi {
        hi := d;
      }
      ListOneMore(order, swaps, listed, id);
      assert listed + {id} == swaps.Keys - todo;
      order := order + [id];
    }
    assert swaps.Keys - todo == swaps.Keys;
    if lo == hi {
      return swaps;
    }
    var drop := if cutOldest then lo else hi;
    kept := DropDay(swaps, drop);
  }

  lemma ListNothing(swaps: Times)
    ensures IsListing([], swaps.Keys - swaps.Keys)
    ensures ScanFirstDay(DaysOf(swaps, [])) == 0 == ScanLastDay(DaysOf(swaps, []))
  {
    assert DaysOf(swaps, []) == [];
  }

  lemma ListOneMore(order: seq<Id>, swaps: Times, ids: set<Id>, id: Id)
    requires (forall k | k in order :: k in swaps) && IsListing(order, ids) && id in swaps && id !in ids
    ensures forall k | k in order + [id] :: k in swaps
    ensures IsListing(order + [id], ids + {id})
    ensures var first, last, d := ScanFirstDay(DaysOf(swaps, order)), ScanLastDay(DaysOf(swaps, order)), DayStart(swaps[id]);
            && ScanFirstDay(DaysOf(swaps, order + [id])) == (if first == 0 || d < first then d else first)
            && ScanLastDay(DaysOf(swaps, order + [id])) == (if d > last then d else last)
  {
    hide DayStart;
    var days, d := DaysOf(swaps, order), DayStart(swaps[id]);
    assert DaysOf(swaps, order + [id]) == days + [d];
    assert (days + [d])[..|days|] == days;
    assert forall k | k in order :: k in Elements(order);
  }

  method DropDay(swaps: Times, drop: int) returns (kept: Times)
    ensures kept == WithoutDay(swaps, drop)
  {
    hide DayStart;
    kept := swaps;
    var todo := swaps.Keys;
    while todo != {}
      invariant todo <= swaps.Keys
      invariant kept == map id | id in swaps && (id in todo || DayStart(swaps[id]) != drop) :: swaps[id]
    {
      var id :| id in todo;
      todo := todo - {id};
      if DayStart(swaps[id]) == drop {
        kept := kept - {id};
      }
    }
  }

  // ----- the zero day -----

  /** The source's running minimum, with 0 doubling as "unset". */
  function ScanFirstDay(days: seq<int>): int {
    if days == [] then 0
    else
      var lo, d := ScanFirstDay(days[..|days| - 1]), days[|days| - 1];
      if lo == 0 || d < lo then d else lo
  }

  ghost predicate IsMin(days: seq<int>, m: int) {
    m in days && forall d | d in days :: m <= d
  }

  /** It finds the first day of a batch exactly when the batch has no day zero, or day zero happens
      to be visited last: a timestamp in the first day of 1970, such as the block number an undated
      row holds, makes the result depend on map order. */
  lemma {:induction false} ScanFirstDayExact(days: seq<int>)
    requires days != [] && forall d | d in days :: d >= 0
    ensures IsMin(days, ScanFirstDay(days)) <==> 0 !in days || days[|days| - 1] == 0
    ensures 0 !in days ==> ScanFirstDay(days) > 0
    ensures ScanFirstDay(days) >= 0 && (ScanFirstDay(days) == 0 <==> days[|days| - 1] == 0)
  {
    var n := |days| - 1;
    var before := days[..n];
    assert days == before + [days[n]];
    if n > 0 {
      assert forall d | d in before :: d in days;
      ScanFirstDayExact(before);
      assert before[n - 1] in before;
    }
  }

  /** The running maximum starts at 0 too, which only matters before 1970. */
  function ScanLastDay(days: seq<int>): int {
    if days == [] then 0
    else
      var hi, d := ScanLastDay(days[..|days| - 1]), days[|days| - 1];
      if d > hi then d else hi
  }

  /** From 1970 on, what either scan settles on is a day of the batch, and the second its last. */
  lemma {:induction false} ScannedDaysAreThere(days: seq<int>)
    requires days != [] && forall d | d in days :: d >= 0
    ensures ScanFirstDay(days) in days && ScanLastDay(days) >= 0
    ensures ScanLastDay(days) in days && forall d | d in days :: d <= ScanLastDay(days)
  {
    var n := |days| - 1;
    var before := days[..n];
    assert days == before + [days[n]];
    if n > 0 {
      assert forall d | d in before :: d in days;
      ScannedDaysAreThere(before);
    }
    assert days[n] in days;
    assert forall d | d in days :: d in before || d == days[n];
  }

  /** With every day past the first of 1970 the scan finds both ends, whatever the order. */
  lemma ScannedIsWhole(kept: Times, swaps: Times, limit: nat, cutOldest: bool)
    requires Scanned(kept, swaps, limit, cutOldest) && forall id | id in swaps :: DayStart(swaps[id]) > 0
    ensures IsWhole(kept, swaps, limit, cutOldest)
  {
    if |swaps| >= limit && swaps != map[] {
      var order :| && IsListing(order, swaps.Keys) && (forall id | id in order :: id in swaps)
                   && kept == DropScanned(swaps, ScanFirstDay(DaysOf(swaps, order)), ScanLastDay(DaysOf(swaps, order)), cutOldest);
      hide DayStart, ScanFirstDay, ScanLastDay;
      var days := DaysOf(swaps, order);
      var k :| k in swaps;
      assert k in Elements(order);
      forall d | d in days ensures d > 0 {
        var i :| 0 <= i < |days| && days[i] == d;
        assert order[i] in order;
      }
      ScanFirstDayExact(days);
      ScannedDaysAreThere(days);
      DaysAreEnds(swaps, order, ScanFirstDay(days), ScanLastDay(days));
    } else if |swaps| >= limit {
      NoDays(kept, swaps, limit, cutOldest);
    }
  }

  lemma NoDays(kept: Times, swaps: Times, limit: nat, cutOldest: bool)
    requires swaps == map[] && Scanned(kept, swaps, limit, cutOldest)
    ensures kept == map[]
  {}

  lemma DaysAreEnds(swaps: Times, order: seq<Id>, lo: int, hi: int)
    requires Elements(order) == swaps.Keys && forall id | id in order :: id in swaps
    requires IsMin(DaysOf(swaps, order), lo)
    requires hi in DaysOf(swaps, order) && forall d | d in DaysOf(swaps, order) :: d <= hi
    ensures IsFirstDay(swaps, lo) && IsLastDay(swaps, hi)
  {
    hide DayStart;
    var days := DaysOf(swaps, order);
    forall id | id in swaps ensures DayStart(swaps[id]) in days {
      assert id in Elements(order);
      var i :| 0 <= i < |order| && order[i] == id;
      assert days[i] == DayStart(swaps[id]);
    }
    var i :| 0 <= i < |days| && days[i] == lo;
    var j :| 0 <= j < |days| && days[j] == hi;
    assert order[i] in order && order[j] in order;
  }

  // ----- reading the table -----

  function Past(table: Times, mark: int): Times {
    map id | id in table && table[id] > mark :: table[id]
  }

  function Pick(table: Times, win: set<Id>): Times {
    map id | id in table && id in win :: table[id]
  }

  /** What one pass's tail read may hand over, `win` being the rows the query selects. */
  ghost predicate IsTail(kept: Times, table: Times, base: int, limit: nat, win: set<Id>, keeps: Keeps) {
    IsEarliest(Past(table, base), limit, win) && Scanned(kept, Pick(table, Handed(win, keeps)), limit, false)
  }

  /** And its head read. */
  ghost predicate IsHead(kept: Times, table: Times, limit: nat, keeps: Keeps) {
    exists win :: IsLatest(table, limit, win) && Scanned(kept, Pick(table, Handed(win, keeps)), limit, true)
  }

  lemma ScannedIsPart(kept: Times, swaps: Times, limit: nat, cutOldest: bool)
    requires Scanned(kept, swaps, limit, cutOldest)
    ensures kept.Keys <= swaps.Keys && forall id | id in kept :: kept[id] == swaps[id]
    ensures |swaps| < limit ==> kept == swaps
  {
    hide DayStart, ScanFirstDay, ScanLastDay, DaysOf;
  }

  lemma HeadIsPart(kept: Times, table: Times, limit: nat, keeps: Keeps)
    requires IsHead(kept, table, limit, keeps)
    ensures kept.Keys <= table.Keys
  {
    var win :| IsLatest(table, limit, win) && Scanned(kept, Pick(table, Handed(win, keeps)), limit, true);
    ScannedIsPart(kept, Pick(table, Handed(win, keeps)), limit, true);
  }

  lemma TailIsPart(kept: Times, table: Times, base: int, limit: nat, win: set<Id>, keeps: Keeps)
    requires IsTail(kept, table, base, limit, win, keeps)
    ensures forall id | id in kept :: id in table && id in win && keeps(id) && base < table[id] == kept[id]
    ensures |Handed(win, keeps)| < limit ==> kept == Pick(table, Handed(win, keeps))
  {
    hide Scanned;
    var swaps := Pick(table, Handed(win, keeps));
    ScannedIsPart(kept, swaps, limit, false);
    assert swaps.Keys == Handed(win, keeps);
  }

  /** A cut batch is kept whole, or loses exactly the last day of its window. */
  lemma CutTail(kept: Times, swaps: Times, limit: nat)
    requires Scanned(kept, swaps, limit, false) && |swaps| >= limit && swaps != map[]
    requires forall id | id in swaps :: swaps[id] > 0
    ensures kept != map[]
    ensures kept == swaps || exists hi :: IsLastDay(swaps, hi) && kept == WithoutDay(swaps, hi)
  {
    var order :| && IsListing(order, swaps.Keys) && (forall id | id in order :: id in swaps)
                 && kept == DropScanned(swaps, ScanFirstDay(DaysOf(swaps, order)), ScanLastDay(DaysOf(swaps, order)), false);
    hide DayStart, ScanFirstDay, ScanLastDay;
    var days := DaysOf(swaps, order);
    var k :| k in swaps;
    assert k in Elements(order);
    forall d | d in days ensures d >= 0 {
      var i :| 0 <= i < |days| && days[i] == d;
      assert order[i] in order;
      NotBefore(swaps[order[i]]);
    }
    ScannedDaysAreThere(days);
    var lo, hi := ScanFirstDay(days), ScanLastDay(days);
    if lo != hi {
      var i :| 0 <= i < |days| && days[i] == lo;
      assert order[i] in order && order[i] in kept;
      LastOfDays(swaps, order, hi);
    }
  }

  lemma NotBefore(ts: int)
    requires ts >= 0
    ensures DayStart(ts) >= 0
  {}

  lemma LastOfDays(swaps: Times, order: seq<Id>, hi: int)
    requires Elements(order) == swaps.Keys && forall id | id in order :: id in swaps
    requires hi in DaysOf(swaps, order) && forall d | d in DaysOf(swaps, order) :: d <= hi
    ensures IsLastDay(swaps, hi)
  {
    hide DayStart;
    var days := DaysOf(swaps, order);
    forall id | id in swaps ensures DayStart(swaps[id]) in days {
      assert id in Elements(order);
      var i :| 0 <= i < |order| && order[i] == id;
      assert days[i] == DayStart(swaps[id]);
    }
    var j :| 0 <= j < |days| && days[j] == hi;
    assert order[j] in order;
  }

  /** What a cut read still holds: every row, on the kept side of the cut, of the days it kept. */
  lemma CutKeeps(all: Times, swaps: Times, hi: int, id: Id, k: Id)
    requires swaps.Keys <= all.Keys && forall w | w in swaps :: swaps[w] == all[w]
    requires NoLaterThan(all, swaps.Keys, all.Keys - swaps.Keys)
    requires IsLastDay(swaps, hi)
    requires id in all && k in WithoutDay(swaps, hi) && DayStart(all[id]) <= DayStart(all[k])
    ensures id in WithoutDay(swaps, hi)
  {
    hide DayStart;
    var last :| last in swaps && DayStart(swaps[last]) == hi;
    if id !in swaps {
      assert all[last] <= all[id];
      DayStartMonotone(all[last], all[id]);
    }
  }

  // ----- what a tail batch passes over -----

  /** The newest timestamp of a batch, or 0. */
  ghost predicate IsReached(reached: int, kept: Times) {
    && (forall id | id in kept :: kept[id] <= reached)
    && (if forall id | id in kept :: kept[id] <= 0 then reached == 0 else exists id :: id in kept && kept[id] == reached)
  }

  /** The query selected the row and the read did not hand it over, though it handed over one as new. */
  predicate Dropped(table: Times, win: set<Id>, keeps: Keeps, reached: int, id: Id)
    requires id in table
  {
    id in win && !keeps(id) && table[id] <= reached
  }

  /** The row ties with the last row of a batch that was kept whole. */
  predicate Tied(kept: Times, table: Times, win: set<Id>, keeps: Keeps, reached: int, id: Id)
    requires id in table
  {
    id !in win && table[id] == reached && kept == Pick(table, Handed(win, keeps))
  }

  /** Over any table, a row past the base that a batch leaves out lies at or before the newest time the
      batch reached exactly when the read dropped it, or the batch was kept whole and it ties with its
      last time.  Any other row left out lies beyond, and is still to come. */
  lemma PassedOverIff(kept: Times, table: Times, base: int, limit: nat, win: set<Id>, keeps: Keeps, reached: int, id: Id)
    requires base >= 0 && IsTail(kept, table, base, limit, win, keeps) && IsReached(reached, kept)
    requires id in table && table[id] > base && id !in kept
    ensures table[id] <= reached <==> Dropped(table, win, keeps, reached, id) || Tied(kept, table, win, keeps, reached, id)
  {
    var past, got := Past(table, base), Handed(win, keeps);
    var swaps := Pick(table, got);
    hide Scanned, DayStart, IsReached, Pick;
    TailIsPart(kept, table, base, limit, win, keeps);
    PickKeys(table, got);
    assert id in past.Keys;
    ReachedTop(kept, reached);
    if |got| < limit || kept == swaps {
      NothingLater(kept, table, base, limit, win, reached, id);
      if id in win {
        assert id !in got;
      }
    } else {
      SubsetSize(got, win);
      SameSize(got, win);
      assert swaps.Keys == win && |swaps| >= limit;
      CutTail(kept, swaps, limit);
      var hi :| IsLastDay(swaps, hi) && kept == WithoutDay(swaps, hi);
      BeyondCut(kept, swaps, table, past, hi, reached, id);
    }
  }

  lemma PickKeys(table: Times, win: set<Id>)
    ensures win <= table.Keys ==> Pick(table, win).Keys == win
    ensures forall id | id in Pick(table, win) :: id in table && id in win && Pick(table, win)[id] == table[id]
  {}

  lemma ReachedTop(kept: Times, reached: int)
    requires IsReached(reached, kept) && forall id | id in kept :: kept[id] > 0
    ensures kept == map[] ==> reached == 0
    ensures kept != map[] ==> exists id :: id in kept && kept[id] == reached
    ensures forall id | id in kept :: kept[id] <= reached
  {
    if kept != map[] {
      var k :| k in kept;
    }
  }

  lemma NothingLater(kept: Times, table: Times, base: int, limit: nat, win: set<Id>, reached: int, id: Id)
    requires IsEarliest(Past(table, base), limit, win) && base >= 0
    requires forall k | k in kept :: k in win && k in table && kept[k] == table[k]
    requires if kept == map[] then reached == 0 else exists k :: k in kept && kept[k] == reached
    requires id in table && table[id] > base
    ensures id !in win ==> table[id] >= reached
  {
    var past := Past(table, base);
    if id !in win && kept != map[] {
      var k :| k in kept && kept[k] == reached;
      assert past[k] <= past[id];
    }
  }

  lemma BeyondCut(kept: Times, swaps: Times, table: Times, past: Times, hi: int, reached: int, id: Id)
    requires swaps.Keys <= past.Keys <= table.Keys && forall w | w in past :: past[w] == table[w]
    requires forall w | w in swaps :: swaps[w] == table[w]
    requires NoLaterThan(past, swaps.Keys, past.Keys - swaps.Keys)
    requires IsLastDay(swaps, hi) && kept == WithoutDay(swaps, hi) && id in past && id !in kept
    requires if kept == map[] then reached == 0 < table[id] else exists k :: k in kept && kept[k] == reached
    ensures table[id] > reached
  {
    hide DayStart;
    if kept != map[] {
      var k :| k in kept && kept[k] == reached;
      if table[id] <= reached {
        DayStartMonotone(past[id], reached);
        CutKeeps(past, swaps, hi, id, k);
        assert false;
      }
    }
  }

  /** A tail read that hands over everything is empty only when nothing is past its base. */
  lemma TailGoesOn(kept: Times, table: Times, base: int, limit: nat, win: set<Id>, keeps: Keeps)
    requires base >= 0 && limit > 0 && IsTail(kept, table, base, limit, win, keeps) && ReadWhole(keeps)
    ensures kept == map[] <==> Past(table, base) == map[]
  {
    var past := Past(table, base);
    var swaps := Pick(table, win);
    assert Handed(win, keeps) == win;
    hide Scanned, DayStart;
    TailIsPart(kept, table, base, limit, win, keeps);
    assert swaps.Keys == win;
    ShortIsAll(past, limit, win);
    if |swaps| >= limit {
      CutTail(kept, swaps, limit);
    }
    if past != map[] {
      var k :| k in past;
      assert |swaps| < limit ==> k in kept;
    }
  }

  // ----- the walk -----

  /** `dated`: the rows that carry a time, where the others hold a block number.  The rest is history:
      `seen` the rows of every batch whose values were written, `done` those written while dated,
      `headed` those a head batch wrote while dated, `late` those given the timestamp they now have
      when the mark had already reached it, and `passed` those a tail batch passed over before they
      were written; a tail batch that writes a row takes it out of both. */
  datatype State = State(table: Times, dated: set<Id>, mark: int,
                         seen: set<Id>, done: set<Id>, headed: set<Id>, late: set<Id>, passed: set<Id>)
  {
    /** A row that needs no more writing: it was written, and since it was dated if it is. */
    predicate Settled(id: Id) { if id in dated then id in done else id in seen }
  }

  function Among(batch: Times, ids: set<Id>): set<Id> { set id | id in batch && id in ids }

  /** What answers during one pass: the write of the values, the two reads of the mark, the write of the
      mark, and the rows each read of the table hands over. */
  datatype Tick = Tick(ok: bool, asked: bool, compared: bool, saved: bool, headKeeps: Keeps, tailKeeps: Keeps)

  /** A read of the mark that fails reads 0. */
  function MarkRead(mark: int, up: bool): int { if up then mark else 0 }

  function NewMark(mark: int, tick: Tick, reached: int): int {
    if tick.saved && reached > MarkRead(mark, tick.compared) then reached else mark
  }

  function Over(s: State, tick: Tick, tail: Times, win: set<Id>, reached: int): set<Id> {
    set id | && id in s.table && s.table[id] > MarkRead(s.mark, tick.asked) && id !in tail && !s.Settled(id)
             && (Dropped(s.table, win, tick.tailKeeps, reached, id) || Tied(tail, s.table, win, tick.tailKeeps, reached, id))
  }

  function Written(s: State, tick: Tick, head: Times, tail: Times, win: set<Id>, reached: int): State {
    State(s.table, s.dated, NewMark(s.mark, tick, reached),
          s.seen + head.Keys + tail.Keys,
          s.done + Among(head, s.dated) + Among(tail, s.dated),
          s.headed + Among(head, s.dated),
          s.late - tail.Keys, s.passed - tail.Keys + Over(s, tick, tail, win, reached))
  }

  ghost predicate Batches(s: State, limit: nat, tick: Tick, head: Times, tail: Times, win: set<Id>, reached: int) {
    && IsHead(head, s.table, limit, tick.headKeeps)
    && IsTail(tail, s.table, MarkRead(s.mark, tick.asked), limit, win, tick.tailKeeps)
    && IsReached(reached, tail)
  }

  /** One valuation pass. */
  ghost predicate PassStep(s: State, t: State, limit: nat, tick: Tick) {
    exists head, tail, win, reached ::
      && Batches(s, limit, tick, head, tail, win, reached)
      && t == if tick.ok then Written(s, tick, head, tail, win, reached) else s
  }

  /** A row's timestamp is new: the row just came, or has just been dated. */
  predicate Renewed(s: State, table: Times, dated: set<Id>, id: Id) {
    id !in s.table || (id in dated && id !in s.dated)
  }

  function Changed(s: State, table: Times, dated: set<Id>): State {
    s.(table := table, dated := dated,
       late := (set id | id in table && if Renewed(s, table, dated, id) then table[id] <= s.mark else id in s.late),
       passed := (set id | id in s.passed && !Renewed(s, table, dated, id)))
  }

  /** Between passes rows arrive, dated or not, at any timestamp, and undated rows are dated, to any
      timestamp.  A dated row keeps its time. */
  ghost predicate ChangeStep(s: State, t: State) {
    && s.table.Keys <= t.table.Keys && s.dated <= t.dated <= t.table.Keys
    && (forall id | id in s.table && !Renewed(s, t.table, t.dated, id) :: t.table[id] == s.table[id])
    && t == Changed(s, t.table, t.dated)
  }

  /** A table that has never been walked. */
  function Unwalked(table: Times, dated: set<Id>): State {
    State(table, dated, 0, {}, {}, {}, set id | id in table && table[id] <= 0, {})
  }

  class Valuer {
    const limit: nat
    var table: Times
    var dated: set<Id>
    var pricedThrough: int
    ghost var seen: set<Id>
    ghost var done: set<Id>
    ghost var headed: set<Id>
    ghost var late: set<Id>
    ghost var passed: set<Id>

    ghost function View(): State
      reads this
    {
      State(table, dated, pricedThrough, seen, done, headed, late, passed)
    }

    constructor (limit: nat, table: Times, dated: set<Id>)
      ensures this.limit == limit && View() == Unwalked(table, dated)
    {
      this.limit, this.table, this.dated, pricedThrough := limit, table, dated, 0;
      seen, done, headed, passed := {}, {}, {}, {};
      late := Unwalked(table, dated).late;
    }

    /** A row written: a trade arriving, an undated one dated, or one written again as it was; or, when
        the database loses the write, nothing. */
    method SeedSwap(id: Id, ts: int, isDated: bool, lost: bool)
      requires dated <= table.Keys && (id in dated ==> isDated)
      requires id in table && (id in dated || !isDated) ==> ts == table[id]
      modifies this
      ensures if lost then View() == old(View()) else ChangeStep(old(View()), View())
      ensures !lost ==> table == old(table)[id := ts] && dated == old(dated) + if isDated then {id} else {}
    {
      hide Renewed;
      if lost {
        return;
      }
      ghost var was := View();
      var more := dated + if isDated then {id} else {};
      late := Changed(was, table[id := ts], more).late;
      passed := Changed(was, table[id := ts], more).passed;
      table, dated := table[id := ts], more;
      OthersAsTheyWere(was, table, dated, id);
    }

    method PricedThrough(up: bool) returns (ts: int)
      ensures ts == MarkRead(pricedThrough, up)
    {
      ts := if up then pricedThrough else 0;
    }

    method SetPricedThrough(ts: int, up: bool)
      modifies this`pricedThrough
      ensures pricedThrough == if up then ts else old(pricedThrough)
    {
      if up {
        pricedThrough := ts;
      }
    }

    method SwapsAfter(ts: int, keeps: Keeps) returns (swaps: Times, ghost win: set<Id>)
      ensures IsEarliest(Past(table, ts), limit, win) && swaps == Pick(table, Handed(win, keeps))
    {
      var w := Earliest(Past(table, ts), limit);
      win := w;
      swaps := map id | id in table && id in w && keeps(id) :: table[id];
    }

    method RecentSwapsRaw(keeps: Keeps) returns (swaps: Times)
      ensures exists win :: IsLatest(table, limit, win) && swaps == Pick(table, Handed(win, keeps))
    {
      var win := Latest(table, limit);
      swaps := map id | id in table && id in win && keeps(id) :: table[id];
      assert swaps == Pick(table, Handed(win, keeps));
    }

    /** The reads of one pass and what it does to the mark. */
    method Pass(tick: Tick)
      modifies this
      ensures PassStep(old(View()), View(), limit, tick)
    {
      hide Scanned, IsReached, DayStart, IsHead, IsTail, IsEarliest, IsLatest, Past, Pick, PassStep, Batches, Written;
      ghost var was := View();
      var recent := RecentSwapsRaw(tick.headKeeps);
      var head := WholeDays(recent, limit, true);
      var from := PricedThrough(tick.asked);
      var after;
      ghost var win;
      after, win := SwapsAfter(from, tick.tailKeeps);
      var tail := WholeDays(after, limit, false);
      var reached := Reached(tail);
      ReadsAre(was, limit, tick, recent, head, after, tail, win, reached);
      PassIs(was, limit, tick, head, tail, win, reached);
      if tick.ok {
        ghost var next := Written(was, tick, head, tail, win, reached);
        var mark := PricedThrough(tick.compared);
        if reached > mark {
          SetPricedThrough(reached, tick.saved);
        }
        seen, done, headed, late, passed := next.seen, next.done, next.headed, next.late, next.passed;
        WrittenParts(was, tick, head, tail, win, reached);
      }
    }

    method Reached(tail: Times) returns (reached: int)
      ensures IsReached(reached, tail)
    {
      reached := 0;
      var todo := tail.Keys;
      while todo != {}
        invariant todo <= tail.Keys && reached >= 0
        invariant forall id | id in tail && id !in todo :: tail[id] <= reached
        invariant reached == 0 || exists id :: id in tail && tail[id] == reached
      {
        var id :| id in todo;
        todo := todo - {id};
        if tail[id] > reached {
          reached := tail[id];
        }
      }
    }
  }

  lemma OthersAsTheyWere(s: State, table: Times, dated: set<Id>, id: Id)
    requires s.dated <= s.table.Keys && s.dated <= dated <= s.dated + {id}
    requires id in table && table == s.table[id := table[id]]
    requires id in s.table && (id in s.dated || id !in dated) ==> table[id] == s.table[id]
    ensures forall k | k in s.table && !Renewed(s, table, dated, k) :: table[k] == s.table[k]
  {}

  lemma PassIs(s: State, limit: nat, tick: Tick, head: Times, tail: Times, win: set<Id>, reached: int)
    requires Batches(s, limit, tick, head, tail, win, reached)
    ensures PassStep(s, if tick.ok then Written(s, tick, head, tail, win, reached) else s, limit, tick)
  {
    hide Batches, Written;
  }

  lemma ReadsAre(s: State, limit: nat, tick: Tick, recent: Times, head: Times, after: Times, tail: Times, win: set<Id>, reached: int)
    requires exists w :: IsLatest(s.table, limit, w) && recent == Pick(s.table, Handed(w, tick.headKeeps))
    requires IsEarliest(Past(s.table, MarkRead(s.mark, tick.asked)), limit, win)
    requires after == Pick(s.table, Handed(win, tick.tailKeeps))
    requires Scanned(head, recent, limit, true) && Scanned(tail, after, limit, false) && IsReached(reached, tail)
    ensures Batches(s, limit, tick, head, tail, win, reached)
  {
    hide Scanned, IsLatest, IsEarliest, Pick, IsReached;
  }

  // ----- every run -----

  /** Every row at or before the mark has been in a batch that was written, unless it came there late
      or was passed over; a dated one in a batch written while it was dated; and of those that came
      late or were passed over, only a head batch has written any while dated. */
  ghost predicate SkippedNothing(s: State) {
    && s.mark >= 0 && s.dated <= s.table.Keys && s.done <= s.dated && s.headed <= s.done <= s.seen <= s.table.Keys
    && s.late <= s.table.Keys && s.passed <= s.table.Keys
    && (forall id | id in s.table && s.table[id] <= s.mark && id !in s.late + s.passed ::
          id in s.seen && (id in s.dated ==> id in s.done))
    && (forall id | id in s.late + s.passed && id in s.done :: id in s.headed)
  }

  /** A pass keeps it, whatever answers; and the mark goes back only if both reads of it fail. */
  lemma PassKeeps(s: State, t: State, limit: nat, tick: Tick)
    requires SkippedNothing(s) && PassStep(s, t, limit, tick)
    ensures t.table == s.table && t.dated == s.dated && s.done <= t.done && SkippedNothing(t)
    ensures t.mark < s.mark ==> tick.ok && tick.saved && !tick.asked && !tick.compared
  {
    hide SkippedNothing, Written, Batches, NewMark, MarkRead;
    var head, tail, win, reached :| && Batches(s, limit, tick, head, tail, win, reached)
                                    && t == if tick.ok then Written(s, tick, head, tail, win, reached) else s;
    if tick.ok {
      WrittenParts(s, tick, head, tail, win, reached);
      BatchFacts(s, limit, tick, head, tail, win, reached);
      WrittenKeeps(s, tick, head, tail, win, reached);
      Sensible(s);
      MarkBack(s, tick, tail, reached);
    }
  }

  lemma WrittenParts(s: State, tick: Tick, head: Times, tail: Times, win: set<Id>, reached: int)
    ensures var t := Written(s, tick, head, tail, win, reached);
            t.table == s.table && t.dated == s.dated && s.done <= t.done && t.mark == NewMark(s.mark, tick, reached)
  {
    hide NewMark, Over;
  }

  /** What a batch leaves out of what it reached is what it passed over. */
  ghost predicate OnlyOver(s: State, tick: Tick, tail: Times, win: set<Id>, reached: int) {
    forall id | id in s.table && MarkRead(s.mark, tick.asked) < s.table[id] <= reached && id !in tail && !s.Settled(id) ::
      id in Over(s, tick, tail, win, reached)
  }

  lemma BatchFacts(s: State, limit: nat, tick: Tick, head: Times, tail: Times, win: set<Id>, reached: int)
    requires SkippedNothing(s) && Batches(s, limit, tick, head, tail, win, reached)
    ensures head.Keys <= s.table.Keys && tail.Keys <= s.table.Keys && reached >= 0
    ensures forall id | id in tail :: s.table[id] == tail[id] > MarkRead(s.mark, tick.asked)
    ensures reached > 0 ==> exists id :: id in tail && tail[id] == reached
    ensures OnlyOver(s, tick, tail, win, reached)
  {
    hide IsHead, IsTail;
    var base := MarkRead(s.mark, tick.asked);
    assert base >= 0;
    HeadIsPart(head, s.table, limit, tick.headKeeps);
    TailIsPart(tail, s.table, base, limit, win, tick.tailKeeps);
    ReachedTop(tail, reached);
    hide IsReached, SkippedNothing, State.Settled, Dropped, Tied;
    forall id | id in s.table && base < s.table[id] <= reached && id !in tail && !s.Settled(id)
      ensures id in Over(s, tick, tail, win, reached)
    {
      PassedOverIff(tail, s.table, base, limit, win, tick.tailKeeps, reached, id);
    }
  }

  lemma WrittenKeeps(s: State, tick: Tick, head: Times, tail: Times, win: set<Id>, reached: int)
    requires SkippedNothing(s) && head.Keys <= s.table.Keys && tail.Keys <= s.table.Keys && reached >= 0
    requires OnlyOver(s, tick, tail, win, reached)
    ensures SkippedNothing(Written(s, tick, head, tail, win, reached))
  {
    OverUnsettled(s, tick, tail, win, reached);
    hide Over;
    var t := Written(s, tick, head, tail, win, reached);
    forall id | id in t.table && t.table[id] <= t.mark && id !in t.late + t.passed
      ensures id in t.seen && (id in t.dated ==> id in t.done)
    {
    }
  }

  lemma OverUnsettled(s: State, tick: Tick, tail: Times, win: set<Id>, reached: int)
    ensures forall id | id in Over(s, tick, tail, win, reached) :: id in s.table && id !in tail && !s.Settled(id)
  {}

  lemma MarkBack(s: State, tick: Tick, tail: Times, reached: int)
    requires forall id | id in tail :: tail[id] > MarkRead(s.mark, tick.asked)
    requires s.mark >= 0 && (reached > 0 ==> exists id :: id in tail && tail[id] == reached)
    ensures NewMark(s.mark, tick, reached) < s.mark ==> tick.saved && !tick.asked && !tick.compared
  {}

  lemma ChangeKeeps(s: State, t: State)
    requires SkippedNothing(s) && ChangeStep(s, t)
    ensures SkippedNothing(t) && t.mark == s.mark
  {
    forall id | id in t.table && t.table[id] <= t.mark && id !in t.late + t.passed
      ensures id in t.seen && (id in t.dated ==> id in t.done)
    {
      assert !Renewed(s, t.table, t.dated, id);
    }
  }

  /** Passes and changes, in any order, from a table that has never been walked. */
  ghost predicate IsRun(run: seq<State>, limit: nat, ticks: seq<Tick>) {
    && |run| == |ticks| + 1
    && run[0].dated <= run[0].table.Keys && run[0] == Unwalked(run[0].table, run[0].dated)
    && forall i | 0 <= i < |ticks| :: PassStep(run[i], run[i + 1], limit, ticks[i]) || ChangeStep(run[i], run[i + 1])
  }

  lemma {:induction false} RunSkipsNothing(run: seq<State>, limit: nat, ticks: seq<Tick>, n: nat)
    requires IsRun(run, limit, ticks) && n < |run|
    ensures SkippedNothing(run[n])
  {
    hide PassStep, ChangeStep, SkippedNothing;
    if n == 0 {
      StartSkipsNothing(run[0]);
    } else {
      RunSkipsNothing(run, limit, ticks, n - 1);
      var i := n - 1;
      if PassStep(run[i], run[i + 1], limit, ticks[i]) {
        PassKeeps(run[i], run[n], limit, ticks[i]);
      } else {
        ChangeKeeps(run[i], run[n]);
      }
    }
  }

  lemma StartSkipsNothing(s: State)
    requires s.dated <= s.table.Keys && s == Unwalked(s.table, s.dated)
    ensures SkippedNothing(s)
  {}

  /** Over every run of passes over any table, whichever reads and writes fail and however much of a
      read is lost, while trades arrive and rows are dated at whatever timestamps: a row at or before
      the mark was in a batch that was written, unless it came there late or a batch passed it over;
      and a dated one has been written while dated exactly when neither happened or some head batch
      took it up. */
  lemma WalkSkipsNothing(run: seq<State>, limit: nat, ticks: seq<Tick>, n: nat, id: Id)
    requires IsRun(run, limit, ticks) && n < |run| && id in run[n].table && run[n].table[id] <= run[n].mark
    ensures id !in run[n].late + run[n].passed ==> id in run[n].seen
    ensures id in run[n].dated ==> (id in run[n].done <==> id !in run[n].late + run[n].passed || id in run[n].headed)
  {
    hide IsRun;
    RunSkipsNothing(run, limit, ticks, n);
  }

  ghost predicate FixedTable(run: seq<State>, limit: nat, ticks: seq<Tick>) {
    IsRun(run, limit, ticks) && forall i | 0 <= i < |ticks| :: PassStep(run[i], run[i + 1], limit, ticks[i])
  }

  /** A pass in which everything the walk needs is answered, and the tail handed over whole. */
  ghost predicate Full(tick: Tick) { tick.ok && tick.asked && tick.saved && ReadWhole(tick.tailKeeps) }

  /** How many of the first n passes were full. */
  ghost function FullPasses(ticks: seq<Tick>, n: nat): nat
    requires n <= |ticks|
  {
    if n == 0 then 0 else FullPasses(ticks, n - 1) + if Full(ticks[n - 1]) then 1 else 0
  }

  /** A full pass over anything past the mark moves the mark onto a later row. */
  lemma PassAdvances(s: State, t: State, limit: nat, tick: Tick)
    requires SkippedNothing(s) && PassStep(s, t, limit, tick) && limit > 0
    ensures Full(tick) && Past(s.table, s.mark) != map[] ==>
              t.mark > s.mark && exists id :: id in s.table && s.table[id] == t.mark
  {
    hide SkippedNothing, Written, Batches, Past, NewMark, ReadWhole;
    var head, tail, win, reached :| && Batches(s, limit, tick, head, tail, win, reached)
                                    && t == if tick.ok then Written(s, tick, head, tail, win, reached) else s;
    if Full(tick) && Past(s.table, s.mark) != map[] {
      WrittenParts(s, tick, head, tail, win, reached);
      BatchFacts(s, limit, tick, head, tail, win, reached);
      Sensible(s);
      BatchGoesOn(s, limit, tick, head, tail, win, reached);
      Taken(s, tick, tail, reached);
    }
  }

  lemma Sensible(s: State)
    requires SkippedNothing(s)
    ensures s.mark >= 0
  {}

  lemma BatchGoesOn(s: State, limit: nat, tick: Tick, head: Times, tail: Times, win: set<Id>, reached: int)
    requires Batches(s, limit, tick, head, tail, win, reached) && s.mark >= 0 && limit > 0
    requires tick.asked && ReadWhole(tick.tailKeeps) && Past(s.table, s.mark) != map[]
    requires forall id | id in tail :: tail[id] > s.mark
    ensures exists id :: id in tail && tail[id] == reached
  {
    hide IsTail, IsHead;
    TailGoesOn(tail, s.table, s.mark, limit, win, tick.tailKeeps);
    ReachedTop(tail, reached);
  }

  lemma Taken(s: State, tick: Tick, tail: Times, reached: int)
    requires s.mark >= 0 && tick.saved && (exists id :: id in tail && tail[id] == reached)
    requires forall id | id in tail :: tail[id] > s.mark
    ensures NewMark(s.mark, tick, reached) == reached > s.mark
  {}

  /** Over any table that holds still, the walk finishes: after as many full passes as there were rows,
      nothing is past the mark, so long as no pass lost both its reads of the mark. */
  lemma {:induction false} WalkFinishes(run: seq<State>, limit: nat, ticks: seq<Tick>, n: nat)
    requires FixedTable(run, limit, ticks) && n < |run| && limit > 0
    requires forall i | 0 <= i < |ticks| :: ticks[i].asked || ticks[i].compared
    ensures run[n].table == run[0].table
    ensures |Past(run[n].table, run[n].mark)| + FullPasses(ticks, n) <= |run[0].table|
         || Past(run[n].table, run[n].mark) == map[]
  {
    hide PassStep, SkippedNothing, Past, FixedTable, Full;
    if n == 0 {
      FixedStart(run, limit, ticks);
    } else {
      WalkFinishes(run, limit, ticks, n - 1);
      FixedStep(run, limit, ticks, n);
      PassKeeps(run[n - 1], run[n], limit, ticks[n - 1]);
      PassAdvances(run[n - 1], run[n], limit, ticks[n - 1]);
      LessPast(run[n].table, run[n - 1].mark, run[n].mark);
    }
  }

  lemma LessPast(table: Times, mark: int, later: int)
    requires mark <= later
    ensures |Past(table, later)| <= |Past(table, mark)|
    ensures mark < later && (exists id :: id in table && table[id] == later) ==> |Past(table, later)| < |Past(table, mark)|
    ensures Past(table, mark) == map[] ==> Past(table, later) == map[]
  {
    var before, after := Past(table, mark), Past(table, later);
    assert after.Keys <= before.Keys;
    SubsetSize(after.Keys, before.Keys);
    if mark < later && exists id :: id in table && table[id] == later {
      var id :| id in table && table[id] == later;
      SubsetSize(after.Keys, before.Keys - {id});
    }
  }

  lemma FixedStart(run: seq<State>, limit: nat, ticks: seq<Tick>)
    requires FixedTable(run, limit, ticks)
    ensures |run| == |ticks| + 1 && run[0] == Unwalked(run[0].table, run[0].dated)
    ensures |Past(run[0].table, run[0].mark)| <= |run[0].table|
  {
    hide PassStep, ChangeStep;
    SubsetSize(Past(run[0].table, run[0].mark).Keys, run[0].table.Keys);
  }

  lemma FixedStep(run: seq<State>, limit: nat, ticks: seq<Tick>, n: nat)
    requires FixedTable(run, limit, ticks) && 0 < n < |run|
    ensures |run| == |ticks| + 1 && SkippedNothing(run[n - 1])
    ensures PassStep(run[n - 1], run[n], limit, ticks[n - 1])
  {
    hide PassStep, ChangeStep, SkippedNothing;
    RunSkipsNothing(run, limit, ticks, n - 1);
    assert 0 <= n - 1 < |ticks|;
  }

  // ----- a day that fills the limit -----

  lemma {:induction false} ListingExists(ids: set<Id>) returns (order: seq<Id>)
    ensures IsListing(order, ids)
  {
    order := [];
    if ids != {} {
      var id :| id in ids;
      var rest := ListingExists(ids - {id});
      assert forall k | k in rest :: k in Elements(rest);
      assert ids - {id} + {id} == ids;
      order := rest + [id];
      assert forall k :: k in order <==> k in rest || k == id;
    }
  }

  lemma OneDayIsKept(swaps: Times, ts: int, limit: nat, cutOldest: bool)
    requires swaps != map[] && DayStart(ts) > 0 && forall id | id in swaps :: swaps[id] == ts
    ensures Scanned(swaps, swaps, limit, cutOldest)
  {
    var order := ListingExists(swaps.Keys);
    forall id | id in order ensures id in swaps {
      assert id in Elements(order);
    }
    var id :| id in swaps;
    assert id in Elements(order);
    hide DayStart, ScanFirstDay, ScanLastDay;
    var days := DaysOf(swaps, order);
    assert days != [];
    forall d | d in days ensures d == DayStart(ts) {
      var i :| 0 <= i < |days| && days[i] == d;
      assert order[i] in order;
    }
    ScannedDaysAreThere(days);
    assert swaps == DropScanned(swaps, ScanFirstDay(days), ScanLastDay(days), cutOldest);
  }

  /** Whatever the limit, one trade more than that in a single second is enough: with everything
      answered, a trade is left behind the mark that no batch has written, and there is nothing left
      for the walk to read. */
  lemma BusySecondSkips(limit: nat, ts: int) returns (s: State, t: State, tick: Tick, y: Id)
    requires limit > 0 && DayStart(ts) > 0
    ensures s == Unwalked(s.table, s.dated) && s.dated == s.table.Keys && |s.table| == limit + 1
    ensures Full(tick) && tick.compared && ReadWhole(tick.headKeeps) && PassStep(s, t, limit, tick)
    ensures y in t.table && t.table[y] <= t.mark && y !in t.seen && Past(t.table, t.mark) == map[]
  {
    hide DayStart, PassStep, Written, Batches, Pick, Past;
    var table: Times, xs;
    table, xs, y := OneSecondTable(limit, ts);
    s, tick := Unwalked(table, table.Keys), Tick(true, true, true, true, id => true, id => true);
    PositiveDay(ts);
    var kept := Pick(table, xs);
    PickKeys(table, xs);
    OneSecondRead(s, limit, tick, kept, xs, ts);
    t := Written(s, tick, kept, kept, xs, ts);
    PassIs(s, limit, tick, kept, kept, xs, ts);
    OneSecondWritten(s, tick, kept, xs, ts, y);
  }

  lemma OneSecondTable(limit: nat, ts: int) returns (table: Times, xs: set<Id>, y: Id)
    ensures table.Keys == xs + {y} && y !in xs && |xs| == limit && |table| == limit + 1
    ensures forall id | id in table :: table[id] == ts
  {
    xs := ManyIds(limit);
    y := seq(limit, _ => 'x');
    table := map id | id in xs + {y} :: ts;
    assert table.Keys == xs + {y};
    assert |table.Keys| == limit + 1;
  }

  lemma OneSecondWindow(table: Times, limit: nat, win: set<Id>, ts: int)
    requires (forall id | id in table :: table[id] == ts) && win <= table.Keys && |win| == limit <= |table|
    ensures IsEarliest(table, limit, win) && IsLatest(table, limit, win)
  {}

  lemma OneSecondRead(s: State, limit: nat, tick: Tick, kept: Times, win: set<Id>, ts: int)
    requires s.mark == 0 && DayStart(ts) > 0 && ts > 0 && forall id | id in s.table :: s.table[id] == ts
    requires win <= s.table.Keys && |win| == limit <= |s.table| && limit > 0 && kept == Pick(s.table, win)
    requires ReadWhole(tick.headKeeps) && ReadWhole(tick.tailKeeps)
    ensures Batches(s, limit, tick, kept, kept, win, ts)
  {
    hide DayStart;
    assert kept.Keys == win;
    hide Scanned, IsEarliest, IsLatest;
    var x :| x in win;
    assert kept[x] == ts;
    OneDayIsKept(kept, ts, limit, true);
    OneDayIsKept(kept, ts, limit, false);
    assert Handed(win, tick.headKeeps) == win == Handed(win, tick.tailKeeps);
    assert Past(s.table, 0) == s.table;
    OneSecondWindow(s.table, limit, win, ts);
  }

  lemma OneSecondWritten(s: State, tick: Tick, kept: Times, win: set<Id>, ts: int, y: Id)
    requires s.mark == 0 < ts && s.seen == {} && tick.saved && tick.compared && kept.Keys == win
    requires (forall id | id in s.table :: s.table[id] == ts) && y in s.table && y !in win
    ensures var t := Written(s, tick, kept, kept, win, ts);
            y in t.table && t.table[y] <= t.mark && y !in t.seen && Past(t.table, t.mark) == map[]
  {
    hide Over;
  }

  lemma PositiveDay(ts: int)
    requires DayStart(ts) > 0
    ensures ts > 0
  {}

  // ----- days under the limit -----

  /** Fewer than `limit` trades in any one day, and every one after the first day of 1970. */
  ghost predicate Tame(table: Times, limit: nat) {
    && (forall id | id in table :: DayStart(table[id]) > 0)
    && (forall d :: |OnDay(table, d)| < limit)
  }

  function OnDay(table: Times, d: int): set<Id> {
    set id | id in table && DayStart(table[id]) == d
  }

  /** A read that hands over all of its rows or none. */
  ghost predicate Clean(keeps: Keeps) { ReadWhole(keeps) || ReadFailed(keeps) }

  lemma PickedDays(table: Times, win: set<Id>, limit: nat)
    requires Tame(table, limit)
    ensures forall id | id in Pick(table, win) :: DayStart(Pick(table, win)[id]) > 0
  {}

  /** A batch of at least `limit` rows spans two days. */
  lemma TwoDays(table: Times, limit: nat, swaps: Times, d: int)
    requires Tame(table, limit) && swaps.Keys <= table.Keys && forall id | id in swaps :: swaps[id] == table[id]
    requires |swaps| >= limit
    ensures exists id :: id in swaps && DayStart(swaps[id]) != d
  {
    hide DayStart;
    if forall id | id in swaps :: DayStart(swaps[id]) == d {
      SubsetSize(swaps.Keys, OnDay(table, d));
    }
  }

  lemma CutKeepsOldest(all: Times, swaps: Times, lo: int, id: Id, k: Id)
    requires swaps.Keys <= all.Keys && forall w | w in swaps :: swaps[w] == all[w]
    requires NoLaterThan(all, all.Keys - swaps.Keys, swaps.Keys)
    requires IsFirstDay(swaps, lo)
    requires id in all && k in WithoutDay(swaps, lo) && DayStart(all[k]) <= DayStart(all[id])
    ensures id in WithoutDay(swaps, lo)
  {
    hide DayStart;
    var first :| first in swaps && DayStart(swaps[first]) == lo;
    if id !in swaps {
      assert all[id] <= all[first];
      DayStartMonotone(all[id], all[first]);
    }
  }

  /** Given days under the limit, a read that was cut loses exactly its last (or first) day. */
  lemma WholeOfTame(table: Times, limit: nat, swaps: Times, kept: Times, cutOldest: bool) returns (cut: int)
    requires Tame(table, limit) && swaps.Keys <= table.Keys && forall id | id in swaps :: swaps[id] == table[id]
    requires |swaps| >= limit && swaps != map[] && IsWhole(kept, swaps, limit, cutOldest)
    ensures kept == WithoutDay(swaps, cut) && kept != map[]
    ensures if cutOldest then IsFirstDay(swaps, cut) else IsLastDay(swaps, cut)
  {
    hide DayStart;
    var lo, hi :| IsFirstDay(swaps, lo) && IsLastDay(swaps, hi)
               && kept == if lo == hi then swaps else WithoutDay(swaps, if cutOldest then lo else hi);
    hide Tame;
    TwoDays(table, limit, swaps, hi);
    cut := if cutOldest then lo else hi;
    var first :| first in swaps && DayStart(swaps[first]) == lo;
    var last :| last in swaps && DayStart(swaps[last]) == hi;
    assert lo != hi;
    assert (if cutOldest then last else first) in kept;
  }

  /** The tail batch leaves nothing out: it holds every row past its base up to the newest day it kept,
      and all of that day. */
  lemma TailSkipsNothing(kept: Times, table: Times, base: int, limit: nat, win: set<Id>, keeps: Keeps)
    requires Tame(table, limit) && IsTail(kept, table, base, limit, win, keeps) && Clean(keeps)
    ensures forall id, k | id in table && base < table[id] && k in kept && DayStart(table[id]) <= DayStart(kept[k]) :: id in kept
  {
    if ReadWhole(keeps) {
      assert Handed(win, keeps) == win;
      PickedDays(table, win, limit);
      ScannedIsWhole(kept, Pick(table, win), limit, false);
      hide DayStart, IsWhole, Scanned, Tame, WithoutDay, IsTail;
      TailOfWindow(kept, table, base, limit, win);
    } else {
      TailIsPart(kept, table, base, limit, win, keeps);
    }
  }

  lemma TailOfWindow(kept: Times, table: Times, base: int, limit: nat, win: set<Id>)
    requires Tame(table, limit) && IsEarliest(Past(table, base), limit, win) && IsWhole(kept, Pick(table, win), limit, false)
    ensures forall id, k | id in table && base < table[id] && k in kept && DayStart(table[id]) <= DayStart(kept[k]) :: id in kept
  {
    var past := Past(table, base);
    var swaps := Pick(table, win);
    assert win <= past.Keys && past.Keys <= table.Keys;
    assert swaps.Keys == win;
    hide DayStart, IsWhole, Tame, WithoutDay;
    ShortIsAll(past, limit, win);
    SomeDayCounts(table, limit);
    if |swaps| < limit {
      ShortRead(kept, swaps, limit);
      assert kept == past;
    } else {
      var cut := WholeOfTame(table, limit, swaps, kept, false);
      WithoutDayIsPart(swaps, cut);
      forall id, k | id in table && base < table[id] && k in kept && DayStart(table[id]) <= DayStart(kept[k])
        ensures id in kept
      {
        CutKeeps(past, swaps, cut, id, k);
      }
    }
  }

  lemma ShortRead(kept: Times, swaps: Times, limit: nat)
    requires |swaps| < limit && (IsWhole(kept, swaps, limit, true) || IsWhole(kept, swaps, limit, false))
    ensures kept == swaps
  {}

  lemma WithoutDayIsPart(swaps: Times, d: int)
    ensures WithoutDay(swaps, d).Keys <= swaps.Keys
    ensures forall id | id in WithoutDay(swaps, d) :: WithoutDay(swaps, d)[id] == swaps[id]
  {}

  lemma SomeDayCounts(table: Times, limit: nat)
    requires Tame(table, limit)
    ensures limit > 0
  {
    assert |OnDay(table, 0)| < limit;
  }

  /** The head batch holds whole days: every row of a day it kept. */
  lemma HeadHoldsWholeDays(kept: Times, table: Times, limit: nat, keeps: Keeps, id: Id, k: Id)
    requires Tame(table, limit) && IsHead(kept, table, limit, keeps) && Clean(keeps)
    requires id in table && k in kept && k in table && DayStart(table[id]) == DayStart(table[k])
    ensures id in kept
  {
    var win :| IsLatest(table, limit, win) && Scanned(kept, Pick(table, Handed(win, keeps)), limit, true);
    var swaps := Pick(table, win);
    ScannedIsPart(kept, Pick(table, Handed(win, keeps)), limit, true);
    assert ReadWhole(keeps);
    assert Handed(win, keeps) == win;
    PickedDays(table, win, limit);
    ScannedIsWhole(kept, swaps, limit, true);
    assert swaps.Keys == win;
    hide DayStart, IsWhole, Scanned, Tame, WithoutDay;
    ShortIsAll(table, limit, win);
    SomeDayCounts(table, limit);
    if |swaps| < limit {
      ShortRead(kept, swaps, limit);
    } else {
      var cut := WholeOfTame(table, limit, swaps, kept, true);
      WithoutDayIsPart(swaps, cut);
      CutKeepsOldest(table, swaps, cut, id, k);
    }
  }

  /** The mark does not lie inside a day. */
  ghost predicate Aligned(s: State) {
    forall a, b | a in s.table && b in s.table && s.table[a] <= s.mark < s.table[b] ::
      DayStart(s.table[a]) != DayStart(s.table[b])
  }

  /** With days under the limit, and reads that break off nowhere, a pass passes nothing over and never
      leaves the mark inside a day it was not inside before. */
  lemma TamePass(s: State, t: State, limit: nat, tick: Tick)
    requires Tame(s.table, limit) && Clean(tick.tailKeeps) && SkippedNothing(s) && PassStep(s, t, limit, tick)
    ensures t.passed <= s.passed
    ensures Aligned(s) ==> Aligned(t)
  {
    hide DayStart, SkippedNothing, Written, Batches, Tame, Clean, Aligned, NewMark;
    var head, tail, win, reached :| && Batches(s, limit, tick, head, tail, win, reached)
                                    && t == if tick.ok then Written(s, tick, head, tail, win, reached) else s;
    if tick.ok {
      Sensible(s);
      WrittenParts(s, tick, head, tail, win, reached);
      BatchFacts(s, limit, tick, head, tail, win, reached);
      TameBatch(s, limit, tick, head, tail, win, reached);
      TameOver(s, tick, tail, win, reached);
      PassedMore(s, tick, head, tail, win, reached);
      if Aligned(s) {
        StaysAligned(s, t, tick, tail, reached);
      }
    }
  }

  lemma TameBatch(s: State, limit: nat, tick: Tick, head: Times, tail: Times, win: set<Id>, reached: int)
    requires Tame(s.table, limit) && Clean(tick.tailKeeps) && Batches(s, limit, tick, head, tail, win, reached)
    ensures UpToDay(s, tick, tail)
    ensures ReadWhole(tick.tailKeeps) || reached == 0
    ensures forall id | id in tail :: tail[id] <= reached
  {
    hide IsTail, IsHead, DayStart, Tame;
    TailSkipsNothing(tail, s.table, MarkRead(s.mark, tick.asked), limit, win, tick.tailKeeps);
    TailIsPart(tail, s.table, MarkRead(s.mark, tick.asked), limit, win, tick.tailKeeps);
  }

  ghost predicate UpToDay(s: State, tick: Tick, tail: Times) {
    forall id, k | && id in s.table && MarkRead(s.mark, tick.asked) < s.table[id]
                   && k in tail && DayStart(s.table[id]) <= DayStart(tail[k]) ::
      id in tail
  }

  lemma TameOver(s: State, tick: Tick, tail: Times, win: set<Id>, reached: int)
    requires s.mark >= 0 && UpToDay(s, tick, tail) && (ReadWhole(tick.tailKeeps) || reached == 0)
    requires reached > 0 ==> exists id :: id in tail && tail[id] == reached
    ensures Over(s, tick, tail, win, reached) == {}
  {
    hide DayStart, State.Settled;
    if id :| id in Over(s, tick, tail, win, reached) {
      assert false;
    }
  }

  lemma PassedMore(s: State, tick: Tick, head: Times, tail: Times, win: set<Id>, reached: int)
    ensures Written(s, tick, head, tail, win, reached).passed <= s.passed + Over(s, tick, tail, win, reached)
  {
    hide Over, NewMark;
  }

  lemma StaysAligned(s: State, t: State, tick: Tick, tail: Times, reached: int)
    requires Aligned(s) && s.mark >= 0 && t.table == s.table && t.mark == NewMark(s.mark, tick, reached) && UpToDay(s, tick, tail)
    requires reached > 0 ==> exists id :: id in tail && tail[id] == reached
    requires forall id | id in tail :: id in s.table && MarkRead(s.mark, tick.asked) < s.table[id] == tail[id] <= reached
    ensures Aligned(t)
  {
    hide DayStart;
    if t.mark != s.mark {
      var k :| k in tail && tail[k] == reached;
      forall a, b | a in t.table && b in t.table && t.table[a] <= t.mark < t.table[b]
        ensures DayStart(t.table[a]) != DayStart(t.table[b])
      {
        DayStartMonotone(t.table[a], reached);
        assert b !in tail;
      }
    }
  }

  /** A run over days under the limit whose tail reads break off nowhere. */
  ghost predicate IsTameRun(run: seq<State>, limit: nat, ticks: seq<Tick>) {
    && IsRun(run, limit, ticks)
    && (forall i | 0 <= i < |run| :: Tame(run[i].table, limit))
    && forall i | 0 <= i < |ticks| :: Clean(ticks[i].tailKeeps)
  }

  /** Then nothing is ever passed over, so that a row is left behind only by coming late. */
  lemma {:induction false} TameRunPassesNothing(run: seq<State>, limit: nat, ticks: seq<Tick>, n: nat)
    requires IsTameRun(run, limit, ticks) && n < |run|
    ensures run[n].passed == {}
    ensures n == 0 ==> run[n].late == {}
  {
    hide DayStart, PassStep, ChangeStep, SkippedNothing, Clean;
    if n == 0 {
      TameStart(run[0], limit);
    } else {
      var i := n - 1;
      TameRunPassesNothing(run, limit, ticks, i);
      RunSkipsNothing(run, limit, ticks, i);
      if PassStep(run[i], run[i + 1], limit, ticks[i]) {
        TamePass(run[i], run[n], limit, ticks[i]);
      } else {
        ChangePasses(run[i], run[n]);
      }
    }
  }

  lemma TameStart(s: State, limit: nat)
    requires Tame(s.table, limit) && s == Unwalked(s.table, s.dated)
    ensures s.late == {} && s.passed == {} && Aligned(s)
  {
    hide DayStart;
    forall id | id in s.table ensures s.table[id] > 0 {
      PositiveDay(s.table[id]);
    }
  }

  lemma ChangePasses(s: State, t: State)
    requires ChangeStep(s, t)
    ensures t.passed <= s.passed
  {}

  /** While such a table holds still, the mark never splits a day. */
  lemma {:induction false} MarkKeepsDays(run: seq<State>, limit: nat, ticks: seq<Tick>, n: nat)
    requires IsTameRun(run, limit, ticks) && FixedTable(run, limit, ticks) && n < |run|
    ensures Aligned(run[n])
  {
    hide DayStart, PassStep, ChangeStep, SkippedNothing, Aligned, Clean, Tame;
    if n == 0 {
      TameStart(run[0], limit);
    } else {
      MarkKeepsDays(run, limit, ticks, n - 1);
      RunSkipsNothing(run, limit, ticks, n - 1);
      assert PassStep(run[n - 1], run[n - 1 + 1], limit, ticks[n - 1]);
      TamePass(run[n - 1], run[n], limit, ticks[n - 1]);
    }
  }

  // ----- whole days across the two reads -----

  predicate SameDay(table: Times, a: Id, b: Id)
    requires a in table && b in table
  {
    DayStart(table[a]) == DayStart(table[b])
  }

  /** A day in the tail batch is whole exactly when none of it lies at or before the time the tail was
      read from, as is always so over a table that holds still. */
  lemma TailDayWholeIff(s: State, tail: Times, limit: nat, win: set<Id>, tick: Tick, k: Id)
    requires Tame(s.table, limit) && Clean(tick.tailKeeps) && k in tail
    requires IsTail(tail, s.table, MarkRead(s.mark, tick.asked), limit, win, tick.tailKeeps)
    ensures k in s.table
    ensures (forall id | id in s.table && SameDay(s.table, id, k) :: id in tail)
       <==> (forall id | id in s.table && SameDay(s.table, id, k) :: s.table[id] > MarkRead(s.mark, tick.asked))
    ensures Aligned(s) ==> forall id | id in s.table && SameDay(s.table, id, k) :: id in tail
  {
    var base := MarkRead(s.mark, tick.asked);
    forall id | id in s.table ensures s.table[id] > 0 {
      PositiveDay(s.table[id]);
    }
    hide DayStart, IsTail, Tame;
    TailSkipsNothing(tail, s.table, base, limit, win, tick.tailKeeps);
    TailIsPart(tail, s.table, base, limit, win, tick.tailKeeps);
  }

  /** A pass writes a day from both reads together.  It has the whole of it exactly when the head read
      holds any of it, or none of it lies at or before the time the tail was read from. */
  lemma PassDayWholeIff(s: State, limit: nat, tick: Tick, head: Times, tail: Times, win: set<Id>, reached: int, k: Id)
    requires Tame(s.table, limit) && Clean(tick.headKeeps) && Clean(tick.tailKeeps)
    requires Batches(s, limit, tick, head, tail, win, reached) && k in head + tail
    ensures k in s.table && head.Keys <= s.table.Keys
    ensures (forall id | id in s.table && SameDay(s.table, id, k) :: id in head + tail)
       <==> || (exists j :: j in head && SameDay(s.table, j, k))
            || (forall id | id in s.table && SameDay(s.table, id, k) :: s.table[id] > MarkRead(s.mark, tick.asked))
  {
    hide DayStart, IsTail, IsHead, Tame, Aligned, Clean;
    HeadIsPart(head, s.table, limit, tick.headKeeps);
    TailIsPart(tail, s.table, MarkRead(s.mark, tick.asked), limit, win, tick.tailKeeps);
    if j :| j in head && SameDay(s.table, j, k) {
      forall id | id in s.table && SameDay(s.table, id, k) ensures id in head {
        HeadHoldsWholeDays(head, s.table, limit, tick.headKeeps, id, j);
      }
    } else {
      assert k in tail;
      TailDayWholeIff(s, tail, limit, win, tick, k);
    }
  }
}
