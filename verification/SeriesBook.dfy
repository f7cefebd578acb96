/** The day cells as the pass keeps them, and how they are written (indexer/series.go:185-396). */
module SeriesBook {
  import opened Wrappers
  import opened Text
  import opened Sums
  import opened Walk
  import opened DaySeries

  /** A day's cell as the pass holds and changes it. */
  class CellBox {
    var subject: string
    var date: int
    var volume: real
    var volumeUSD: real
    var txCount: nat
    var open: real
    var high: real
    var low: real
    var close: real
    var priced: bool
    var locked: real
    var lockedUSD: real
    var held: bool

    ghost function View(): Cell
      reads this
    {
      Cell(subject, date, volume, volumeUSD, txCount, Candle(open, high, low, close, priced), locked, lockedUSD, held)
    }

    constructor (subject: string, date: int)
      ensures View() == Fresh(subject, date)
    {
      this.subject, this.date := subject, date;
      volume, volumeUSD, txCount := 0.0, 0.0, 0;
      open, high, low, close, priced := 0.0, 0.0, 0.0, 0.0, false;
      locked, lockedUSD, held := 0.0, 0.0, false;
    }

    /** Enters one price. */
    method Observe(price: real)
      modifies this
      ensures subject == old(subject) && date == old(date)
      ensures View() == old(View()).(candle := Observed(old(View()).candle, price))
    {
      if price <= 0.0 {
        return;
      }
      if !priced {
        open, high, low, priced := price, price, price, true;
      }
      if price > high {
        high := price;
      }
      if price < low {
        low := price;
      }
      close := price;
    }

    /** A trade: its count, its worth, and the price it was made at, if any. */
    method AddTrade(usd: real, price: seq<real>)
      requires |price| <= 1
      modifies this
      ensures subject == old(subject) && date == old(date)
      ensures View() == old(View()).(txCount := old(View()).txCount + 1, volumeUSD := old(View()).volumeUSD + usd,
                          candle := if price == [] then old(View()).candle else Observed(old(View()).candle, price[0]))
    {
      hide Observed;
      txCount := txCount + 1;
      volumeUSD := volumeUSD + usd;
      if price != [] {
        Observe(price[0]);
      }
    }

    method AddLeg(l: Leg)
      modifies this
      ensures subject == old(subject) && date == old(date)
      ensures View() == old(View()).(volume := old(View()).volume + l.amt, volumeUSD := old(View()).volumeUSD + l.Worth(),
                          candle := if l.Price() != [] then Observed(old(View()).candle, l.Price()[0]) else old(View()).candle)
    {
      hide Observed;
      volume := volume + l.amt;
      if l.ok {
        volumeUSD := volumeUSD + l.usd;
      }
      if l.otherOk && l.amt > 0.0 {
        Observe(l.otherUsd / l.amt);
      }
    }

    method Stamp(s: Stamp)
      modifies this
      ensures subject == old(subject) && date == old(date)
      ensures View() == Stamped(old(View()), s)
    {
      hide Observed;
      if s.holds.Some? {
        locked, lockedUSD, held := s.holds.value.0, s.holds.value.1, true;
      }
      Observe(s.price);
    }
  }

  /** The cells of one of the three series, by their ids. */
  class Days {
    var cells: map<string, CellBox>

    ghost predicate Valid()
      reads this, cells.Values
    {
      && (forall j, k | j in cells && k in cells && cells[j] == cells[k] :: j == k)
      && forall k | k in cells :: DayId(cells[k].subject, cells[k].date) == k
    }

    ghost function View(): Cells
      reads this, cells.Values
    {
      map k | k in cells :: cells[k].View()
    }

    constructor ()
      ensures Valid() && View() == map[] && cells == map[]
    {
      cells := map[];
    }

    method CellAt(subject: string, ts: int) returns (c: CellBox)
      requires Valid()
      modifies this
      ensures Valid() && Key(subject, ts) in cells && c == cells[Key(subject, ts)]
      ensures c in old(cells.Values) || fresh(c)
      ensures cells == old(cells)[Key(subject, ts) := c]
      ensures c.View() == At(old(View()), subject, ts)
      ensures View() == old(View())[Key(subject, ts) := c.View()]
    {
      hide DayId, DayStart;
      var date := DayStart(ts);
      var id := DayId(subject, date);
      if id in cells {
        c := cells[id];
        assert cells[id := c] == cells;
      } else {
        c := new CellBox(subject, date);
        cells := cells[id := c];
      }
    }

    /** When one cell changed, its subject and day aside, the view changed there and nowhere else. */
    twostate lemma OneCellChanged(key: string)
      requires old(Valid()) && cells == old(cells) && key in cells
      requires forall k | k in cells && k != key :: unchanged(cells[k])
      requires cells[key].subject == old(cells[key].subject) && cells[key].date == old(cells[key].date)
      ensures Valid() && View() == old(View())[key := cells[key].View()]
    {
      hide DayId;
      assert forall k | k in cells && k != key :: cells[k].View() == old(cells[k].View());
    }

    method AddPoolTrade(t: Trade)
      requires Valid()
      modifies this, cells.Values
      ensures Valid() && fresh(cells.Values - old(cells.Values))
      ensures View() == PoolTrade(old(View()), t)
    {
      hide DayId, DayStart, Observed, Key, At, View, CellBox.View;
      var p := CellAt(t.pool, t.ts);
      label L:
      p.AddTrade(t.UsdOrZero(), if t.amt1 > 0.0 then [t.amt0 / t.amt1] else []);
      OneCellChanged@L(Key(t.pool, t.ts));
    }

    method AddFactoryTrade(t: Trade)
      requires Valid()
      modifies this, cells.Values
      ensures Valid() && fresh(cells.Values - old(cells.Values))
      ensures View() == FactoryTrade(old(View()), t)
    {
      hide DayId, DayStart, Key, At, View, CellBox.View;
      var f := CellAt(FACTORY, t.ts);
      label L:
      f.AddTrade(t.UsdOrZero(), []);
      OneCellChanged@L(Key(FACTORY, t.ts));
    }

    method AddTokenLeg(l: Leg)
      requires Valid()
      modifies this, cells.Values
      ensures Valid() && fresh(cells.Values - old(cells.Values))
      ensures View() == TokenLeg(old(View()), l)
    {
      hide DayId, DayStart, Observed, Key, At, View, CellBox.View;
      var c := CellAt(l.token, l.ts);
      label L:
      c.AddLeg(l);
      OneCellChanged@L(Key(l.token, l.ts));
    }

    /** Both legs of a trade. */
    method AddTokenTrade(t: Trade)
      requires Valid() && t.dated
      modifies this, cells.Values
      ensures Valid() && fresh(cells.Values - old(cells.Values))
      ensures View() == TokenLeg(TokenLeg(old(View()), LegsOf(t)[0]), LegsOf(t)[1])
    {
      hide TokenLeg, View, Valid;
      var legs := LegsOf(t);
      AddTokenLeg(legs[0]);
      AddTokenLeg(legs[1]);
    }

    /** What is true now, stamped onto today's cell. */
    method Put(subject: string, now: int, s: Stamp)
      requires Valid()
      modifies this, cells.Values
      ensures Valid() && fresh(cells.Values - old(cells.Values))
      ensures View() == old(View())[Key(subject, now) := Stamped(At(old(View()), subject, now), s)]
    {
      hide DayId, DayStart, Key, Stamped, At, View, CellBox.View;
      var c := CellAt(subject, now);
      label L:
      c.Stamp(s);
      OneCellChanged@L(Key(subject, now));
    }

    /** A range over a map of stamps, in no particular order. */
    method PutAll(stamps: map<string, Stamp>, now: int)
      requires Valid() && Folded(stamps.Keys) && now >= 0
      modifies this, cells.Values
      ensures Valid() && fresh(cells.Values - old(cells.Values))
      ensures IsStamped(View(), old(View()), stamps, now)
    {
      hide DayId, DayStart, Key, Stamped, At, View, Valid, CellBox.View, IsStamped;
      var todo := stamps.Keys;
      ghost var was := View();
      NothingStamped(was, stamps, now);
      assert stamps.Keys - todo == {};
      while todo != {}
        invariant todo <= stamps.Keys
        invariant Valid() && fresh(cells.Values - old(cells.Values))
        invariant IsStamped(View(), was, Only(stamps, stamps.Keys - todo), now)
      {
        var s :| s in todo;
        ghost var before := View();
        Put(s, now, stamps[s]);
        OneMoreStamp(before, was, stamps, stamps.Keys - todo, s, now);
        assert stamps.Keys - (todo - {s}) == stamps.Keys - todo + {s};
        todo := todo - {s};
      }
      assert Only(stamps, stamps.Keys - todo) == stamps;
    }
  }

  lemma NothingStamped(cells: Cells, stamps: map<string, Stamp>, now: int)
    ensures IsStamped(cells, cells, Only(stamps, {}), now)
  {
    assert Only(stamps, {}) == map[];
    assert Named(map[], now) == {};
  }

  /** Subjects that are already lower-cased, as pool ids and token addresses are when stored. */
  ghost predicate Folded(subjects: set<string>) {
    forall s | s in subjects :: Lower(s) == s
  }

  function Only(stamps: map<string, Stamp>, done: set<string>): map<string, Stamp> {
    map s | s in stamps && s in done :: stamps[s]
  }

  lemma OneMoreStamp(before: Cells, was: Cells, stamps: map<string, Stamp>, done: set<string>, s: string, now: int)
    requires IsStamped(before, was, Only(stamps, done), now)
    requires Folded(stamps.Keys) && now >= 0 && s in stamps && s !in done
    ensures At(before, s, now) == At(was, s, now)
    ensures IsStamped(before[Key(s, now) := Stamped(At(was, s, now), stamps[s])], was, Only(stamps, done + {s}), now)
  {
    hide DayId, DayStart, Key, Stamped, Named, IsStamped, Only;
    var less, more := Only(stamps, done), Only(stamps, done + {s});
    NamedStep(stamps, done, s, now);
    NotYetStamped(before, was, less, s, now);
    StampStep(before, was, less, s, stamps[s], now);
  }

  lemma NotYetStamped(before: Cells, was: Cells, less: map<string, Stamp>, s: string, now: int)
    requires IsStamped(before, was, less, now) && Key(s, now) !in Named(less, now)
    ensures At(before, s, now) == At(was, s, now)
  {
    hide DayId, DayStart, Key, Stamped, Named;
  }

  lemma StampStep(before: Cells, was: Cells, less: map<string, Stamp>, s: string, v: Stamp, now: int)
    requires IsStamped(before, was, less, now) && s !in less && Key(s, now) !in Named(less, now)
    requires Named(less[s := v], now) == Named(less, now) + {Key(s, now)}
    ensures IsStamped(before[Key(s, now) := Stamped(At(was, s, now), v)], was, less[s := v], now)
  {
    hide DayId, DayStart, Key, Stamped, At;
    var after := before[Key(s, now) := Stamped(At(was, s, now), v)];
    forall r | r in less[s := v] ensures after[Key(r, now)] == Stamped(At(was, r, now), less[s := v][r]) {
      if r != s {
        assert Key(r, now) in Named(less, now);
      }
    }
  }

  lemma NamedStep(stamps: map<string, Stamp>, done: set<string>, s: string, now: int)
    requires Folded(stamps.Keys) && now >= 0 && s in stamps && s !in done
    ensures Named(Only(stamps, done + {s}), now) == Named(Only(stamps, done), now) + {Key(s, now)}
    ensures s !in Only(stamps, done) && Key(s, now) !in Named(Only(stamps, done), now)
    ensures Only(stamps, done + {s}) == Only(stamps, done)[s := stamps[s]]
  {
    hide DayId, DayStart, Key;
    forall r | r in stamps ensures Key(r, now) == Key(s, now) <==> r == s {
      KeyInjective(r, now, s, now);
    }
    assert Only(stamps, done + {s}) == Only(stamps, done)[s := stamps[s]];
  }

  // ----- the roll -----

  datatype Snapshot = Snapshot(now: int, trades: seq<Trade>, prices: map<string, real>, ratio: map<string, real>,
                               poolTVL: map<string, real>, tokenTVL: map<string, real>, tokenBal: map<string, real>)
  {
    ghost predicate Sound() {
      now >= 0 && Folded(prices.Keys) && Folded(poolTVL.Keys) && Folded(tokenTVL.Keys)
    }

    /** Each pool's holdings now, and its spot ratio when it has one. */
    function PoolStamps(): map<string, Stamp> {
      map p | p in poolTVL :: Stamp(Or(ratio, p), Some((0.0, poolTVL[p])))
    }

    function PriceStamps(): map<string, Stamp> {
      map t | t in prices :: Stamp(prices[t], None)
    }

    function HoldingStamps(): map<string, Stamp> {
      map t | t in tokenTVL :: Stamp(0.0, Some((Or(tokenBal, t), tokenTVL[t])))
    }
  }

  /** The three series a snapshot folds into. */
  ghost predicate IsRolled(s: Snapshot, tokens: Cells, pools: Cells, factory: Cells) {
    && IsStamped(pools, PoolFold(s.trades), s.PoolStamps(), s.now)
    && (exists mid :: IsStamped(mid, TokenFold(s.trades), s.PriceStamps(), s.now)
                   && IsStamped(tokens, mid, s.HoldingStamps(), s.now))
    && IsStamped(factory, FactoryFold(s.trades), map[FACTORY := Stamp(0.0, Some((0.0, Sum(s.poolTVL))))], s.now)
  }

  /** Three books that share no cell. */
  ghost predicate Apart(a: Days, b: Days, c: Days)
    reads a, b, c
  {
    && a != b && a != c && b != c
    && a.cells.Values !! b.cells.Values && a.cells.Values !! c.cells.Values && b.cells.Values !! c.cells.Values
  }

  /** One dated trade, entered in all three. */
  method RollOne(t: Trade, tokenDays: Days, poolDays: Days, factoryDays: Days)
    requires t.dated && Apart(tokenDays, poolDays, factoryDays)
    requires tokenDays.Valid() && poolDays.Valid() && factoryDays.Valid()
    modifies tokenDays, poolDays, factoryDays
    modifies tokenDays.cells.Values, poolDays.cells.Values, factoryDays.cells.Values
    ensures Apart(tokenDays, poolDays, factoryDays)
    ensures tokenDays.Valid() && poolDays.Valid() && factoryDays.Valid()
    ensures fresh(tokenDays.cells.Values - old(tokenDays.cells.Values))
    ensures fresh(poolDays.cells.Values - old(poolDays.cells.Values))
    ensures fresh(factoryDays.cells.Values - old(factoryDays.cells.Values))
    ensures poolDays.View() == PoolTrade(old(poolDays.View()), t)
    ensures factoryDays.View() == FactoryTrade(old(factoryDays.View()), t)
    ensures tokenDays.View() == TokenLeg(TokenLeg(old(tokenDays.View()), LegsOf(t)[0]), LegsOf(t)[1])
  {
    hide PoolTrade, FactoryTrade, TokenLeg, Days.Valid, Days.View;
    poolDays.AddPoolTrade(t);
    factoryDays.AddFactoryTrade(t);
    tokenDays.AddTokenTrade(t);
  }

  method RollTrades(trades: seq<Trade>) returns (tokenDays: Days, poolDays: Days, factoryDays: Days)
    ensures fresh(tokenDays) && fresh(poolDays) && fresh(factoryDays)
    ensures fresh(tokenDays.cells.Values) && fresh(poolDays.cells.Values) && fresh(factoryDays.cells.Values)
    ensures Apart(tokenDays, poolDays, factoryDays)
    ensures tokenDays.Valid() && poolDays.Valid() && factoryDays.Valid()
    ensures tokenDays.View() == TokenFold(trades) && poolDays.View() == PoolFold(trades)
    ensures factoryDays.View() == FactoryFold(trades)
  {
    hide PoolTrade, FactoryTrade, TokenLeg, TokenFold, Days.Valid, Days.View;
    tokenDays := new Days();
    poolDays := new Days();
    factoryDays := new Days();
    NoTrades();
    assert trades[..0] == [];
    for i := 0 to |trades|
      invariant fresh(tokenDays) && fresh(poolDays) && fresh(factoryDays)
      invariant fresh(tokenDays.cells.Values) && fresh(poolDays.cells.Values) && fresh(factoryDays.cells.Values)
      invariant Apart(tokenDays, poolDays, factoryDays)
      invariant tokenDays.Valid() && poolDays.Valid() && factoryDays.Valid()
      invariant tokenDays.View() == TokenFold(trades[..i]) && poolDays.View() == PoolFold(trades[..i])
      invariant factoryDays.View() == FactoryFold(trades[..i])
    {
      var t := trades[i];
      assert trades[..i + 1] == trades[..i] + [t] && trades[..i + 1][..i] == trades[..i];
      LegsStep(trades[..i], t);
      if !t.dated {
        continue;
      }
      RollOne(t, tokenDays, poolDays, factoryDays);
    }
    assert trades[..|trades|] == trades;
  }

  lemma NoTrades()
    ensures TokenFold([]) == map[]
  {}

  lemma LegsStep(ts: seq<Trade>, t: Trade)
    ensures TokenFold(ts + [t]) == if t.dated then TokenLeg(TokenLeg(TokenFold(ts), LegsOf(t)[0]), LegsOf(t)[1]) else TokenFold(ts)
  {
    hide TokenLeg;
    assert (ts + [t])[..|ts|] == ts;
    var before, after := AllLegs(ts), AllLegs(ts + [t]);
    if t.dated {
      var l0, l1 := LegsOf(t)[0], LegsOf(t)[1];
      assert after == before + [l0] + [l1];
      assert after[..|after| - 1] == before + [l0] && after[|after| - 1] == l1;
      assert (before + [l0])[..|before|] == before;
      assert LegFold(before + [l0]) == TokenLeg(LegFold(before), l0);
    } else {
      assert after == before;
    }
  }

  /** `rollDays`: first the trades, then today's stamps. */
  method RollDays(s: Snapshot) returns (tokenDays: Days, poolDays: Days, factoryDays: Days)
    requires s.Sound()
    ensures fresh(tokenDays) && fresh(poolDays) && fresh(factoryDays)
    ensures tokenDays.Valid() && poolDays.Valid() && factoryDays.Valid()
    ensures IsRolled(s, tokenDays.View(), poolDays.View(), factoryDays.View())
  {
    hide PoolFold, FactoryFold, TokenFold, Days.Valid, Days.View, IsStamped, Apart;
    tokenDays, poolDays, factoryDays := RollTrades(s.trades);
    StampToday(s, tokenDays, poolDays, factoryDays);
  }

  method StampToday(s: Snapshot, tokenDays: Days, poolDays: Days, factoryDays: Days)
    requires s.Sound() && Apart(tokenDays, poolDays, factoryDays)
    requires tokenDays.Valid() && poolDays.Valid() && factoryDays.Valid()
    modifies tokenDays, poolDays, factoryDays
    modifies tokenDays.cells.Values, poolDays.cells.Values, factoryDays.cells.Values
    ensures tokenDays.Valid() && poolDays.Valid() && factoryDays.Valid()
    ensures IsStamped(poolDays.View(), old(poolDays.View()), s.PoolStamps(), s.now)
    ensures exists mid :: IsStamped(mid, old(tokenDays.View()), s.PriceStamps(), s.now)
                       && IsStamped(tokenDays.View(), mid, s.HoldingStamps(), s.now)
    ensures IsStamped(factoryDays.View(), old(factoryDays.View()),
                      map[FACTORY := Stamp(0.0, Some((0.0, Sum(s.poolTVL))))], s.now)
  {
    hide Days.Valid, Days.View, IsStamped, Sum, Folded, Snapshot.PoolStamps, Snapshot.PriceStamps, Snapshot.HoldingStamps,
         Snapshot.Sound;
    SoundStamps(s);
    var totalTVL := Total(s.poolTVL);
    poolDays.PutAll(s.PoolStamps(), s.now);
    StampTokens(s, tokenDays);
    FactoryFolded(Stamp(0.0, Some((0.0, totalTVL))));
    factoryDays.PutAll(map[FACTORY := Stamp(0.0, Some((0.0, totalTVL)))], s.now);
  }

  /** Prices first, then holdings. */
  method StampTokens(s: Snapshot, tokenDays: Days)
    requires s.Sound() && tokenDays.Valid()
    modifies tokenDays, tokenDays.cells.Values
    ensures tokenDays.Valid() && fresh(tokenDays.cells.Values - old(tokenDays.cells.Values))
    ensures exists mid :: IsStamped(mid, old(tokenDays.View()), s.PriceStamps(), s.now)
                       && IsStamped(tokenDays.View(), mid, s.HoldingStamps(), s.now)
  {
    hide Days.Valid, Days.View, IsStamped, Folded, Snapshot.PriceStamps, Snapshot.HoldingStamps, Snapshot.Sound;
    SoundStamps(s);
    tokenDays.PutAll(s.PriceStamps(), s.now);
    ghost var mid := tokenDays.View();
    tokenDays.PutAll(s.HoldingStamps(), s.now);
  }

  lemma FactoryFolded(s: Stamp)
    ensures Folded(map[FACTORY := s].Keys)
  {
    assert Lower(FACTORY) == FACTORY;
  }

  lemma SoundStamps(s: Snapshot)
    requires s.Sound()
    ensures s.now >= 0
    ensures Folded(s.PoolStamps().Keys) && Folded(s.PriceStamps().Keys) && Folded(s.HoldingStamps().Keys)
  {}

  method Total(m: map<string, real>) returns (sum: real)
    ensures sum == Sum(m)
  {
    sum := 0.0;
    var todo := m.Keys;
    assert m - todo == map[];
    while todo != {}
      invariant todo <= m.Keys && sum == Sum(m - todo)
    {
      var k :| k in todo;
      SumPut(m - todo, k, m[k]);
      assert (m - todo)[k := m[k]] == m - (todo - {k});
      sum := sum + m[k];
      todo := todo - {k};
    }
    assert m - todo == m;
  }

  /** Over the three series as they are written: on every day the pools' counts and volumes add up to
      the protocol's, and the protocol's counts add up to the dated trades. */
  lemma RolledConserves(s: Snapshot, tokens: Cells, pools: Cells, factory: Cells, date: int)
    requires s.Sound() && InTime(s.trades) && IsRolled(s, tokens, pools, factory)
    ensures Sum(Counts(pools, date)) == Sum(Counts(factory, date))
    ensures Sum(Volumes(pools, date)) == Sum(Volumes(factory, date))
    ensures Sum(AllCounts(factory)) == DatedCount(s.trades) as real
  {
    hide IsStamped, PoolFold, FactoryFold, TokenFold, Sum, Counts, Volumes, AllCounts, DatedCount, Filed, InTime,
         Snapshot.PoolStamps, Folded;
    PoolDaysSumToFactoryDay(s.trades, date);
    FactoryCountsEveryDatedTrade(s.trades);
    StampsAddNothing(pools, PoolFold(s.trades), s.PoolStamps(), s.now, date);
    StampsAddNothing(factory, FactoryFold(s.trades), map[FACTORY := Stamp(0.0, Some((0.0, Sum(s.poolTVL))))], s.now, date);
  }

  /** A stamp's price is the day's last observation. */
  lemma StampClosesTheDay(pools: Cells, s: Snapshot, pool: string)
    requires s.Sound() && IsStamped(pools, PoolFold(s.trades), s.PoolStamps(), s.now) && pool in s.poolTVL
    ensures var key := Key(pool, s.now);
            && key in pools && pools[key].held && pools[key].lockedUSD == s.poolTVL[pool]
            && pools[key].candle == CandleOf(Ratios(TradesAt(s.trades, key)) + [Or(s.ratio, pool)])
  {
    hide DayId, DayStart, Key, Observed, CandleOf, PoolFold, Ratios, TradesAt;
    var key := Key(pool, s.now);
    assert s.PoolStamps()[pool] == Stamp(Or(s.ratio, pool), Some((0.0, s.poolTVL[pool])));
    assert key in Named(s.PoolStamps(), s.now);
    PoolCellMeaning(s.trades, key);
    CandleStep(Ratios(TradesAt(s.trades, key)), [Or(s.ratio, pool)]);
    NoCandle();
    NoRatios();
  }

  lemma NoRatios()
    ensures Ratios([]) == []
  {}

  // ----- what the rolled series say -----

  lemma StampedCell(after: Cells, before: Cells, stamps: map<string, Stamp>, now: int, key: string)
    requires IsStamped(after, before, stamps, now) && key in after
    ensures key !in Named(stamps, now) ==> key in before && after[key] == before[key]
    ensures after[key].txCount == (if key in before then before[key].txCount else 0)
    ensures after[key].volume == (if key in before then before[key].volume else 0.0)
    ensures after[key].volumeUSD == (if key in before then before[key].volumeUSD else 0.0)
  {
    hide DayId, DayStart, Key, Observed;
    if key in Named(stamps, now) {
      var r :| r in stamps && Key(r, now) == key;
      assert after[key] == Stamped(At(before, r, now), stamps[r]);
    }
  }

  /** Whatever is stamped, every row rolled totals its own day's trades: a pool's counts them and adds
      up their worth, a token's adds up its legs. */
  lemma RolledDayMeans(s: Snapshot, tokens: Cells, pools: Cells, factory: Cells, key: string)
    requires IsRolled(s, tokens, pools, factory)
    ensures key in pools ==> pools[key].txCount == |TradesAt(s.trades, key)| && pools[key].volumeUSD == TotalUsd(TradesAt(s.trades, key))
    ensures key in tokens ==>
              tokens[key].volume == MovedAmount(s.trades, key) && tokens[key].volumeUSD == MovedWorth(s.trades, key)
    ensures Touched(s.trades, key) ==> key in tokens
    ensures TradesAt(s.trades, key) != [] ==> key in pools
  {
    hide DayId, DayStart, Key, Stamped, IsStamped, PoolFold, TokenFold, FactoryFold, Sum, CandleOf, TotalUsd, MovedAmount, MovedWorth,
         Fetched, Touched, TradesAt, Snapshot.PoolStamps, Snapshot.PriceStamps, Snapshot.HoldingStamps;
    PoolCellMeaning(s.trades, key);
    NothingTotals();
    UntouchedToken(s.trades, key);
    KeysKept(pools, PoolFold(s.trades), s.PoolStamps(), s.now);
    var mid: Cells :| IsStamped(mid, TokenFold(s.trades), s.PriceStamps(), s.now) && IsStamped(tokens, mid, s.HoldingStamps(), s.now);
    KeysKept(mid, TokenFold(s.trades), s.PriceStamps(), s.now);
    KeysKept(tokens, mid, s.HoldingStamps(), s.now);
    if key in pools {
      StampedCell(pools, PoolFold(s.trades), s.PoolStamps(), s.now, key);
    }
    if key in tokens {
      StampedCell(tokens, mid, s.HoldingStamps(), s.now, key);
      if key in mid {
        StampedCell(mid, TokenFold(s.trades), s.PriceStamps(), s.now, key);
      }
    }
  }

  lemma KeysKept(after: Cells, before: Cells, stamps: map<string, Stamp>, now: int)
    requires IsStamped(after, before, stamps, now)
    ensures before.Keys <= after.Keys
  {}

  lemma NothingTotals()
    ensures TotalUsd([]) == 0.0
  {}

  /** A token's day over the trades, whether or not there is a cell for it. */
  lemma UntouchedToken(ts: seq<Trade>, key: string)
    ensures key in TokenFold(ts) <==> Touched(ts, key)
    ensures !Touched(ts, key) ==> MovedAmount(ts, key) == 0.0 == MovedWorth(ts, key) && Fetched(ts, key) == []
    ensures key in TokenFold(ts) ==> TokenFold(ts)[key].volume == MovedAmount(ts, key) && TokenFold(ts)[key].volumeUSD == MovedWorth(ts, key)
    ensures key in TokenFold(ts) ==> TokenFold(ts)[key].candle == CandleOf(Fetched(ts, key)) && !TokenFold(ts)[key].held
  {
    TokenDayMeaning(ts, key);
    LegsAreTrades(ts, key);
    NoLegs(key);
    hide TokenFold, Touched, MovedAmount, MovedWorth, Fetched, CandleOf, LegsAt, AllLegs, TotalAmount, TotalWorth, LegPrices;
  }

  lemma PriceStamped(mid: Cells, before: Cells, s: Snapshot, token: string)
    requires s.Sound() && IsStamped(mid, before, s.PriceStamps(), s.now) && Lower(token) == token
    ensures var key, c := Key(token, s.now), At(before, token, s.now);
            && (token in s.prices ==> key in mid && mid[key] == c.(candle := Observed(c.candle, s.prices[token])))
            && (token !in s.prices && key in mid ==> key in before && mid[key] == before[key])
  {
    hide DayId, DayStart, Key, Observed;
    OwnKey(s.prices.Keys, token, s.now);
    if token in s.prices {
      assert s.PriceStamps()[token] == Stamp(s.prices[token], None);
      assert Key(token, s.now) in Named(s.PriceStamps(), s.now);
    } else {
      assert Key(token, s.now) !in Named(s.PriceStamps(), s.now);
    }
  }

  lemma HoldingStamped(tokens: Cells, mid: Cells, s: Snapshot, token: string)
    requires s.Sound() && IsStamped(tokens, mid, s.HoldingStamps(), s.now) && Lower(token) == token
    ensures var key, c := Key(token, s.now), At(mid, token, s.now);
            && (token in s.tokenTVL ==>
                  && key in tokens
                  && tokens[key] == c.(locked := Or(s.tokenBal, token), lockedUSD := s.tokenTVL[token], held := true))
            && (token !in s.tokenTVL && key in tokens ==> key in mid && tokens[key] == mid[key])
            && (token !in s.tokenTVL && key in mid ==> key in tokens)
  {
    hide DayId, DayStart, Key;
    OwnKey(s.tokenTVL.Keys, token, s.now);
    if token in s.tokenTVL {
      assert s.HoldingStamps()[token] == Stamp(0.0, Some((Or(s.tokenBal, token), s.tokenTVL[token])));
      assert Key(token, s.now) in Named(s.HoldingStamps(), s.now);
      NothingObserved(At(mid, token, s.now).candle);
      hide Observed;
    } else {
      assert Key(token, s.now) !in Named(s.HoldingStamps(), s.now);
    }
  }

  /** Today's cell of a token: a token that has a price ends today's candle on it, after whatever its
      trades fetched, and one that is held says how much of it and what that is worth. */
  lemma TokenToday(s: Snapshot, tokens: Cells, pools: Cells, factory: Cells, token: string)
    requires s.Sound() && IsRolled(s, tokens, pools, factory) && Lower(token) == token
    requires token in s.prices || token in s.tokenTVL
    ensures var key := Key(token, s.now);
            && key in tokens
            && tokens[key].candle == CandleOf(Fetched(s.trades, key) + if token in s.prices then [s.prices[token]] else [])
            && (tokens[key].held <==> token in s.tokenTVL)
            && (token in s.tokenTVL ==> && tokens[key].lockedUSD == s.tokenTVL[token]
                                        && tokens[key].locked == if token in s.tokenBal then s.tokenBal[token] else 0.0)
  {
    hide DayId, DayStart, Key, Observed, CandleOf, TokenFold, PoolFold, FactoryFold, Sum, Fetched, Touched, IsStamped, Folded,
         Snapshot.Sound, Snapshot.PriceStamps, Snapshot.HoldingStamps;
    var key := Key(token, s.now);
    UntouchedToken(s.trades, key);
    var mid: Cells :| IsStamped(mid, TokenFold(s.trades), s.PriceStamps(), s.now) && IsStamped(tokens, mid, s.HoldingStamps(), s.now);
    KeysKept(mid, TokenFold(s.trades), s.PriceStamps(), s.now);
    PriceStamped(mid, TokenFold(s.trades), s, token);
    HoldingStamped(tokens, mid, s, token);
    CandleStep(Fetched(s.trades, key), if token in s.prices then [s.prices[token]] else []);
    NoCandle();
  }

  lemma NothingObserved(c: Candle)
    ensures Observed(c, 0.0) == c
  {}

  /** Of subjects already lower-cased, none but the token itself has its key. */
  lemma OwnKey(subjects: set<string>, token: string, now: int)
    requires Folded(subjects) && Lower(token) == token && now >= 0
    ensures forall r | r in subjects && Key(r, now) == Key(token, now) :: r == token
  {
    hide DayId, DayStart, Key;
    forall r | r in subjects && Key(r, now) == Key(token, now) ensures r == token {
      KeyInjective(r, now, token, now);
    }
  }

  /** And today's cell of the protocol says what all pools hold. */
  lemma FactoryToday(s: Snapshot, tokens: Cells, pools: Cells, factory: Cells)
    requires IsRolled(s, tokens, pools, factory)
    ensures var key := Key("1", s.now);
            key in factory && factory[key].held && factory[key].lockedUSD == Sum(s.poolTVL)
  {
    hide DayId, DayStart, Key, FactoryFold, PoolFold, TokenFold, Sum, Observed;
    assert Key(FACTORY, s.now) in Named(map[FACTORY := Stamp(0.0, Some((0.0, Sum(s.poolTVL))))], s.now);
  }
}
