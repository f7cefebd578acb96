/** The day series as a fold over the trades (indexer/series.go:40-66, 185-232, 324-396).

    Prices and amounts are reals.  This module is the specification; SeriesBook holds the cells. */
module DaySeries {
  import opened Wrappers
  import opened Text
  import opened Sums
  import opened Walk

  datatype Trade = Trade(id: string, ts: int, block: nat, dated: bool, pool: string, t0: string, t1: string,
                         amt0: real, amt1: real, usd0: real, usd1: real, ok0: bool, ok1: bool)
  {
    /** The mean of both legs' worth, or the one there is. */
    function Usd(): Option<real> {
      if ok0 && ok1 then Some((usd0 + usd1) / 2.0)
      else if ok0 then Some(usd0)
      else if ok1 then Some(usd1)
      else None
    }

    function UsdOrZero(): real {
      match Usd() case Some(u) => u case None => 0.0
    }
  }

  // ----- candles -----

  datatype Candle = Candle(open: real, high: real, low: real, close: real, priced: bool)

  const NO_CANDLE := Candle(0.0, 0.0, 0.0, 0.0, false)

  /** `cell.observe`. */
  function Observed(c: Candle, price: real): Candle {
    if price <= 0.0 then c
    else
      var c1 := if c.priced then c else Candle(price, price, price, c.close, true);
      c1.(high := if price > c1.high then price else c1.high,
          low := if price < c1.low then price else c1.low,
          close := price)
  }

  function CandleOf(obs: seq<real>): Candle {
    if obs == [] then NO_CANDLE else Observed(CandleOf(obs[..|obs| - 1]), obs[|obs| - 1])
  }

  function Positive(obs: seq<real>): seq<real> {
    if obs == [] then []
    else Positive(obs[..|obs| - 1]) + if obs[|obs| - 1] > 0.0 then [obs[|obs| - 1]] else []
  }

  ghost predicate IsHigh(high: real, prices: seq<real>) {
    high in prices && forall p | p in prices :: p <= high
  }

  ghost predicate IsLow(low: real, prices: seq<real>) {
    low in prices && forall p | p in prices :: low <= p
  }

  /** A candle is the first, the greatest, the least and the last of the positive prices seen. */
  lemma {:induction false} CandleMeaning(obs: seq<real>)
    ensures var c, prices := CandleOf(obs), Positive(obs);
            && (prices == [] <==> !c.priced)
            && (prices == [] ==> c == NO_CANDLE)
            && (prices != [] ==> c.open == prices[0] && c.close == prices[|prices| - 1])
            && (prices != [] ==> IsHigh(c.high, prices) && IsLow(c.low, prices))
  {
    if obs != [] {
      var n := |obs| - 1;
      CandleMeaning(obs[..n]);
      var before, prices := Positive(obs[..n]), Positive(obs);
      if obs[n] > 0.0 {
        assert prices == before + [obs[n]];
        assert forall p | p in prices :: p in before || p == obs[n];
        assert obs[n] in prices && forall p | p in before :: p in prices;
      }
    }
  }

  // ----- cells -----

  datatype Cell = Cell(subject: string, date: int, volume: real, volumeUSD: real, txCount: nat,
                       candle: Candle, locked: real, lockedUSD: real, held: bool)
  {
    predicate Empty() { !candle.priced && volumeUSD == 0.0 && !held }
  }

  type Cells = map<string, Cell>

  /** The subject's day as the entity id spells it; Go's division truncates. */
  function DayId(subject: string, date: int): string {
    Lower(subject) + "-" + IntText(if date >= 0 then date / 86400 else -((-date) / 86400))
  }

  function Key(subject: string, ts: int): string { DayId(subject, DayStart(ts)) }

  function Fresh(subject: string, date: int): Cell {
    Cell(subject, date, 0.0, 0.0, 0, NO_CANDLE, 0.0, 0.0, false)
  }

  /** `days.at`: a subject's day, blank until something is entered. */
  function At(cells: Cells, subject: string, ts: int): Cell {
    if Key(subject, ts) in cells then cells[Key(subject, ts)] else Fresh(subject, DayStart(ts))
  }

  lemma DigitsNotDash(n: nat)
    ensures forall i | 0 <= i < |Render(n, Dec)| :: Render(n, Dec)[i] != '-'
  {
    RenderRoundTrip(n, Dec);
    assert forall i | 0 <= i < |Render(n, Dec)| :: IsDigit(Render(n, Dec)[i], Dec);
  }

  /** Where the last dash is, or the length of the text. */
  function LastDash(s: string): nat {
    if s == [] then 0
    else if s[|s| - 1] == '-' then |s| - 1
    else if LastDash(s[..|s| - 1]) == |s| - 1 then |s|
    else LastDash(s[..|s| - 1])
  }

  lemma {:induction false} LastDashAt(a: string, m: string)
    requires forall i | 0 <= i < |m| :: m[i] != '-'
    ensures LastDash(a + "-" + m) == |a|
  {
    var s := a + "-" + m;
    if m != [] {
      LastDashAt(a, m[..|m| - 1]);
      assert s[..|s| - 1] == a + "-" + m[..|m| - 1];
      assert s[|s| - 1] == m[|m| - 1];
    }
  }

  lemma SplitAtLastDash(a: string, m: string, b: string, n: string)
    requires a + "-" + m == b + "-" + n
    requires forall i | 0 <= i < |m| :: m[i] != '-'
    requires forall i | 0 <= i < |n| :: n[i] != '-'
    ensures a == b && m == n
  {
    LastDashAt(a, m);
    LastDashAt(b, n);
    var s := a + "-" + m;
    assert s[..|a|] == a && s[..|b|] == b && s[|a| + 1..] == m && s[|b| + 1..] == n;
  }

  /** Ids never collide: one names one subject, up to case, on one day. */
  lemma KeyInjective(a: string, x: int, b: string, y: int)
    requires x >= 0 && y >= 0
    ensures Key(a, x) == Key(b, y) <==> Lower(a) == Lower(b) && DayStart(x) == DayStart(y)
  {
    hide Render, Lower, Value;
    DayIndex(x);
    DayIndex(y);
    var i, j := x / 86400, y / 86400;
    assert DayStart(x) / 86400 == i && DayStart(y) / 86400 == j;
    if Key(a, x) == Key(b, y) {
      DigitsNotDash(i);
      DigitsNotDash(j);
      SplitAtLastDash(Lower(a), Render(i, Dec), Lower(b), Render(j, Dec));
      RenderRoundTrip(i, Dec);
      RenderRoundTrip(j, Dec);
    }
  }

  // ----- what one trade does -----

  function PoolTrade(cells: Cells, t: Trade): Cells {
    var c := At(cells, t.pool, t.ts);
    cells[Key(t.pool, t.ts) :=
      c.(txCount := c.txCount + 1, volumeUSD := c.volumeUSD + t.UsdOrZero(),
         candle := if t.amt1 > 0.0 then Observed(c.candle, t.amt0 / t.amt1) else c.candle)]
  }

  const FACTORY: string := "1"

  function FactoryTrade(cells: Cells, t: Trade): Cells {
    var c := At(cells, FACTORY, t.ts);
    cells[Key(FACTORY, t.ts) := c.(txCount := c.txCount + 1, volumeUSD := c.volumeUSD + t.UsdOrZero())]
  }

  /** One leg of a trade, as its token's day sees it: its amount, its worth, and what the other leg
      is worth. */
  datatype Leg = Leg(token: string, ts: int, amt: real, ok: bool, usd: real, otherOk: bool, otherUsd: real)
  {
    /** The price the other leg puts on this token. */
    function Price(): seq<real> {
      if otherOk && amt > 0.0 then [otherUsd / amt] else []
    }

    function Worth(): real { if ok then usd else 0.0 }
  }

  function LegsOf(t: Trade): seq<Leg> {
    if t.dated
    then [Leg(t.t0, t.ts, t.amt0, t.ok0, t.usd0, t.ok1, t.usd1), Leg(t.t1, t.ts, t.amt1, t.ok1, t.usd1, t.ok0, t.usd0)]
    else []
  }

  function TokenLeg(cells: Cells, l: Leg): Cells {
    var c := At(cells, l.token, l.ts);
    cells[Key(l.token, l.ts) :=
      c.(volume := c.volume + l.amt, volumeUSD := c.volumeUSD + l.Worth(),
         candle := if l.Price() != [] then Observed(c.candle, l.Price()[0]) else c.candle)]
  }

  function PoolFold(ts: seq<Trade>): Cells {
    if ts == [] then map[]
    else
      var before, t := PoolFold(ts[..|ts| - 1]), ts[|ts| - 1];
      if t.dated then PoolTrade(before, t) else before
  }

  function FactoryFold(ts: seq<Trade>): Cells {
    if ts == [] then map[]
    else
      var before, t := FactoryFold(ts[..|ts| - 1]), ts[|ts| - 1];
      if t.dated then FactoryTrade(before, t) else before
  }

  function LegFold(ls: seq<Leg>): Cells {
    if ls == [] then map[] else TokenLeg(LegFold(ls[..|ls| - 1]), ls[|ls| - 1])
  }

  function AllLegs(ts: seq<Trade>): seq<Leg> {
    if ts == [] then [] else AllLegs(ts[..|ts| - 1]) + LegsOf(ts[|ts| - 1])
  }

  function TokenFold(ts: seq<Trade>): Cells {
    LegFold(AllLegs(ts))
  }

  // ----- stamping today -----

  /** What is true now of one subject: a price to observe, and what it holds if that was read. */
  datatype Stamp = Stamp(price: real, holds: Option<(real, real)>)

  function Stamped(c: Cell, s: Stamp): Cell {
    var d := match s.holds
             case None => c
             case Some((locked, usd)) => c.(locked := locked, lockedUSD := usd, held := true);
    d.(candle := Observed(d.candle, s.price))
  }

  /** The ids of today's cells of the subjects stamped. */
  function Named(stamps: map<string, Stamp>, now: int): set<string> {
    set s | s in stamps :: Key(s, now)
  }

  /** Every subject named gets its stamp on today's cell, and nothing else changes. */
  ghost predicate IsStamped(after: Cells, before: Cells, stamps: map<string, Stamp>, now: int) {
    && after.Keys == before.Keys + Named(stamps, now)
    && (forall s | s in stamps :: after[Key(s, now)] == Stamped(At(before, s, now), stamps[s]))
    && (forall k | k in before && k !in Named(stamps, now) :: after[k] == before[k])
  }

  // ----- what a cell means -----

  /** A day's id is its subject, lower-cased, and the number of days since 1970. */
  lemma KeyText(subject: string, ts: int)
    requires ts >= 0
    ensures Key(subject, ts) == Lower(subject) + "-" + IntText(ts / 86400)
  {
    hide Lower, IntText;
    DayIndex(ts);
    assert DayStart(ts) / 86400 == ts / 86400;
  }

  /** The trades of one pool's day, in order. */
  function TradesAt(ts: seq<Trade>, key: string): seq<Trade> {
    if ts == [] then []
    else
      var before, t := TradesAt(ts[..|ts| - 1], key), ts[|ts| - 1];
      if t.dated && Key(t.pool, t.ts) == key then before + [t] else before
  }

  function TotalUsd(ts: seq<Trade>): real {
    if ts == [] then 0.0 else TotalUsd(ts[..|ts| - 1]) + ts[|ts| - 1].UsdOrZero()
  }

  /** The execution ratios of a pool's trades, where there is one. */
  function Ratios(ts: seq<Trade>): seq<real> {
    if ts == [] then []
    else
      var t := ts[|ts| - 1];
      Ratios(ts[..|ts| - 1]) + if t.amt1 > 0.0 then [t.amt0 / t.amt1] else []
  }

  lemma CandleStep(obs: seq<real>, more: seq<real>)
    requires |more| <= 1
    ensures CandleOf(obs + more) == if more == [] then CandleOf(obs) else Observed(CandleOf(obs), more[0])
  {
    if more == [] {
      assert obs + more == obs;
    } else {
      assert (obs + more)[..|obs|] == obs;
    }
  }

  /** The cell under `key` is there exactly when there are trades, and says what they come to. */
  predicate TellsPool(cells: Cells, key: string, mine: seq<Trade>) {
    && (key in cells <==> mine != [])
    && (key in cells ==>
          var c := cells[key];
          && c.txCount == |mine| && c.volumeUSD == TotalUsd(mine) && c.candle == CandleOf(Ratios(mine))
          && !c.held && c.volume == 0.0)
  }

  lemma PoolTradeTells(cells: Cells, key: string, mine: seq<Trade>, t: Trade)
    requires TellsPool(cells, key, mine)
    ensures TellsPool(PoolTrade(cells, t), key, if Key(t.pool, t.ts) == key then mine + [t] else mine)
  {
    hide DayId, DayStart, Observed, CandleOf;
    if Key(t.pool, t.ts) == key {
      assert (mine + [t])[..|mine|] == mine;
      CandleStep(Ratios(mine), if t.amt1 > 0.0 then [t.amt0 / t.amt1] else []);
      NoCandle();
      assert Ratios(mine + [t]) == Ratios(mine) + if t.amt1 > 0.0 then [t.amt0 / t.amt1] else [];
      assert TotalUsd(mine + [t]) == TotalUsd(mine) + t.UsdOrZero();
    }
  }

  /** A pool's cell exists exactly when the pool traded that day, and then it counts those trades,
      totals their worth, and draws its candle from their ratios in order. */
  lemma {:induction false} PoolCellMeaning(ts: seq<Trade>, key: string)
    ensures key in PoolFold(ts) <==> TradesAt(ts, key) != []
    ensures key in PoolFold(ts) ==>
              var c, mine := PoolFold(ts)[key], TradesAt(ts, key);
              && c.txCount == |mine| && c.volumeUSD == TotalUsd(mine) && c.candle == CandleOf(Ratios(mine))
              && !c.held && c.volume == 0.0
  {
    hide Key, PoolTrade, TotalUsd, Ratios, CandleOf;
    if ts != [] {
      var n := |ts| - 1;
      PoolCellMeaning(ts[..n], key);
      PoolTradeTells(PoolFold(ts[..n]), key, TradesAt(ts[..n], key), ts[n]);
    }
  }

  lemma NoCandle()
    ensures CandleOf([]) == NO_CANDLE
  {}

  /** The legs of one token's day, in order. */
  function LegsAt(ls: seq<Leg>, key: string): seq<Leg> {
    if ls == [] then []
    else
      var before, l := LegsAt(ls[..|ls| - 1], key), ls[|ls| - 1];
      if Key(l.token, l.ts) == key then before + [l] else before
  }

  function TotalAmount(ls: seq<Leg>): real {
    if ls == [] then 0.0 else TotalAmount(ls[..|ls| - 1]) + ls[|ls| - 1].amt
  }

  function TotalWorth(ls: seq<Leg>): real {
    if ls == [] then 0.0 else TotalWorth(ls[..|ls| - 1]) + ls[|ls| - 1].Worth()
  }

  function LegPrices(ls: seq<Leg>): seq<real> {
    if ls == [] then [] else LegPrices(ls[..|ls| - 1]) + ls[|ls| - 1].Price()
  }

  predicate TellsToken(cells: Cells, key: string, mine: seq<Leg>) {
    && (key in cells <==> mine != [])
    && (key in cells ==>
          var c := cells[key];
          && c.volume == TotalAmount(mine) && c.volumeUSD == TotalWorth(mine) && c.candle == CandleOf(LegPrices(mine))
          && !c.held && c.txCount == 0)
  }

  lemma TokenLegTells(cells: Cells, key: string, mine: seq<Leg>, l: Leg)
    requires TellsToken(cells, key, mine)
    ensures TellsToken(TokenLeg(cells, l), key, if Key(l.token, l.ts) == key then mine + [l] else mine)
  {
    hide DayId, DayStart, Observed, CandleOf;
    if Key(l.token, l.ts) == key {
      assert (mine + [l])[..|mine|] == mine;
      CandleStep(LegPrices(mine), l.Price());
      NoCandle();
      assert LegPrices(mine + [l]) == LegPrices(mine) + l.Price();
      assert TotalAmount(mine + [l]) == TotalAmount(mine) + l.amt;
      assert TotalWorth(mine + [l]) == TotalWorth(mine) + l.Worth();
    }
  }

  /** A token's cell exists exactly when the token changed hands that day, and then it totals what
      changed hands and what that was worth, and draws its candle from the prices the other legs
      put on it, in order. */
  lemma {:induction false} TokenCellMeaning(ls: seq<Leg>, key: string)
    ensures key in LegFold(ls) <==> LegsAt(ls, key) != []
    ensures key in LegFold(ls) ==>
              var c, mine := LegFold(ls)[key], LegsAt(ls, key);
              && c.volume == TotalAmount(mine) && c.volumeUSD == TotalWorth(mine) && c.candle == CandleOf(LegPrices(mine))
              && !c.held && c.txCount == 0
  {
    hide Key, TokenLeg, TotalAmount, TotalWorth, LegPrices, CandleOf;
    if ls != [] {
      var n := |ls| - 1;
      TokenCellMeaning(ls[..n], key);
      TokenLegTells(LegFold(ls[..n]), key, LegsAt(ls[..n], key), ls[n]);
    }
  }

  // ----- a token's day, from the trades -----

  predicate InDay(t: Trade, token: string, key: string) { t.dated && Key(token, t.ts) == key }

  /** What trades moved of one token's day, each by the leg that is in that token. */
  function MovedAmount(ts: seq<Trade>, key: string): real {
    if ts == [] then 0.0
    else
      var t := ts[|ts| - 1];
      MovedAmount(ts[..|ts| - 1], key)
      + (if InDay(t, t.t0, key) then t.amt0 else 0.0) + (if InDay(t, t.t1, key) then t.amt1 else 0.0)
  }

  /** What that was worth, where the leg in that token has a price. */
  function MovedWorth(ts: seq<Trade>, key: string): real {
    if ts == [] then 0.0
    else
      var t := ts[|ts| - 1];
      MovedWorth(ts[..|ts| - 1], key)
      + (if InDay(t, t.t0, key) && t.ok0 then t.usd0 else 0.0) + (if InDay(t, t.t1, key) && t.ok1 then t.usd1 else 0.0)
  }

  /** What one token fetched: the other leg's worth over this leg's amount. */
  function Fetched(ts: seq<Trade>, key: string): seq<real> {
    if ts == [] then []
    else
      var t := ts[|ts| - 1];
      Fetched(ts[..|ts| - 1], key)
      + (if InDay(t, t.t0, key) && t.ok1 && t.amt0 > 0.0 then [t.usd1 / t.amt0] else [])
      + (if InDay(t, t.t1, key) && t.ok0 && t.amt1 > 0.0 then [t.usd0 / t.amt1] else [])
  }

  /** Some dated trade of the day had a leg in the token. */
  predicate Touched(ts: seq<Trade>, key: string) {
    exists i :: 0 <= i < |ts| && (InDay(ts[i], ts[i].t0, key) || InDay(ts[i], ts[i].t1, key))
  }

  lemma TouchedStep(ts: seq<Trade>, key: string)
    requires ts != []
    ensures var n := |ts| - 1;
            Touched(ts, key) <==> Touched(ts[..n], key) || InDay(ts[n], ts[n].t0, key) || InDay(ts[n], ts[n].t1, key)
  {
    hide InDay;
    var n := |ts| - 1;
    if i :| 0 <= i < n && (InDay(ts[i], ts[i].t0, key) || InDay(ts[i], ts[i].t1, key)) {
      assert ts[..n][i] == ts[i];
    }
    if i :| 0 <= i < n && (InDay(ts[..n][i], ts[..n][i].t0, key) || InDay(ts[..n][i], ts[..n][i].t1, key)) {
      assert ts[..n][i] == ts[i];
    }
  }

  lemma {:induction false} LegsAreTrades(ts: seq<Trade>, key: string)
    ensures var mine := LegsAt(AllLegs(ts), key);
            && TotalAmount(mine) == MovedAmount(ts, key) && TotalWorth(mine) == MovedWorth(ts, key)
            && LegPrices(mine) == Fetched(ts, key)
            && (mine != [] <==> Touched(ts, key))
  {
    hide InDay, Touched, LegsAt, TotalAmount, TotalWorth, LegPrices, LegsOf;
    if ts == [] {
      NoLegs(key);
    } else {
      var n := |ts| - 1;
      LegsAreTrades(ts[..n], key);
      LegsAtStep(AllLegs(ts[..n]), ts[n], key);
      TouchedStep(ts, key);
    }
  }

  lemma NoLegs(key: string)
    ensures LegsAt([], key) == [] && TotalAmount([]) == 0.0 == TotalWorth([]) && LegPrices([]) == [] && !Touched([], key)
  {}

  /** What one more trade adds to the legs of a token's day. */
  lemma LegsAtStep(before: seq<Leg>, t: Trade, key: string)
    ensures var was, now := LegsAt(before, key), LegsAt(before + LegsOf(t), key);
            && TotalAmount(now) == TotalAmount(was) + (if InDay(t, t.t0, key) then t.amt0 else 0.0)
                                                    + (if InDay(t, t.t1, key) then t.amt1 else 0.0)
            && TotalWorth(now) == TotalWorth(was) + (if InDay(t, t.t0, key) && t.ok0 then t.usd0 else 0.0)
                                                  + (if InDay(t, t.t1, key) && t.ok1 then t.usd1 else 0.0)
            && LegPrices(now) == LegPrices(was)
                 + (if InDay(t, t.t0, key) && t.ok1 && t.amt0 > 0.0 then [t.usd1 / t.amt0] else [])
                 + (if InDay(t, t.t1, key) && t.ok0 && t.amt1 > 0.0 then [t.usd0 / t.amt1] else [])
            && (now != [] <==> was != [] || InDay(t, t.t0, key) || InDay(t, t.t1, key))
  {
    hide Key;
    if t.dated {
      var a, b := LegsOf(t)[0], LegsOf(t)[1];
      assert before + LegsOf(t) == before + [a] + [b];
      OneMoreLeg(before, a, key);
      OneMoreLeg(before + [a], b, key);
    } else {
      assert before + LegsOf(t) == before;
    }
  }

  lemma OneMoreLeg(ls: seq<Leg>, l: Leg, key: string)
    ensures var was, now, here := LegsAt(ls, key), LegsAt(ls + [l], key), Key(l.token, l.ts) == key;
            && TotalAmount(now) == TotalAmount(was) + (if here then l.amt else 0.0)
            && TotalWorth(now) == TotalWorth(was) + (if here then l.Worth() else 0.0)
            && LegPrices(now) == LegPrices(was) + (if here then l.Price() else [])
            && (now != [] <==> was != [] || here)
  {
    hide Key;
    assert (ls + [l])[..|ls|] == ls;
    var was := LegsAt(ls, key);
    assert (was + [l])[..|was|] == was;
  }

  /** A token's day, read off the trades themselves: it is there exactly when a dated trade of that day
      had a leg in the token; it totals those legs' amounts and worth, each leg its own; and its candle
      is of what the token fetched in each, the other leg's worth over this one's amount. */
  lemma TokenDayMeaning(ts: seq<Trade>, key: string)
    ensures key in TokenFold(ts) <==> Touched(ts, key)
    ensures key in TokenFold(ts) ==>
              var c := TokenFold(ts)[key];
              && c.volume == MovedAmount(ts, key) && c.volumeUSD == MovedWorth(ts, key) && c.candle == CandleOf(Fetched(ts, key))
              && !c.held && c.txCount == 0
  {
    TokenCellMeaning(AllLegs(ts), key);
    LegsAreTrades(ts, key);
    hide AllLegs, LegsAt, LegFold, Touched, CandleOf, TotalAmount, TotalWorth, LegPrices;
  }

  // ----- conservation -----

  ghost predicate InTime(ts: seq<Trade>) {
    forall i | 0 <= i < |ts| && ts[i].dated :: ts[i].ts > 0
  }

  /** Every cell lies on the day its key names. */
  ghost predicate Filed(cells: Cells) {
    forall k | k in cells :: exists s, ts :: ts >= 0 && k == Key(s, ts) && cells[k].date == DayStart(ts)
  }

  function Counts(cells: Cells, date: int): map<string, real> {
    map k | k in cells && cells[k].date == date :: cells[k].txCount as real
  }

  function Volumes(cells: Cells, date: int): map<string, real> {
    map k | k in cells && cells[k].date == date :: cells[k].volumeUSD
  }

  /** A trade adds one to the count of its day and its worth to that day's volume, and leaves every
      other day alone, whoever the cell belongs to. */
  lemma TradeAdds(cells: Cells, subject: string, ts: int, c': Cell, usd: real, date: int)
    requires Filed(cells) && ts >= 0
    requires var c := At(cells, subject, ts);
             c'.date == c.date && c'.txCount == c.txCount + 1 && c'.volumeUSD == c.volumeUSD + usd
    ensures var after := cells[Key(subject, ts) := c'];
            && Filed(after)
            && Sum(Counts(after, date)) == Sum(Counts(cells, date)) + (if date == DayStart(ts) then 1.0 else 0.0)
            && Sum(Volumes(after, date)) == Sum(Volumes(cells, date)) + (if date == DayStart(ts) then usd else 0.0)
  {
    hide DayId, DayStart, Key;
    var key := Key(subject, ts);
    AtDate(cells, subject, ts);
    var after := cells[key := c'];
    assert Filed(after) by {
      forall k | k in after ensures exists s, x :: x >= 0 && k == Key(s, x) && after[k].date == DayStart(x) {
        if k == key {
          assert ts >= 0 && k == Key(subject, ts) && after[k].date == DayStart(ts);
        } else {
          assert k in cells && after[k] == cells[k];
          var s, x :| x >= 0 && k == Key(s, x) && cells[k].date == DayStart(x);
          assert x >= 0 && k == Key(s, x) && after[k].date == DayStart(x);
        }
      }
    }
    if date == DayStart(ts) {
      assert Counts(after, date) == Counts(cells, date)[key := c'.txCount as real];
      assert Volumes(after, date) == Volumes(cells, date)[key := c'.volumeUSD];
      SumPut(Counts(cells, date), key, c'.txCount as real);
      SumPut(Volumes(cells, date), key, c'.volumeUSD);
    } else {
      assert Counts(after, date) == Counts(cells, date);
      assert Volumes(after, date) == Volumes(cells, date);
    }
  }

  lemma AtDate(cells: Cells, subject: string, ts: int)
    requires Filed(cells) && ts >= 0
    ensures At(cells, subject, ts).date == DayStart(ts)
  {
    hide DayId, DayStart;
    if Key(subject, ts) in cells {
      var s, x :| x >= 0 && Key(subject, ts) == Key(s, x) && cells[Key(subject, ts)].date == DayStart(x);
      KeyInjective(subject, ts, s, x);
    }
  }

  /** On every day, the pools' trade counts and volumes add up to the protocol's. */
  lemma {:induction false} PoolDaysSumToFactoryDay(ts: seq<Trade>, date: int)
    requires InTime(ts)
    ensures Filed(PoolFold(ts)) && Filed(FactoryFold(ts))
    ensures Sum(Counts(PoolFold(ts), date)) == Sum(Counts(FactoryFold(ts), date))
    ensures Sum(Volumes(PoolFold(ts), date)) == Sum(Volumes(FactoryFold(ts), date))
  {
    hide DayId, DayStart, Key, Observed, Counts, Volumes, Filed;
    if ts == [] {
      NothingFiled(date);
    } else {
      var before, t := ts[..|ts| - 1], ts[|ts| - 1];
      PoolDaysSumToFactoryDay(before, date);
      if t.dated {
        var pools, factory := PoolFold(before), FactoryFold(before);
        TradeAdds(pools, t.pool, t.ts, PoolTrade(pools, t)[Key(t.pool, t.ts)], t.UsdOrZero(), date);
        TradeAdds(factory, FACTORY, t.ts, FactoryTrade(factory, t)[Key(FACTORY, t.ts)], t.UsdOrZero(), date);
      }
    }
  }

  lemma NothingFiled(date: int)
    ensures Filed(map[]) && Sum(Counts(map[], date)) == 0.0 && Sum(Volumes(map[], date)) == 0.0
  {
    assert Counts(map[], date) == map[] && Volumes(map[], date) == map[];
  }

  function AllCounts(cells: Cells): map<string, real> {
    map k | k in cells :: cells[k].txCount as real
  }

  function DatedCount(ts: seq<Trade>): nat {
    if ts == [] then 0 else DatedCount(ts[..|ts| - 1]) + if ts[|ts| - 1].dated then 1 else 0
  }

  /** The protocol's counts, over all its days, are the number of dated trades. */
  lemma {:induction false} FactoryCountsEveryDatedTrade(ts: seq<Trade>)
    ensures Sum(AllCounts(FactoryFold(ts))) == DatedCount(ts) as real
  {
    hide DayId, DayStart, Key;
    if ts == [] {
      assert AllCounts(FactoryFold(ts)) == map[];
    } else {
      var before, t := ts[..|ts| - 1], ts[|ts| - 1];
      FactoryCountsEveryDatedTrade(before);
      if t.dated {
        var cells := FactoryFold(before);
        var c := FactoryTrade(cells, t)[Key(FACTORY, t.ts)];
        assert AllCounts(FactoryTrade(cells, t)) == AllCounts(cells)[Key(FACTORY, t.ts) := c.txCount as real];
        SumPut(AllCounts(cells), Key(FACTORY, t.ts), c.txCount as real);
      }
    }
  }

  // ----- today's stamps -----

  /** Stamping changes no count and no volume, so the sums stand after it too, on every day. */
  lemma StampsAddNothing(after: Cells, before: Cells, stamps: map<string, Stamp>, now: int, date: int)
    requires IsStamped(after, before, stamps, now) && Filed(before) && now >= 0
    ensures Sum(Counts(after, date)) == Sum(Counts(before, date))
    ensures Sum(Volumes(after, date)) == Sum(Volumes(before, date))
    ensures Sum(AllCounts(after)) == Sum(AllCounts(before))
  {
    hide DayId, DayStart, Key, Observed, Filed;
    forall k | k in after
      ensures k in before ==> after[k].date == before[k].date
      ensures k in before ==> after[k].txCount == before[k].txCount && after[k].volumeUSD == before[k].volumeUSD
      ensures k !in before ==> after[k].txCount == 0 && after[k].volumeUSD == 0.0
    {
      if k in Named(stamps, now) {
        var s :| s in stamps && Key(s, now) == k;
        assert after[k] == Stamped(At(before, s, now), stamps[s]);
      }
    }
    SumExtend(Counts(before, date), Counts(after, date));
    SumExtend(Volumes(before, date), Volumes(after, date));
    SumExtend(AllCounts(before), AllCounts(after));
  }
}
