/** What each trade was worth (indexer/series.go:77-135, indexer/valuation.go:508-569, 643-663).

    Amounts and prices are reals, so `big.Float`'s rounding is left out, and a trade's worth is the
    number before it is formatted. */
module Valuing {
  import opened Wrappers
  import opened Text
  import opened Sums
  import opened Sorting
  import opened Window
  import Calldata
  import Heal
  import opened DaySeries

  type Swap = Heal.Swap

  /** A pool as the pass lists it. */
  datatype Listed = Listed(id: string, t0: string, t1: string)

  const DEFAULT_DECIMALS: int := 18

  // ----- one leg -----

  /** The signed reading of a leg: from 2^255 on it is a negative int256 that was decoded
      without its sign. */
  function LegValue(raw: string): Option<int> {
    if raw == "" then None
    else match ParseSigned(raw, Dec)
      case None => None
      case Some(n) => Some(Calldata.Signed(n))
  }

  function Abs(n: int): nat { if n < 0 then -n else n }

  /** What changed hands, in base units. */
  function LegUnits(raw: string): Option<nat> {
    match LegValue(raw) case None => None case Some(n) => Some(Abs(n))
  }

  function Normalized(n: nat, decimals: int): real {
    var d := if decimals < 0 || decimals > 36 then DEFAULT_DECIMALS else decimals;
    n as real / Dec.Pow(d) as real
  }

  function DecimalsOf(token: string, decimals: map<string, int>): int {
    if token in decimals && decimals[token] > 0 then decimals[token]
    else if Lower(token) in decimals && decimals[Lower(token)] > 0 then decimals[Lower(token)]
    else DEFAULT_DECIMALS
  }

  /** `swapLeg`: the amount, its worth, and whether it has a price. */
  function SwapLeg(raw: string, token: string, decimals: map<string, int>, prices: map<string, real>): (real, real, bool) {
    match LegUnits(raw)
    case None => (0.0, 0.0, false)
    case Some(n) =>
      var amt := Normalized(n, DecimalsOf(token, decimals));
      if token in prices then (amt, amt * prices[token], true) else (amt, 0.0, false)
  }

  lemma IntTextReads(x: int)
    ensures IntText(x) != "" && ParseSigned(IntText(x), Dec) == Some(x)
  {
    var n := Abs(x);
    RenderRoundTrip(n, Dec);
    var digits := Render(n, Dec);
    assert IsDigit(digits[0], Dec);
    if x < 0 {
      assert IntText(x)[1..] == digits;
    }
  }

  lemma WordHalves()
    ensures Calldata.WordLimit() == 2 * (8 * Hex.Pow(63))
  {
    assert Hex.Pow(64) == 16 * Hex.Pow(63);
  }

  lemma LegReads(x: int)
    ensures LegUnits(IntText(x)) == Some(Abs(Calldata.Signed(x)))
  {
    hide ParseSigned, IntText, Calldata.Signed, Abs;
    IntTextReads(x);
  }

  /** A row written with its sign and one written through the unsigned decode are worth the same, for
      every int256: nothing has to be indexed again. */
  lemma OldRowsHeal(x: int)
    requires -8 * Hex.Pow(63) <= x < 8 * Hex.Pow(63)
    ensures LegUnits(IntText(x)) == Some(if x < 0 then -x else x)
    ensures LegUnits(IntText(Calldata.TwosComplement(x))) == Some(if x < 0 then -x else x)
  {
    hide LegUnits, IntText, Radix.Pow;
    LegReads(x);
    LegReads(Calldata.TwosComplement(x));
    WordHalves();
  }

  /** The boundary costs an unsigned leg nothing exactly up to 2^255, far past any V2 reserve. */
  lemma UnsignedLegIff(n: nat)
    ensures LegUnits(IntText(n)) == Some(n) <==> n <= 8 * Hex.Pow(63)
  {
    hide LegUnits, IntText, Radix.Pow;
    LegReads(n);
    WordHalves();
  }

  /** What one leg of a row must come to: the row's amount in whole tokens, worth the token's price when
      it has one. */
  ghost predicate LegMeans(raw: string, token: string, decimals: map<string, int>, prices: map<string, real>,
                           amt: real, usd: real, ok: bool)
  {
    && (ok <==> LegUnits(raw).Some? && token in prices)
    && (ok ==> usd == amt * prices[token])
    && (!ok ==> usd == 0.0)
    && (LegUnits(raw).None? ==> amt == 0.0)
    && (LegUnits(raw).Some? ==>
          forall d: nat | IsScale(token, decimals, d) :: amt * Dec.Pow(d) as real == LegUnits(raw).value as real)
  }

  predicate Stores(decimals: map<string, int>, token: string) { token in decimals && decimals[token] > 0 }

  /** The token's own decimals, or those of its lower-cased address; 18 for want of either, or past 36. */
  predicate IsScale(token: string, decimals: map<string, int>, d: nat) {
    var stored := if Stores(decimals, token) then decimals[token]
                  else if Stores(decimals, Lower(token)) then decimals[Lower(token)] else 18;
    d == if stored > 36 then 18 else stored
  }

  lemma SwapLegMeans(raw: string, token: string, decimals: map<string, int>, prices: map<string, real>)
    ensures var (amt, usd, ok) := SwapLeg(raw, token, decimals, prices);
            LegMeans(raw, token, decimals, prices, amt, usd, ok)
  {
    hide LegUnits, Lower, Radix.Pow;
    if LegUnits(raw).Some? {
      NormalizedMeans(LegUnits(raw).value, DecimalsOf(token, decimals));
      hide Normalized;
    }
  }

  lemma NormalizedMeans(n: nat, decimals: int)
    ensures 0 <= decimals <= 36 ==> Normalized(n, decimals) * Dec.Pow(decimals) as real == n as real
    ensures decimals > 36 ==> Normalized(n, decimals) * Dec.Pow(18) as real == n as real
  {
    hide Radix.Pow;
    var d: nat := if decimals < 0 || decimals > 36 then 18 else decimals;
    var p := Dec.Pow(d) as real;
    assert p > 0.0;
    assert n as real / p * p == n as real;
  }

  // ----- the trades of a pass -----

  /** The last listing of an id, as the index by id keeps it. */
  function IndexBy(vps: seq<Listed>): map<string, Listed> {
    if vps == [] then map[] else IndexBy(vps[..|vps| - 1])[vps[|vps| - 1].id := vps[|vps| - 1]]
  }

  function TradeOf(id: Id, sw: Swap, vp: Listed, decimals: map<string, int>, prices: map<string, real>): Trade {
    var (amt0, usd0, ok0) := SwapLeg(sw.amount0, vp.t0, decimals, prices);
    var (amt1, usd1, ok1) := SwapLeg(sw.amount1, vp.t1, decimals, prices);
    Trade(id, sw.ts, sw.block, sw.Dated(), vp.id, vp.t0, vp.t1, amt0, amt1, usd0, usd1, ok0, ok1)
  }

  /** The log index after the last `#`, in hex, or 0. */
  function LogIndexOf(id: string): nat {
    var h := match LastIndexOf(id, '#') case Some(k) => id[k + 1..] case None => id;
    var digits := TrimPrefix(h, "0x");
    if digits == "" || !AllDigits(digits, Hex) || Value(digits, Hex) >= 0x1_0000_0000_0000_0000 then 0
    else Value(digits, Hex)
  }

  /** The chain's own order: time, then block, then log index. */
  predicate Sooner(a: Trade, b: Trade) {
    if a.ts != b.ts then a.ts < b.ts
    else if a.block != b.block then a.block < b.block
    else LogIndexOf(a.id) < LogIndexOf(b.id)
  }

  function Chronological(): (Trade, Trade) -> bool { (a: Trade, b: Trade) => Sooner(a, b) }

  lemma ChronologicalIsOrder()
    ensures IsOrder(Chronological())
  {
    hide LogIndexOf;
  }

  predicate DistinctIds(ts: seq<Trade>) {
    forall i, j | 0 <= i < j < |ts| :: ts[i].id != ts[j].id
  }

  /** The trades a pass values: every row of either read whose pool is listed, once, in chain order. */
  ghost predicate IsValued(ts: seq<Trade>, swaps: map<Id, Swap>, vps: seq<Listed>,
                           decimals: map<string, int>, prices: map<string, real>)
  {
    && Sorted(ts, Chronological())
    && DistinctIds(ts)
    && (forall t | t in ts :: t.id in swaps && Lower(swaps[t.id].pool) in IndexBy(vps)
                           && t == TradeOf(t.id, swaps[t.id], IndexBy(vps)[Lower(swaps[t.id].pool)], decimals, prices))
    && (forall id | id in swaps && Lower(swaps[id].pool) in IndexBy(vps) :: Names(ts, id))
  }

  predicate Names(ts: seq<Trade>, id: Id) {
    exists i | 0 <= i < |ts| :: ts[i].id == id
  }

  /** The index's entry for an id is the last listing of it. */
  lemma {:induction false} IndexIsLast(vps: seq<Listed>, id: string)
    ensures id in IndexBy(vps) <==> exists i :: 0 <= i < |vps| && vps[i].id == id
    ensures id in IndexBy(vps) ==>
              exists i :: 0 <= i < |vps| && vps[i].id == id && IndexBy(vps)[id] == vps[i] && forall j | i < j < |vps| :: vps[j].id != id
  {
    if vps != [] {
      var n := |vps| - 1;
      IndexIsLast(vps[..n], id);
      if vps[n].id == id {
        assert IndexBy(vps)[id] == vps[n];
      } else if id in IndexBy(vps[..n]) {
        var i :| 0 <= i < n && vps[..n][i].id == id && IndexBy(vps[..n])[id] == vps[..n][i]
              && forall j | i < j < n :: vps[..n][j].id != id;
        assert vps[i].id == id && forall j | i < j < n :: vps[j].id == vps[..n][j].id;
      }
    }
  }

  /** Every trade of the pass says what its own row says: the row's time and block, the pool it names as
      last listed, and for each leg that leg's amount, of that leg's token, at that token's price. */
  lemma ValuedTradeMeans(ts: seq<Trade>, swaps: map<Id, Swap>, vps: seq<Listed>,
                         decimals: map<string, int>, prices: map<string, real>, t: Trade)
    requires IsValued(ts, swaps, vps, decimals, prices) && t in ts
    ensures t.id in swaps
    ensures var sw := swaps[t.id];
            && t.ts == sw.ts && t.block == sw.block && (t.dated <==> sw.block != 0 && sw.ts > 0)
            && t.pool == Lower(sw.pool)
            && (exists i :: 0 <= i < |vps| && vps[i] == Listed(t.pool, t.t0, t.t1) && forall j | i < j < |vps| :: vps[j].id != t.pool)
            && LegMeans(sw.amount0, t.t0, decimals, prices, t.amt0, t.usd0, t.ok0)
            && LegMeans(sw.amount1, t.t1, decimals, prices, t.amt1, t.usd1, t.ok1)
  {
    hide LegMeans, SwapLeg, Lower, Sorted;
    var sw := swaps[t.id];
    IndexIsLast(vps, Lower(sw.pool));
    hide IndexBy;
    var vp := IndexBy(vps)[Lower(sw.pool)];
    assert t == TradeOf(t.id, sw, vp, decimals, prices);
    SwapLegMeans(sw.amount0, vp.t0, decimals, prices);
    SwapLegMeans(sw.amount1, vp.t1, decimals, prices);
  }

  /** Every row of a listed pool is among them, and they come by time, then block, then log index. */
  lemma ValuedTradesInOrder(ts: seq<Trade>, swaps: map<Id, Swap>, vps: seq<Listed>,
                            decimals: map<string, int>, prices: map<string, real>, i: int, j: int)
    requires IsValued(ts, swaps, vps, decimals, prices) && 0 <= i < j < |ts|
    ensures || ts[i].ts < ts[j].ts
            || (ts[i].ts == ts[j].ts && ts[i].block < ts[j].block)
            || (ts[i].ts == ts[j].ts && ts[i].block == ts[j].block && LogIndexOf(ts[i].id) <= LogIndexOf(ts[j].id))
  {
    hide LogIndexOf, TradeOf, IndexBy, Lower;
    assert !Chronological()(ts[j], ts[i]);
  }

  /** The log index is read back from an id as the handlers write it, whatever the hash before it. */
  lemma LogIndexReads(hash: string, n: nat)
    requires n < 0x1_0000_0000_0000_0000
    ensures LogIndexOf(hash + "#" + "0x" + Render(n, Hex)) == n
    ensures LogIndexOf(hash + "#" + Render(n, Hex)) == n
  {
    RenderRoundTrip(n, Hex);
    var digits := Render(n, Hex);
    HexDigits(digits);
    hide Render, Value, AllDigits;
    LogIndexOfTail(hash, "0x" + digits, digits);
    LogIndexOfTail(hash, digits, digits);
    assert hash + "#" + "0x" + digits == hash + "#" + ("0x" + digits);
  }

  lemma HexDigits(digits: string)
    requires AllDigits(digits, Hex)
    ensures '#' !in digits && '#' !in "0x" + digits
    ensures TrimPrefix("0x" + digits, "0x") == digits && TrimPrefix(digits, "0x") == digits
  {
    assert !IsDigit('#', Hex) && !IsDigit('x', Hex);
    assert ("0x" + digits)[2..] == digits;
    assert |digits| >= 2 ==> digits[1] != 'x';
  }

  lemma LogIndexOfTail(hash: string, tail: string, digits: string)
    requires '#' !in tail && TrimPrefix(tail, "0x") == digits && digits != "" && AllDigits(digits, Hex)
    ensures LogIndexOf(hash + "#" + tail) == if Value(digits, Hex) >= 0x1_0000_0000_0000_0000 then 0 else Value(digits, Hex)
  {
    hide TrimPrefix, Value, AllDigits;
    AfterHash(hash, tail);
  }

  lemma AfterHash(hash: string, tail: string)
    requires '#' !in tail
    ensures LastIndexOf(hash + "#" + tail, '#') == Some(|hash|) && (hash + "#" + tail)[|hash| + 1..] == tail
  {
    LastIndexSkips(hash + "#", tail, '#');
  }

  method IndexPools(vps: seq<Listed>) returns (byPool: map<string, Listed>)
    ensures byPool == IndexBy(vps)
  {
    byPool := map[];
    for i := 0 to |vps|
      invariant byPool == IndexBy(vps[..i])
    {
      assert vps[..i + 1][..i] == vps[..i];
      byPool := byPool[vps[i].id := vps[i]];
    }
    assert vps[..|vps|] == vps;
  }

  /** The loop over both reads, and the sort.  The tail's rows go over the head's. */
  method ValuedTrades(head: map<Id, Swap>, tail: map<Id, Swap>, vps: seq<Listed>,
                      decimals: map<string, int>, prices: map<string, real>) returns (out: seq<Trade>)
    ensures IsValued(out, head + tail, vps, decimals, prices)
  {
    hide TradeOf, IndexBy, Lower, Sorted, IsOrder;
    var byPool := IndexPools(vps);
    var swaps := head + tail;
    var all: seq<Trade> := [];
    var todo := swaps.Keys;
    while todo != {}
      invariant todo <= swaps.Keys
      invariant DistinctIds(all)
      invariant forall t: Trade | t in all :: t.id in swaps && t.id !in todo && Lower(swaps[t.id].pool) in byPool
                           && t == TradeOf(t.id, swaps[t.id], byPool[Lower(swaps[t.id].pool)], decimals, prices)
      invariant forall id | id in swaps && id !in todo && Lower(swaps[id].pool) in byPool :: Names(all, id)
    {
      var id :| id in todo;
      todo := todo - {id};
      var pool := Lower(swaps[id].pool);
      if pool in byPool {
        var t := TradeOf(id, swaps[id], byPool[pool], decimals, prices);
        TradeKeepsId(id, swaps[id], byPool[pool], decimals, prices);
        ghost var before := all;
        all := all + [t];
        assert all[|before|].id == id;
        NamesGrow(before, t);
      }
    }
    ChronologicalIsOrder();
    StableSortSorts(all, Chronological());
    out := StableSort(all, Chronological());
    SortedSame(all, out);
  }

  lemma NamesGrow(ts: seq<Trade>, t: Trade)
    ensures forall id: Id :: Names(ts + [t], id) <==> Names(ts, id) || id == t.id
  {
    var more := ts + [t];
    assert more[|ts|] == t && forall i | 0 <= i < |ts| :: more[i] == ts[i];
  }

  lemma TradeKeepsId(id: Id, sw: Swap, vp: Listed, decimals: map<string, int>, prices: map<string, real>)
    ensures TradeOf(id, sw, vp, decimals, prices).id == id
  {}

  /** Sorting neither loses nor repeats a trade. */
  lemma SortedSame(all: seq<Trade>, out: seq<Trade>)
    requires multiset(all) == multiset(out)
    requires DistinctIds(all)
    ensures forall t :: t in all <==> t in out
    ensures DistinctIds(out)
    ensures forall id: Id :: Names(all, id) <==> Names(out, id)
  {
    assert NoDup(all);
    PermutedNoDup(all, out);
    assert forall t :: t in all <==> t in multiset(all);
    assert forall t :: t in out <==> t in multiset(out);
    forall i, j | 0 <= i < j < |out| ensures out[i].id != out[j].id {
      assert out[i] in all && out[j] in all && out[i] != out[j];
    }
    forall id: Id ensures Names(all, id) <==> Names(out, id) {
      if Names(all, id) {
        var i :| 0 <= i < |all| && all[i].id == id;
        assert all[i] in out;
      }
      if Names(out, id) {
        var i :| 0 <= i < |out| && out[i].id == id;
        assert out[i] in all;
      }
    }
  }

  /** Taking one day's trades of one pool keeps their order, so the day's first trade is its earliest
      and its last the latest: open and close are what they say. */
  lemma {:induction false} DayInOrder(ts: seq<Trade>, key: string)
    requires Sorted(ts, Chronological())
    ensures Sorted(TradesAt(ts, key), Chronological())
    ensures forall t | t in TradesAt(ts, key) :: t in ts
  {
    hide Chronological, Sooner, Key;
    if ts != [] {
      var n := |ts| - 1;
      DayInOrder(ts[..n], key);
      var before := TradesAt(ts[..n], key);
      forall i | 0 <= i < |before| ensures !Chronological()(ts[n], before[i]) {
        assert before[i] in before;
      }
    }
  }

  // ----- totals -----

  /** Every listed pool starts at zero. */
  function Zeros(vps: seq<Listed>): map<string, real> {
    if vps == [] then map[] else Zeros(vps[..|vps| - 1])[vps[|vps| - 1].id := 0.0]
  }

  function VolumeFold(zeros: map<string, real>, ts: seq<Trade>): map<string, real> {
    if ts == [] then zeros
    else
      var before, t := VolumeFold(zeros, ts[..|ts| - 1]), ts[|ts| - 1];
      match t.Usd()
      case None => before
      case Some(usd) => before[t.pool := Or(before, t.pool) + usd]
  }

  /** What each priced trade is written back with. */
  function WorthFold(ts: seq<Trade>): map<Id, real> {
    if ts == [] then map[]
    else
      var before, t := WorthFold(ts[..|ts| - 1]), ts[|ts| - 1];
      match t.Usd()
      case None => before
      case Some(usd) => before[t.id := usd]
  }

  /** The legs with a price, of trades with a price, by token. */
  function TokenFoldUsd(tokenVol: map<string, real>, ts: seq<Trade>): map<string, real> {
    if ts == [] then tokenVol
    else
      var before, t := TokenFoldUsd(tokenVol, ts[..|ts| - 1]), ts[|ts| - 1];
      var once := if t.ok0 then before[t.t0 := Or(before, t.t0) + t.usd0] else before;
      if t.ok1 then once[t.t1 := Or(once, t.t1) + t.usd1] else once
  }

  method ValueSwaps(ts: seq<Trade>, vps: seq<Listed>, tokenVol0: map<string, real>)
    returns (out: map<string, real>, tokenVol: map<string, real>, swapUSD: map<Id, real>)
    ensures out == VolumeFold(Zeros(vps), ts)
    ensures swapUSD == WorthFold(ts) && tokenVol == TokenFoldUsd(tokenVol0, ts)
  {
    hide VolumeFold, WorthFold, TokenFoldUsd, Trade.Usd;
    out := map[];
    FoldsStart(tokenVol0, Zeros(vps));
    for i := 0 to |vps|
      invariant out == Zeros(vps[..i])
    {
      assert vps[..i + 1][..i] == vps[..i];
      out := out[vps[i].id := 0.0];
    }
    assert vps[..|vps|] == vps;
    tokenVol, swapUSD := tokenVol0, map[];
    for i := 0 to |ts|
      invariant out == VolumeFold(Zeros(vps), ts[..i])
      invariant swapUSD == WorthFold(ts[..i]) && tokenVol == TokenFoldUsd(tokenVol0, ts[..i])
    {
      FoldsStep(tokenVol0, Zeros(vps), ts, i);
      var t := ts[i];
      var usd := t.Usd();
      if usd.None? {
        continue;
      }
      out := out[t.pool := Or(out, t.pool) + usd.value];
      swapUSD := swapUSD[t.id := usd.value];
      if t.ok0 {
        tokenVol := tokenVol[t.t0 := Or(tokenVol, t.t0) + t.usd0];
      }
      if t.ok1 {
        tokenVol := tokenVol[t.t1 := Or(tokenVol, t.t1) + t.usd1];
      }
    }
    assert ts[..|ts|] == ts;
  }

  lemma FoldsStart(tokenVol0: map<string, real>, zeros: map<string, real>)
    ensures VolumeFold(zeros, []) == zeros && WorthFold([]) == map[] && TokenFoldUsd(tokenVol0, []) == tokenVol0
  {}

  lemma FoldsStep(tokenVol0: map<string, real>, zeros: map<string, real>, ts: seq<Trade>, i: nat)
    requires i < |ts|
    ensures var t, out, worth, vol := ts[i], VolumeFold(zeros, ts[..i]), WorthFold(ts[..i]), TokenFoldUsd(tokenVol0, ts[..i]);
            match t.Usd()
            case None =>
              && VolumeFold(zeros, ts[..i + 1]) == out && WorthFold(ts[..i + 1]) == worth
              && TokenFoldUsd(tokenVol0, ts[..i + 1]) == vol
            case Some(usd) =>
              && VolumeFold(zeros, ts[..i + 1]) == out[t.pool := Or(out, t.pool) + usd]
              && WorthFold(ts[..i + 1]) == worth[t.id := usd]
              && TokenFoldUsd(tokenVol0, ts[..i + 1]) ==
                   var once := if t.ok0 then vol[t.t0 := Or(vol, t.t0) + t.usd0] else vol;
                   if t.ok1 then once[t.t1 := Or(once, t.t1) + t.usd1] else once
  {
    assert ts[..i + 1][..i] == ts[..i];
  }

  /** A trade is written back with the mean of its legs' worth when both are priced, with the one there
      is otherwise, and not at all when neither is. */
  lemma WorthIsItsLegs(ts: seq<Trade>, i: nat)
    requires DistinctIds(ts) && i < |ts|
    ensures ts[i].id in WorthFold(ts) <==> ts[i].ok0 || ts[i].ok1
    ensures ts[i].ok0 && ts[i].ok1 ==> 2.0 * WorthFold(ts)[ts[i].id] == ts[i].usd0 + ts[i].usd1
    ensures ts[i].ok0 && !ts[i].ok1 ==> WorthFold(ts)[ts[i].id] == ts[i].usd0
    ensures !ts[i].ok0 && ts[i].ok1 ==> WorthFold(ts)[ts[i].id] == ts[i].usd1
  {
    WorthIs(ts);
  }

  /** What a list of trades moved of one token, each leg at its own worth. */
  function LegWorth(ts: seq<Trade>, token: string): real {
    if ts == [] then 0.0
    else
      var t := ts[|ts| - 1];
      LegWorth(ts[..|ts| - 1], token)
      + (if t.t0 == token && t.ok0 then t.usd0 else 0.0) + (if t.t1 == token && t.ok1 then t.usd1 else 0.0)
  }

  /** A token's volume grows by the worth of the legs that are in it. */
  lemma {:induction false} TokenVolumeIsItsLegs(tokenVol0: map<string, real>, ts: seq<Trade>, token: string)
    ensures Or(TokenFoldUsd(tokenVol0, ts), token) == Or(tokenVol0, token) + LegWorth(ts, token)
  {
    if ts != [] {
      TokenVolumeIsItsLegs(tokenVol0, ts[..|ts| - 1], token);
    }
  }

  function OfPool(ts: seq<Trade>, pool: string): seq<Trade> {
    if ts == [] then []
    else OfPool(ts[..|ts| - 1], pool) + if ts[|ts| - 1].pool == pool then [ts[|ts| - 1]] else []
  }

  /** The figures written back name exactly the priced trades. */
  lemma {:induction false} WorthIs(ts: seq<Trade>)
    ensures forall id :: id in WorthFold(ts) <==> exists i :: 0 <= i < |ts| && ts[i].id == id && ts[i].Usd().Some?
    ensures DistinctIds(ts) ==> forall i | 0 <= i < |ts| && ts[i].Usd().Some? :: WorthFold(ts)[ts[i].id] == ts[i].Usd().value
  {
    if ts != [] {
      var n := |ts| - 1;
      WorthIs(ts[..n]);
      assert forall i | 0 <= i < n :: ts[..n][i] == ts[i];
      hide WorthFold;
      WorthStep(ts);
    }
  }

  lemma WorthStep(ts: seq<Trade>)
    requires ts != []
    ensures var n := |ts| - 1;
            WorthFold(ts) == if ts[n].Usd().None? then WorthFold(ts[..n]) else WorthFold(ts[..n])[ts[n].id := ts[n].Usd().value]
  {}

  lemma {:induction false} OfPoolIds(ts: seq<Trade>, pool: string)
    ensures forall t | t in OfPool(ts, pool) :: t in ts && t.pool == pool
    ensures DistinctIds(ts) ==> DistinctIds(OfPool(ts, pool))
  {
    if ts != [] {
      OfPoolIds(ts[..|ts| - 1], pool);
      var before, t := OfPool(ts[..|ts| - 1], pool), ts[|ts| - 1];
      assert forall u | u in before :: u in ts[..|ts| - 1];
    }
  }

  lemma OneMoreWorth(ts: seq<Trade>, t: Trade)
    requires DistinctIds(ts) && forall u | u in ts :: u.id != t.id
    ensures Sum(WorthFold(ts + [t])) == Sum(WorthFold(ts)) + t.UsdOrZero()
  {
    WorthIs(ts);
    assert (ts + [t])[..|ts|] == ts;
    WorthStep(ts + [t]);
    hide WorthFold;
    if t.Usd().Some? {
      assert t.id !in WorthFold(ts);
      SumPut(WorthFold(ts), t.id, t.Usd().value);
    }
  }

  /** A pool's volume is the sum of the figures its own trades are written back with, one by one. */
  lemma {:induction false} VolumeIsItsTrades(vps: seq<Listed>, ts: seq<Trade>, pool: string)
    requires DistinctIds(ts)
    ensures Or(VolumeFold(Zeros(vps), ts), pool) == Sum(WorthFold(OfPool(ts, pool)))
  {
    if ts == [] {
      ZerosAreZero(vps, pool);
      NothingSums();
    } else {
      var n := |ts| - 1;
      VolumeIsItsTrades(vps, ts[..n], pool);
      var mine := OfPool(ts[..n], pool);
      if ts[n].pool == pool {
        OfPoolIds(ts[..n], pool);
        assert forall t | t in mine :: t.id != ts[n].id;
        OneMoreWorth(mine, ts[n]);
        assert OfPool(ts, pool) == mine + [ts[n]];
      } else {
        assert OfPool(ts, pool) == mine;
      }
    }
  }

  lemma {:induction false} ZerosAreZero(vps: seq<Listed>, pool: string)
    ensures Or(Zeros(vps), pool) == 0.0
  {
    if vps != [] {
      ZerosAreZero(vps[..|vps| - 1], pool);
    }
  }

  lemma NothingSums()
    ensures Sum<Id>(map[]) == 0.0 && WorthFold([]) == map[]
  {}

  /** And all the pools' volumes together are all the figures together. */
  lemma {:induction false} VolumesSumToWorth(vps: seq<Listed>, ts: seq<Trade>)
    requires DistinctIds(ts)
    ensures Sum(VolumeFold(Zeros(vps), ts)) == Sum(WorthFold(ts))
  {
    if ts == [] {
      ZerosSum(vps);
      NothingSums();
    } else {
      var n := |ts| - 1;
      VolumesSumToWorth(vps, ts[..n]);
      OneMoreWorth(ts[..n], ts[n]);
      assert ts[..n] + [ts[n]] == ts;
      if ts[n].Usd().Some? {
        var usd := ts[n].Usd().value;
        var before := VolumeFold(Zeros(vps), ts[..n]);
        SumPut(before, ts[n].pool, Or(before, ts[n].pool) + usd);
      }
    }
  }

  lemma {:induction false} ZerosSum(vps: seq<Listed>)
    ensures Sum(Zeros(vps)) == 0.0
  {
    if vps != [] {
      var n := |vps| - 1;
      ZerosSum(vps[..n]);
      ZerosAreZero(vps[..n], vps[n].id);
      SumPut(Zeros(vps[..n]), vps[n].id, 0.0);
    }
  }
}
