/** Token prices relaxed outward from the stablecoin anchors (indexer/valuation.go:68-96, 444-491).

    Balances and prices are reals: floating-point rounding, infinities and NaN are left out. */
module Pricing {
  import opened Wrappers
  import opened Text

  /** A lower-cased token address. */
  type Token = string

  /** One pool's valuation input: its two tokens and what it holds of each. */
  datatype Venue = Venue(t0: Token, t1: Token, bal0: real, bal1: real)

  type Prices = map<Token, real>

  datatype Quote = Quote(price: real, depth: real)

  const STABLE_SYMBOLS: set<string> :=
    {"USDC", "USDT", "DAI", "LUSD", "USDS", "BUSD", "FRAX", "TUSD", "USDP", "PYUSD", "USDE", "GUSD", "ZUSD"}

  const ROUNDS: nat := 6

  predicate IsStable(symbol: string) {
    Upper(Trim(symbol)) in STABLE_SYMBOLS
  }

  /** Every token with a pegged symbol, at one dollar. */
  function Anchors(symbols: map<string, string>): Prices {
    AtOneDollar(set a | a in symbols && IsStable(symbols[a]) :: Lower(a))
  }

  function AtOneDollar(ts: set<Token>): Prices {
    map t | t in ts :: 1.0
  }

  predicate Live(v: Venue) {
    v.bal0 > 0.0 && v.bal1 > 0.0
  }

  /** How deep a quote is: what the priced side is worth. */
  function Worth(bal: real, price: real): real { bal * price }

  /** What one token of the other side is then worth. */
  function PerToken(depth: real, bal: real): real
    requires bal > 0.0
  {
    depth / bal
  }

  lemma QuotePositive(bal: real, price: real, other: real)
    requires bal > 0.0 && price > 0.0 && other > 0.0
    ensures Worth(bal, price) > 0.0 && PerToken(Worth(bal, price), other) > 0.0
  {}

  /** What a pool says about its unpriced side, when exactly one side has a price. */
  function Quoted(v: Venue, prices: Prices): Option<(Token, Quote)> {
    if !Live(v) then None
    else if v.t0 in prices && v.t1 !in prices then
      var d := Worth(v.bal0, prices[v.t0]);
      Some((v.t1, Quote(PerToken(d, v.bal1), d)))
    else if v.t1 in prices && v.t0 !in prices then
      var d := Worth(v.bal1, prices[v.t1]);
      Some((v.t0, Quote(PerToken(d, v.bal0), d)))
    else None
  }

  /** The running choice after one more pool: strictly deeper wins, a tie keeps the earlier. */
  function Keep(best: map<Token, Quote>, v: Venue, prices: Prices): map<Token, Quote> {
    match Quoted(v, prices)
    case None => best
    case Some((t, q)) => if t !in best || q.depth > best[t].depth then best[t := q] else best
  }

  function Scan(vps: seq<Venue>, prices: Prices): map<Token, Quote> {
    if vps == [] then map[] else Keep(Scan(vps[..|vps| - 1], prices), vps[|vps| - 1], prices)
  }

  /** One round: every token some pool quotes takes its best quote. */
  function Round(vps: seq<Venue>, prices: Prices): Prices {
    Settled(prices, Scan(vps, prices))
  }

  function Rounds(vps: seq<Venue>, anchors: Prices, k: nat): Prices {
    if k == 0 then anchors else Round(vps, Rounds(vps, anchors, k - 1))
  }

  // ----- the loops -----

  /** The source's loops, with their two early exits, compute exactly six full rounds. */
  method PriceTokens(vps: seq<Venue>, symbols: map<string, string>) returns (prices: Prices)
    ensures prices == Rounds(vps, Anchors(symbols), 6)
  {
    hide Anchors, Scan, Settled;
    prices := AnchorLoop(symbols);
    ghost var anchors := prices;
    if |prices| == 0 {
      NoAnchorsNoPrices(vps, ROUNDS);
      return;
    }
    var round := 0;
    while round < ROUNDS
      invariant 0 <= round <= ROUNDS
      invariant prices == Rounds(vps, anchors, round)
    {
      var best := ScanLoop(vps, prices);
      if |best| == 0 {
        NothingQuoted(vps, prices);
        Fixpoint(vps, anchors, round, ROUNDS);
        return;
      }
      prices := Settle(prices, best);
      round := round + 1;
    }
  }

  method AnchorLoop(symbols: map<string, string>) returns (prices: Prices)
    ensures prices == Anchors(symbols)
  {
    hide IsStable, Lower;
    prices := map[];
    var todo := symbols.Keys;
    while todo != {}
      invariant todo <= symbols.Keys
      invariant prices == AtOneDollar(set a | a in symbols && a !in todo && IsStable(symbols[a]) :: Lower(a))
    {
      var addr :| addr in todo;
      todo := todo - {addr};
      if IsStable(symbols[addr]) {
        prices := prices[Lower(addr) := 1.0];
      }
    }
  }

  method ScanLoop(vps: seq<Venue>, prices: Prices) returns (best: map<Token, Quote>)
    ensures best == Scan(vps, prices)
  {
    best := map[];
    for i := 0 to |vps|
      invariant best == Scan(vps[..i], prices)
    {
      assert vps[..i + 1][..i] == vps[..i];
      best := Consider(vps[i], prices, best);
    }
    assert vps[..|vps|] == vps;
  }

  /** The loop's body: one pool's say. */
  method Consider(vp: Venue, prices: Prices, best0: map<Token, Quote>) returns (best: map<Token, Quote>)
    ensures best == Keep(best0, vp, prices)
  {
    hide Worth, PerToken;
    best := best0;
    if vp.bal0 <= 0.0 || vp.bal1 <= 0.0 {
      return;
    }
    if vp.t0 in prices && vp.t1 !in prices {
      var d := Worth(vp.bal0, prices[vp.t0]);
      if vp.t1 !in best || d > best[vp.t1].depth {
        best := best[vp.t1 := Quote(PerToken(d, vp.bal1), d)];
      }
    } else if vp.t1 in prices && vp.t0 !in prices {
      var d := Worth(vp.bal1, prices[vp.t1]);
      if vp.t0 !in best || d > best[vp.t0].depth {
        best := best[vp.t0 := Quote(PerToken(d, vp.bal0), d)];
      }
    }
  }

  /** The prices a scan found, added to those already known. */
  function Settled(known: Prices, best: map<Token, Quote>): Prices {
    known + map t | t in best && best[t].price > 0.0 :: best[t].price
  }

  lemma NothingQuoted(vps: seq<Venue>, prices: Prices)
    requires |Scan(vps, prices)| == 0
    ensures Round(vps, prices) == prices
  {
    hide Scan;
    assert Scan(vps, prices) == map[];
  }

  method Settle(known: Prices, best: map<Token, Quote>) returns (prices: Prices)
    ensures prices == Settled(known, best)
  {
    hide Settled;
    prices := known;
    var todo := best.Keys;
    SettledEmpty(known);
    assert best - todo == map[];
    while todo != {}
      invariant todo <= best.Keys
      invariant prices == Settled(known, best - todo)
    {
      var addr :| addr in todo;
      SettledStep(known, best - todo, addr, best[addr]);
      assert best - (todo - {addr}) == (best - todo)[addr := best[addr]];
      todo := todo - {addr};
      if best[addr].price > 0.0 {
        prices := prices[addr := best[addr].price];
      }
    }
    assert best - todo == best;
  }

  lemma SettledEmpty(known: Prices)
    ensures Settled(known, map[]) == known
  {}

  lemma SettledStep(known: Prices, done: map<Token, Quote>, t: Token, q: Quote)
    requires t !in done
    ensures Settled(known, done[t := q])
         == if q.price > 0.0 then Settled(known, done)[t := q.price] else Settled(known, done)
  {}

  // ----- the scan picks the first deepest quote -----

  /** What each pool offers for one token, in pool order. */
  function Offers(vps: seq<Venue>, prices: Prices, t: Token): seq<Option<Quote>> {
    seq(|vps|, i requires 0 <= i < |vps| => Offer(vps[i], prices, t))
  }

  function Offer(v: Venue, prices: Prices, t: Token): Option<Quote> {
    match Quoted(v, prices)
    case None => None
    case Some((u, q)) => if u == t then Some(q) else None
  }

  function Pick(os: seq<Option<Quote>>): Option<Quote> {
    if os == [] then None else PickOne(Pick(os[..|os| - 1]), os[|os| - 1])
  }

  function PickOne(best: Option<Quote>, o: Option<Quote>): Option<Quote> {
    if o.Some? && (best.None? || o.value.depth > best.value.depth) then o else best
  }

  lemma {:induction false} ScanIsPick(vps: seq<Venue>, prices: Prices, t: Token)
    ensures (if t in Scan(vps, prices) then Some(Scan(vps, prices)[t]) else None) == Pick(Offers(vps, prices, t))
  {
    if vps != [] {
      hide Quoted;
      ScanIsPick(vps[..|vps| - 1], prices, t);
      assert Offers(vps, prices, t)[..|vps| - 1] == Offers(vps[..|vps| - 1], prices, t);
    }
  }

  /** Offer i is as deep as any and deeper than those before it. */
  ghost predicate FirstDeepest(os: seq<Option<Quote>>, i: int) {
    && Deepest(os, i)
    && forall j | 0 <= j < i && os[j].Some? :: os[j].value.depth < os[i].value.depth
  }

  ghost predicate Deepest(os: seq<Option<Quote>>, i: int) {
    && 0 <= i < |os| && os[i].Some?
    && forall j | 0 <= j < |os| && os[j].Some? :: os[j].value.depth <= os[i].value.depth
  }

  lemma {:induction false} PickIndex(os: seq<Option<Quote>>) returns (i: int)
    ensures Pick(os).Some? ==> FirstDeepest(os, i) && os[i] == Pick(os)
    ensures Pick(os).None? ==> forall j | 0 <= j < |os| :: os[j].None?
  {
    i := 0;
    if os != [] {
      var n := |os| - 1;
      var before := os[..n];
      i := PickIndex(before);
      if Pick(before).None? {
        assert forall j | 0 <= j < n :: os[j] == before[j];
        i := n;
      } else if os[n].Some? && os[n].value.depth > before[i].value.depth {
        forall j | 0 <= j < n && os[j].Some? ensures os[j].value.depth < os[n].value.depth {
          assert os[j] == before[j];
        }
        i := n;
      } else {
        forall j | 0 <= j < |os| && os[j].Some? ensures os[j].value.depth <= os[i].value.depth {
          assert j < n ==> os[j] == before[j];
        }
      }
    }
  }

  lemma PickIsFirstDeepest(os: seq<Option<Quote>>)
    ensures Pick(os).Some? <==> exists j :: 0 <= j < |os| && os[j].Some?
    ensures Pick(os).Some? ==> exists i :: FirstDeepest(os, i) && os[i] == Pick(os)
  {
    var i := PickIndex(os);
  }

  // ----- what a round does -----

  ghost predicate Positive(prices: Prices) {
    forall t | t in prices :: prices[t] > 0.0
  }

  lemma OfferPositive(v: Venue, prices: Prices, t: Token)
    requires Positive(prices) && Offer(v, prices, t).Some?
    ensures Offer(v, prices, t).value.price > 0.0
    ensures t !in prices
  {
    hide Worth, PerToken;
    if v.t0 in prices {
      QuotePositive(v.bal0, prices[v.t0], v.bal1);
    } else {
      QuotePositive(v.bal1, prices[v.t1], v.bal0);
    }
  }

  /** Token by token: a round keeps a known price, and otherwise takes what `Pick` chooses. */
  lemma RoundAt(vps: seq<Venue>, prices: Prices, t: Token)
    requires Positive(prices)
    ensures (if t in Round(vps, prices) then Some(Round(vps, prices)[t]) else None)
         == if t in prices then Some(prices[t])
            else match Pick(Offers(vps, prices, t)) case None => None case Some(q) => Some(q.price)
  {
    hide Scan, Pick, Offer;
    ScanIsPick(vps, prices, t);
    PickIsFirstDeepest(Offers(vps, prices, t));
    if t in Scan(vps, prices) {
      var i :| FirstDeepest(Offers(vps, prices, t), i) && Offers(vps, prices, t)[i] == Pick(Offers(vps, prices, t));
      OfferPositive(vps[i], prices, t);
    }
  }

  /** A round keeps every price, and prices exactly the tokens some pool offers for, each at the
      offer of its first deepest pool. */
  lemma RoundMeaning(vps: seq<Venue>, prices: Prices, t: Token)
    requires Positive(prices)
    ensures t in prices ==> t in Round(vps, prices) && Round(vps, prices)[t] == prices[t]
    ensures t !in prices ==>
              (t in Round(vps, prices) <==> exists j :: 0 <= j < |vps| && Offers(vps, prices, t)[j].Some?)
    ensures t in Round(vps, prices) && t !in prices ==>
              exists i :: FirstDeepest(Offers(vps, prices, t), i)
                       && Offers(vps, prices, t)[i].value.price == Round(vps, prices)[t]
    ensures t in Round(vps, prices) ==> Round(vps, prices)[t] > 0.0
  {
    hide Round, Pick, Offers;
    RoundAt(vps, prices, t);
    PickIsFirstDeepest(Offers(vps, prices, t));
    OffersLength(vps, prices, t);
  }

  lemma OffersLength(vps: seq<Venue>, prices: Prices, t: Token)
    requires Positive(prices)
    ensures |Offers(vps, prices, t)| == |vps|
    ensures forall i | 0 <= i < |vps| && Offers(vps, prices, t)[i].Some? :: Offers(vps, prices, t)[i].value.price > 0.0
  {
    hide Offer;
    forall i | 0 <= i < |vps| && Offers(vps, prices, t)[i].Some?
      ensures Offers(vps, prices, t)[i].value.price > 0.0
    {
      OfferPositive(vps[i], prices, t);
    }
  }

  lemma {:induction false} RoundsPositive(vps: seq<Venue>, anchors: Prices, k: nat)
    requires Positive(anchors)
    ensures Positive(Rounds(vps, anchors, k))
  {
    if k > 0 {
      hide Round;
      var before := Rounds(vps, anchors, k - 1);
      RoundsPositive(vps, anchors, k - 1);
      forall t | t in Round(vps, before) ensures Round(vps, before)[t] > 0.0 {
        RoundMeaning(vps, before, t);
      }
    }
  }

  /** A price never changes once set. */
  lemma {:induction false} PriceNeverChanges(vps: seq<Venue>, anchors: Prices, j: nat, k: nat, t: Token)
    requires Positive(anchors) && j <= k && t in Rounds(vps, anchors, j)
    ensures t in Rounds(vps, anchors, k) && Rounds(vps, anchors, k)[t] == Rounds(vps, anchors, j)[t]
    decreases k
  {
    if j < k {
      hide Round;
      PriceNeverChanges(vps, anchors, j, k - 1, t);
      RoundsPositive(vps, anchors, k - 1);
      RoundMeaning(vps, Rounds(vps, anchors, k - 1), t);
    }
  }

  /** Once a round adds nothing, no later round does: the early break is sound. */
  lemma {:induction false} Fixpoint(vps: seq<Venue>, anchors: Prices, j: nat, k: nat)
    requires j <= k && Round(vps, Rounds(vps, anchors, j)) == Rounds(vps, anchors, j)
    ensures Rounds(vps, anchors, k) == Rounds(vps, anchors, j)
    decreases k
  {
    hide Round;
    if j < k {
      Fixpoint(vps, anchors, j, k - 1);
    }
  }

  lemma {:induction false} NoAnchorsNoPrices(vps: seq<Venue>, k: nat)
    ensures Rounds(vps, map[], k) == map[]
  {
    if k > 0 {
      hide Round, Pick;
      NoAnchorsNoPrices(vps, k - 1);
      forall t ensures t !in Round(vps, map[]) {
        RoundAt(vps, map[], t);
        PickIsFirstDeepest(Offers(vps, map[], t));
      }
    }
  }

  // ----- pricing is a bounded breadth-first search -----

  /** The pool trades a for b and holds something of both. */
  predicate Joins(v: Venue, a: Token, b: Token) {
    v.bal0 > 0.0 && v.bal1 > 0.0 && ((v.t0 == a && v.t1 == b) || (v.t0 == b && v.t1 == a))
  }

  ghost predicate Linked(vps: seq<Venue>, a: Token, b: Token) {
    exists j :: 0 <= j < |vps| && Joins(vps[j], a, b)
  }

  /** A walk from an anchor to t through live pools. */
  ghost predicate IsWalk(vps: seq<Venue>, anchors: Prices, p: seq<Token>, t: Token) {
    && |p| > 0 && p[0] in anchors && p[|p| - 1] == t
    && forall i | 0 < i < |p| :: Linked(vps, p[i - 1], p[i])
  }

  /** A pool offers a price for t exactly when it joins t, still unpriced, to a priced token. */
  lemma OfferedIffJoined(vps: seq<Venue>, prices: Prices, t: Token)
    requires t !in prices
    ensures (exists j :: 0 <= j < |vps| && Offers(vps, prices, t)[j].Some?)
       <==> (exists u :: u in prices && Linked(vps, u, t))
  {
    if j :| 0 <= j < |vps| && Offers(vps, prices, t)[j].Some? {
      var u := if vps[j].t0 == t then vps[j].t1 else vps[j].t0;
      assert u in prices && Joins(vps[j], u, t);
    }
    if u :| u in prices && Linked(vps, u, t) {
      var j :| 0 <= j < |vps| && Joins(vps[j], u, t);
      assert Offers(vps, prices, t)[j].Some?;
    }
  }

  /** After k rounds the priced tokens are exactly those within k hops of an anchor. */
  lemma {:induction false} PricedIffWithinHops(vps: seq<Venue>, anchors: Prices, k: nat, t: Token)
    requires Positive(anchors)
    ensures t in Rounds(vps, anchors, k) <==> exists p :: IsWalk(vps, anchors, p, t) && |p| <= k + 1
  {
    if t in Rounds(vps, anchors, k) {
      var p := WalkTo(vps, anchors, k, t);
    }
    forall p | IsWalk(vps, anchors, p, t) && |p| <= k + 1 ensures t in Rounds(vps, anchors, k) {
      WalkIsPriced(vps, anchors, k, p, t);
    }
  }

  /** So `priceTokens` prices exactly what lies within six hops of a stablecoin, through pools that
      hold something of both sides. */
  lemma PricedWithinSixHops(vps: seq<Venue>, symbols: map<string, string>, t: Token)
    ensures Positive(Anchors(symbols))
    ensures t in Rounds(vps, Anchors(symbols), 6)
            <==> exists p :: IsWalk(vps, Anchors(symbols), p, t) && |p| <= 7
  {
    PricedIffWithinHops(vps, Anchors(symbols), 6, t);
  }

  lemma {:induction false} WalkTo(vps: seq<Venue>, anchors: Prices, k: nat, t: Token) returns (p: seq<Token>)
    requires Positive(anchors) && t in Rounds(vps, anchors, k)
    ensures IsWalk(vps, anchors, p, t) && |p| <= k + 1
  {
    hide Round, Offers, Linked;
    if k == 0 {
      p := [t];
    } else {
      var before := Rounds(vps, anchors, k - 1);
      if t in before {
        p := WalkTo(vps, anchors, k - 1, t);
      } else {
        RoundsPositive(vps, anchors, k - 1);
        RoundMeaning(vps, before, t);
        OfferedIffJoined(vps, before, t);
        var u :| u in before && Linked(vps, u, t);
        var q := WalkTo(vps, anchors, k - 1, u);
        p := q + [t];
      }
    }
  }

  lemma {:induction false} WalkIsPriced(vps: seq<Venue>, anchors: Prices, k: nat, p: seq<Token>, t: Token)
    requires Positive(anchors) && IsWalk(vps, anchors, p, t) && |p| <= k + 1
    ensures t in Rounds(vps, anchors, k)
    decreases k
  {
    hide Round, Offers, Linked;
    if |p| == 1 {
      PriceNeverChanges(vps, anchors, 0, k, t);
    } else {
      var before, n := Rounds(vps, anchors, k - 1), |p| - 1;
      assert Linked(vps, p[n - 1], p[n]);
      WalkIsPriced(vps, anchors, k - 1, p[..n], p[n - 1]);
      RoundsPositive(vps, anchors, k - 1);
      RoundMeaning(vps, before, t);
      if t !in before {
        OfferedIffJoined(vps, before, t);
      }
    }
  }

  /** Each price beyond the anchors is the offer of the first deepest live pool that joins the token
      to one priced a round earlier, from then on. */
  lemma PriceIsDeepestQuote(vps: seq<Venue>, anchors: Prices, k: nat, m: nat, t: Token)
    requires Positive(anchors) && k < m
    requires t !in Rounds(vps, anchors, k) && t in Rounds(vps, anchors, k + 1)
    ensures t in Rounds(vps, anchors, m)
    ensures var offers := Offers(vps, Rounds(vps, anchors, k), t);
            exists i :: FirstDeepest(offers, i) && offers[i].value.price == Rounds(vps, anchors, m)[t]
  {
    hide Round, Offers, FirstDeepest;
    RoundsPositive(vps, anchors, k);
    RoundMeaning(vps, Rounds(vps, anchors, k), t);
    PriceNeverChanges(vps, anchors, k + 1, m, t);
  }

  /** What a pool holds of one of its tokens. */
  function Holds(v: Venue, t: Token): real {
    if v.t0 == t then v.bal0 else v.bal1
  }

  /** What an offer says, in the pool's own figures. */
  lemma OfferIs(v: Venue, prices: Prices, t: Token, u: Token)
    requires t !in prices && u in prices && Joins(v, u, t)
    ensures Offer(v, prices, t).Some?
    ensures Offer(v, prices, t).value.depth == Holds(v, u) * prices[u]
    ensures Offer(v, prices, t).value.price * Holds(v, t) == Holds(v, u) * prices[u]
  {
    var d := Holds(v, u) * prices[u];
    assert Holds(v, t) > 0.0;
    assert d / Holds(v, t) * Holds(v, t) == d;
  }

  lemma OfferJoins(v: Venue, prices: Prices, t: Token) returns (u: Token)
    requires t !in prices && Offer(v, prices, t).Some?
    ensures u in prices && Joins(v, u, t)
  {
    u := if v.t0 == t then v.t1 else v.t0;
  }

  /** The first deepest offer, in the pools' own figures. */
  lemma DeepestHoldsMost(vps: seq<Venue>, prices: Prices, t: Token, i: int) returns (u: Token)
    requires t !in prices && FirstDeepest(Offers(vps, prices, t), i)
    ensures 0 <= i < |vps| && u in prices && Joins(vps[i], u, t)
    ensures Offers(vps, prices, t)[i].value.price * Holds(vps[i], t) == Holds(vps[i], u) * prices[u]
    ensures forall j, w | 0 <= j < |vps| && w in prices && Joins(vps[j], w, t) ::
              var mine, other := Holds(vps[i], u) * prices[u], Holds(vps[j], w) * prices[w];
              other <= mine && (j < i ==> other < mine)
  {
    hide Offer, Joins, Holds;
    var offers := Offers(vps, prices, t);
    u := OfferJoins(vps[i], prices, t);
    OfferIs(vps[i], prices, t, u);
    var mine := Holds(vps[i], u) * prices[u];
    forall j, w | 0 <= j < |vps| && w in prices && Joins(vps[j], w, t)
      ensures Holds(vps[j], w) * prices[w] <= mine
      ensures j < i ==> Holds(vps[j], w) * prices[w] < mine
    {
      OfferIs(vps[j], prices, t, w);
      assert offers[j].Some?;
    }
  }

  /** A price set in round k + 1 balances one pool for ever: what that pool holds of the token is worth
      what it holds of a token priced by round k.  No other pool joining the two sides of the priced
      has more to set against the token, and none before it in the list as much. */
  lemma PriceBalancesPool(vps: seq<Venue>, anchors: Prices, k: nat, m: nat, t: Token) returns (i: int, u: Token)
    requires Positive(anchors) && k < m
    requires t !in Rounds(vps, anchors, k) && t in Rounds(vps, anchors, k + 1)
    ensures t in Rounds(vps, anchors, m)
    ensures 0 <= i < |vps| && u in Rounds(vps, anchors, k) && Joins(vps[i], u, t)
    ensures Rounds(vps, anchors, m)[t] * Holds(vps[i], t) == Holds(vps[i], u) * Rounds(vps, anchors, k)[u]
    ensures forall j, w | 0 <= j < |vps| && w in Rounds(vps, anchors, k) && Joins(vps[j], w, t) ::
              var mine, other := Holds(vps[i], u) * Rounds(vps, anchors, k)[u], Holds(vps[j], w) * Rounds(vps, anchors, k)[w];
              other <= mine && (j < i ==> other < mine)
  {
    hide Rounds, Offers, Joins, Holds;
    var prices := Rounds(vps, anchors, k);
    PriceIsDeepestQuote(vps, anchors, k, m, t);
    i :| FirstDeepest(Offers(vps, prices, t), i) && Offers(vps, prices, t)[i].value.price == Rounds(vps, anchors, m)[t];
    u := DeepestHoldsMost(vps, prices, t, i);
  }

  /** The stablecoins are worth one dollar throughout, and nothing is priced before the rounds but
      they. */
  lemma PegHolds(vps: seq<Venue>, symbols: map<string, string>, k: nat, t: Token)
    ensures t in Rounds(vps, Anchors(symbols), 0)
       <==> exists a :: a in symbols && Lower(a) == t && Upper(Trim(symbols[a])) in STABLE_SYMBOLS
    ensures t in Rounds(vps, Anchors(symbols), 0) ==>
              t in Rounds(vps, Anchors(symbols), k) && Rounds(vps, Anchors(symbols), k)[t] == 1.0
  {
    hide Lower, Upper, Trim;
    if t in Anchors(symbols) {
      PriceNeverChanges(vps, Anchors(symbols), 0, k, t);
    }
  }

  // ----- order independence -----

  /** No two pools tie for the deepest offer for one token while disagreeing on its price. */
  ghost predicate NoConflict(vps: seq<Venue>, prices: Prices) {
    forall t, i, j | Deepest(Offers(vps, prices, t), i) && Deepest(Offers(vps, prices, t), j) ::
      Offers(vps, prices, t)[i].value.price == Offers(vps, prices, t)[j].value.price
  }

  ghost predicate NeverConflicts(vps: seq<Venue>, anchors: Prices, k: nat) {
    forall r: nat | r < k :: NoConflict(vps, Rounds(vps, anchors, r))
  }

  lemma MemberAt<T>(vs: seq<T>, ws: seq<T>, i: int) returns (j: int)
    requires multiset(vs) == multiset(ws) && 0 <= i < |ws|
    ensures 0 <= j < |vs| && vs[j] == ws[i]
  {
    assert ws[i] in multiset(vs);
    j :| 0 <= j < |vs| && vs[j] == ws[i];
  }

  lemma PermutedDeepest(vps: seq<Venue>, ws: seq<Venue>, prices: Prices, t: Token, i: int) returns (j: int)
    requires multiset(vps) == multiset(ws) && Deepest(Offers(ws, prices, t), i)
    ensures Deepest(Offers(vps, prices, t), j) && Offers(vps, prices, t)[j] == Offers(ws, prices, t)[i]
  {
    hide Offer;
    j := MemberAt(vps, ws, i);
    var os, op := Offers(vps, prices, t), Offers(ws, prices, t);
    forall k | 0 <= k < |os| && os[k].Some? ensures os[k].value.depth <= os[j].value.depth {
      var m := MemberAt(ws, vps, k);
      assert op[m] == os[k];
    }
  }

  lemma RoundOneWay(vps: seq<Venue>, ws: seq<Venue>, prices: Prices, t: Token)
    requires Positive(prices) && multiset(vps) == multiset(ws) && NoConflict(vps, prices)
    ensures t in Round(ws, prices) ==> t in Round(vps, prices) && Round(vps, prices)[t] == Round(ws, prices)[t]
  {
    hide Offers, Round;
    RoundMeaning(vps, prices, t);
    RoundMeaning(ws, prices, t);
    OffersLength(vps, prices, t);
    if t in Round(ws, prices) && t !in prices {
      var i :| FirstDeepest(Offers(ws, prices, t), i)
            && Offers(ws, prices, t)[i].value.price == Round(ws, prices)[t];
      var j := PermutedDeepest(vps, ws, prices, t, i);
      assert Offers(vps, prices, t)[j].Some?;
      var k :| FirstDeepest(Offers(vps, prices, t), k)
            && Offers(vps, prices, t)[k].value.price == Round(vps, prices)[t];
    }
  }

  lemma PermutedNoConflict(vps: seq<Venue>, ws: seq<Venue>, prices: Prices)
    requires multiset(vps) == multiset(ws) && NoConflict(vps, prices)
    ensures NoConflict(ws, prices)
  {
    hide Offers;
    forall t, i, j | Deepest(Offers(ws, prices, t), i) && Deepest(Offers(ws, prices, t), j)
      ensures Offers(ws, prices, t)[i].value.price == Offers(ws, prices, t)[j].value.price
    {
      var i' := PermutedDeepest(vps, ws, prices, t, i);
      var j' := PermutedDeepest(vps, ws, prices, t, j);
    }
  }

  lemma PermutedRound(vps: seq<Venue>, ws: seq<Venue>, prices: Prices)
    requires Positive(prices) && multiset(vps) == multiset(ws) && NoConflict(vps, prices)
    ensures Round(ws, prices) == Round(vps, prices)
  {
    hide Round, NoConflict;
    PermutedNoConflict(vps, ws, prices);
    forall t ensures t in Round(ws, prices) <==> t in Round(vps, prices)
             ensures t in Round(ws, prices) ==> Round(ws, prices)[t] == Round(vps, prices)[t] {
      RoundOneWay(vps, ws, prices, t);
      RoundOneWay(ws, vps, prices, t);
    }
  }

  lemma {:induction false} PermutedRounds(vps: seq<Venue>, ws: seq<Venue>, anchors: Prices, k: nat)
    requires Positive(anchors) && multiset(vps) == multiset(ws) && NeverConflicts(vps, anchors, k)
    ensures Rounds(ws, anchors, k) == Rounds(vps, anchors, k)
  {
    if k > 0 {
      hide Round, NoConflict;
      PermutedRounds(vps, ws, anchors, k - 1);
      RoundsPositive(vps, anchors, k - 1);
      PermutedRound(vps, ws, Rounds(vps, anchors, k - 1));
    }
  }

  /** Two entries exchanged. */
  function Swapped<T>(s: seq<T>, i: int, j: int): (r: seq<T>)
    requires 0 <= i < |s| && 0 <= j < |s|
    ensures multiset(r) == multiset(s)
  {
    s[i := s[j]][j := s[i]]
  }

  lemma SwappedOffers(vps: seq<Venue>, prices: Prices, t: Token, i: int, j: int)
    requires 0 <= i < |vps| && 0 <= j < |vps|
    ensures Offers(Swapped(vps, i, j), prices, t) == Swapped(Offers(vps, prices, t), i, j)
  {
    hide Offer;
  }

  /** Moving a tied offer to the first place makes it the chosen one. */
  lemma SwappedPick(os: seq<Option<Quote>>, first: int, other: int)
    requires FirstDeepest(os, first) && Deepest(os, other)
    ensures Pick(Swapped(os, first, other)) == os[other]
  {
    hide Pick;
    var ws := Swapped(os, first, other);
    assert FirstDeepest(ws, first);
    PickIsFirstDeepest(ws);
    var i :| FirstDeepest(ws, i) && ws[i] == Pick(ws);
    assert i == first;
  }

  /** A conflict is visible: exchanging two tied pools changes the price. */
  lemma ConflictShows(vps: seq<Venue>, prices: Prices) returns (ws: seq<Venue>, t: Token)
    requires Positive(prices) && !NoConflict(vps, prices)
    ensures multiset(ws) == multiset(vps)
    ensures t in Round(vps, prices) && t in Round(ws, prices) && Round(ws, prices)[t] != Round(vps, prices)[t]
  {
    hide Pick, Round, Offer;
    var t', i, j :| Deepest(Offers(vps, prices, t'), i) && Deepest(Offers(vps, prices, t'), j)
                 && Offers(vps, prices, t')[i].value.price != Offers(vps, prices, t')[j].value.price;
    t := t';
    var os := Offers(vps, prices, t);
    OfferPositive(vps[i], prices, t);
    PickIsFirstDeepest(os);
    assert os[i].Some?;
    var f :| FirstDeepest(os, f) && os[f] == Pick(os);
    var other := if os[i].value.price != os[f].value.price then i else j;
    ws := Swapped(vps, f, other);
    SwappedOffers(vps, prices, t, f, other);
    SwappedPick(os, f, other);
    RoundAt(vps, prices, t);
    RoundAt(ws, prices, t);
  }

  lemma FirstConflict(vps: seq<Venue>, anchors: Prices, k: nat) returns (r: nat)
    requires !NeverConflicts(vps, anchors, k)
    ensures r < k && NeverConflicts(vps, anchors, r) && !NoConflict(vps, Rounds(vps, anchors, r))
  {
    hide NoConflict, Rounds;
    r := 0;
    while r < k && NoConflict(vps, Rounds(vps, anchors, r))
      invariant r <= k && NeverConflicts(vps, anchors, r)
    {
      r := r + 1;
    }
  }

  /** The result is the same for every order of the pools exactly when no round sees two pools tie
      for a token's deepest offer at different prices.  The order is otherwise visible: the caller
      hands the pools over in map order. */
  lemma OrderIndependence(vps: seq<Venue>, anchors: Prices, k: nat)
    requires Positive(anchors)
    ensures NeverConflicts(vps, anchors, k)
       <==> forall ws | multiset(ws) == multiset(vps) :: Rounds(ws, anchors, k) == Rounds(vps, anchors, k)
  {
    hide Round, NoConflict;
    if NeverConflicts(vps, anchors, k) {
      forall ws | multiset(ws) == multiset(vps) ensures Rounds(ws, anchors, k) == Rounds(vps, anchors, k) {
        PermutedRounds(vps, ws, anchors, k);
      }
    } else {
      var r := FirstConflict(vps, anchors, k);
      RoundsPositive(vps, anchors, r);
      var ws, t := ConflictShows(vps, Rounds(vps, anchors, r));
      PermutedRounds(vps, ws, anchors, r);
      PriceNeverChanges(vps, anchors, r + 1, k, t);
      PriceNeverChanges(ws, anchors, r + 1, k, t);
      assert Rounds(ws, anchors, k) != Rounds(vps, anchors, k);
    }
  }

  /** Such ties exist: two equally deep pools, one saying 2 dollars and the other 5. */
  lemma TieExample()
    ensures var a, b := Venue("usd", "x", 10.0, 5.0), Venue("usd", "x", 10.0, 2.0);
            var anchors: Prices := map["usd" := 1.0];
            && "x" in Rounds([a, b], anchors, 1) && Rounds([a, b], anchors, 1)["x"] == 2.0
            && "x" in Rounds([b, a], anchors, 1) && Rounds([b, a], anchors, 1)["x"] == 5.0
  {
    hide Round, Offers, Offer, Pick, FirstDeepest, Deepest;
    var a, b := Venue("usd", "x", 10.0, 5.0), Venue("usd", "x", 10.0, 2.0);
    var anchors: Prices := map["usd" := 1.0];
    assert Rounds([a, b], anchors, 0) == anchors == Rounds([b, a], anchors, 0);
    RoundAt([a, b], anchors, "x");
    RoundAt([b, a], anchors, "x");
    TieOffers(a, b, anchors);
    TieOffers(b, a, anchors);
  }

  lemma TieOffers(a: Venue, b: Venue, anchors: Prices)
    requires anchors == map["usd" := 1.0] && a.t0 == b.t0 == "usd" && a.t1 == b.t1 == "x"
    requires a.bal0 == b.bal0 == 10.0 && a.bal1 > 0.0 && b.bal1 > 0.0
    ensures Pick(Offers([a, b], anchors, "x")) == Some(Quote(10.0 / a.bal1, 10.0))
  {
    hide Pick;
    assert Offer(a, anchors, "x") == Some(Quote(10.0 / a.bal1, 10.0));
    assert Offer(b, anchors, "x") == Some(Quote(10.0 / b.bal1, 10.0));
    var os := Offers([a, b], anchors, "x");
    assert os == [Offer(a, anchors, "x"), Offer(b, anchors, "x")];
    var i := PickIndex(os);
    assert os[0].Some?;
  }
}
