/** Searching the book for routes (engine/quote.go:184-202, 471-533). */
module Routing {
  import opened Wrappers
  import opened Text
  import opened Sorting

  type Token = string

  /** A venue of the book, as the search sees it. */
  datatype Pool = Pool(addr: string, t0: Token, t1: Token, fee: int)
  {
    /** What a token trades for here, if it is one of the two. */
    function Other(token: Token): Option<Token> {
      if token == t0 then Some(t1) else if token == t1 then Some(t0) else None
    }

    predicate Joins(a: Token, b: Token) {
      (t0 == a && t1 == b) || (t0 == b && t1 == a)
    }
  }

  /** One pool crossed, and the direction. */
  datatype Hop = Hop(pool: Pool, tin: Token, tout: Token)

  type Route = seq<Hop>

  const MAX_ROUTES: nat := 24

  /** A two-hop candidate: the token between its pools, and how many pools hold that token. */
  datatype Mid = Mid(token: Token, first: Pool, last: Pool, deg: nat)

  // ----- what the loops compute -----

  function Direct(pools: seq<Pool>, tin: Token, tout: Token): seq<Route> {
    if pools == [] then []
    else
      var p := pools[|pools| - 1];
      Direct(pools[..|pools| - 1], tin, tout) + if p.Joins(tin, tout) then [[Hop(p, tin, tout)]] else []
  }

  /** `byToken[t]`: the pools holding t, the direct ones left out. */
  function Holding(pools: seq<Pool>, tin: Token, tout: Token, t: Token): seq<Pool> {
    if pools == [] then []
    else
      var before, p := Holding(pools[..|pools| - 1], tin, tout, t), pools[|pools| - 1];
      if p.Joins(tin, tout) then before
      else before + (if p.t0 == t then [p] else []) + if p.t1 == t then [p] else []
  }

  predicate Closes(first: Pool, m: Token, last: Pool, tout: Token) {
    last != first && last.Other(m) == Some(tout)
  }

  function MidsOf(first: Pool, m: Token, lasts: seq<Pool>, tout: Token, deg: nat): seq<Mid> {
    if lasts == [] then []
    else
      var last := lasts[|lasts| - 1];
      MidsOf(first, m, lasts[..|lasts| - 1], tout, deg)
      + if Closes(first, m, last, tout) then [Mid(m, first, last, deg)] else []
  }

  function MidsFrom(first: Pool, pools: seq<Pool>, tin: Token, tout: Token): seq<Mid> {
    match first.Other(tin)
    case None => []
    case Some(m) =>
      if m == tout || m == tin then []
      else MidsOf(first, m, Holding(pools, tin, tout, m), tout, |Holding(pools, tin, tout, m)|)
  }

  function Mids(firsts: seq<Pool>, pools: seq<Pool>, tin: Token, tout: Token): seq<Mid> {
    if firsts == [] then []
    else Mids(firsts[..|firsts| - 1], pools, tin, tout) + MidsFrom(firsts[|firsts| - 1], pools, tin, tout)
  }

  /** Busier middles first, then by the first pool's address. */
  function Ranks(): (Mid, Mid) -> bool {
    (a: Mid, b: Mid) => if a.deg != b.deg then a.deg > b.deg else CompareText(a.first.addr, b.first.addr) < 0
  }

  function ViaMid(m: Mid, tin: Token, tout: Token): Route {
    [Hop(m.first, tin, m.token), Hop(m.last, m.token, tout)]
  }

  function Via(mids: seq<Mid>, tin: Token, tout: Token): seq<Route> {
    seq(|mids|, i requires 0 <= i < |mids| => ViaMid(mids[i], tin, tout))
  }

  function RankedMids(pools: seq<Pool>, tin: Token, tout: Token): seq<Mid> {
    StableSort(Mids(Holding(pools, tin, tout, tin), pools, tin, tout), Ranks())
  }

  /** Every route, before the cut. */
  function AllRoutes(pools: seq<Pool>, tin: Token, tout: Token): seq<Route> {
    Direct(pools, tin, tout) + Via(RankedMids(pools, tin, tout), tin, tout)
  }

  // ----- the loops -----

  method Routes(pools: seq<Pool>, tin: Token, tout: Token) returns (all: seq<Route>)
    ensures var every := AllRoutes(pools, tin, tout);
            all == if |every| > MAX_ROUTES then every[..MAX_ROUTES] else every
  {
    hide Ranks, StableSort, MidsFrom, Holding, Direct, Via;
    var direct, byToken := SortOut(pools, tin, tout);
    var mids := [];
    var firsts := Under(byToken, tin);
    for i := 0 to |firsts|
      invariant mids == Mids(firsts[..i], pools, tin, tout)
    {
      assert firsts[..i + 1][..i] == firsts[..i];
      var more := MidsLoop(firsts[i], byToken, pools, tin, tout);
      mids := mids + more;
    }
    assert firsts[..|firsts|] == firsts;
    var sorted := StableSort(mids, Ranks());
    var every := direct + Via(sorted, tin, tout);
    all := if |every| > MAX_ROUTES then every[..MAX_ROUTES] else every;
  }

  /** The first loop: direct pools aside, each pool goes under both its tokens. */
  method SortOut(pools: seq<Pool>, tin: Token, tout: Token) returns (direct: seq<Route>, byToken: map<Token, seq<Pool>>)
    ensures direct == Direct(pools, tin, tout)
    ensures forall t :: Under(byToken, t) == Holding(pools, tin, tout, t)
  {
    hide Pool.Joins, Holding, Under;
    direct, byToken := [], map[];
    NothingHeld(pools, tin, tout);
    for i := 0 to |pools|
      invariant direct == Direct(pools[..i], tin, tout)
      invariant forall t :: Under(byToken, t) == Holding(pools[..i], tin, tout, t)
    {
      var p := pools[i];
      assert pools[..i + 1][..i] == pools[..i];
      HoldingStep(pools, i, tin, tout);
      if p.Joins(tin, tout) {
        direct := direct + [[Hop(p, tin, tout)]];
        continue;
      }
      FiledUnder(byToken, p);
      byToken := byToken[p.t0 := Under(byToken, p.t0) + [p]];
      byToken := byToken[p.t1 := Under(byToken, p.t1) + [p]];
    }
    assert pools[..|pools|] == pools;
  }

  lemma NothingHeld(pools: seq<Pool>, tin: Token, tout: Token)
    ensures forall t :: Under(map[], t) == Holding(pools[..0], tin, tout, t)
  {}

  lemma HoldingStep(pools: seq<Pool>, i: nat, tin: Token, tout: Token)
    requires i < |pools|
    ensures forall t :: Holding(pools[..i + 1], tin, tout, t)
                     == if pools[i].Joins(tin, tout) then Holding(pools[..i], tin, tout, t)
                        else Holding(pools[..i], tin, tout, t) + Sides(pools[i], t)
  {
    hide Pool.Joins;
    assert pools[..i + 1][..i] == pools[..i];
    forall t ensures Holding(pools[..i + 1], tin, tout, t)
                  == if pools[i].Joins(tin, tout) then Holding(pools[..i], tin, tout, t)
                     else Holding(pools[..i], tin, tout, t) + Sides(pools[i], t)
    {
      var before := Holding(pools[..i], tin, tout, t);
      assert before + (if pools[i].t0 == t then [pools[i]] else []) + (if pools[i].t1 == t then [pools[i]] else [])
          == before + Sides(pools[i], t);
    }
  }

  /** How often a pool is filed under a token. */
  function Sides(p: Pool, t: Token): seq<Pool> {
    (if p.t0 == t then [p] else []) + if p.t1 == t then [p] else []
  }

  lemma FiledUnder(byToken: map<Token, seq<Pool>>, p: Pool)
    ensures var once := byToken[p.t0 := Under(byToken, p.t0) + [p]];
            var twice := once[p.t1 := Under(once, p.t1) + [p]];
            forall t :: Under(twice, t) == Under(byToken, t) + Sides(p, t)
  {
    var once := byToken[p.t0 := Under(byToken, p.t0) + [p]];
    var twice := once[p.t1 := Under(once, p.t1) + [p]];
    forall t ensures Under(twice, t) == Under(byToken, t) + Sides(p, t) {
      assert Under(byToken, t) + [] == Under(byToken, t);
    }
  }

  function Under(byToken: map<Token, seq<Pool>>, t: Token): seq<Pool> {
    if t in byToken then byToken[t] else []
  }

  /** The inner loop: the pools that take one first pool's far side on to the token wanted. */
  method MidsLoop(first: Pool, byToken: map<Token, seq<Pool>>, pools: seq<Pool>, tin: Token, tout: Token)
    returns (mids: seq<Mid>)
    requires forall t :: Under(byToken, t) == Holding(pools, tin, tout, t)
    ensures mids == MidsFrom(first, pools, tin, tout)
  {
    hide Holding, Closes;
    mids := [];
    var m := first.Other(tin);
    if m.None? || m.value == tout || m.value == tin {
      return;
    }
    var lasts := Under(byToken, m.value);
    for i := 0 to |lasts|
      invariant mids == MidsOf(first, m.value, lasts[..i], tout, |lasts|)
    {
      assert lasts[..i + 1][..i] == lasts[..i];
      if Closes(first, m.value, lasts[i], tout) {
        mids := mids + [Mid(m.value, first, lasts[i], |lasts|)];
      }
    }
    assert lasts[..|lasts|] == lasts;
  }

  // ----- what a route is -----

  /** The book as `book` hands it over: distinct addresses, and two different sides to every pool. */
  ghost predicate IsBook(pools: seq<Pool>) {
    && (forall i, j | 0 <= i < j < |pools| :: pools[i].addr != pools[j].addr)
    && (forall p | p in pools :: p.t0 != p.t1)
  }

  /** The pool's two tokens are these, either way round. */
  predicate Between(p: Pool, a: Token, b: Token) {
    (p.t0 == a && p.t1 == b) || (p.t0 == b && p.t1 == a)
  }

  ghost predicate IsDirect(r: Route, pools: seq<Pool>, tin: Token, tout: Token) {
    |r| == 1 && r[0].pool in pools && r[0].tin == tin && r[0].tout == tout && Between(r[0].pool, tin, tout)
  }

  /** Two different pools of the book that meet at a third token. */
  ghost predicate IsTwoHop(r: Route, pools: seq<Pool>, tin: Token, tout: Token) {
    && |r| == 2 && r[0].pool in pools && r[1].pool in pools && r[0].pool != r[1].pool
    && r[0].tin == tin && r[0].tout == r[1].tin && r[1].tout == tout
    && r[0].tout != tin && r[0].tout != tout
    && Between(r[0].pool, tin, r[0].tout) && Between(r[1].pool, r[0].tout, tout)
  }

  lemma {:induction false} DirectMeaning(pools: seq<Pool>, tin: Token, tout: Token)
    requires IsBook(pools)
    ensures forall r :: r in Direct(pools, tin, tout) <==> IsDirect(r, pools, tin, tout)
    ensures NoDup(Direct(pools, tin, tout))
  {
    if pools != [] {
      var n := |pools| - 1;
      var before, p := pools[..n], pools[n];
      DirectMeaning(before, tin, tout);
      assert p.Joins(tin, tout) <==> Between(p, tin, tout);
      assert pools == before + [p];
      forall r: Route ensures r in Direct(pools, tin, tout) <==> IsDirect(r, pools, tin, tout) {
        if |r| == 1 && r[0].pool == p && r[0].tin == tin && r[0].tout == tout {
          assert r == [Hop(p, tin, tout)];
        }
      }
      assert [Hop(p, tin, tout)] !in Direct(before, tin, tout);
    }
  }

  lemma {:induction false} HoldingMeaning(pools: seq<Pool>, tin: Token, tout: Token, t: Token)
    requires IsBook(pools)
    ensures forall p :: p in Holding(pools, tin, tout, t) <==> p in pools && !p.Joins(tin, tout) && (p.t0 == t || p.t1 == t)
    ensures NoDup(Holding(pools, tin, tout, t))
  {
    hide Pool.Joins;
    if pools != [] {
      var n := |pools| - 1;
      HoldingMeaning(pools[..n], tin, tout, t);
      assert pools == pools[..n] + [pools[n]];
      assert pools[n] !in pools[..n];
      assert pools[n] !in Holding(pools[..n], tin, tout, t);
    }
  }

  lemma {:induction false} MidsOfMeaning(first: Pool, m: Token, lasts: seq<Pool>, tout: Token, deg: nat)
    requires NoDup(lasts)
    ensures forall x :: x in MidsOf(first, m, lasts, tout, deg)
                   <==> x == Mid(m, first, x.last, deg) && x.last in lasts && Closes(first, m, x.last, tout)
    ensures NoDup(MidsOf(first, m, lasts, tout, deg))
  {
    hide Closes;
    if lasts != [] {
      var n := |lasts| - 1;
      MidsOfMeaning(first, m, lasts[..n], tout, deg);
      assert lasts == lasts[..n] + [lasts[n]];
      assert lasts[n] !in lasts[..n];
    }
  }

  /** What makes a middle: its first pool leads from the token paid to it, its last to the token wanted. */
  ghost predicate IsMid(x: Mid, pools: seq<Pool>, tin: Token, tout: Token) {
    && x.first.Other(tin) == Some(x.token) && x.token != tout && x.token != tin
    && x.last in Holding(pools, tin, tout, x.token) && x.deg == |Holding(pools, tin, tout, x.token)|
    && Closes(x.first, x.token, x.last, tout)
  }

  lemma MidsFromMeaning(first: Pool, pools: seq<Pool>, tin: Token, tout: Token)
    requires IsBook(pools)
    ensures forall x :: x in MidsFrom(first, pools, tin, tout) <==> x.first == first && IsMid(x, pools, tin, tout)
    ensures NoDup(MidsFrom(first, pools, tin, tout))
  {
    hide Closes, Holding, MidsOf;
    if first.Other(tin).Some? {
      var m := first.Other(tin).value;
      HoldingMeaning(pools, tin, tout, m);
      MidsOfMeaning(first, m, Holding(pools, tin, tout, m), tout, |Holding(pools, tin, tout, m)|);
    }
  }

  lemma {:induction false} MidsMeaning(firsts: seq<Pool>, pools: seq<Pool>, tin: Token, tout: Token)
    requires IsBook(pools) && NoDup(firsts)
    ensures forall x :: x in Mids(firsts, pools, tin, tout) <==> x.first in firsts && IsMid(x, pools, tin, tout)
    ensures NoDup(Mids(firsts, pools, tin, tout))
  {
    hide IsMid, MidsFrom, IsBook;
    if firsts != [] {
      var n := |firsts| - 1;
      MidsMeaning(firsts[..n], pools, tin, tout);
      MidsFromMeaning(firsts[n], pools, tin, tout);
      assert firsts == firsts[..n] + [firsts[n]];
      assert firsts[n] !in firsts[..n];
      ConcatNoDup(Mids(firsts[..n], pools, tin, tout), MidsFrom(firsts[n], pools, tin, tout));
    }
  }

  lemma ConcatNoDup<T>(a: seq<T>, b: seq<T>)
    requires NoDup(a) && NoDup(b) && forall x | x in a :: x !in b
    ensures NoDup(a + b)
  {
    forall i, j | 0 <= i < j < |a + b| ensures (a + b)[i] != (a + b)[j] {
      if i < |a| <= j {
        assert a[i] in a;
      }
    }
  }

  lemma RanksIsOrder()
    ensures IsOrder(Ranks())
  {
    forall x, y | Ranks()(x, y) ensures !Ranks()(y, x) {
      CompareFlips(x.first.addr, y.first.addr);
    }
    forall x, y, z | !Ranks()(y, x) && !Ranks()(z, y) ensures !Ranks()(z, x) {
      CompareFlips(x.first.addr, y.first.addr);
      CompareFlips(y.first.addr, z.first.addr);
      CompareFlips(x.first.addr, z.first.addr);
      if x.deg == y.deg == z.deg {
        CompareChains(x.first.addr, y.first.addr, z.first.addr);
      }
    }
  }

  lemma RankedMeaning(pools: seq<Pool>, tin: Token, tout: Token)
    requires IsBook(pools)
    ensures var mids := RankedMids(pools, tin, tout);
            && NoDup(mids) && Sorted(mids, Ranks())
            && forall x :: x in mids <==> x.first in Holding(pools, tin, tout, tin) && IsMid(x, pools, tin, tout)
  {
    hide IsMid, Holding, Mids, Ranks, StableSort, IsOrder;
    var firsts := Holding(pools, tin, tout, tin);
    HoldingMeaning(pools, tin, tout, tin);
    MidsMeaning(firsts, pools, tin, tout);
    var mids := Mids(firsts, pools, tin, tout);
    RanksIsOrder();
    StableSortSorts(mids, Ranks());
    PermutedNoDup(mids, RankedMids(pools, tin, tout));
    forall x ensures x in mids <==> x in RankedMids(pools, tin, tout) {
      assert x in Elements(mids) <==> x in Elements(RankedMids(pools, tin, tout));
    }
  }

  /** A middle between two pools of the book is a two-hop route, and the other way round. */
  lemma MidIsTwoHop(x: Mid, pools: seq<Pool>, tin: Token, tout: Token)
    requires IsBook(pools) && tin != tout
    ensures x.first in Holding(pools, tin, tout, tin) && IsMid(x, pools, tin, tout)
       <==> IsTwoHop(ViaMid(x, tin, tout), pools, tin, tout) && x.deg == |Holding(pools, tin, tout, x.token)|
  {
    HoldingMeaning(pools, tin, tout, tin);
    HoldingMeaning(pools, tin, tout, x.token);
    hide Holding;
  }

  /** Before the cut, the list holds every direct pool and every ordered pair of pools meeting at a
      middle token, each exactly once, and nothing else. */
  lemma AllRoutesExact(pools: seq<Pool>, tin: Token, tout: Token)
    requires IsBook(pools) && tin != tout
    ensures NoDup(AllRoutes(pools, tin, tout))
    ensures forall r :: r in AllRoutes(pools, tin, tout)
                   <==> IsDirect(r, pools, tin, tout) || IsTwoHop(r, pools, tin, tout)
  {
    hide IsMid, Holding, RankedMids, Direct, IsTwoHop, Pool.Joins;
    var direct, mids := Direct(pools, tin, tout), RankedMids(pools, tin, tout);
    var via := Via(mids, tin, tout);
    DirectMeaning(pools, tin, tout);
    RankedMeaning(pools, tin, tout);
    forall r ensures r in via <==> IsTwoHop(r, pools, tin, tout) {
      ViaExact(r, pools, tin, tout);
    }
    SameDegrees(pools, tin, tout);
    ViaNoDup(mids, tin, tout);
    ConcatNoDup(direct, via);
  }

  lemma SameDegrees(pools: seq<Pool>, tin: Token, tout: Token)
    requires IsBook(pools)
    ensures forall x, y | x in RankedMids(pools, tin, tout) && y in RankedMids(pools, tin, tout) && x.token == y.token ::
              x.deg == y.deg
  {
    hide Holding, RankedMids, Closes;
    RankedMeaning(pools, tin, tout);
  }

  lemma ViaNoDup(mids: seq<Mid>, tin: Token, tout: Token)
    requires NoDup(mids)
    requires forall x, y | x in mids && y in mids && x.token == y.token :: x.deg == y.deg
    ensures NoDup(Via(mids, tin, tout))
    ensures forall r | r in Via(mids, tin, tout) :: |r| == 2
  {
    forall i, j | 0 <= i < j < |mids| ensures Via(mids, tin, tout)[i] != Via(mids, tin, tout)[j] {
      if ViaMid(mids[i], tin, tout) == ViaMid(mids[j], tin, tout) {
        assert ViaMid(mids[i], tin, tout)[0] == ViaMid(mids[j], tin, tout)[0];
        assert ViaMid(mids[i], tin, tout)[1] == ViaMid(mids[j], tin, tout)[1];
        assert mids[i] in mids && mids[j] in mids;
      }
    }
  }

  lemma ViaExact(r: Route, pools: seq<Pool>, tin: Token, tout: Token)
    requires IsBook(pools) && tin != tout
    ensures r in Via(RankedMids(pools, tin, tout), tin, tout) <==> IsTwoHop(r, pools, tin, tout)
  {
    hide Holding, RankedMids, Closes, Pool.Joins;
    var mids := RankedMids(pools, tin, tout);
    RankedMeaning(pools, tin, tout);
    if i :| 0 <= i < |mids| && Via(mids, tin, tout)[i] == r {
      assert mids[i] in mids;
      MidIsTwoHop(mids[i], pools, tin, tout);
    }
    if IsTwoHop(r, pools, tin, tout) {
      var x := Mid(r[0].tout, r[0].pool, r[1].pool, |Holding(pools, tin, tout, r[0].tout)|);
      assert ViaMid(x, tin, tout) == r;
      MidIsTwoHop(x, pools, tin, tout);
      assert x in mids;
      var i :| 0 <= i < |mids| && mids[i] == x;
      assert Via(mids, tin, tout)[i] == r;
    }
  }

  /** What the search returns: at most 24 routes, each real and none twice; the direct ones first;
      all of them when there are no more than 24; and when some are cut, no two-hop route that was
      cut ranks before one that was kept. */
  lemma RoutesExact(pools: seq<Pool>, tin: Token, tout: Token, all: seq<Route>)
    requires IsBook(pools) && tin != tout
    requires var every := AllRoutes(pools, tin, tout); all == if |every| > MAX_ROUTES then every[..MAX_ROUTES] else every
    ensures |all| <= 24 && NoDup(all)
    ensures forall r | r in all :: IsDirect(r, pools, tin, tout) || IsTwoHop(r, pools, tin, tout)
    ensures forall i, j | 0 <= i < j < |all| :: |all[j]| == 1 ==> |all[i]| == 1
    ensures |AllRoutes(pools, tin, tout)| <= 24 ==>
              forall r | IsDirect(r, pools, tin, tout) || IsTwoHop(r, pools, tin, tout) :: r in all
  {
    hide IsDirect, IsTwoHop, Direct, RankedMids;
    AllRoutesExact(pools, tin, tout);
    var every := AllRoutes(pools, tin, tout);
    assert forall r | r in all :: r in every;
    DirectIsShort(pools, tin, tout);
  }

  lemma DirectIsShort(pools: seq<Pool>, tin: Token, tout: Token)
    requires IsBook(pools)
    ensures forall i | 0 <= i < |Direct(pools, tin, tout)| :: |Direct(pools, tin, tout)[i]| == 1
    ensures forall i | 0 <= i < |Via(RankedMids(pools, tin, tout), tin, tout)| ::
              |Via(RankedMids(pools, tin, tout), tin, tout)[i]| == 2
  {
    hide Direct, RankedMids;
    DirectMeaning(pools, tin, tout);
    forall i | 0 <= i < |Direct(pools, tin, tout)| ensures |Direct(pools, tin, tout)[i]| == 1 {
      assert Direct(pools, tin, tout)[i] in Direct(pools, tin, tout);
    }
  }

  /** The pools of the book that hold a token, the direct ones aside. */
  function Holders(pools: seq<Pool>, tin: Token, tout: Token, t: Token): set<Pool> {
    set p | p in pools && !Between(p, tin, tout) && (p.t0 == t || p.t1 == t)
  }

  lemma HoldersAre(pools: seq<Pool>, tin: Token, tout: Token, t: Token)
    requires IsBook(pools)
    ensures |Holding(pools, tin, tout, t)| == |Holders(pools, tin, tout, t)|
  {
    HoldingMeaning(pools, tin, tout, t);
    hide IsBook, Holding;
    NoDupSize(Holding(pools, tin, tout, t));
    assert Elements(Holding(pools, tin, tout, t)) == Holders(pools, tin, tout, t);
  }

  /** A route that was cut never ranks before one that was kept: what counts is how many pools hold
      the middle token, then the first pool's address. */
  lemma CutKeepsTheBest(pools: seq<Pool>, tin: Token, tout: Token, kept: nat, cut: nat)
    requires IsBook(pools) && kept < cut < |RankedMids(pools, tin, tout)|
    ensures var mids := RankedMids(pools, tin, tout);
            && mids[kept].deg >= mids[cut].deg
            && (mids[kept].deg == mids[cut].deg ==> CompareText(mids[kept].first.addr, mids[cut].first.addr) <= 0)
            && mids[kept].deg == |Holders(pools, tin, tout, mids[kept].token)|
            && mids[cut].deg == |Holders(pools, tin, tout, mids[cut].token)|
  {
    hide RankedMids, CompareText, IsBook;
    RankedMeaning(pools, tin, tout);
    var mids := RankedMids(pools, tin, tout);
    HoldersAre(pools, tin, tout, mids[kept].token);
    HoldersAre(pools, tin, tout, mids[cut].token);
    assert !Ranks()(mids[cut], mids[kept]);
    CompareFlips(mids[kept].first.addr, mids[cut].first.addr);
  }
}
