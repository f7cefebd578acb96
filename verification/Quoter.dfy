/** Pricing the candidate routes and picking one (engine/quote.go:204-251, 397-448, 535-732).

    The node is a deterministic oracle within one request: a pair's reserves, a concentrated pool's
    own quote (any function), which of the two a pool is, and whether each batch comes back at all.
    Gas and price impact are left out. */
module Quoter {
  import opened Wrappers
  import opened ConstantProduct
  import opened Sorting
  import opened Routing

  datatype Node = Node(pair: Pool -> bool, reserves: Pool -> Option<(nat, nat)>,
                       hasQuoter: bool, quoter: (Hop, int, bool) -> Option<int>)

  /** One leg: a hop with whichever amounts are known so far. */
  datatype LegState = LegState(hop: Hop, amtIn: Option<int>, amtOut: Option<int>)
  {
    predicate Done() { amtIn.Some? && amtOut.Some? }

    predicate Ready(exactIn: bool) {
      !Done() && if exactIn then amtIn.Some? else amtOut.Some?
    }

    predicate Priced() { Done() && amtIn.value > 0 && amtOut.value > 0 }
  }

  /** The two reserves as the hop crosses them. */
  function Facing(h: Hop, r: (nat, nat)): (nat, nat) {
    if h.tin == h.pool.t1 then (r.1, r.0) else r
  }

  /** What a leg's pool answers to the amount it is asked about. */
  function Ask(n: Node, h: Hop, amount: int, exactIn: bool): Option<int> {
    if n.pair(h.pool) then
      match n.reserves(h.pool)
      case None => None
      case Some(r) =>
        var (rIn, rOut) := Facing(h, r);
        if exactIn then AmountOut(Some(amount), rIn, rOut, h.pool.fee) else AmountIn(Some(amount), rIn, rOut, h.pool.fee)
    else if n.hasQuoter then n.quoter(h, amount, exactIn)
    else None
  }

  function Absorbed(n: Node, l: LegState, exactIn: bool): LegState {
    if !l.Ready(exactIn) then l
    else if exactIn then l.(amtOut := Ask(n, l.hop, l.amtIn.value, true))
    else l.(amtIn := Ask(n, l.hop, l.amtOut.value, false))
  }

  function OrElse(a: Option<int>, b: Option<int>): Option<int> {
    if a.Some? then a else b
  }

  function FedLeg(ls: seq<LegState>, i: nat, exactIn: bool): LegState
    requires i < |ls|
  {
    if exactIn && i > 0 then ls[i].(amtIn := OrElse(ls[i].amtIn, ls[i - 1].amtOut))
    else if !exactIn && i + 1 < |ls| then ls[i].(amtOut := OrElse(ls[i].amtOut, ls[i + 1].amtIn))
    else ls[i]
  }

  /** Each answer carried to the leg it feeds. */
  function Fed(ls: seq<LegState>, exactIn: bool): seq<LegState> {
    seq(|ls|, i requires 0 <= i < |ls| => FedLeg(ls, i, exactIn))
  }

  function AbsorbedAll(n: Node, ls: seq<LegState>, exactIn: bool): seq<LegState> {
    seq(|ls|, i requires 0 <= i < |ls| => Absorbed(n, ls[i], exactIn))
  }

  /** What one pass does to one route. */
  function Pass(n: Node, ls: seq<LegState>, exactIn: bool): seq<LegState> {
    Fed(AbsorbedAll(n, ls, exactIn), exactIn)
  }

  function Passes(n: Node, ls: seq<LegState>, exactIn: bool, k: nat): seq<LegState> {
    if k == 0 then ls else Pass(n, Passes(n, ls, exactIn, k - 1), exactIn)
  }

  /** A route with the caller's amount on the leg it fixes: the first leg's input or the last leg's
      output. */
  function Seeded(r: Route, amount: int, exactIn: bool): seq<LegState> {
    seq(|r|, i requires 0 <= i < |r| =>
      LegState(r[i], if exactIn && i == 0 then Some(amount) else None,
               if !exactIn && i == |r| - 1 then Some(amount) else None))
  }

  // ----- the flow of amounts -----

  /** The j-th hop in the direction amounts flow: forward for an exact input, backward for an exact
      output. */
  function Along(r: Route, j: nat, exactIn: bool): Hop
    requires j < |r|
  {
    if exactIn then r[j] else r[|r| - 1 - j]
  }

  /** The amount known where j hops have answered in turn. */
  function Flow(n: Node, r: Route, amount: int, exactIn: bool, j: nat): Option<int>
    requires j <= |r|
  {
    if j == 0 then Some(amount)
    else match Flow(n, r, amount, exactIn, j - 1)
      case None => None
      case Some(x) => Ask(n, Along(r, j - 1, exactIn), x, exactIn)
  }

  /** Leg i after k passes: its known side once k hops before it have answered, its other side one
      pass later. */
  function LegAfter(n: Node, r: Route, amount: int, exactIn: bool, k: nat, i: nat): LegState
    requires i < |r|
  {
    var j := if exactIn then i else |r| - 1 - i;
    var given := if j <= k then Flow(n, r, amount, exactIn, j) else None;
    var asked := if j < k then Flow(n, r, amount, exactIn, j + 1) else None;
    LegState(r[i], if exactIn then given else asked, if exactIn then asked else given)
  }

  function RouteAfter(n: Node, r: Route, amount: int, exactIn: bool, k: nat): seq<LegState> {
    seq(|r|, i requires 0 <= i < |r| => LegAfter(n, r, amount, exactIn, k, i))
  }

  lemma PassAdvancesLeg(n: Node, r: Route, amount: int, exactIn: bool, k: nat, i: nat)
    requires i < |r|
    ensures FedLeg(AbsorbedAll(n, RouteAfter(n, r, amount, exactIn, k), exactIn), i, exactIn)
         == LegAfter(n, r, amount, exactIn, k + 1, i)
  {
    hide Ask;
    var ls := RouteAfter(n, r, amount, exactIn, k);
    var ab := AbsorbedAll(n, ls, exactIn);
    assert ab[i] == Absorbed(n, LegAfter(n, r, amount, exactIn, k, i), exactIn);
    if exactIn && i > 0 {
      assert ab[i - 1] == Absorbed(n, LegAfter(n, r, amount, exactIn, k, i - 1), exactIn);
    }
    if !exactIn && i + 1 < |r| {
      assert ab[i + 1] == Absorbed(n, LegAfter(n, r, amount, exactIn, k, i + 1), exactIn);
    }
  }

  /** After k passes the first k hops along the flow have answered, each fed by the one before. */
  lemma {:induction false} PassesFollowFlow(n: Node, r: Route, amount: int, exactIn: bool, k: nat)
    ensures Passes(n, Seeded(r, amount, exactIn), exactIn, k) == RouteAfter(n, r, amount, exactIn, k)
  {
    if k == 0 {
      assert Seeded(r, amount, exactIn) == RouteAfter(n, r, amount, exactIn, 0);
    } else {
      hide LegAfter, Absorbed;
      PassesFollowFlow(n, r, amount, exactIn, k - 1);
      var before := RouteAfter(n, r, amount, exactIn, k - 1);
      forall i | 0 <= i < |r|
        ensures Pass(n, before, exactIn)[i] == RouteAfter(n, r, amount, exactIn, k)[i]
      {
        PassAdvancesLeg(n, r, amount, exactIn, k - 1, i);
      }
    }
  }

  /** A route's legs once every hop has been asked: leg i's output is leg i+1's input throughout. */
  function Quoted(n: Node, r: Route, amount: int, exactIn: bool): seq<LegState> {
    RouteAfter(n, r, amount, exactIn, |r|)
  }

  /** As many passes as legs are enough, and more change nothing: for the one- and two-hop routes the
      search finds, two. */
  lemma PassesSuffice(n: Node, r: Route, amount: int, exactIn: bool, k: nat)
    requires |r| <= k
    ensures Passes(n, Seeded(r, amount, exactIn), exactIn, k) == Quoted(n, r, amount, exactIn)
  {
    PassesFollowFlow(n, r, amount, exactIn, k);
    forall i | 0 <= i < |r| ensures LegAfter(n, r, amount, exactIn, k, i) == LegAfter(n, r, amount, exactIn, |r|, i) {
    }
  }

  lemma QuotedLinks(n: Node, r: Route, amount: int, exactIn: bool, i: nat)
    requires i + 1 < |r|
    ensures Quoted(n, r, amount, exactIn)[i].amtOut == Quoted(n, r, amount, exactIn)[i + 1].amtIn
    ensures Quoted(n, r, amount, exactIn)[i].hop == r[i]
  {}

  predicate RoutePriced(ls: seq<LegState>) {
    forall i | 0 <= i < |ls| :: ls[i].Priced()
  }

  function RouteIn(ls: seq<LegState>): int
    requires ls != [] && RoutePriced(ls)
  {
    ls[0].amtIn.value
  }

  function RouteOut(ls: seq<LegState>): int
    requires ls != [] && RoutePriced(ls)
  {
    ls[|ls| - 1].amtOut.value
  }

  predicate Good(x: Option<int>) { x.Some? && x.value > 0 }

  lemma FlowStart(n: Node, r: Route, amount: int, exactIn: bool)
    ensures Flow(n, r, amount, exactIn, 0) == Some(amount)
  {}

  lemma PricedLeg(n: Node, r: Route, amount: int, exactIn: bool, i: nat)
    requires i < |r|
    ensures var j := if exactIn then i else |r| - 1 - i;
            Quoted(n, r, amount, exactIn)[i].Priced()
            == (Good(Flow(n, r, amount, exactIn, j)) && Good(Flow(n, r, amount, exactIn, j + 1)))
  {
    hide Flow;
  }

  /** Every hop in turn answers with a positive amount. */
  predicate FlowsThrough(n: Node, r: Route, amount: int, exactIn: bool) {
    forall j | 0 <= j <= |r| :: Good(Flow(n, r, amount, exactIn, j))
  }

  lemma Silenced(n: Node, r: Route, amount: int, exactIn: bool, j: nat)
    requires j <= |r| && !Good(Flow(n, r, amount, exactIn, j))
    ensures !FlowsThrough(n, r, amount, exactIn)
  {}

  /** A route is priced exactly when every hop in turn answers with a positive amount. */
  lemma PricedIff(n: Node, r: Route, amount: int, exactIn: bool)
    requires amount > 0 && r != []
    ensures RoutePriced(Quoted(n, r, amount, exactIn)) <==> FlowsThrough(n, r, amount, exactIn)
  {
    hide Flow, LegState.Priced, Good;
    var ls := Quoted(n, r, amount, exactIn);
    forall i | 0 <= i < |r|
      ensures var j := if exactIn then i else |r| - 1 - i;
              ls[i].Priced() == (Good(Flow(n, r, amount, exactIn, j)) && Good(Flow(n, r, amount, exactIn, j + 1)))
    {
      PricedLeg(n, r, amount, exactIn, i);
    }
    if RoutePriced(ls) {
      forall j | 0 <= j <= |r| ensures Good(Flow(n, r, amount, exactIn, j)) {
        var i := if j == 0 then (if exactIn then 0 else |r| - 1) else if exactIn then j - 1 else |r| - j;
        assert ls[i].Priced();
      }
    } else {
      var i :| 0 <= i < |ls| && !ls[i].Priced();
      var j := if exactIn then i else |r| - 1 - i;
      var silent := if Good(Flow(n, r, amount, exactIn, j)) then j + 1 else j;
      Silenced(n, r, amount, exactIn, silent);
    }
  }

  // ----- replaying a quote -----

  /** The hop goes from one of its pool's two tokens to the other. */
  predicate Crosses(h: Hop) {
    h.tin != h.tout && {h.tin, h.tout} == {h.pool.t0, h.pool.t1}
  }

  /** What the pool reports it holds of one of its tokens. */
  function Reserve(p: Pool, r: (nat, nat), t: Token): nat {
    if t == p.t0 then r.0 else r.1
  }

  lemma FacingIs(h: Hop, r: (nat, nat))
    requires Crosses(h)
    ensures Facing(h, r) == (Reserve(h.pool, r, h.tin), Reserve(h.pool, r, h.tout))
  {
    assert h.tin in {h.pool.t0, h.pool.t1} && h.tout in {h.pool.t0, h.pool.t1};
    assert h.pool.t0 in {h.tin, h.tout} && h.pool.t1 in {h.tin, h.tout};
  }

  /** Every hop crosses a pair whose reserves were read. */
  predicate AllPairs(n: Node, r: Route) {
    forall i | 0 <= i < |r| :: Crosses(r[i]) && n.pair(r[i].pool) && n.reserves(r[i].pool).Some?
  }

  /** The input pushed forward through the pairs, leg by leg: in on the side of the token paid, out on
      the side of the token bought. */
  function Replay(n: Node, r: Route, x: int): Option<int>
    requires AllPairs(n, r)
  {
    if r == [] then Some(x)
    else
      var held := n.reserves(r[0].pool).value;
      var rIn, rOut := Reserve(r[0].pool, held, r[0].tin), Reserve(r[0].pool, held, r[0].tout);
      match AmountOut(Some(x), rIn, rOut, r[0].pool.fee)
      case None => None
      case Some(y) => Replay(n, r[1..], y)
  }

  /** A larger input replays to no less. */
  lemma {:induction false} ReplayMonotone(n: Node, r: Route, x: int, y: int)
    requires AllPairs(n, r) && x <= y && Replay(n, r, x).Some?
    ensures Replay(n, r, y).Some? && Replay(n, r, x).value <= Replay(n, r, y).value
  {
    if r != [] {
      var held := n.reserves(r[0].pool).value;
      var rIn, rOut := Reserve(r[0].pool, held, r[0].tin), Reserve(r[0].pool, held, r[0].tout);
      AmountOutAnswers(Some(x), rIn, rOut, r[0].pool.fee);
      AmountOutMonotone(x, y, rIn, rOut, r[0].pool.fee);
      hide AmountOut;
      var a, b := AmountOut(Some(x), rIn, rOut, r[0].pool.fee).value, AmountOut(Some(y), rIn, rOut, r[0].pool.fee).value;
      ReplayMonotone(n, r[1..], a, b);
    }
  }

  /** An exact-input quote replays to exactly the output it quoted. */
  lemma {:induction false} ExactInputReplays(n: Node, r: Route, amount: int, j: nat)
    requires AllPairs(n, r) && j <= |r| && Flow(n, r, amount, true, j).Some?
    ensures AllPairs(n, r[..j]) && Replay(n, r[..j], amount) == Flow(n, r, amount, true, j)
  {
    hide AmountOut, AmountIn, Facing, Reserve, Crosses;
    if j > 0 {
      FacingIs(r[j - 1], n.reserves(r[j - 1].pool).value);
      ExactInputReplays(n, r, amount, j - 1);
      ReplaySplit(n, r[..j], amount, j - 1);
      assert r[..j][..j - 1] == r[..j - 1] && r[..j][j - 1..] == [r[j - 1]];
      assert [r[j - 1]][1..] == [];
    }
  }

  lemma {:induction false} ReplaySplit(n: Node, r: Route, x: int, k: nat)
    requires AllPairs(n, r) && k <= |r|
    ensures AllPairs(n, r[..k]) && AllPairs(n, r[k..])
    ensures Replay(n, r, x) == match Replay(n, r[..k], x) case None => None case Some(y) => Replay(n, r[k..], y)
  {
    hide AmountOut, Reserve, Crosses;
    if k == 0 {
      assert r[..0] == [] && r[0..] == r;
    } else {
      var held := n.reserves(r[0].pool).value;
      var rIn, rOut := Reserve(r[0].pool, held, r[0].tin), Reserve(r[0].pool, held, r[0].tout);
      var y := AmountOut(Some(x), rIn, rOut, r[0].pool.fee);
      assert r[..k][0] == r[0] && r[..k][1..] == r[1..][..k - 1] && r[k..] == r[1..][k - 1..];
      if y.Some? {
        ReplaySplit(n, r[1..], y.value, k - 1);
      }
    }
  }

  /** An exact-output quote suffices: pushing the quoted input forward through the last j hops pays at
      least the amount asked. */
  lemma {:induction false} ExactOutputSuffices(n: Node, r: Route, amount: int, j: nat)
    requires AllPairs(n, r) && j <= |r| && Flow(n, r, amount, false, j).Some?
    ensures AllPairs(n, r[|r| - j..])
    ensures var y := Replay(n, r[|r| - j..], Flow(n, r, amount, false, j).value);
            y.Some? && y.value >= amount
  {
    hide AmountOut, AmountIn, Facing, Reserve, Crosses;
    if j > 0 {
      var h, rest := r[|r| - j], r[|r| - j + 1..];
      assert r[|r| - j..][1..] == rest;
      ExactOutputSuffices(n, r, amount, j - 1);
      var asked := Flow(n, r, amount, false, j - 1).value;
      var held := n.reserves(h.pool).value;
      var rIn, rOut := Reserve(h.pool, held, h.tin), Reserve(h.pool, held, h.tout);
      FacingIs(h, held);
      assert Along(r, j - 1, false) == h;
      PaysBack(asked, rIn, rOut, h.pool.fee);
      ReplayMonotone(n, rest, asked, AmountOut(AmountIn(Some(asked), rIn, rOut, h.pool.fee), rIn, rOut, h.pool.fee).value);
    }
  }

  lemma PaysBack(o: int, rIn: int, rOut: int, fee: int)
    requires AmountIn(Some(o), rIn, rOut, fee).Some?
    ensures AmountOut(AmountIn(Some(o), rIn, rOut, fee), rIn, rOut, fee).Some?
    ensures AmountOut(AmountIn(Some(o), rIn, rOut, fee), rIn, rOut, fee).value >= o
  {
    AmountInAnswers(Some(o), rIn, rOut, fee);
    GaloisPair(o, 1, rIn, rOut, fee);
  }

  /** So for a whole priced route of pairs: exact input in, exactly the quoted output out; exact
      output asked, at least that much paid for the quoted input. */
  lemma QuoteReplays(n: Node, r: Route, amount: int, exactIn: bool)
    requires AllPairs(n, r) && r != [] && RoutePriced(Quoted(n, r, amount, exactIn))
    ensures var ls := Quoted(n, r, amount, exactIn);
            var y := Replay(n, r, RouteIn(ls));
            y.Some? && if exactIn then RouteIn(ls) == amount && y.value == RouteOut(ls)
                       else RouteOut(ls) == amount && y.value >= amount
  {
    hide Flow;
    var ls := Quoted(n, r, amount, exactIn);
    assert ls[0].Priced() && ls[|ls| - 1].Priced();
    FlowStart(n, r, amount, exactIn);
    if exactIn {
      ExactInputReplays(n, r, amount, |r|);
      assert r[..|r|] == r;
    } else {
      ExactOutputSuffices(n, r, amount, |r|);
      assert r[|r| - |r|..] == r;
    }
  }

  // ----- choosing -----

  /** Whether one priced route beats another: it pays more, or costs less. */
  predicate Beats(a: seq<LegState>, b: seq<LegState>, exactIn: bool)
    requires a != [] && b != [] && RoutePriced(a) && RoutePriced(b)
  {
    if exactIn then RouteOut(a) > RouteOut(b) else RouteIn(a) < RouteIn(b)
  }

  /** The first candidate no other beats. */
  ghost predicate IsWinner(cs: seq<seq<LegState>>, exactIn: bool, w: int) {
    && 0 <= w < |cs| && cs[w] != [] && RoutePriced(cs[w])
    && forall j | 0 <= j < |cs| && cs[j] != [] && RoutePriced(cs[j]) ::
         && !Beats(cs[j], cs[w], exactIn)
         && (j < w ==> Beats(cs[w], cs[j], exactIn))
  }

  method Choose(cs: seq<seq<LegState>>, exactIn: bool) returns (winner: Option<nat>)
    requires forall i | 0 <= i < |cs| :: cs[i] != []
    ensures winner.Some? ==> IsWinner(cs, exactIn, winner.value)
    ensures winner.None? <==> forall i | 0 <= i < |cs| :: !RoutePriced(cs[i])
  {
    hide RoutePriced;
    winner := None;
    for i := 0 to |cs|
      invariant winner.None? <==> forall j | 0 <= j < i :: !RoutePriced(cs[j])
      invariant winner.Some? ==> winner.value < i && IsWinner(cs[..i], exactIn, winner.value)
    {
      assert cs[..i + 1] == cs[..i] + [cs[i]];
      if !RoutePriced(cs[i]) {
        continue;
      }
      if winner.None? {
        winner := Some(i);
      } else if exactIn && RouteOut(cs[i]) > RouteOut(cs[winner.value]) {
        winner := Some(i);
      } else if !exactIn && RouteIn(cs[i]) < RouteIn(cs[winner.value]) {
        winner := Some(i);
      }
    }
    assert cs[..|cs|] == cs;
  }

  // ----- the legs in place -----

  class Leg {
    const hop: Hop
    /** Which candidate the leg belongs to. */
    ghost const home: nat
    var amtIn: Option<int>
    var amtOut: Option<int>

    constructor (hop: Hop, ghost home: nat)
      ensures this.hop == hop && this.home == home && View() == LegState(hop, None, None)
    {
      this.hop := hop;
      this.home := home;
      amtIn := None;
      amtOut := None;
    }

    function View(): LegState
      reads this
    {
      LegState(hop, amtIn, amtOut)
    }

    /** The pool's answer read onto the side that was asked for. */
    method Absorb(n: Node, exactIn: bool)
      requires if exactIn then amtIn.Some? else amtOut.Some?
      modifies this
      ensures View() == if exactIn then old(View()).(amtOut := Ask(n, hop, old(amtIn).value, true))
                        else old(View()).(amtIn := Ask(n, hop, old(amtOut).value, false))
    {
      if exactIn {
        amtOut := Ask(n, hop, amtIn.value, true);
      } else {
        amtIn := Ask(n, hop, amtOut.value, false);
      }
    }
  }

  function Views(c: seq<Leg>): seq<LegState>
    reads c
  {
    seq(|c|, i requires 0 <= i < |c| reads c => c[i].View())
  }

  /** A candidate's legs are different objects, and no other candidate's. */
  ghost predicate Apart(c: seq<Leg>, a: nat) {
    && (forall i | 0 <= i < |c| :: c[i].home == a)
    && (forall i, j | 0 <= i < j < |c| :: c[i] != c[j])
  }

  ghost predicate AllApart(cs: seq<seq<Leg>>) {
    forall a | 0 <= a < |cs| :: Apart(cs[a], a)
  }

  ghost function Legs(cs: seq<seq<Leg>>): set<Leg> {
    set a, i | 0 <= a < |cs| && 0 <= i < |cs[a]| :: cs[a][i]
  }

  /** Every leg that still has a side to ask for. */
  method Collect(cs: seq<seq<Leg>>, exactIn: bool) returns (ready: seq<Leg>)
    ensures forall l :: l in ready <==> l in Legs(cs) && l.View().Ready(exactIn)
  {
    ready := [];
    for a := 0 to |cs|
      invariant forall l :: l in ready <==> l in Legs(cs[..a]) && l.View().Ready(exactIn)
    {
      for i := 0 to |cs[a]|
        invariant forall l :: l in ready <==> (l in Legs(cs[..a]) || l in cs[a][..i]) && l.View().Ready(exactIn)
      {
        assert cs[a][..i + 1] == cs[a][..i] + [cs[a][i]];
        if cs[a][i].View().Ready(exactIn) {
          ready := ready + [cs[a][i]];
        }
      }
      assert cs[a][..|cs[a]|] == cs[a];
      LegsGrow(cs, a);
    }
    assert cs[..|cs|] == cs;
  }

  lemma LegsGrow(cs: seq<seq<Leg>>, a: nat)
    requires a < |cs|
    ensures forall l :: l in Legs(cs[..a + 1]) <==> l in Legs(cs[..a]) || l in cs[a]
  {
    forall l ensures l in Legs(cs[..a + 1]) <==> l in Legs(cs[..a]) || l in cs[a] {
      if l in Legs(cs[..a]) {
        var b, i :| 0 <= b < a && 0 <= i < |cs[b]| && cs[b][i] == l;
        assert cs[..a + 1][b][i] == l;
      }
      if l in cs[a] {
        var i :| 0 <= i < |cs[a]| && cs[a][i] == l;
        assert cs[..a + 1][a][i] == l;
      }
      if l in Legs(cs[..a + 1]) {
        var b, i :| 0 <= b < a + 1 && 0 <= i < |cs[b]| && cs[b][i] == l;
        if b < a {
          assert cs[..a][b][i] == l;
        }
      }
    }
  }

  /** One answer per waiting leg. */
  method AbsorbAll(n: Node, ready: seq<Leg>, exactIn: bool)
    requires forall l | l in ready :: l.View().Ready(exactIn)
    modifies ready
    ensures forall l | l in ready :: l.View() == Absorbed(n, old(l.View()), exactIn)
  {
    hide Ask;
    for m := 0 to |ready|
      invariant forall l | l in ready :: l.View() == if l in ready[..m] then Absorbed(n, old(l.View()), exactIn) else old(l.View())
    {
      assert ready[..m + 1] == ready[..m] + [ready[m]];
      var l := ready[m];
      assert l in ready && old(l.View()).Ready(exactIn);
      assert l.View() == old(l.View()) || l.View() == Absorbed(n, old(l.View()), exactIn);
      l.Absorb(n, exactIn);
    }
    assert ready[..|ready|] == ready;
  }

  /** One candidate's answers passed down the flow. */
  method Feed(c: seq<Leg>, exactIn: bool, ghost home: nat)
    requires c != [] && Apart(c, home)
    modifies c
    ensures Views(c) == Fed(old(Views(c)), exactIn)
  {
    hide LegState.Ready, LegState.Done;
    ghost var was := Views(c);
    for i := 0 to |c| - 1
      invariant forall k | 0 <= k < |c| :: c[k].View() == if k < i || (exactIn && k == i) then FedLeg(was, k, exactIn) else was[k]
    {
      var a, b := c[i], c[i + 1];
      if exactIn && b.amtIn.None? && a.amtOut.Some? {
        b.amtIn := a.amtOut;
      }
      if !exactIn && a.amtOut.None? && b.amtIn.Some? {
        a.amtOut := b.amtIn;
      }
    }
  }

  /** One candidate fed, the others left as they were. */
  method FeedOne(cs: seq<seq<Leg>>, a: nat, exactIn: bool)
    requires a < |cs| && AllApart(cs) && cs[a] != []
    modifies cs[a]
    ensures forall b | 0 <= b < |cs| :: Views(cs[b]) == if b == a then Fed(old(Views(cs[b])), exactIn) else old(Views(cs[b]))
  {
    Feed(cs[a], exactIn, a);
    forall b | 0 <= b < |cs| && b != a ensures Views(cs[b]) == old(Views(cs[b])) {
      assert forall i | 0 <= i < |cs[b]| :: cs[b][i].home == b && cs[b][i] !in cs[a];
    }
  }

  /** The answers carried along in every candidate. */
  method FeedAll(cs: seq<seq<Leg>>, exactIn: bool)
    requires AllApart(cs) && forall a | 0 <= a < |cs| :: cs[a] != []
    modifies Legs(cs)
    ensures forall a | 0 <= a < |cs| :: Views(cs[a]) == Fed(old(Views(cs[a])), exactIn)
  {
    hide FedLeg, Fed, LegState.Ready, LegState.Done, Leg.View, Views, AllApart;
    for a := 0 to |cs|
      invariant forall b | 0 <= b < |cs| :: Views(cs[b]) == if b < a then Fed(old(Views(cs[b])), exactIn) else old(Views(cs[b]))
    {
      forall i | 0 <= i < |cs[a]| ensures cs[a][i] in Legs(cs) {}
      FeedOne(cs, a, exactIn);
    }
  }

  /** One pass: every waiting leg asks, and what it hears is fed on.  `up` says
      whether the batch came back; with nothing to ask, no batch goes out and nothing moves. */
  method PriceReady(n: Node, cs: seq<seq<Leg>>, exactIn: bool, up: bool) returns (ok: bool)
    requires AllApart(cs) && forall a | 0 <= a < |cs| :: cs[a] != []
    modifies Legs(cs)
    ensures ok == (old(Quiet(cs, exactIn)) || up)
    ensures old(Quiet(cs, exactIn)) || !up ==> forall l | l in Legs(cs) :: unchanged(l)
    ensures !old(Quiet(cs, exactIn)) && up ==> forall a | 0 <= a < |cs| :: Views(cs[a]) == Pass(n, old(Views(cs[a])), exactIn)
  {
    hide Ask, FedLeg, LegState.Ready, LegState.Done, AllApart, Fed;
    var ready := Collect(cs, exactIn);
    if ready == [] {
      assert forall l | l in Legs(cs) :: l !in ready;
      return true;
    }
    assert ready[0] in ready;
    if !up {
      return false;
    }
    AbsorbAll(n, ready, exactIn);
    forall a | 0 <= a < |cs| ensures Views(cs[a]) == AbsorbedAll(n, old(Views(cs[a])), exactIn) {
      forall i | 0 <= i < |cs[a]| ensures cs[a][i].View() == Absorbed(n, old(cs[a][i].View()), exactIn) {
        assert cs[a][i] in Legs(cs);
      }
    }
    FeedAll(cs, exactIn);
    ok := true;
  }

  /** No leg has a side to ask for. */
  ghost predicate Quiet(cs: seq<seq<Leg>>, exactIn: bool)
    reads Legs(cs)
  {
    forall l | l in Legs(cs) :: !l.View().Ready(exactIn)
  }

  // ----- the search -----

  /** The routes the search prices: the first 24. */
  function Found(pools: seq<Pool>, tin: Token, tout: Token): seq<Route> {
    var every := AllRoutes(pools, tin, tout);
    if |every| > MAX_ROUTES then every[..MAX_ROUTES] else every
  }

  lemma FoundAreShort(pools: seq<Pool>, tin: Token, tout: Token)
    ensures forall r | r in Found(pools, tin, tout) :: 1 <= |r| <= 2
  {
    hide RankedMids;
    DirectAreSingle(pools, tin, tout);
  }

  lemma {:induction false} DirectAreSingle(pools: seq<Pool>, tin: Token, tout: Token)
    ensures forall r | r in Direct(pools, tin, tout) :: |r| == 1
  {
    if pools != [] {
      DirectAreSingle(pools[..|pools| - 1], tin, tout);
    }
  }

  /** Fresh legs for one route, seeded with the caller's amount. */
  method Candidate(r: Route, amount: int, exactIn: bool, ghost home: nat) returns (c: seq<Leg>)
    requires r != []
    ensures |c| == |r| && Apart(c, home) && Views(c) == Seeded(r, amount, exactIn)
    ensures forall l | l in c :: fresh(l)
  {
    c := [];
    for i := 0 to |r|
      invariant |c| == i && Apart(c, home)
      invariant forall k | 0 <= k < i :: c[k].View() == LegState(r[k], None, None)
      invariant forall l | l in c :: fresh(l)
    {
      var l := new Leg(r[i], home);
      c := c + [l];
    }
    assert c[0] in c && c[|c| - 1] in c;
    if exactIn {
      c[0].amtIn := Some(amount);
    } else {
      c[|c| - 1].amtOut := Some(amount);
    }
  }

  method Candidates(rs: seq<Route>, amount: int, exactIn: bool) returns (cs: seq<seq<Leg>>)
    requires forall r | r in rs :: r != []
    ensures |cs| == |rs| && AllApart(cs)
    ensures forall a | 0 <= a < |cs| :: |cs[a]| == |rs[a]| && Views(cs[a]) == Seeded(rs[a], amount, exactIn)
    ensures forall l | l in Legs(cs) :: fresh(l)
  {
    hide Seeded, Leg.View, Apart;
    cs := [];
    for a := 0 to |rs|
      invariant |cs| == a && AllApart(cs)
      invariant forall b | 0 <= b < a :: |cs[b]| == |rs[b]| && Views(cs[b]) == Seeded(rs[b], amount, exactIn)
      invariant forall b | 0 <= b < a :: forall l | l in cs[b] :: fresh(l)
    {
      assert rs[a] in rs;
      var c := Candidate(rs[a], amount, exactIn, a);
      cs := cs + [c];
    }
    forall l | l in Legs(cs) ensures fresh(l) {
      var a, i :| 0 <= a < |cs| && 0 <= i < |cs[a]| && cs[a][i] == l;
      assert l in cs[a];
    }
  }

  /** A route with nothing to ask has already heard all it will. */
  lemma QuietStays(n: Node, r: Route, amount: int, exactIn: bool, k: nat)
    requires forall i | 0 <= i < |r| :: !RouteAfter(n, r, amount, exactIn, k)[i].Ready(exactIn)
    ensures RouteAfter(n, r, amount, exactIn, k + 1) == RouteAfter(n, r, amount, exactIn, k)
  {
    hide Ask;
    forall i | 0 <= i < |r| ensures LegAfter(n, r, amount, exactIn, k + 1, i) == LegAfter(n, r, amount, exactIn, k, i) {
      var j := if exactIn then i else |r| - 1 - i;
      assert !RouteAfter(n, r, amount, exactIn, k)[i].Ready(exactIn);
      if j == k + 1 {
        var before := if exactIn then i - 1 else i + 1;
        assert !RouteAfter(n, r, amount, exactIn, k)[before].Ready(exactIn);
      }
    }
  }

  function AllQuoted(n: Node, rs: seq<Route>, amount: int, exactIn: bool): seq<seq<LegState>> {
    seq(|rs|, a requires 0 <= a < |rs| => Quoted(n, rs[a], amount, exactIn))
  }

  /** After k passes some hop of the route is still to be asked. */
  predicate Waits(n: Node, r: Route, amount: int, exactIn: bool, k: nat) {
    exists i | 0 <= i < |r| :: RouteAfter(n, r, amount, exactIn, k)[i].Ready(exactIn)
  }

  predicate AnyWaits(n: Node, rs: seq<Route>, amount: int, exactIn: bool, k: nat) {
    exists a | 0 <= a < |rs| :: Waits(n, rs[a], amount, exactIn, k)
  }

  /** Before the first pass every route waits. */
  lemma AllWaitAtFirst(n: Node, rs: seq<Route>, amount: int, exactIn: bool)
    requires rs != [] && rs[0] != []
    ensures AnyWaits(n, rs, amount, exactIn, 0)
  {
    var i := if exactIn then 0 else |rs[0]| - 1;
    assert RouteAfter(n, rs[0], amount, exactIn, 0)[i].Ready(exactIn);
    assert Waits(n, rs[0], amount, exactIn, 0);
  }

  lemma QuietIffNoneWaits(n: Node, rs: seq<Route>, cs: seq<seq<Leg>>, amount: int, exactIn: bool, k: nat)
    requires |cs| == |rs|
    requires forall a | 0 <= a < |cs| :: Views(cs[a]) == RouteAfter(n, rs[a], amount, exactIn, k)
    ensures Quiet(cs, exactIn) <==> !AnyWaits(n, rs, amount, exactIn, k)
  {
    hide LegAfter, LegState.Ready, LegState.Done, Leg.View;
    forall a, i | 0 <= a < |cs| && 0 <= i < |cs[a]|
      ensures cs[a][i] in Legs(cs) && i < |rs[a]| && cs[a][i].View() == RouteAfter(n, rs[a], amount, exactIn, k)[i]
    {
      assert Views(cs[a])[i] == cs[a][i].View();
    }
    if a :| 0 <= a < |rs| && Waits(n, rs[a], amount, exactIn, k) {
      var i :| 0 <= i < |rs[a]| && RouteAfter(n, rs[a], amount, exactIn, k)[i].Ready(exactIn);
      assert |Views(cs[a])| == |rs[a]|;
      assert cs[a][i].View().Ready(exactIn);
    }
    if l :| l in Legs(cs) && l.View().Ready(exactIn) {
      var a, i :| 0 <= a < |cs| && 0 <= i < |cs[a]| && cs[a][i] == l;
      assert RouteAfter(n, rs[a], amount, exactIn, k)[i].Ready(exactIn);
      assert Waits(n, rs[a], amount, exactIn, k);
    }
  }

  lemma NoneWaitsStays(n: Node, rs: seq<Route>, amount: int, exactIn: bool, k: nat, a: nat)
    requires a < |rs| && !AnyWaits(n, rs, amount, exactIn, k)
    ensures RouteAfter(n, rs[a], amount, exactIn, k + 1) == RouteAfter(n, rs[a], amount, exactIn, k)
  {
    hide LegAfter, LegState.Ready;
    assert !Waits(n, rs[a], amount, exactIn, k);
    QuietStays(n, rs[a], amount, exactIn, k);
  }

  /** One pass over every candidate: from k hops answered to k + 1, unless the batch was needed and
      failed. */
  method PassOver(n: Node, ghost rs: seq<Route>, cs: seq<seq<Leg>>, ghost amount: int, exactIn: bool, up: bool, ghost k: nat)
    returns (ok: bool)
    requires AllApart(cs) && |cs| == |rs|
    requires forall a | 0 <= a < |cs| :: cs[a] != [] && Views(cs[a]) == RouteAfter(n, rs[a], amount, exactIn, k)
    modifies Legs(cs)
    ensures ok <==> up || !AnyWaits(n, rs, amount, exactIn, k)
    ensures ok ==> forall a | 0 <= a < |cs| :: Views(cs[a]) == RouteAfter(n, rs[a], amount, exactIn, k + 1)
  {
    hide LegState.Ready, LegState.Done, AllApart, LegAfter, Fed, AnyWaits, Leg.View;
    QuietIffNoneWaits(n, rs, cs, amount, exactIn, k);
    ok := PriceReady(n, cs, exactIn, up);
    if old(Quiet(cs, exactIn)) {
      forall a | 0 <= a < |cs| ensures Views(cs[a]) == RouteAfter(n, rs[a], amount, exactIn, k + 1) {
        assert forall i | 0 <= i < |cs[a]| :: cs[a][i] in Legs(cs);
        assert Views(cs[a]) == old(Views(cs[a]));
        NoneWaitsStays(n, rs, amount, exactIn, k, a);
      }
    } else if ok {
      forall a | 0 <= a < |cs| ensures Views(cs[a]) == RouteAfter(n, rs[a], amount, exactIn, k + 1) {
        PassesFollowFlow(n, rs[a], amount, exactIn, k);
        PassesFollowFlow(n, rs[a], amount, exactIn, k + 1);
      }
    }
  }

  lemma SeededIsStart(n: Node, r: Route, amount: int, exactIn: bool)
    ensures Seeded(r, amount, exactIn) == RouteAfter(n, r, amount, exactIn, 0)
  {
    PassesFollowFlow(n, r, amount, exactIn, 0);
  }

  lemma TwoPassesQuote(n: Node, r: Route, amount: int, exactIn: bool)
    requires |r| <= 2
    ensures RouteAfter(n, r, amount, exactIn, 2) == Quoted(n, r, amount, exactIn)
  {
    hide LegAfter;
    PassesFollowFlow(n, r, amount, exactIn, 2);
    PassesSuffice(n, r, amount, exactIn, 2);
  }

  method ViewAll(cs: seq<seq<Leg>>) returns (all: seq<seq<LegState>>)
    ensures |all| == |cs| && forall a | 0 <= a < |cs| :: all[a] == Views(cs[a])
  {
    all := [];
    for a := 0 to |cs|
      invariant |all| == a && forall b | 0 <= b < a :: all[b] == Views(cs[b])
    {
      all := all + [Views(cs[a])];
    }
  }

  /** The candidates' legs after the two passes: every one- or two-hop route quoted in full. */
  method PriceAll(n: Node, rs: seq<Route>, amount: int, exactIn: bool, up1: bool, up2: bool)
    returns (views: Option<seq<seq<LegState>>>)
    requires rs != [] && forall r | r in rs :: 1 <= |r| <= 2
    ensures views.Some? <==> up1 && (up2 || !AnyWaits(n, rs, amount, exactIn, 1))
    ensures views.Some? ==> views.value == AllQuoted(n, rs, amount, exactIn)
  {
    hide AllApart, LegAfter, Views, Quiet, Legs, AnyWaits, Seeded, Passes, RouteAfter;
    assert rs[0] in rs;
    AllWaitAtFirst(n, rs, amount, exactIn);
    var cs := Candidates(rs, amount, exactIn);
    forall a | 0 <= a < |cs|
      ensures cs[a] != [] && Views(cs[a]) == RouteAfter(n, rs[a], amount, exactIn, 0)
    {
      assert rs[a] in rs;
      SeededIsStart(n, rs[a], amount, exactIn);
    }
    var ok := PassOver(n, rs, cs, amount, exactIn, up1, 0);
    if !ok {
      return None;
    }
    ok := PassOver(n, rs, cs, amount, exactIn, up2, 1);
    if !ok {
      return None;
    }
    var all := ViewAll(cs);
    forall a | 0 <= a < |cs| ensures all[a] == Quoted(n, rs[a], amount, exactIn) {
      assert rs[a] in rs;
      TwoPassesQuote(n, rs[a], amount, exactIn);
    }
    assert all == AllQuoted(n, rs, amount, exactIn);
    return Some(all);
  }

  /** A winner among the fully quoted routes, given that every batch that was needed came back;
      nothing otherwise, or when no route is priced. */
  ghost predicate IsAnswer(best: Option<seq<LegState>>, n: Node, pools: seq<Pool>, tin: Token, tout: Token,
                           amount: int, exactIn: bool, up1: bool, up2: bool)
  {
    var found := Found(pools, tin, tout);
    var quotes, heard := AllQuoted(n, found, amount, exactIn), up1 && (up2 || !AnyWaits(n, found, amount, exactIn, 1));
    && (best.Some? ==> heard && exists w | 0 <= w < |quotes| :: IsWinner(quotes, exactIn, w) && best.value == quotes[w])
    && (best.None? ==> !heard || forall q | q in quotes :: !RoutePriced(q))
  }

  /** The search: the first candidate, fully priced, that no other beats; nothing when a batch failed
      that was needed, or when no candidate is priced. */
  method Search(n: Node, pools: seq<Pool>, tin: Token, tout: Token, amount: int, exactIn: bool, up1: bool, up2: bool)
    returns (best: Option<seq<LegState>>)
    ensures IsAnswer(best, n, pools, tin, tout, amount, exactIn, up1, up2)
  {
    hide RoutePriced, LegAfter, AllRoutes, IsWinner, AnyWaits;
    var rs := Routes(pools, tin, tout);
    assert rs == Found(pools, tin, tout);
    if rs == [] {
      return None;
    }
    FoundAreShort(pools, tin, tout);
    var views := PriceAll(n, rs, amount, exactIn, up1, up2);
    if views.None? {
      return None;
    }
    var quotes := views.value;
    forall a | 0 <= a < |quotes| ensures quotes[a] != [] {
      assert rs[a] in rs;
      assert |Quoted(n, rs[a], amount, exactIn)| == |rs[a]|;
    }
    var w := Choose(quotes, exactIn);
    if w.None? {
      return None;
    }
    assert IsWinner(quotes, exactIn, w.value);
    WinnerInRange(quotes, exactIn, w.value);
    best := Some(quotes[w.value]);
  }

  lemma WinnerInRange(cs: seq<seq<LegState>>, exactIn: bool, w: int)
    requires IsWinner(cs, exactIn, w)
    ensures 0 <= w < |cs|
  {}

  /** With no more than 24 routes in the book, the winner is not beaten by any priced direct or
      two-hop route of the book. */
  lemma WinnerIsBest(n: Node, pools: seq<Pool>, tin: Token, tout: Token, amount: int, exactIn: bool, w: int, r: Route)
    requires IsBook(pools) && tin != tout && |AllRoutes(pools, tin, tout)| <= 24
    requires var quotes := AllQuoted(n, Found(pools, tin, tout), amount, exactIn); IsWinner(quotes, exactIn, w)
    requires IsDirect(r, pools, tin, tout) || IsTwoHop(r, pools, tin, tout)
    requires RoutePriced(Quoted(n, r, amount, exactIn))
    ensures NoBetter(Quoted(n, r, amount, exactIn), AllQuoted(n, Found(pools, tin, tout), amount, exactIn)[w], exactIn)
  {
    hide LegAfter, IsBook;
    var rs := Found(pools, tin, tout);
    RoutesExact(pools, tin, tout, rs);
    var a :| 0 <= a < |rs| && rs[a] == r;
    assert AllQuoted(n, rs, amount, exactIn)[a] == Quoted(n, r, amount, exactIn);
  }

  // ----- what a winner promises -----

  /** One leg as a trade with its own pool.  A pair is left no worse off, its fee included, and one unit
      more could not have been had, or two units less not have paid; a concentrated pool is taken at
      its word.  `held` is what the pair reports of its first and second token. */
  ghost predicate LegHolds(l: LegState, exactIn: bool, isPair: bool, held: Option<(nat, nat)>,
                           hasQuoter: bool, quoter: (Hop, int, bool) -> Option<int>)
  {
    && l.amtIn.Some? && l.amtOut.Some?
    && var x, o, h := l.amtIn.value, l.amtOut.value, l.hop;
       if isPair then
         && held.Some?
         && PairTrade(Reserve(h.pool, held.value, h.tin), Reserve(h.pool, held.value, h.tout), h.pool.fee, x, o, exactIn)
       else
         && hasQuoter && x > 0 && o > 0
         && if exactIn then quoter(h, x, true) == Some(o) else quoter(h, o, false) == Some(x)
  }

  predicate PairTrade(rIn: nat, rOut: nat, fee: int, x: int, o: int, exactIn: bool) {
    && x > 0 && 0 < o < rOut && 0 <= fee < 1_000_000
    && (rIn + x) * (rOut - o) >= rIn * rOut
    && Keeps(x, o, rIn, rOut, fee)
    && (if exactIn then !Keeps(x, o + 1, rIn, rOut, fee) else !Keeps(x - 2, o, rIn, rOut, fee))
  }

  lemma PairAsked(rIn: nat, rOut: nat, fee: int, x: int, o: int, exactIn: bool)
    requires x > 0 && o > 0
    requires if exactIn then AmountOut(Some(x), rIn, rOut, fee) == Some(o) else AmountIn(Some(o), rIn, rOut, fee) == Some(x)
    ensures PairTrade(rIn, rOut, fee, x, o, exactIn)
  {
    hide Keeps, AmountOut, AmountIn;
    if exactIn {
      AmountOutAnswers(Some(x), rIn, rOut, fee);
      AmountOutWithinReserve(x, rIn, rOut, fee);
      AmountOutIsGreatest(x, o, rIn, rOut, fee);
      AmountOutIsGreatest(x, o + 1, rIn, rOut, fee);
    } else {
      AmountInAnswers(Some(o), rIn, rOut, fee);
      AmountInBounds(x, o, rIn, rOut, fee);
      AmountInBounds(x - 2, o, rIn, rOut, fee);
      KeepsProduct(x, o, rIn, rOut, fee);
    }
  }

  lemma LegTrades(n: Node, r: Route, amount: int, exactIn: bool, i: nat)
    requires i < |r| && Quoted(n, r, amount, exactIn)[i].Priced() && Crosses(r[i])
    ensures var l := Quoted(n, r, amount, exactIn)[i];
            LegHolds(l, exactIn, n.pair(r[i].pool), n.reserves(r[i].pool), n.hasQuoter, n.quoter)
  {
    hide PairTrade, Crosses, AmountOut, AmountIn, Facing, Reserve;
    var l := Quoted(n, r, amount, exactIn)[i];
    var x, o := l.amtIn.value, l.amtOut.value;
    var j := if exactIn then i else |r| - 1 - i;
    assert Flow(n, r, amount, exactIn, j + 1) == Ask(n, r[i], if exactIn then x else o, exactIn);
    if n.pair(r[i].pool) {
      var held := n.reserves(r[i].pool).value;
      FacingIs(r[i], held);
      PairAsked(Reserve(r[i].pool, held, r[i].tin), Reserve(r[i].pool, held, r[i].tout), r[i].pool.fee, x, o, exactIn);
    }
  }

  /** The shape of a route from tin to tout through the book, with amounts that carry over. */
  ghost predicate IsJourney(ls: seq<LegState>, pools: seq<Pool>, tin: Token, tout: Token, amount: int, exactIn: bool) {
    && 1 <= |ls| <= 2
    && ls[0].hop.tin == tin && ls[|ls| - 1].hop.tout == tout
    && (forall i | 0 <= i < |ls| :: ls[i].hop.pool in pools && Crosses(ls[i].hop))
    && (|ls| == 2 ==> ls[0].hop.tout == ls[1].hop.tin && ls[0].amtOut == ls[1].amtIn)
    && (if exactIn then ls[0].amtIn == Some(amount) else ls[|ls| - 1].amtOut == Some(amount))
  }

  lemma FoundCross(pools: seq<Pool>, tin: Token, tout: Token, r: Route)
    requires IsBook(pools) && tin != tout && r in Found(pools, tin, tout)
    ensures IsDirect(r, pools, tin, tout) || IsTwoHop(r, pools, tin, tout)
    ensures forall i | 0 <= i < |r| :: r[i].pool in pools && Crosses(r[i])
  {
    RoutesExact(pools, tin, tout, Found(pools, tin, tout));
    hide IsBook;
    forall i | 0 <= i < |r| ensures r[i].pool in pools && Crosses(r[i]) {
      assert r[i].pool.Joins(r[i].tin, r[i].tout);
    }
  }

  /** The one route pays no more than the other, or for a fixed output costs no less. */
  predicate NoBetter(a: seq<LegState>, b: seq<LegState>, exactIn: bool) {
    && a != [] && b != [] && a[0].Done() && b[0].Done() && a[|a| - 1].Done() && b[|b| - 1].Done()
    && if exactIn then a[|a| - 1].amtOut.value <= b[|b| - 1].amtOut.value else a[0].amtIn.value >= b[0].amtIn.value
  }

  /** What the search answers is a journey from tin to tout through pools of the book, fixed at the
      caller's amount, each leg of it a trade its own pool makes; and with no more than 24 routes in the
      book, no priced route of it pays more, or for a fixed output costs less. */
  lemma AnswerTrades(best: seq<LegState>, n: Node, pools: seq<Pool>, tin: Token, tout: Token, amount: int, exactIn: bool,
                     up1: bool, up2: bool)
    requires IsBook(pools) && tin != tout && IsAnswer(Some(best), n, pools, tin, tout, amount, exactIn, up1, up2)
    ensures IsJourney(best, pools, tin, tout, amount, exactIn)
    ensures forall l | l in best :: LegHolds(l, exactIn, n.pair(l.hop.pool), n.reserves(l.hop.pool), n.hasQuoter, n.quoter)
    ensures forall r | && |AllRoutes(pools, tin, tout)| <= 24 && (IsDirect(r, pools, tin, tout) || IsTwoHop(r, pools, tin, tout))
                       && RoutePriced(Quoted(n, r, amount, exactIn)) ::
              NoBetter(Quoted(n, r, amount, exactIn), best, exactIn)
  {
    hide IsBook, Flow, LegHolds, AllRoutes, IsDirect, IsTwoHop, Crosses, AnyWaits;
    var found := Found(pools, tin, tout);
    var quotes := AllQuoted(n, found, amount, exactIn);
    var w :| 0 <= w < |quotes| && IsWinner(quotes, exactIn, w) && best == quotes[w];
    var route := found[w];
    FoundCross(pools, tin, tout, route);
    WinnerJourney(n, route, pools, tin, tout, amount, exactIn);
    forall l | l in best ensures LegHolds(l, exactIn, n.pair(l.hop.pool), n.reserves(l.hop.pool), n.hasQuoter, n.quoter) {
      var i :| 0 <= i < |best| && best[i] == l;
      LegTrades(n, route, amount, exactIn, i);
    }
    forall r | && |AllRoutes(pools, tin, tout)| <= 24 && (IsDirect(r, pools, tin, tout) || IsTwoHop(r, pools, tin, tout))
               && RoutePriced(Quoted(n, r, amount, exactIn))
      ensures NoBetter(Quoted(n, r, amount, exactIn), best, exactIn)
    {
      WinnerIsBest(n, pools, tin, tout, amount, exactIn, w, r);
    }
  }

  lemma WinnerJourney(n: Node, r: Route, pools: seq<Pool>, tin: Token, tout: Token, amount: int, exactIn: bool)
    requires IsDirect(r, pools, tin, tout) || IsTwoHop(r, pools, tin, tout)
    requires forall i | 0 <= i < |r| :: r[i].pool in pools && Crosses(r[i])
    ensures IsJourney(Quoted(n, r, amount, exactIn), pools, tin, tout, amount, exactIn)
  {
    hide Flow, Crosses;
    FlowStart(n, r, amount, exactIn);
    if |r| == 2 {
      QuotedLinks(n, r, amount, exactIn, 0);
    }
  }

  // ----- which venue a pool is -----

  datatype Venue = V2 | V3

  type Venues = map<string, Venue>

  function Unknown(venues: Venues, pools: seq<Pool>): set<string> {
    set p | p in pools && p.addr !in venues :: p.addr
  }

  /** The pools asked about that answered, added to those already known. */
  function Learned(venues: Venues, pools: seq<Pool>, answer: string -> Option<Venue>): Venues {
    venues + map a | a in Unknown(venues, pools) && answer(a).Some? :: answer(a).value
  }

  /** What the node says of the book during one request: whether the venue batch and the two pricing
      batches come back, and what every pool answers. */
  datatype Request = Request(asked: bool, up1: bool, up2: bool, answer: string -> Option<Venue>,
                             reserves: Pool -> Option<(nat, nat)>, hasQuoter: bool, quoter: (Hop, int, bool) -> Option<int>)

  /** A pool of unknown venue is priced like a concentrated one. */
  function NodeOf(venues: Venues, r: Request): Node {
    Node((p: Pool) => p.addr in venues && venues[p.addr] == V2, r.reserves, r.hasQuoter, r.quoter)
  }

  class Desk {
    var venues: Venues

    constructor ()
      ensures venues == map[]
    {
      venues := map[];
    }

    /** Asks every pool not yet known, in one batch; a failed batch teaches nothing. */
    method Classify(pools: seq<Pool>, r: Request) returns (ok: bool)
      modifies this
      ensures ok <==> r.asked || Unknown(old(venues), pools) == {}
      ensures venues == if ok then Learned(old(venues), pools, r.answer) else old(venues)
    {
      var unknown: seq<Pool> := [];
      for i := 0 to |pools|
        invariant venues == old(venues)
        invariant forall p :: p in unknown <==> p in pools[..i] && p.addr !in venues
      {
        assert pools[..i + 1] == pools[..i] + [pools[i]];
        if pools[i].addr !in venues {
          unknown := unknown + [pools[i]];
        }
      }
      assert pools[..|pools|] == pools;
      assert Unknown(venues, pools) == set p | p in unknown :: p.addr;
      if |unknown| == 0 {
        return true;
      }
      assert unknown[0].addr in Unknown(venues, pools);
      if !r.asked {
        return false;
      }
      for i := 0 to |unknown|
        invariant venues == Learned(old(venues), unknown[..i], r.answer)
      {
        LearnOne(old(venues), unknown[..i], unknown[i], r.answer);
        assert unknown[..i + 1] == unknown[..i] + [unknown[i]];
        var v := r.answer(unknown[i].addr);
        if v.Some? {
          venues := venues[unknown[i].addr := v.value];
        }
      }
      assert unknown[..|unknown|] == unknown;
      assert Unknown(old(venues), unknown) == Unknown(old(venues), pools);
      ok := true;
    }

    /** The book's venues, its routes, two passes, and the winner. */
    method Best(pools: seq<Pool>, tin: Token, tout: Token, amount: int, exactIn: bool, r: Request)
      returns (best: Option<seq<LegState>>)
      modifies this
      ensures var ok := r.asked || Unknown(old(venues), pools) == {};
              && venues == (if ok then Learned(old(venues), pools, r.answer) else old(venues))
              && (if ok then IsAnswer(best, NodeOf(venues, r), pools, tin, tout, amount, exactIn, r.up1, r.up2) else best == None)
    {
      if |pools| == 0 {
        NoBook(NodeOf(venues, r), pools, tin, tout, amount, exactIn, r.up1, r.up2);
        assert Learned(venues, pools, r.answer) == venues;
        return None;
      }
      var ok := Classify(pools, r);
      if !ok {
        return None;
      }
      best := Search(NodeOf(venues, r), pools, tin, tout, amount, exactIn, r.up1, r.up2);
    }
  }

  /** So what the desk answers trades with each pool as the venue recorded for it: a pair by the
      reserves it reports, any other pool by the quoter. */
  lemma DeskTrades(best: seq<LegState>, venues: Venues, r: Request, pools: seq<Pool>, tin: Token, tout: Token,
                   amount: int, exactIn: bool)
    requires IsBook(pools) && tin != tout
    requires IsAnswer(Some(best), NodeOf(venues, r), pools, tin, tout, amount, exactIn, r.up1, r.up2)
    ensures IsJourney(best, pools, tin, tout, amount, exactIn)
    ensures forall l | l in best ::
              LegHolds(l, exactIn, l.hop.pool.addr in venues && venues[l.hop.pool.addr].V2?, r.reserves(l.hop.pool), r.hasQuoter, r.quoter)
  {
    hide IsBook, IsJourney, LegHolds, IsAnswer, AllRoutes, IsDirect, IsTwoHop;
    AnswerTrades(best, NodeOf(venues, r), pools, tin, tout, amount, exactIn, r.up1, r.up2);
  }

  lemma LearnOne(venues: Venues, pools: seq<Pool>, p: Pool, answer: string -> Option<Venue>)
    requires p.addr !in venues
    ensures Learned(venues, pools + [p], answer)
         == if answer(p.addr).Some? then Learned(venues, pools, answer)[p.addr := answer(p.addr).value]
            else Learned(venues, pools, answer)
  {
    UnknownGrows(venues, pools, p);
    hide Unknown;
  }

  lemma UnknownGrows(venues: Venues, pools: seq<Pool>, p: Pool)
    requires p.addr !in venues
    ensures Unknown(venues, pools + [p]) == Unknown(venues, pools) + {p.addr}
  {
    var more := pools + [p];
    assert p in more && forall q | q in pools :: q in more;
  }

  lemma NoBook(n: Node, pools: seq<Pool>, tin: Token, tout: Token, amount: int, exactIn: bool, up1: bool, up2: bool)
    requires pools == []
    ensures IsAnswer(None, n, pools, tin, tout, amount, exactIn, up1, up2)
  {
    hide StableSort;
    assert Direct(pools, tin, tout) == [];
    assert Holding(pools, tin, tout, tin) == [];
    assert Mids([], pools, tin, tout) == [];
    NothingSorts();
    assert AllRoutes(pools, tin, tout) == [];
  }

  lemma NothingSorts()
    ensures StableSort<Mid>([], Ranks()) == []
  {}

  /** What is recorded of a pool stays as it is, whatever later requests hear. */
  lemma VenueStays(venues: Venues, pools: seq<Pool>, answer: string -> Option<Venue>)
    ensures forall a | a in venues :: a in Learned(venues, pools, answer) && Learned(venues, pools, answer)[a] == venues[a]
    ensures (forall p | p in pools :: answer(p.addr).Some?) ==> Unknown(Learned(venues, pools, answer), pools) == {}
  {}

  function AllLearned(venues: Venues, asks: seq<(seq<Pool>, string -> Option<Venue>)>): Venues {
    if asks == [] then venues
    else Learned(AllLearned(venues, asks[..|asks| - 1]), asks[|asks| - 1].0, asks[|asks| - 1].1)
  }

  /** Over every run of requests, if each pool answers truly or not at all, what is recorded is true
      of exactly the pools that have answered while in the book. */
  lemma {:induction false} VenuesAreTrue(asks: seq<(seq<Pool>, string -> Option<Venue>)>, truth: string -> Venue, a: string)
    requires forall i, b | 0 <= i < |asks| && asks[i].1(b).Some? :: asks[i].1(b).value == truth(b)
    ensures a in AllLearned(map[], asks) ==> AllLearned(map[], asks)[a] == truth(a)
    ensures a in AllLearned(map[], asks)
       <==> exists i, p :: 0 <= i < |asks| && p in asks[i].0 && p.addr == a && asks[i].1(a).Some?
  {
    if asks != [] {
      var n := |asks| - 1;
      VenuesAreTrue(asks[..n], truth, a);
      var before, last := AllLearned(map[], asks[..n]), asks[n];
      hide AllLearned;
      assert a in Learned(before, last.0, last.1) <==> a in before || exists p :: p in last.0 && p.addr == a && last.1(a).Some?;
      if i, p :| 0 <= i < n && p in asks[i].0 && p.addr == a && asks[i].1(a).Some? {
        assert asks[..n][i] == asks[i];
      }
      LastLearned(asks);
    }
  }

  lemma LastLearned(asks: seq<(seq<Pool>, string -> Option<Venue>)>)
    requires asks != []
    ensures var n := |asks| - 1; AllLearned(map[], asks) == Learned(AllLearned(map[], asks[..n]), asks[n].0, asks[n].1)
  {}
}
