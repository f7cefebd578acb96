/** The transaction that takes a quote (engine/swap.go:79-244): what is refused, and what the router
    call it builds says when it is read back.

    JSON decoding, the request id and EIP-55 capitalisation are left out; an address only ever
    reaches the calldata lower-cased. */
module SwapCall {
  import opened Wrappers
  import opened Text
  import opened Calldata

  const NATIVE: string := "0x0000000000000000000000000000000000000000"

  // The four SwapRouter02 selectors, as engine/swap_test.go:105,145,182,332 records them.
  const SEL_EXACT_INPUT_SINGLE: string := "0x04e45aaf"
  const SEL_EXACT_INPUT: string := "0xb858183f"
  const SEL_EXACT_OUTPUT_SINGLE: string := "0x5023b4df"
  const SEL_EXACT_OUTPUT: string := "0x09b81346"

  datatype Hop = Hop(kind: string, tokenIn: string, tokenOut: string, fee: string)

  datatype Quote = Quote(
    chainId: int, swapper: string, inputToken: string, inputAmount: string, outputAmount: string,
    tradeType: string, slippage: Option<real>, route: seq<seq<Hop>>)

  datatype Refusal = NoHop | BadSwapper | WrongChain | BadAmounts | NotV3(hop: nat) | BadHop(hop: nat)

  datatype Outcome = Refused(why: Refusal) | Built(data: string, value: string)

  /** What a router call asks for, whichever of the four functions carries it. */
  datatype Order = Order(exactIn: bool, tokens: seq<string>, fees: seq<nat>,
                         recipient: string, amount: nat, limit: nat)

  // ----- reading the quote -----

  /** A non-negative decimal below 2^256 (engine/quote.go:1090-1107). */
  function ParseWei(s: string): Option<nat> {
    if s == "" || !AllDigits(s, Dec) || Value(s, Dec) >= WordLimit() then None else Some(Value(s, Dec))
  }

  /** A fee tier: a decimal integer that a uint24 holds. */
  function ParseFee(s: string): Option<nat> {
    match ParseSigned(s, Dec)
    case None => None
    case Some(n) => if 0 <= n <= 0xFFFFFF then Some(n) else None
  }

  predicate IsNative(addr: string) {
    Lower(Trim(addr)) == NATIVE
  }

  function Wrap(addr: string, wrapped: string): string {
    if IsNative(addr) then wrapped else Lower(addr)
  }

  function CheckHop(h: Hop, i: nat): Option<Refusal> {
    if h.kind != "" && h.kind != "v3-pool" then Some(NotV3(i))
    else if !IsAddress(h.tokenIn) || !IsAddress(h.tokenOut) || ParseFee(h.fee).None? then Some(BadHop(i))
    else None
  }

  function CheckHops(hops: seq<Hop>, i: nat): Option<Refusal>
    requires i <= |hops|
    decreases |hops| - i
  {
    if i == |hops| then None
    else if CheckHop(hops[i], i).Some? then CheckHop(hops[i], i)
    else CheckHops(hops, i + 1)
  }

  /** The first reason to refuse a quote, in the order the handler looks for them. */
  function Check(q: Quote, chainId: int): Option<Refusal> {
    if |q.route| == 0 || |q.route[0]| == 0 then Some(NoHop)
    else if !IsAddress(q.swapper) then Some(BadSwapper)
    else if q.chainId != 0 && q.chainId != chainId then Some(WrongChain)
    else if !Amounts(q) then Some(BadAmounts)
    else CheckHops(q.route[0], 0)
  }

  predicate Amounts(q: Quote) {
    && ParseWei(q.inputAmount).Some? && ParseWei(q.inputAmount).value > 0
    && ParseWei(q.outputAmount).Some? && ParseWei(q.outputAmount).value > 0
  }

  lemma {:induction false} HopsChecked(hops: seq<Hop>, i: nat)
    requires i <= |hops| && CheckHops(hops, i).None?
    ensures forall k | i <= k < |hops| :: CheckHop(hops[k], k).None?
    decreases |hops| - i
  {
    if i < |hops| {
      HopsChecked(hops, i + 1);
    }
  }

  // ----- slippage -----

  /** `math.Round`: half away from zero. */
  function Round(x: real): int {
    if x >= 0.0 then (x + 0.5).Floor else -((-x + 0.5).Floor)
  }

  function Bps(pct: real): int { Round(pct * 100.0) }

  function Div10k(amount: nat, factor: nat): nat { amount * factor / 10000 }

  function Down(amount: nat, pct: real): nat {
    var f := 10000 - Bps(pct);
    Div10k(amount, if f < 0 then 0 else f)
  }

  function Up(amount: nat, pct: real): nat
    requires pct >= 0.0
  {
    var n := Div10k(amount, 10000 + Bps(pct));
    if n > WordLimit() - 1 then WordLimit() - 1 else n
  }

  function Clamped(slippage: Option<real>): real {
    match slippage
    case None => 0.5
    case Some(s) => if s < 0.0 then 0.0 else if s > 100.0 then 100.0 else s
  }

  lemma MulLe(a: nat, b: int, c: int)
    requires b <= c
    ensures a * b <= a * c
  {
    assert a * (c - b) >= 0;
  }

  /** Whatever slippage is sent, the least accepted is no more than quoted, the most paid no less,
      and the most paid still fits a word. */
  lemma SlippageBounds(amount: nat, slippage: Option<real>)
    requires amount < WordLimit()
    ensures 0 <= Bps(Clamped(slippage)) <= 10000
    ensures Down(amount, Clamped(slippage)) <= amount <= Up(amount, Clamped(slippage)) < WordLimit()
  {
    var b := Bps(Clamped(slippage));
    assert 0.0 <= Clamped(slippage) * 100.0 <= 10000.0;
    MulLe(amount, 10000 - b, 10000);
    MulLe(amount, 10000, 10000 + b);
  }

  /** A wider tolerance only loosens both bounds. */
  lemma SlippageMonotone(amount: nat, p: real, q: real)
    requires 0.0 <= p <= q <= 100.0
    ensures Down(amount, q) <= Down(amount, p) && Up(amount, p) <= Up(amount, q)
  {
    assert p * 100.0 <= q * 100.0 <= 10000.0;
    assert Bps(p) <= Bps(q) <= 10000;
    MulLe(amount, 10000 - Bps(q), 10000 - Bps(p));
    MulLe(amount, 10000 + Bps(p), 10000 + Bps(q));
  }

  // ----- what the quote means -----

  function RouteTokens(hops: seq<Hop>, wrapped: string): seq<string>
    requires hops != []
  {
    seq(|hops| + 1, i requires 0 <= i <= |hops| =>
      Wrap(if i == 0 then hops[0].tokenIn else hops[i - 1].tokenOut, wrapped))
  }

  function RouteFees(hops: seq<Hop>): seq<nat>
    requires forall i | 0 <= i < |hops| :: ParseFee(hops[i].fee).Some?
  {
    seq(|hops|, i requires 0 <= i < |hops| => ParseFee(hops[i].fee).value)
  }

  /** The order a sound quote stands for: its own tokens and fees in travel order, the amount the
      caller fixed, and the other amount loosened by the slippage. */
  function Meaning(q: Quote, chainId: int, wrapped: string): Order
    requires Check(q, chainId).None?
  {
    HopsChecked(q.route[0], 0);
    var hops, pct := q.route[0], Clamped(q.slippage);
    var amtIn, amtOut := ParseWei(q.inputAmount).value, ParseWei(q.outputAmount).value;
    var exactIn := q.tradeType != "EXACT_OUTPUT";
    Order(exactIn, LowerAll(RouteTokens(hops, wrapped)), RouteFees(hops), Lower(q.swapper),
          if exactIn then amtIn else amtOut,
          if exactIn then Down(amtOut, pct) else Up(amtIn, pct))
  }

  // ----- what is accepted, and what for -----

  predicate IsAmount(s: string) { s != "" && AllDigits(s, Dec) && 0 < Value(s, Dec) < WordLimit() }

  predicate IsFee(s: string) { ParseSigned(s, Dec).Some? && 0 <= ParseSigned(s, Dec).value < 0x100_0000 }

  predicate IsV3(h: Hop) { h.kind == "" || h.kind == "v3-pool" }

  predicate IsWhole(h: Hop) { IsAddress(h.tokenIn) && IsAddress(h.tokenOut) && IsFee(h.fee) }

  predicate SoundUpTo(hops: seq<Hop>, i: nat)
    requires i <= |hops|
  {
    forall k | 0 <= k < i :: IsV3(hops[k]) && IsWhole(hops[k])
  }

  lemma {:induction false} FirstBadHop(hops: seq<Hop>, i: nat)
    requires i <= |hops| && SoundUpTo(hops, i)
    ensures CheckHops(hops, i).None? <==> SoundUpTo(hops, |hops|)
    ensures CheckHops(hops, i).Some? ==> CheckHops(hops, i).value.NotV3? || CheckHops(hops, i).value.BadHop?
    ensures forall k: nat :: CheckHops(hops, i) == Some(NotV3(k)) <==> k < |hops| && SoundUpTo(hops, k) && !IsV3(hops[k])
    ensures forall k: nat :: CheckHops(hops, i) == Some(BadHop(k)) <==> k < |hops| && SoundUpTo(hops, k) && IsV3(hops[k]) && !IsWhole(hops[k])
    decreases |hops| - i
  {
    hide IsAddress, ParseSigned;
    if i < |hops| && CheckHop(hops[i], i).None? {
      FirstBadHop(hops, i + 1);
    }
  }

  /** A quote is refused for the first thing wrong with it, and accepted when nothing is: it has a route,
      the swapper's address, this chain or none, two positive amounts that fit a word, and whole hops
      through concentrated pools. */
  lemma RefusalIs(q: Quote, chainId: int)
    ensures var check, routed := Check(q, chainId), |q.route| > 0 && |q.route[0]| > 0;
            var known := routed && IsAddress(q.swapper);
            var here := known && (q.chainId == 0 || q.chainId == chainId);
            var sound := here && IsAmount(q.inputAmount) && IsAmount(q.outputAmount);
            && (check == Some(NoHop) <==> !routed)
            && (check == Some(BadSwapper) <==> routed && !known)
            && (check == Some(WrongChain) <==> known && !here)
            && (check == Some(BadAmounts) <==> here && !sound)
            && (check.None? <==> sound && SoundUpTo(q.route[0], |q.route[0]|))
            && (forall k: nat :: check == Some(NotV3(k)) <==>
                  sound && k < |q.route[0]| && SoundUpTo(q.route[0], k) && !IsV3(q.route[0][k]))
            && (forall k: nat :: check == Some(BadHop(k)) <==>
                  sound && k < |q.route[0]| && SoundUpTo(q.route[0], k) && IsV3(q.route[0][k]) && !IsWhole(q.route[0][k]))
  {
    hide IsAddress, Value, AllDigits, WordLimit, CheckHops, IsV3, IsWhole;
    if |q.route| > 0 {
      FirstBadHop(q.route[0], 0);
    }
  }

  // ----- the two layouts -----

  /** The seven fixed words of `exactInputSingle`/`exactOutputSingle`. */
  function SingleCall(tokens: seq<string>, fee: nat, recipient: string, amount: nat, limit: nat): string
    requires |tokens| == 2
  {
    AddrWord(tokens[0]) + AddrWord(tokens[1]) + NumWord(fee) + AddrWord(recipient)
    + NumWord(amount) + NumWord(limit) + NumWord(0)
  }

  function DecodeSingle(data: string, exactIn: bool): Option<Order> {
    var tIn, tOut, fee, to := AddressAt(data, 0), AddressAt(data, 32), WordAt(data, 64), AddressAt(data, 96);
    var amount, limit, price := WordAt(data, 128), WordAt(data, 160), WordAt(data, 192);
    if tIn.Some? && tOut.Some? && fee.Some? && to.Some? && amount.Some? && limit.Some? && price == Some(0)
    then Some(Order(exactIn, [tIn.value, tOut.value], [fee.value], to.value, amount.value, limit.value))
    else None
  }

  function DecodePathOrder(data: string, exactIn: bool): Option<Order> {
    match DecodePathCall(data)
    case None => None
    case Some(args) =>
      match DecodePath(args.path)
      case None => None
      case Some((tokens, fees)) =>
        Some(Order(exactIn, if exactIn then tokens else ReversedSeq(tokens),
                   if exactIn then fees else ReversedSeq(fees), args.recipient, args.amount, args.limit))
  }

  /** What the router would read: the selector says which layout follows. */
  function DecodeCall(data: string): Option<Order> {
    if |data| < 10 then None
    else if data[..10] == "0x04e45aaf" then DecodeSingle(data[10..], true)
    else if data[..10] == "0x5023b4df" then DecodeSingle(data[10..], false)
    else if data[..10] == "0xb858183f" then DecodePathOrder(data[10..], true)
    else if data[..10] == "0x09b81346" then DecodePathOrder(data[10..], false)
    else None
  }

  predicate OrderFits(o: Order) {
    ValidPath(o.tokens, o.fees) && IsAddress(o.recipient) && o.amount < WordLimit() && o.limit < WordLimit()
  }

  lemma FeeLimit()
    ensures Hex.Pow(6) == 0x100_0000
    ensures 0x100_0000 <= WordLimit()
  {
    assert Hex.Pow(1) == 16 && Hex.Pow(2) == 256 && Hex.Pow(3) == 4096;
    assert Hex.Pow(4) == 65536 && Hex.Pow(5) == 0x10_0000 && Hex.Pow(6) == 0x100_0000;
    PowGrows(6, 64);
  }

  lemma {:induction false} PowGrows(j: nat, k: nat)
    requires j <= k
    ensures Hex.Pow(j) <= Hex.Pow(k)
    decreases k - j
  {
    if j < k {
      PowGrows(j + 1, k);
    }
  }

  lemma SingleRoundTrip(o: Order)
    requires OrderFits(o) && |o.tokens| == 2
    ensures DecodeSingle(SingleCall(o.tokens, o.fees[0], o.recipient, o.amount, o.limit), o.exactIn)
         == Some(o.(tokens := LowerAll(o.tokens), recipient := Lower(o.recipient)))
  {
    hide NumWord, AddrWord, WordAt, AddressAt, WordLimit, Lower;
    FeeLimit();
    SmallWord(0);
    NumWordWidth(o.fees[0]);
    NumWordWidth(o.amount);
    NumWordWidth(o.limit);
    AddrWordIsWord(o.tokens[0]);
    AddrWordIsWord(o.tokens[1]);
    AddrWordIsWord(o.recipient);
    var data := SingleCall(o.tokens, o.fees[0], o.recipient, o.amount, o.limit);
    var a, b, f, r := AddrWord(o.tokens[0]), AddrWord(o.tokens[1]), NumWord(o.fees[0]), AddrWord(o.recipient);
    var m, l, z := NumWord(o.amount), NumWord(o.limit), NumWord(0);
    assert data == "" + a + (b + f + r + m + l + z);
    AddressFound(data, "", o.tokens[0], b + f + r + m + l + z);
    assert data == a + b + (f + r + m + l + z);
    AddressFound(data, a, o.tokens[1], f + r + m + l + z);
    assert data == (a + b) + f + (r + m + l + z);
    WordFound(data, a + b, o.fees[0], r + m + l + z);
    assert data == (a + b + f) + r + (m + l + z);
    AddressFound(data, a + b + f, o.recipient, m + l + z);
    assert data == (a + b + f + r) + m + (l + z);
    WordFound(data, a + b + f + r, o.amount, l + z);
    WordFound(data, a + b + f + r + m, o.limit, z);
    assert data == (a + b + f + r + m + l) + z + "";
    WordFound(data, a + b + f + r + m + l, 0, "");
    assert LowerAll(o.tokens) == [Lower(o.tokens[0]), Lower(o.tokens[1])];
    assert o.fees == [o.fees[0]];
  }

  /** An exact-output path is packed backwards; the decoder turns it round again. */
  function PathOrderCall(o: Order): string {
    PathCall(if o.exactIn then PathText(o.tokens, o.fees) else PathText(ReversedSeq(o.tokens), ReversedSeq(o.fees)),
             o.recipient, o.amount, o.limit)
  }

  lemma ReversedPath(tokens: seq<string>, fees: seq<nat>)
    requires ValidPath(tokens, fees)
    ensures ValidPath(ReversedSeq(tokens), ReversedSeq(fees))
    ensures ReversedSeq(LowerAll(ReversedSeq(tokens))) == LowerAll(tokens)
    ensures ReversedSeq(ReversedSeq(fees)) == fees
  {
    hide IsAddress, Lower;
    ReversedTwice(fees);
  }

  lemma PathArgsRoundTrip(tokens: seq<string>, fees: seq<nat>, o: Order)
    requires ValidPath(tokens, fees) && 40 * |tokens| + 6 * |fees| < WordLimit()
    requires IsAddress(o.recipient) && o.amount < WordLimit() && o.limit < WordLimit()
    ensures DecodePathOrder(PathCall(PathText(tokens, fees), o.recipient, o.amount, o.limit), o.exactIn)
         == Some(o.(tokens := if o.exactIn then LowerAll(tokens) else ReversedSeq(LowerAll(tokens)),
                    fees := if o.exactIn then fees else ReversedSeq(fees),
                    recipient := Lower(o.recipient)))
  {
    hide PathCall, PathText, DecodePath, DecodePathCall, WordLimit, Lower, LowerAll, IsAddress, ReversedSeq, ValidPath;
    var path := PathText(tokens, fees);
    PathRoundTrip(tokens, fees);
    assert |path| == 2 * (20 * |tokens| + 3 * |fees|);
    assert PathCallFits(path, o.recipient, o.amount, o.limit);
    PathCallRoundTrip(path, o.recipient, o.amount, o.limit);
    var args := PathArgs(path, Lower(o.recipient), o.amount, o.limit);
    assert DecodePathCall(PathCall(path, o.recipient, o.amount, o.limit)) == Some(args);
    assert DecodePath(args.path) == Some((LowerAll(tokens), fees));
  }

  lemma PathOrderRoundTrip(o: Order)
    requires OrderFits(o) && 40 * |o.tokens| + 6 * |o.fees| < WordLimit()
    ensures DecodePathOrder(PathOrderCall(o), o.exactIn)
         == Some(o.(tokens := LowerAll(o.tokens), recipient := Lower(o.recipient)))
  {
    hide PathCall, PathText, DecodePathOrder, WordLimit, Lower, LowerAll, IsAddress, ValidPath;
    if o.exactIn {
      PathArgsRoundTrip(o.tokens, o.fees, o);
    } else {
      ReversedPath(o.tokens, o.fees);
      PathArgsRoundTrip(ReversedSeq(o.tokens), ReversedSeq(o.fees), o);
    }
  }

  // ----- the handler -----

  /** The token that goes in: named at the top of the quote, or else by its first hop. */
  function Input(q: Quote): string
    requires |q.route| > 0 && |q.route[0]| > 0
  {
    if q.inputToken == "" then q.route[0][0].tokenIn else q.inputToken
  }

  /** The coin that travels with the call. */
  function Sent(q: Quote): nat
    requires |q.route| > 0 && |q.route[0]| > 0 && Amounts(q)
  {
    if IsNative(Input(q)) then ParseWei(q.inputAmount).value else 0
  }

  /** A quote is refused exactly when `Check` finds a reason, for that reason.  Otherwise, provided
      the configured wrapped token is an address, decoding the call gives back the quote's meaning:
      every token, every fee, the recipient, the fixed amount and the slippage bound.  The value sent
      is the quoted input for native input, and nothing otherwise. */
  method HandleSwap(q: Quote, chainId: int, wrappedRaw: string) returns (r: Outcome)
    ensures Check(q, chainId).Some? ==> r == Refused(Check(q, chainId).value)
    ensures Check(q, chainId).None? ==>
              r.Built? && r.value == Render(Sent(q), Dec)
    ensures Check(q, chainId).None? && IsAddress(Lower(Trim(wrappedRaw))) && |q.route[0]| < 0x100_0000 ==>
              DecodeCall(r.data) == Some(Meaning(q, chainId, Lower(Trim(wrappedRaw))))
  {
    hide Trim, Lower, ParseWei, ParseFee, IsNative, IsAddress, Down, Up, Render, Value,
         SingleCall, DecodeCall, PathText, PathCall, LowerAll, Clamped;
    var wrapped := Lower(Trim(wrappedRaw));
    if |q.route| == 0 || |q.route[0]| == 0 {
      return Refused(NoHop);
    }
    if !IsAddress(q.swapper) {
      return Refused(BadSwapper);
    }
    if q.chainId != 0 && q.chainId != chainId {
      return Refused(WrongChain);
    }
    var amountIn, amountOut := ParseWei(q.inputAmount), ParseWei(q.outputAmount);
    if amountIn.None? || amountOut.None? || amountIn.value <= 0 || amountOut.value <= 0 {
      return Refused(BadAmounts);
    }
    var hops := q.route[0];
    var tokens: seq<string>, fees: seq<nat> := [], [];
    for i := 0 to |hops|
      invariant CheckHops(hops, 0) == CheckHops(hops, i)
      invariant |fees| == i && |tokens| == if i == 0 then 0 else i + 1
      invariant forall k | 0 <= k < i :: ParseFee(hops[k].fee) == Some(fees[k])
      invariant forall k | 0 <= k < |tokens| :: tokens[k] == RouteTokens(hops, wrapped)[k]
    {
      var h := hops[i];
      if h.kind != "" && h.kind != "v3-pool" {
        return Refused(NotV3(i));
      }
      var fee := ParseFee(h.fee);
      if !IsAddress(h.tokenIn) || !IsAddress(h.tokenOut) || fee.None? {
        return Refused(BadHop(i));
      }
      if i == 0 {
        tokens := tokens + [Wrap(h.tokenIn, wrapped)];
      }
      tokens := tokens + [Wrap(h.tokenOut, wrapped)];
      fees := fees + [fee.value];
    }
    HopsChecked(hops, 0);
    assert tokens == RouteTokens(hops, wrapped) && fees == RouteFees(hops);

    var slippage := Clamped(q.slippage);
    ClampedInRange(q.slippage);
    var exactIn := q.tradeType != "EXACT_OUTPUT";
    var amount := if exactIn then amountIn.value else amountOut.value;
    var limit := if exactIn then Down(amountOut.value, slippage) else Up(amountIn.value, slippage);
    ghost var order := Order(exactIn, tokens, fees, q.swapper, amount, limit);
    var data: string;
    if |hops| == 1 {
      var sel := if exactIn then SEL_EXACT_INPUT_SINGLE else SEL_EXACT_OUTPUT_SINGLE;
      data := sel + SingleCall(tokens, fees[0], q.swapper, amount, limit);
    } else if exactIn {
      var path := EncodePath(tokens, fees);
      data := SEL_EXACT_INPUT + PathCall(path, q.swapper, amount, limit);
    } else {
      var backTokens := Reverse(tokens);
      var backFees := Reverse(fees);
      var path := EncodePath(backTokens, backFees);
      data := SEL_EXACT_OUTPUT + PathCall(path, q.swapper, amount, limit);
    }
    var input := if q.inputToken == "" then hops[0].tokenIn else q.inputToken;
    ZeroText();
    r := Built(data, if IsNative(input) then Render(amountIn.value, Dec) else "0");

    if IsAddress(wrapped) && |hops| < 0x100_0000 {
      MeaningFits(q, chainId, wrapped, order);
      DecodeBuilt(order, data);
    }
  }

  lemma ZeroText()
    ensures Render(0, Dec) == "0"
  {}

  lemma ClampedInRange(slippage: Option<real>)
    ensures 0.0 <= Clamped(slippage) <= 100.0
  {}

  /** The order behind an accepted quote always fits the calldata's fixed widths. */
  lemma MeaningFits(q: Quote, chainId: int, wrapped: string, o: Order)
    requires Check(q, chainId).None? && IsAddress(wrapped) && |q.route[0]| < 0x100_0000
    requires forall k | 0 <= k < |q.route[0]| :: ParseFee(q.route[0][k].fee).Some?
    requires o.tokens == RouteTokens(q.route[0], wrapped) && o.fees == RouteFees(q.route[0])
    requires o.recipient == q.swapper && o.exactIn == (q.tradeType != "EXACT_OUTPUT")
    requires o.amount == if o.exactIn then ParseWei(q.inputAmount).value else ParseWei(q.outputAmount).value
    requires o.limit == if o.exactIn then Down(ParseWei(q.outputAmount).value, Clamped(q.slippage))
                        else Up(ParseWei(q.inputAmount).value, Clamped(q.slippage))
    ensures OrderFits(o) && 40 * |o.tokens| + 6 * |o.fees| < WordLimit()
    ensures Meaning(q, chainId, wrapped) == o.(tokens := LowerAll(o.tokens), recipient := Lower(o.recipient))
  {
    hide Lower, Value, IsNative, IsAddress, Down, Up, Bps, WordLimit;
    var hops := q.route[0];
    HopsChecked(hops, 0);
    FeeLimit();
    ManyHops(|hops|);
    SlippageBounds(ParseWei(q.inputAmount).value, q.slippage);
    SlippageBounds(ParseWei(q.outputAmount).value, q.slippage);
    forall i | 0 <= i < |o.tokens| ensures IsAddress(o.tokens[i]) {
      var a := if i == 0 then hops[0].tokenIn else hops[i - 1].tokenOut;
      var k := if i == 0 then 0 else i - 1;
      assert CheckHop(hops[k], k).None?;
      BareAddress(a);
      assert o.tokens[i] == Wrap(a, wrapped);
    }
  }

  lemma ManyHops(n: nat)
    requires n < 0x100_0000
    ensures 40 * (n + 1) + 6 * n < WordLimit()
  {
    FeeLimit();
    PowGrows(8, 64);
    assert Hex.Pow(7) == 16 * Hex.Pow(6) && Hex.Pow(8) == 16 * Hex.Pow(7);
  }

  lemma DecodeBuilt(o: Order, data: string)
    requires OrderFits(o) && 40 * |o.tokens| + 6 * |o.fees| < WordLimit() && o.fees != []
    requires data == if |o.fees| == 1
             then (if o.exactIn then SEL_EXACT_INPUT_SINGLE else SEL_EXACT_OUTPUT_SINGLE)
                  + SingleCall(o.tokens, o.fees[0], o.recipient, o.amount, o.limit)
             else (if o.exactIn then SEL_EXACT_INPUT else SEL_EXACT_OUTPUT) + PathOrderCall(o)
    ensures DecodeCall(data) == Some(o.(tokens := LowerAll(o.tokens), recipient := Lower(o.recipient)))
  {
    hide SingleCall, PathOrderCall, DecodeSingle, DecodePathOrder, WordLimit, Lower, LowerAll;
    if |o.fees| == 1 {
      SingleRoundTrip(o);
      assert data[10..] == SingleCall(o.tokens, o.fees[0], o.recipient, o.amount, o.limit);
    } else {
      PathOrderRoundTrip(o);
      assert data[10..] == PathOrderCall(o);
    }
    assert data[..10] == if |o.fees| == 1 then (if o.exactIn then SEL_EXACT_INPUT_SINGLE else SEL_EXACT_OUTPUT_SINGLE)
                         else (if o.exactIn then SEL_EXACT_INPUT else SEL_EXACT_OUTPUT);
    SelectorsDiffer();
  }

  lemma SelectorsDiffer()
    ensures |{SEL_EXACT_INPUT_SINGLE, SEL_EXACT_INPUT, SEL_EXACT_OUTPUT_SINGLE, SEL_EXACT_OUTPUT}| == 4
  {
    assert SEL_EXACT_INPUT_SINGLE[2] == '0' && SEL_EXACT_INPUT_SINGLE[3] == '4';
    assert SEL_EXACT_INPUT[2] == 'b' && SEL_EXACT_OUTPUT_SINGLE[2] == '5';
    assert SEL_EXACT_OUTPUT[2] == '0' && SEL_EXACT_OUTPUT[3] == '9';
    var s := {SEL_EXACT_INPUT_SINGLE, SEL_EXACT_INPUT, SEL_EXACT_OUTPUT_SINGLE};
    assert SEL_EXACT_OUTPUT !in s;
    assert |s| == 3;
  }

  // ----- hops that do not meet -----

  /** How a path writes one side of a hop. */
  function Side(addr: string, wrapped: string): string { Lower(Wrap(addr, wrapped)) }

  /** The order crosses exactly the pairs its hops name if and only if each hop starts where the one
      before it ended.  The handler never looks: a path has one token between two fees, and it is the
      earlier hop's output. */
  lemma HopsMeetIff(q: Quote, chainId: int, wrapped: string)
    requires Check(q, chainId).None?
    ensures var o, hops := Meaning(q, chainId, wrapped), q.route[0];
            && |o.tokens| == |hops| + 1
            && ((forall i | 0 <= i < |hops| :: o.tokens[i] == Side(hops[i].tokenIn, wrapped)
                                            && o.tokens[i + 1] == Side(hops[i].tokenOut, wrapped))
                <==> forall i | 0 < i < |hops| :: Side(hops[i - 1].tokenOut, wrapped) == Side(hops[i].tokenIn, wrapped))
  {
    hide Check, ParseWei, Clamped, Down, Up, Lower, Wrap, ParseFee;
    AcceptedHops(q, chainId);
    HopsChecked(q.route[0], 0);
    var hops, tokens := q.route[0], Meaning(q, chainId, wrapped).tokens;
    assert tokens == LowerAll(RouteTokens(hops, wrapped));
    forall i | 0 <= i < |hops|
      ensures tokens[i + 1] == Side(hops[i].tokenOut, wrapped)
      ensures tokens[i] == Side(if i == 0 then hops[0].tokenIn else hops[i - 1].tokenOut, wrapped)
    {
    }
  }

  lemma AcceptedHops(q: Quote, chainId: int)
    requires Check(q, chainId).None?
    ensures |q.route| > 0 && |q.route[0]| > 0 && CheckHops(q.route[0], 0).None?
  {}

  /** Twenty bytes of one digit. */
  function Plain(digit: char): string { "0x" + Repeat(digit, 40) }

  lemma PlainIsAddress(digit: char)
    requires '1' <= digit <= '9'
    ensures IsAddress(Plain(digit)) && !IsNative(Plain(digit)) && Lower(Plain(digit)) == Plain(digit)
  {
    var a := Plain(digit);
    assert Lower(a) == a;
    assert Solid(a);
    TrimIsRight(a);
    assert Trim(a) == a;
    assert NATIVE[2] == '0' && a[2] == digit;
  }

  /** Such a quote is accepted: the first hop goes from 1 to 2, the second from 3 to 4, and the call
      sells 2 for 4 in a pool neither hop named. */
  lemma HopsApart(wrapped: string)
    ensures var q := Quote(0, Plain('5'), "", "1", "1", "EXACT_INPUT", None,
                           [[Hop("", Plain('1'), Plain('2'), "1"), Hop("", Plain('3'), Plain('4'), "1")]]);
            && Check(q, 1).None?
            && Meaning(q, 1, wrapped).tokens == [Plain('1'), Plain('2'), Plain('4')]
            && forall h | h in q.route[0] ::
                 Plain('4') !in {Side(h.tokenIn, wrapped), Side(h.tokenOut, wrapped)}
                 || Plain('2') !in {Side(h.tokenIn, wrapped), Side(h.tokenOut, wrapped)}
  {
    hide Plain, IsNative, IsAddress, Lower, WordLimit;
    PlainIsAddress('1');
    PlainIsAddress('2');
    PlainIsAddress('3');
    PlainIsAddress('4');
    PlainIsAddress('5');
    OneIsOne();
    PlainDiffers('4', '1');
    PlainDiffers('4', '2');
    PlainDiffers('2', '3');
    var q := Quote(0, Plain('5'), "", "1", "1", "EXACT_INPUT", None,
                   [[Hop("", Plain('1'), Plain('2'), "1"), Hop("", Plain('3'), Plain('4'), "1")]]);
    var hops := q.route[0];
    assert CheckHop(hops[0], 0).None? && CheckHop(hops[1], 1).None?;
    assert CheckHops(hops, 2).None? && CheckHops(hops, 1).None? && CheckHops(hops, 0).None?;
    var route := RouteTokens(hops, wrapped);
    assert |route| == 3 && route[0] == Wrap(Plain('1'), wrapped) && route[1] == Wrap(Plain('2'), wrapped);
    assert route[2] == Wrap(Plain('4'), wrapped);
    assert LowerAll(route) == [Plain('1'), Plain('2'), Plain('4')];
  }

  lemma PlainDiffers(a: char, b: char)
    ensures Plain(a) == Plain(b) <==> a == b
  {
    assert Plain(a)[2] == a && Plain(b)[2] == b;
  }

  lemma OneIsOne()
    ensures ParseWei("1") == Some(1) && ParseFee("1") == Some(1)
  {
    assert "1"[..0] == "";
    assert Value("1", Dec) == 1;
    FeeLimit();
  }

  // ----- what an accepted quote's call asks for -----

  /** The percentage sent, held between 0 and 100; a half when none is sent. */
  predicate IsTolerance(p: real, slippage: Option<real>) {
    match slippage
    case None => p == 0.5
    case Some(s) => 0.0 <= p <= 100.0 && (if s < 0.0 then p == 0.0 else if s > 100.0 then p == 100.0 else p == s)
  }

  /** The nearest whole number of hundredths of a percent, halves going up. */
  predicate IsBasisPoints(b: int, p: real) {
    b as real - 0.5 <= 100.0 * p < b as real + 0.5
  }

  /** The other amount, loosened by the tolerance and rounded down: an exact input is bound from below by
      so much less of the output, an exact output from above by so much more of the input, as far as a
      word goes. */
  lemma LimitMeans(q: Quote, chainId: int, wrapped: string, p: real, b: int, n: nat)
    requires Check(q, chainId).None? && IsTolerance(p, q.slippage) && IsBasisPoints(b, p)
    ensures var o, amtIn, amtOut := Meaning(q, chainId, wrapped), Value(q.inputAmount, Dec), Value(q.outputAmount, Dec);
            if q.tradeType != "EXACT_OUTPUT" then
              o.exactIn && o.amount == amtIn && 10000 * o.limit <= amtOut * (10000 - b) < 10000 * (o.limit + 1)
            else
              && !o.exactIn && o.amount == amtOut
              && (10000 * n <= amtIn * (10000 + b) < 10000 * (n + 1) ==>
                    o.limit == if n < WordLimit() then n else WordLimit() - 1)
  {
    RefusalIs(q, chainId);
    ToleranceIs(q.slippage, p, b);
    hide Value, AllDigits, WordLimit, Check, RouteTokens, RouteFees, Lower, Bps, Clamped;
    var amtIn, amtOut := ParseWei(q.inputAmount).value, ParseWei(q.outputAmount).value;
    Floor10k(amtOut * (10000 - b));
    Floor10k(amtIn * (10000 + b));
  }

  lemma ToleranceIs(slippage: Option<real>, p: real, b: int)
    requires IsTolerance(p, slippage) && IsBasisPoints(b, p)
    ensures Clamped(slippage) == p && Bps(p) == b && 0 <= b <= 10000 && 0.0 <= p
  {
    assert 0.0 <= p * 100.0 <= 10000.0;
  }

  lemma Floor10k(x: int)
    ensures 10000 * (x / 10000) <= x < 10000 * (x / 10000 + 1)
  {}

  predicate IsCoin(a: string) { Lower(Trim(a)) == NATIVE }

  /** And the rest is the quote's own: its tokens in travel order, the coin as the wrapped token, its
      fees, and its swapper. */
  lemma MeaningIs(q: Quote, chainId: int, wrapped: string)
    requires Check(q, chainId).None?
    ensures var o, hops := Meaning(q, chainId, wrapped), q.route[0];
            && |o.tokens| == |hops| + 1 && |o.fees| == |hops| && o.recipient == Lower(q.swapper)
            && o.tokens[0] == Lower(if IsCoin(hops[0].tokenIn) then wrapped else hops[0].tokenIn)
            && (forall i | 0 <= i < |hops| ::
                  && o.tokens[i + 1] == Lower(if IsCoin(hops[i].tokenOut) then wrapped else hops[i].tokenOut)
                  && ParseSigned(hops[i].fee, Dec) == Some(o.fees[i]))
            && Amounts(q)
            && Sent(q) == if IsCoin(if q.inputToken == "" then hops[0].tokenIn else q.inputToken) then Value(q.inputAmount, Dec) else 0
  {
    AcceptedAmounts(q, chainId);
    AcceptedHops(q, chainId);
    HopsChecked(q.route[0], 0);
    TokensAre(q.route[0], wrapped);
    FeesAre(q.route[0]);
    hide Value, AllDigits, WordLimit, Check, Lower, Trim, Down, Up, Clamped, ParseSigned, CheckHop, LowerAll, RouteTokens, RouteFees;
  }

  lemma TokensAre(hops: seq<Hop>, wrapped: string)
    requires hops != []
    ensures var tokens := LowerAll(RouteTokens(hops, wrapped));
            && |tokens| == |hops| + 1
            && tokens[0] == Lower(if IsCoin(hops[0].tokenIn) then wrapped else hops[0].tokenIn)
            && forall i | 0 <= i < |hops| ::
                 tokens[i + 1] == Lower(if IsCoin(hops[i].tokenOut) then wrapped else hops[i].tokenOut)
  {
    hide Lower, Trim;
    var tokens := RouteTokens(hops, wrapped);
    forall i | 0 <= i <= |hops|
      ensures var a := if i == 0 then hops[0].tokenIn else hops[i - 1].tokenOut;
              LowerAll(tokens)[i] == Lower(if IsCoin(a) then wrapped else a)
    {
      var a := if i == 0 then hops[0].tokenIn else hops[i - 1].tokenOut;
      LowerTwice(a);
      assert tokens[i] == Wrap(a, wrapped);
      assert LowerAll(tokens)[i] == Lower(tokens[i]);
    }
  }

  lemma FeesAre(hops: seq<Hop>)
    requires forall i | 0 <= i < |hops| :: CheckHop(hops[i], i).None?
    ensures forall i | 0 <= i < |hops| :: ParseFee(hops[i].fee).Some?
    ensures |RouteFees(hops)| == |hops| && forall i | 0 <= i < |hops| :: ParseSigned(hops[i].fee, Dec) == Some(RouteFees(hops)[i])
  {
    hide ParseSigned, IsAddress;
  }

  lemma AcceptedAmounts(q: Quote, chainId: int)
    requires Check(q, chainId).None?
    ensures Amounts(q)
  {}

  lemma LowerTwice(s: string)
    ensures Lower(Lower(s)) == Lower(s)
  {}

  // ----- what the value covers -----

  /** An upper bound is no more than the amount itself exactly when a basis point of it is lost in
      rounding, or there is no larger word. */
  lemma UpAddsNothingIff(a: nat, pct: real)
    requires pct >= 0.0 && Bps(pct) >= 0 && a < WordLimit()
    ensures Up(a, pct) <= a <==> a * Bps(pct) < 10000 || a == WordLimit() - 1
  {
    hide Bps, WordLimit;
    var b := Bps(pct);
    assert a * (10000 + b) == a * 10000 + a * b;
    assert Div10k(a, 10000 + b) == a + a * b / 10000;
  }

  /** An exact-output call from the chain's own coin says how much it may spend, and carries the quoted
      input.  The value covers what the call may spend exactly when the tolerance comes to nothing:
      otherwise a price that moved within the tolerance finds too little coin. */
  lemma ValueCoversIff(q: Quote, chainId: int, wrapped: string)
    requires Check(q, chainId).None? && IsNative(Input(q)) && q.tradeType == "EXACT_OUTPUT"
    ensures Meaning(q, chainId, wrapped).limit <= Sent(q)
       <==> Sent(q) * Bps(Clamped(q.slippage)) < 10000 || Sent(q) == WordLimit() - 1
  {
    hide Up, Bps, IsNative, Lower, Wrap, ParseFee, Value, AllDigits, WordLimit, CheckHops, IsAddress;
    ClampedInRange(q.slippage);
    SlippageBounds(ParseWei(q.inputAmount).value, q.slippage);
    UpAddsNothingIff(ParseWei(q.inputAmount).value, Clamped(q.slippage));
  }

  /** Whether coin is sent rests on the quote's own word for its input alone: this quote is accepted,
      and sends coin with a call whose path starts at the token its hop names. */
  lemma ValueOffPath(wrapped: string)
    ensures var q := Quote(0, Plain('5'), NATIVE, "1", "1", "EXACT_INPUT", None, [[Hop("", Plain('1'), Plain('2'), "1")]]);
            Check(q, 1).None? && Sent(q) == 1 && Meaning(q, 1, wrapped).tokens == [Plain('1'), Plain('2')]
  {
    NativeIsNative();
    hide Plain, IsNative, IsAddress, Lower, WordLimit;
    PlainIsAddress('1');
    PlainIsAddress('2');
    PlainIsAddress('5');
    OneIsOne();
    var q := Quote(0, Plain('5'), NATIVE, "1", "1", "EXACT_INPUT", None, [[Hop("", Plain('1'), Plain('2'), "1")]]);
    var hops := q.route[0];
    assert CheckHop(hops[0], 0).None?;
    assert CheckHops(hops, 1).None? && CheckHops(hops, 0).None?;
    var route := RouteTokens(hops, wrapped);
    assert |route| == 2 && route[0] == Wrap(Plain('1'), wrapped) && route[1] == Wrap(Plain('2'), wrapped);
    assert LowerAll(route) == [Plain('1'), Plain('2')];
  }

  lemma NativeIsNative()
    ensures IsNative(NATIVE)
  {
    assert forall i | 0 <= i < |NATIVE| :: NATIVE[i] in "0x";
    assert Lower(NATIVE) == NATIVE;
    assert Solid(NATIVE);
    TrimIsRight(NATIVE);
  }
}
