/** The router's calldata (engine/swap.go, engine/quote.go:998-1053): fixed-width hex words, the
    packed path, the head/tail layout of the path calls, and the decoder that reads them back.

    The layout is that of the Solidity Contract ABI Specification, section "Formal Specification of
    the Encoding".  A word is 32 bytes, written as 64 hex characters. */
module Calldata {
  import opened Wrappers
  import opened Text

  const WORD_HEX: nat := 64

  /** 16^64 = 2^256: the first number a word cannot hold. */
  function WordLimit(): nat { Hex.Pow(64) }

  predicate IsAddress(s: string) {
    |s| == 42 && "0x" <= s && AllDigits(s[2..], Hex)
  }

  // ----- words -----

  /** An integer as one argument: `%064x`. */
  function NumWord(n: nat): string {
    Pad(Render(n, Hex), WORD_HEX)
  }

  /** An address as one argument, left-padded. */
  function AddrWord(addr: string): string {
    Repeat('0', 24) + Bare(addr)
  }

  /** An address's digits, lower-cased. */
  function Bare(addr: string): string {
    Lower(TrimPrefix(addr, "0x"))
  }

  predicate IsWord(w: string) {
    |w| == WORD_HEX && AllDigits(w, Hex)
  }

  lemma NumWordRoundTrip(n: nat)
    requires n < WordLimit()
    ensures IsWord(NumWord(n)) && Value(NumWord(n), Hex) == n
  {
    hide Render, Value;
    PadRoundTrip(n, Hex, WORD_HEX);
  }

  /** An argument past 2^256 would run longer than a word and shift everything after it. */
  lemma NumWordWidth(n: nat)
    ensures |NumWord(n)| == WORD_HEX <==> n < WordLimit()
  {
    hide Render;
    RenderLength(n, Hex, WORD_HEX);
  }

  lemma LowerDigits(s: string)
    requires AllDigits(s, Hex)
    ensures AllDigits(Lower(s), Hex)
  {
    forall i | 0 <= i < |s| ensures IsDigit(Lower(s)[i], Hex) {
      assert IsDigit(s[i], Hex);
    }
  }

  lemma BareAddress(a: string)
    requires IsAddress(a)
    ensures |Bare(a)| == 40 && AllDigits(Bare(a), Hex) && "0x" + Bare(a) == Lower(a)
    ensures IsAddress(Lower(a)) && Bare(Lower(a)) == Bare(a)
  {
    LowerDigits(a[2..]);
    assert Lower(a)[..2] == "0x" && Lower(a)[2..] == Lower(a[2..]);
  }

  lemma AddrWordIsWord(a: string)
    requires IsAddress(a)
    ensures IsWord(AddrWord(a))
    ensures AddrWord(a)[..24] == Repeat('0', 24) && "0x" + AddrWord(a)[24..] == Lower(a)
  {
    hide Bare, Lower;
    BareAddress(a);
    ValueZeros(24, Hex);
  }

  /** A reply cut into words; the first cut that spells no number ends it. */
  function WordsOf(h: string): seq<int> {
    if |h| < WORD_HEX then []
    else match ParseSigned(h[..WORD_HEX], Hex)
      case None => []
      case Some(n) => [n] + WordsOf(h[WORD_HEX..])
  }

  method Words(data: string) returns (out: seq<int>)
    ensures out == WordsOf(TrimPrefix(data, "0x"))
  {
    var h := TrimPrefix(data, "0x");
    out := [];
    var i := 0;
    while i + WORD_HEX <= |h|
      invariant 0 <= i <= |h|
      invariant out + WordsOf(h[i..]) == WordsOf(h)
    {
      assert h[i..][..WORD_HEX] == h[i..i + WORD_HEX] && h[i..][WORD_HEX..] == h[i + WORD_HEX..];
      var n := ParseSigned(h[i..i + WORD_HEX], Hex);
      if n.None? {
        return out;
      }
      out := out + [n.value];
      i := i + WORD_HEX;
    }
  }

  function Flat(ws: seq<string>): string {
    if ws == [] then "" else ws[0] + Flat(ws[1..])
  }

  function NumWords(ns: seq<nat>): seq<string> {
    seq(|ns|, i requires 0 <= i < |ns| => NumWord(ns[i]))
  }

  lemma ParseUnsigned(w: string)
    requires w != [] && AllDigits(w, Hex)
    ensures ParseSigned(w, Hex) == Some(Value(w, Hex) as int)
  {
    hide Value;
    assert IsDigit(w[0], Hex);
  }

  /** Splitting undoes laying words end to end, with the `0x` prefix or without it. */
  lemma {:induction false} WordsRoundTrip(ns: seq<nat>)
    requires forall i | 0 <= i < |ns| :: ns[i] < WordLimit()
    ensures WordsOf(Flat(NumWords(ns))) == ns
  {
    if ns != [] {
      var w, rest := NumWord(ns[0]), Flat(NumWords(ns[1..]));
      NumWordRoundTrip(ns[0]);
      ParseUnsigned(w);
      assert NumWords(ns)[1..] == NumWords(ns[1..]);
      assert (w + rest)[..WORD_HEX] == w && (w + rest)[WORD_HEX..] == rest;
      hide NumWord, NumWords;
      WordsRoundTrip(ns[1..]);
    }
  }

  // ----- two's complement -----

  /** `decodeInt256` and `signed`: a word with its high bit set stands for a negative number. */
  function Signed(w: int): int {
    if w >= 8 * Hex.Pow(63) then w - WordLimit() else w
  }

  function TwosComplement(x: int): nat
    requires -8 * Hex.Pow(63) <= x < 8 * Hex.Pow(63)
  {
    if x < 0 then x + WordLimit() else x
  }

  lemma SignedRoundTrip(x: int)
    requires -8 * Hex.Pow(63) <= x < 8 * Hex.Pow(63)
    ensures TwosComplement(x) < WordLimit() && Signed(TwosComplement(x)) == x
  {
    assert Hex.Pow(64) == 16 * Hex.Pow(63);
  }

  // ----- the packed path -----

  function FeeText(fee: nat): string {
    Pad(Render(fee, Hex), 6)
  }

  /** What one token contributes: its address, and the fee of the pool entered from it if any. */
  function Segment(token: string, fees: seq<nat>): string {
    Bare(token) + if fees == [] then "" else FeeText(fees[0])
  }

  function After<T>(s: seq<T>, i: nat): seq<T> {
    if i < |s| then s[i..] else []
  }

  /** The packed path: addresses and fees by turns, each at its fixed width. */
  function PathText(tokens: seq<string>, fees: seq<nat>): string {
    if tokens == [] then "" else Segment(tokens[0], fees) + PathText(tokens[1..], After(fees, 1))
  }

  method EncodePath(tokens: seq<string>, fees: seq<nat>) returns (b: string)
    ensures b == PathText(tokens, fees)
  {
    hide *;
    b := "";
    PathStart(tokens, fees);
    for i := 0 to |tokens|
      invariant b + PathText(tokens[i..], After(fees, i)) == PathText(tokens, fees)
    {
      PathStep(tokens, fees, i);
      b := b + Bare(tokens[i]);
      if i < |fees| {
        b := b + FeeText(fees[i]);
      }
    }
  }

  lemma PathStart(tokens: seq<string>, fees: seq<nat>)
    ensures tokens[0..] == tokens && After(fees, 0) == fees
    ensures PathText(tokens[|tokens|..], After(fees, |tokens|)) == ""
  {}

  lemma PathStep(tokens: seq<string>, fees: seq<nat>, i: nat)
    requires i < |tokens|
    ensures PathText(tokens[i..], After(fees, i))
         == Bare(tokens[i]) + (if i < |fees| then FeeText(fees[i]) else "")
          + PathText(tokens[i + 1..], After(fees, i + 1))
  {
    hide FeeText, Bare;
    assert tokens[i..][1..] == tokens[i + 1..];
    assert After(After(fees, i), 1) == After(fees, i + 1);
  }

  function ReversedSeq<T>(s: seq<T>): seq<T> {
    seq(|s|, i requires 0 <= i < |s| => s[|s| - 1 - i])
  }

  lemma ReversedTwice<T>(s: seq<T>)
    ensures ReversedSeq(ReversedSeq(s)) == s
  {}

  method Reverse<T(0)>(s: seq<T>) returns (out: seq<T>)
    ensures out == ReversedSeq(s)
  {
    var a := new T[|s|];
    for i := 0 to |s|
      invariant forall k | 0 <= k < i :: a[|s| - 1 - k] == s[k]
    {
      a[|s| - 1 - i] := s[i];
    }
    out := a[..];
    assert forall k | 0 <= k < |s| :: a[k] == s[|s| - 1 - k] by {
      forall k | 0 <= k < |s| ensures a[k] == s[|s| - 1 - k] {
        assert a[|s| - 1 - (|s| - 1 - k)] == s[|s| - 1 - k];
      }
    }
  }

  /** The path read back by position alone: 40 characters of address, 6 of fee, and so on. */
  function DecodePath(s: string): Option<(seq<string>, seq<nat>)> {
    if |s| < 40 || !AllDigits(s[..40], Hex) then None
    else if |s| == 40 then Some((["0x" + s], []))
    else if |s| < 46 || !AllDigits(s[40..46], Hex) then None
    else match DecodePath(s[46..])
      case None => None
      case Some((tokens, fees)) => Some((["0x" + s[..40]] + tokens, [Value(s[40..46], Hex)] + fees))
  }

  predicate ValidPath(tokens: seq<string>, fees: seq<nat>) {
    && |tokens| == |fees| + 1
    && (forall i | 0 <= i < |tokens| :: IsAddress(tokens[i]))
    && (forall i | 0 <= i < |fees| :: fees[i] < Hex.Pow(6))
  }

  function LowerAll(tokens: seq<string>): seq<string> {
    seq(|tokens|, i requires 0 <= i < |tokens| => Lower(tokens[i]))
  }

  lemma FeeRoundTrip(fee: nat)
    requires fee < Hex.Pow(6)
    ensures |FeeText(fee)| == 6 && AllDigits(FeeText(fee), Hex) && Value(FeeText(fee), Hex) == fee
  {
    hide Render, Value;
    PadRoundTrip(fee, Hex, 6);
  }

  /** Decoding the path recovers every token and every fee, in order; it is hex throughout and
      takes 20 bytes per token and 3 per fee. */
  lemma {:induction false} PathRoundTrip(tokens: seq<string>, fees: seq<nat>)
    requires ValidPath(tokens, fees)
    ensures AllDigits(PathText(tokens, fees), Hex)
    ensures |PathText(tokens, fees)| == 40 * |tokens| + 6 * |fees|
    ensures DecodePath(PathText(tokens, fees)) == Some((LowerAll(tokens), fees))
  {
    hide Bare, Lower, FeeText, Value, DecodePath;
    var t := Bare(tokens[0]);
    BareAddress(tokens[0]);
    assert After(fees, 1) == if fees == [] then [] else fees[1..];
    if fees == [] {
      DecodeLast(t);
      assert tokens[1..] == [];
      assert PathText(tokens, fees) == t;
      assert LowerAll(tokens) == [Lower(tokens[0])];
    } else {
      PathRoundTrip(tokens[1..], fees[1..]);
      FeeRoundTrip(fees[0]);
      DecodeStep(t, fees[0], PathText(tokens[1..], fees[1..]));
      assert PathText(tokens, fees) == t + FeeText(fees[0]) + PathText(tokens[1..], fees[1..]);
      assert fees == [fees[0]] + fees[1..];
      assert LowerAll(tokens) == [Lower(tokens[0])] + LowerAll(tokens[1..]);
    }
  }

  lemma DecodeLast(t: string)
    requires |t| == 40 && AllDigits(t, Hex)
    ensures DecodePath(t) == Some((["0x" + t], []))
  {
    assert t[..40] == t;
  }

  lemma DecodeStep(t: string, fee: nat, rest: string)
    requires |t| == 40 && AllDigits(t, Hex) && fee < Hex.Pow(6)
    requires DecodePath(rest).Some?
    ensures DecodePath(t + FeeText(fee) + rest)
         == Some((["0x" + t] + DecodePath(rest).value.0, [fee] + DecodePath(rest).value.1))
  {
    hide FeeText, Value;
    FeeRoundTrip(fee);
    var s := t + FeeText(fee) + rest;
    assert s[..40] == t && s[40..46] == FeeText(fee) && s[46..] == rest;
  }

  // ----- the path calls -----

  /** The one argument of `exactInput`/`exactOutput`: a pointer to a tuple whose first member is a
      pointer to the path (engine/swap.go:252-263). */
  function PathCall(path: string, recipient: string, amount: nat, limit: nat): string {
    var bytes := |path| / 2;
    var pad := (64 - |path| % 64) % 64;
    NumWord(0x20) + NumWord(0x80) + AddrWord(recipient) + NumWord(amount) + NumWord(limit)
    + NumWord(bytes) + path + Repeat('0', pad)
  }

  /** The word at a byte offset, when the data reaches that far and holds hex there. */
  function WordAt(data: string, at: nat): Option<nat> {
    if 2 * at + WORD_HEX <= |data| && AllDigits(data[2 * at..2 * at + WORD_HEX], Hex)
    then Some(Value(data[2 * at..2 * at + WORD_HEX], Hex)) else None
  }

  /** The address at a byte offset; the twelve bytes before it must be zero. */
  function AddressAt(data: string, at: nat): Option<string> {
    if 2 * at + WORD_HEX <= |data| && data[2 * at..2 * at + 24] == Repeat('0', 24)
       && AllDigits(data[2 * at + 24..2 * at + WORD_HEX], Hex)
    then Some("0x" + data[2 * at + 24..2 * at + WORD_HEX]) else None
  }

  /** Dynamic bytes at an offset: a length, that many bytes, zeros to the end of the word. */
  function BytesAt(data: string, at: nat): Option<string> {
    match WordAt(data, at)
    case None => None
    case Some(n) =>
      var start := 2 * at + WORD_HEX;
      var stop := start + 2 * n;
      var pad := (64 - 2 * n % 64) % 64;
      if stop + pad <= |data| && data[stop..stop + pad] == Repeat('0', pad)
      then Some(data[start..stop]) else None
  }

  datatype PathArgs = PathArgs(path: string, recipient: string, amount: nat, limit: nat)

  /** An ABI decoder for `((bytes,address,uint256,uint256))`: it follows the two offsets wherever
      they point. */
  function DecodePathCall(data: string): Option<PathArgs> {
    match WordAt(data, 0)
    case None => None
    case Some(tuple) =>
      match WordAt(data, tuple)
      case None => None
      case Some(tail) =>
        var path, recipient := BytesAt(data, tuple + tail), AddressAt(data, tuple + 32);
        var amount, limit := WordAt(data, tuple + 64), WordAt(data, tuple + 96);
        if path.Some? && recipient.Some? && amount.Some? && limit.Some?
        then Some(PathArgs(path.value, recipient.value, amount.value, limit.value)) else None
  }

  lemma WordFound(data: string, before: string, n: nat, after: string)
    requires n < WordLimit() && |before| % 2 == 0 && data == before + NumWord(n) + after
    ensures WordAt(data, |before| / 2) == Some(n)
  {
    NumWordRoundTrip(n);
    assert data[|before|..|before| + WORD_HEX] == NumWord(n);
  }

  lemma AddressFound(data: string, before: string, a: string, after: string)
    requires IsAddress(a) && |before| % 2 == 0 && data == before + AddrWord(a) + after
    ensures AddressAt(data, |before| / 2) == Some(Lower(a))
  {
    AddrWordIsWord(a);
    var w := AddrWord(a);
    assert data[|before|..|before| + 24] == w[..24];
    assert data[|before| + 24..|before| + WORD_HEX] == w[24..];
    assert forall i | 24 <= i < WORD_HEX :: IsDigit(w[i], Hex);
  }

  lemma BytesFound(data: string, before: string, path: string)
    requires |before| % 2 == 0 && |path| % 2 == 0 && |path| / 2 < WordLimit()
    requires data == before + NumWord(|path| / 2) + path
                   + Repeat('0', (64 - |path| % 64) % 64)
    ensures BytesAt(data, |before| / 2) == Some(path)
  {
    hide WordLimit, NumWord, WordAt;
    var pad := Repeat('0', (64 - |path| % 64) % 64);
    assert data == before + NumWord(|path| / 2) + (path + pad);
    WordFound(data, before, |path| / 2, path + pad);
    NumWordWidth(|path| / 2);
    var start := |before| + WORD_HEX;
    assert data[start..start + |path|] == path;
    assert data[start + |path|..start + |path| + |pad|] == pad;
  }

  predicate PathCallFits(path: string, recipient: string, amount: nat, limit: nat) {
    && |path| % 2 == 0 && |path| / 2 < WordLimit()
    && IsAddress(recipient) && amount < WordLimit() && limit < WordLimit()
  }

  /** The call is a whole number of words. */
  lemma PathCallWidth(path: string, recipient: string, amount: nat, limit: nat)
    requires PathCallFits(path, recipient, amount, limit)
    ensures |PathCall(path, recipient, amount, limit)| % 64 == 0
    ensures |PathCall(path, recipient, amount, limit)| >= 6 * WORD_HEX + |path|
  {
    hide NumWord, AddrWord;
    SmallWord(0x20);
    SmallWord(0x80);
    NumWordWidth(amount);
    NumWordWidth(limit);
    NumWordWidth(|path| / 2);
    AddrWordIsWord(recipient);
  }

  lemma SmallWord(n: nat)
    requires n < 0x100
    ensures n < WordLimit() && |NumWord(n)| == WORD_HEX
  {
    hide NumWord;
    assert Hex.Pow(64) == 16 * (16 * Hex.Pow(62));
    assert Hex.Pow(62) >= 1;
    NumWordWidth(n);
  }

  /** Decoding the call recovers the path, the recipient, the amount and the limit. */
  lemma PathCallRoundTrip(path: string, recipient: string, amount: nat, limit: nat)
    requires PathCallFits(path, recipient, amount, limit)
    ensures DecodePathCall(PathCall(path, recipient, amount, limit))
         == Some(PathArgs(path, Lower(recipient), amount, limit))
  {
    hide NumWord, AddrWord, WordAt, AddressAt, BytesAt, WordLimit;
    SmallWord(0x20);
    SmallWord(0x80);
    NumWordWidth(amount);
    NumWordWidth(limit);
    AddrWordIsWord(recipient);
    var data := PathCall(path, recipient, amount, limit);
    var tail := NumWord(|path| / 2) + path + Repeat('0', (64 - |path| % 64) % 64);
    var w0, w1, w2, w3, w4 := NumWord(0x20), NumWord(0x80), AddrWord(recipient), NumWord(amount), NumWord(limit);
    assert data == w0 + w1 + w2 + w3 + w4 + tail;
    assert data == "" + w0 + (w1 + w2 + w3 + w4 + tail);
    WordFound(data, "", 0x20, w1 + w2 + w3 + w4 + tail);
    assert data == w0 + w1 + (w2 + w3 + w4 + tail);
    WordFound(data, w0, 0x80, w2 + w3 + w4 + tail);
    assert data == (w0 + w1) + w2 + (w3 + w4 + tail);
    AddressFound(data, w0 + w1, recipient, w3 + w4 + tail);
    assert data == (w0 + w1 + w2) + w3 + (w4 + tail);
    WordFound(data, w0 + w1 + w2, amount, w4 + tail);
    WordFound(data, w0 + w1 + w2 + w3, limit, tail);
    BytesFound(data, w0 + w1 + w2 + w3 + w4, path);
  }
}
