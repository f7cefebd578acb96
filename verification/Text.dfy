/** Text as the source handles it: positional numerals in base 10 and 16, case folding and
    trimming.  A string is a sequence of characters; only ASCII letters fold. */
module Text {
  import opened Wrappers

  // ----- radix arithmetic, kept linear by naming the two radixes in use -----

  datatype Radix = Dec | Hex
  {
    function Size(): nat { if Dec? then 10 else 16 }

    function Times(x: int): int { if Dec? then 10 * x else 16 * x }

    function Quotient(n: nat): nat { if Dec? then n / 10 else n / 16 }

    function Remainder(n: nat): (r: nat)
      ensures r < 16
    {
      if Dec? then n % 10 else n % 16
    }

    function Pow(k: nat): (p: nat)
      ensures p > 0
    {
      if k == 0 then 1 else Times(Pow(k - 1))
    }
  }

  /** v * radix^k, one digit at a time. */
  function Shift(v: nat, k: nat, b: Radix): nat {
    if k == 0 then v else b.Times(Shift(v, k - 1, b))
  }

  lemma {:induction false} ShiftIsTimesPow(v: nat, k: nat, b: Radix)
    ensures Shift(v, k, b) == v * b.Pow(k)
  {
    if k > 0 {
      ShiftIsTimesPow(v, k - 1, b);
      TimesOver(b, v, b.Pow(k - 1));
    }
  }

  lemma TimesOver(b: Radix, v: int, p: int)
    ensures b.Times(v * p) == v * b.Times(p)
  {
    assert 10 * (v * p) == v * (10 * p);
    assert 16 * (v * p) == v * (16 * p);
  }

  lemma {:induction false} ShiftZero(k: nat, b: Radix)
    ensures Shift(0, k, b) == 0
  {
    if k > 0 {
      ShiftZero(k - 1, b);
    }
  }

  // ----- digits -----

  /** The lower-case digit for d. */
  function DigitChar(d: nat): char
    requires d < 16
  {
    if d < 10 then ('0' as int + d) as char else ('a' as int + d - 10) as char
  }

  /** The value of a digit character in either case, or 16 for anything else. */
  function DigitValue(c: char): nat {
    if '0' <= c <= '9' then c as nat - '0' as nat
    else if 'a' <= c <= 'f' then c as nat - 'a' as nat + 10
    else if 'A' <= c <= 'F' then c as nat - 'A' as nat + 10
    else 16
  }

  predicate IsDigit(c: char, b: Radix) {
    DigitValue(c) < b.Size()
  }

  predicate AllDigits(s: string, b: Radix) {
    forall i | 0 <= i < |s| :: IsDigit(s[i], b)
  }

  /** The shortest numeral for n, as `big.Int.String` and `%x` write it. */
  function Render(n: nat, b: Radix): (s: string)
    ensures |s| > 0
  {
    if n < b.Size() then [DigitChar(n)] else Render(b.Quotient(n), b) + [DigitChar(b.Remainder(n))]
  }

  /** A signed number, as `big.Int.String` and `%d` write it. */
  function IntText(x: int): string {
    if x < 0 then "-" + Render(-x, Dec) else Render(x, Dec)
  }

  /** The number a numeral spells. */
  function Value(s: string, b: Radix): nat
    requires AllDigits(s, b)
  {
    if s == [] then 0 else b.Times(Value(s[..|s| - 1], b)) + DigitValue(s[|s| - 1])
  }

  function Repeat(c: char, n: nat): (s: string)
    ensures |s| == n && forall i | 0 <= i < n :: s[i] == c
  {
    seq(n, _ => c)
  }

  /** Left-padding with zeros to at least `w` characters: `%0wx`. */
  function Pad(s: string, w: nat): string {
    if |s| < w then Repeat('0', w - |s|) + s else s
  }

  /** Reading a rendered number gives the number back. */
  lemma {:induction false} RenderRoundTrip(n: nat, b: Radix)
    ensures AllDigits(Render(n, b), b)
    ensures Value(Render(n, b), b) == n
  {
    var s := Render(n, b);
    if n < b.Size() {
      assert s[..0] == [];
      assert Value(s[..0], b) == 0;
    } else {
      RenderRoundTrip(b.Quotient(n), b);
      assert s[..|s| - 1] == Render(b.Quotient(n), b);
    }
  }

  /** A numeral fits in k digits exactly when the number is below radix^k. */
  lemma {:induction false} RenderLength(n: nat, b: Radix, k: nat)
    requires k > 0
    ensures |Render(n, b)| <= k <==> n < b.Pow(k)
    decreases n
  {
    assert b.Pow(k) == b.Times(b.Pow(k - 1));
    if n >= b.Size() {
      if k == 1 {
        assert b.Pow(0) == 1;
      } else {
        RenderLength(b.Quotient(n), b, k - 1);
      }
    }
  }

  /** A k-digit numeral is below radix^k. */
  lemma {:induction false} ValueBound(s: string, b: Radix)
    requires AllDigits(s, b)
    ensures Value(s, b) < b.Pow(|s|)
  {
    if s != [] {
      ValueBound(s[..|s| - 1], b);
    }
  }

  lemma {:induction false} ValueConcat(s: string, t: string, b: Radix)
    requires AllDigits(s, b) && AllDigits(t, b)
    ensures AllDigits(s + t, b)
    ensures Value(s + t, b) == Shift(Value(s, b), |t|, b) + Value(t, b)
    decreases |t|
  {
    if t == [] {
      assert s + t == s;
    } else {
      var u := t[..|t| - 1];
      ValueConcat(s, u, b);
      assert (s + t)[..|s + t| - 1] == s + u;
      assert (s + t)[|s + t| - 1] == t[|t| - 1];
    }
  }

  lemma {:induction false} ValueZeros(k: nat, b: Radix)
    ensures AllDigits(Repeat('0', k), b) && Value(Repeat('0', k), b) == 0
  {
    if k > 0 {
      ValueZeros(k - 1, b);
      assert Repeat('0', k)[..k - 1] == Repeat('0', k - 1);
    }
  }

  /** Padding changes a numeral's width and not its value. */
  lemma PadRoundTrip(n: nat, b: Radix, w: nat)
    requires 0 < w && n < b.Pow(w)
    ensures |Pad(Render(n, b), w)| == w
    ensures AllDigits(Pad(Render(n, b), w), b) && Value(Pad(Render(n, b), w), b) == n
  {
    RenderRoundTrip(n, b);
    RenderLength(n, b, w);
    var s := Render(n, b);
    if |s| < w {
      ValueZeros(w - |s|, b);
      ValueConcat(Repeat('0', w - |s|), s, b);
      ShiftZero(|s|, b);
    }
  }

  // ----- signed numerals, as `big.Int.SetString` and `strconv.ParseInt` read them -----

  /** An optional sign and at least one digit. */
  function ParseSigned(s: string, b: Radix): Option<int> {
    var (sign, digits) := if s != [] && s[0] == '-' then (-1, s[1..])
                          else if s != [] && s[0] == '+' then (1, s[1..])
                          else (1, s);
    if digits == [] || !AllDigits(digits, b) then None else Some(sign * Value(digits, b))
  }

  // ----- case and space -----

  function LowerChar(c: char): char {
    if 'A' <= c <= 'Z' then (c as int - 'A' as int + 'a' as int) as char else c
  }

  function Lower(s: string): string {
    seq(|s|, i requires 0 <= i < |s| => LowerChar(s[i]))
  }

  function UpperChar(c: char): char {
    if 'a' <= c <= 'z' then (c as int - 'a' as int + 'A' as int) as char else c
  }

  function Upper(s: string): string {
    seq(|s|, i requires 0 <= i < |s| => UpperChar(s[i]))
  }

  /** Go's `unicode.IsSpace` on the Latin-1 range. */
  predicate IsBlank(c: char) {
    c == ' ' || '\t' <= c <= '\r' || c as int == 0x85 || c as int == 0xA0
  }

  function TrimLeft(s: string): (r: string)
    ensures |r| <= |s|
  {
    if s != [] && IsBlank(s[0]) then TrimLeft(s[1..]) else s
  }

  function TrimRight(s: string): (r: string)
    ensures |r| <= |s|
  {
    if s != [] && IsBlank(s[|s| - 1]) then TrimRight(s[..|s| - 1]) else s
  }

  /** `strings.TrimSpace`. */
  function Trim(s: string): (r: string)
    ensures |r| <= |s|
  {
    TrimRight(TrimLeft(s))
  }

  predicate AllBlank(g: string) {
    forall i | 0 <= i < |g| :: IsBlank(g[i])
  }

  /** A text no trimming touches. */
  predicate Solid(s: string) {
    s != [] && !IsBlank(s[0]) && !IsBlank(s[|s| - 1])
  }

  lemma TrimIsRight(s: string)
    requires s != [] && !IsBlank(s[0])
    ensures Trim(s) == TrimRight(s)
  {}

  lemma {:induction false} TrimLeftSkips(g: string, x: string)
    requires AllBlank(g)
    ensures TrimLeft(g + x) == TrimLeft(x)
  {
    if g == [] {
      assert g + x == x;
    } else {
      assert (g + x)[1..] == g[1..] + x;
      TrimLeftSkips(g[1..], x);
    }
  }

  lemma {:induction false} TrimRightSkips(x: string, g: string)
    requires AllBlank(g)
    ensures TrimRight(x + g) == TrimRight(x)
  {
    if g == [] {
      assert x + g == x;
    } else {
      assert (x + g)[..|x + g| - 1] == x + g[..|g| - 1];
      TrimRightSkips(x, g[..|g| - 1]);
    }
  }

  /** Trimming stops at the last character that is no blank. */
  lemma {:induction false} TrimRightAfter(x: string, y: string)
    requires x != [] && !IsBlank(x[|x| - 1])
    ensures TrimRight(x + y) == x + TrimRight(y)
    decreases |y|
  {
    if y == [] {
      assert x + y == x;
    } else if IsBlank(y[|y| - 1]) {
      assert (x + y)[..|x + y| - 1] == x + y[..|y| - 1];
      TrimRightAfter(x, y[..|y| - 1]);
    }
  }

  lemma {:induction false} TrimLeftTwice(s: string)
    ensures TrimLeft(TrimLeft(s)) == TrimLeft(s)
  {
    if s != [] && IsBlank(s[0]) {
      TrimLeftTwice(s[1..]);
    }
  }

  lemma {:induction false} TrimRightTwice(s: string)
    ensures TrimRight(TrimRight(s)) == TrimRight(s)
  {
    if s != [] && IsBlank(s[|s| - 1]) {
      TrimRightTwice(s[..|s| - 1]);
    }
  }

  /** Blanks around a text do not change what trimming leaves. */
  lemma TrimAround(g: string, s: string, h: string)
    requires AllBlank(g) && AllBlank(h)
    ensures Trim(g + s + h) == Trim(s)
  {
    assert g + s + h == g + (s + h);
    TrimLeftSkips(g, s + h);
    TrimTail(s, h);
  }

  lemma {:induction false} TrimTail(s: string, h: string)
    requires AllBlank(h)
    ensures Trim(s + h) == Trim(s)
  {
    if s == [] {
      assert s + h == h && h + [] == h;
      TrimLeftSkips(h, []);
    } else if IsBlank(s[0]) {
      assert (s + h)[1..] == s[1..] + h;
      TrimTail(s[1..], h);
    } else {
      TrimRightSkips(s, h);
    }
  }

  lemma {:induction false} TrimAfterRight(s: string)
    ensures Trim(TrimRight(s)) == Trim(s)
  {
    if s != [] && IsBlank(s[|s| - 1]) {
      var n := |s| - 1;
      assert s == s[..n] + [s[n]];
      TrimTail(s[..n], [s[n]]);
      TrimAfterRight(s[..n]);
    }
  }

  lemma TrimTwice(s: string)
    ensures Trim(Trim(s)) == Trim(s)
  {
    TrimAfterRight(TrimLeft(s));
    TrimLeftTwice(s);
  }

  function TrimPrefix(s: string, p: string): string {
    if p <= s then s[|p|..] else s
  }

  // ----- searching -----

  /** `strings.Index` for one character. */
  function IndexOf(s: string, c: char): (r: Option<nat>)
    ensures r.Some? ==> r.value < |s| && s[r.value] == c && forall j | 0 <= j < r.value :: s[j] != c
    ensures r.None? ==> c !in s
  {
    if s == [] then None
    else if s[0] == c then Some(0)
    else match IndexOf(s[1..], c)
      case None => None
      case Some(k) => Some(k + 1)
  }

  /** `strings.LastIndex` for one character. */
  function LastIndexOf(s: string, c: char): (r: Option<nat>)
    ensures r.Some? ==> r.value < |s| && s[r.value] == c && forall j | r.value < j < |s| :: s[j] != c
    ensures r.None? ==> c !in s
  {
    if s == [] then None
    else if s[|s| - 1] == c then Some(|s| - 1)
    else LastIndexOf(s[..|s| - 1], c)
  }

  lemma {:induction false} IndexSkips(a: string, b: string, c: char)
    requires c !in a
    ensures IndexOf(a + b, c) == match IndexOf(b, c) case None => None case Some(k) => Some(|a| + k)
  {
    if a == [] {
      assert a + b == b;
    } else {
      assert (a + b)[1..] == a[1..] + b;
      IndexSkips(a[1..], b, c);
    }
  }

  lemma {:induction false} LastIndexSkips(a: string, b: string, c: char)
    requires c !in b
    ensures LastIndexOf(a + b, c) == LastIndexOf(a, c)
  {
    if b == [] {
      assert a + b == a;
    } else {
      assert (a + b)[..|a + b| - 1] == a + b[..|b| - 1];
      LastIndexSkips(a, b[..|b| - 1], c);
    }
  }

  // ----- order -----

  /** Go's string order. */
  function CompareText(a: string, b: string): int {
    if a == [] then (if b == [] then 0 else -1)
    else if b == [] then 1
    else if a[0] < b[0] then -1
    else if a[0] > b[0] then 1
    else CompareText(a[1..], b[1..])
  }

  /** Where two texts first differ, the smaller character decides; a text comes after its prefixes. */
  lemma {:induction false} CompareAtFirst(a: string, b: string, k: nat)
    requires k <= |a| && k <= |b| && a[..k] == b[..k]
    ensures k < |a| && k < |b| && a[k] < b[k] ==> CompareText(a, b) < 0 < CompareText(b, a)
    ensures k == |a| < |b| ==> CompareText(a, b) < 0 < CompareText(b, a)
    ensures k == |a| == |b| ==> CompareText(a, b) == 0
  {
    if k > 0 {
      assert a[0] == a[..k][0] == b[..k][0] == b[0];
      assert a[1..][..k - 1] == a[..k][1..] && b[1..][..k - 1] == b[..k][1..];
      CompareAtFirst(a[1..], b[1..], k - 1);
    }
  }

  lemma {:induction false} SameText(a: string, b: string)
    requires CompareText(a, b) == 0
    ensures a == b
  {
    if a != [] {
      SameText(a[1..], b[1..]);
      assert a == [a[0]] + a[1..] && b == [b[0]] + b[1..];
    }
  }

  lemma {:induction false} CompareFlips(a: string, b: string)
    ensures CompareText(a, b) == -CompareText(b, a)
    ensures CompareText(a, b) in {-1, 0, 1}
  {
    if a != [] && b != [] {
      CompareFlips(a[1..], b[1..]);
    }
  }

  lemma {:induction false} CompareChains(a: string, b: string, c: string)
    requires CompareText(a, b) <= 0 && CompareText(b, c) <= 0
    ensures CompareText(a, c) <= 0
    ensures CompareText(a, c) == 0 ==> CompareText(a, b) == 0 && CompareText(b, c) == 0
  {
    if a != [] && b != [] && c != [] && a[0] == b[0] == c[0] {
      CompareChains(a[1..], b[1..], c[1..]);
    }
  }
}
