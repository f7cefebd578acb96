/** The bracket scanners of the query reader (engine/engine.go:474-499, 537-564, 658-684): one walk
    over the characters that counts nesting and steps over quoted strings. */
module Scanner {
  import opened Wrappers

  /** What a scanner counts: parentheses and braces, braces, or braces with no regard for quotes. */
  datatype Kind = Paren | Brace | Raw

  datatype State = State(depth: int, quoted: bool)

  /** A quote counts unless a backslash stands before it. */
  predicate Toggles(kind: Kind, prev: char, c: char) {
    !kind.Raw? && c == '"' && prev != '\\'
  }

  function Turn(kind: Kind, c: char): int {
    if c == '{' || (kind.Paren? && c == '(') then 1
    else if c == '}' || (kind.Paren? && c == ')') then -1
    else 0
  }

  function Next(kind: Kind, prev: char, c: char, st: State): State {
    if Toggles(kind, prev, c) then State(st.depth, !st.quoted)
    else if st.quoted then st
    else State(st.depth + Turn(kind, c), false)
  }

  predicate Stops(kind: Kind, prev: char, c: char, st: State) {
    !Toggles(kind, prev, c) && !st.quoted && c == (if kind.Paren? then ')' else '}') && st.depth == 1
  }

  /** The offset of the first character that closes what was opened at depth 0. */
  function Find(kind: Kind, s: string, prev: char, st: State): (at: Option<nat>)
    ensures at.Some? ==> at.value < |s|
  {
    if s == [] then None
    else if Stops(kind, prev, s[0], st) then Some(0)
    else match Find(kind, s[1..], s[0], Next(kind, prev, s[0], st))
      case None => None
      case Some(k) => Some(k + 1)
  }

  function After(kind: Kind, s: string, prev: char, st: State): State {
    if s == [] then st else After(kind, s[1..], s[0], Next(kind, prev, s[0], st))
  }

  function Last(s: string, prev: char): char {
    if s == [] then prev else s[|s| - 1]
  }

  function Max(a: int, b: int): int { if a < b then b else a }

  /** The deepest the braces get. */
  function Height(s: string, prev: char, st: State): int {
    if s == [] then st.depth else Max(st.depth, Height(s[1..], s[0], Next(Brace, prev, s[0], st)))
  }

  // ----- the loops -----

  function Before(s: string, i: nat): char
    requires i <= |s|
  {
    if i == 0 then ' ' else s[i - 1]
  }

  function At(base: int, found: Option<nat>): int {
    if found.None? then -1 else base + found.value
  }

  lemma FindStep(kind: Kind, s: string, i: nat, st: State)
    requires i <= |s|
    ensures var found := At(i, Find(kind, s[i..], Before(s, i), st));
            found == if i == |s| then -1
                     else if Stops(kind, Before(s, i), s[i], st) then i
                     else At(i + 1, Find(kind, s[i + 1..], Before(s, i + 1), Next(kind, Before(s, i), s[i], st)))
  {
    if i < |s| {
      assert s[i..][1..] == s[i + 1..];
    }
  }

  method FindMatchingParen(s: string, pos: nat) returns (r: int)
    requires pos <= |s|
    ensures r == At(pos, Find(Paren, s[pos..], Before(s, pos), State(0, false)))
  {
    hide Find, At;
    var depth, inQuote := 0, false;
    for i := pos to |s|
      invariant At(pos, Find(Paren, s[pos..], Before(s, pos), State(0, false)))
             == At(i, Find(Paren, s[i..], Before(s, i), State(depth, inQuote)))
    {
      var ch := s[i];
      FindStep(Paren, s, i, State(depth, inQuote));
      if ch == '"' && (i == 0 || s[i - 1] != '\\') {
        inQuote := !inQuote;
        continue;
      }
      if inQuote {
        continue;
      }
      if ch == '(' || ch == '{' {
        depth := depth + 1;
      } else if ch == ')' {
        depth := depth - 1;
        if depth == 0 {
          return i;
        }
      } else if ch == '}' {
        depth := depth - 1;
      }
    }
    FindStep(Paren, s, |s|, State(depth, inQuote));
    r := -1;
  }

  method FindMatchingBrace(s: string, pos: nat) returns (r: int)
    requires pos <= |s|
    ensures r == At(pos, Find(Brace, s[pos..], Before(s, pos), State(0, false)))
  {
    hide Find, At;
    var depth, inQuote := 0, false;
    for i := pos to |s|
      invariant At(pos, Find(Brace, s[pos..], Before(s, pos), State(0, false)))
             == At(i, Find(Brace, s[i..], Before(s, i), State(depth, inQuote)))
    {
      var ch := s[i];
      FindStep(Brace, s, i, State(depth, inQuote));
      if ch == '"' && (i == 0 || s[i - 1] != '\\') {
        inQuote := !inQuote;
        continue;
      }
      if inQuote {
        continue;
      }
      if ch == '{' {
        depth := depth + 1;
      } else if ch == '}' {
        depth := depth - 1;
        if depth == 0 {
          return i;
        }
      }
    }
    FindStep(Brace, s, |s|, State(depth, inQuote));
    r := -1;
  }

  method QueryDepth(query: string) returns (maxDepth: int)
    ensures maxDepth == Height(query, ' ', State(0, false))
  {
    var depth, inQuote := 0, false;
    maxDepth := 0;
    for i := 0 to |query|
      invariant depth <= maxDepth
      invariant Height(query, ' ', State(0, false)) == Max(maxDepth, Height(query[i..], Before(query, i), State(depth, inQuote)))
    {
      var ch := query[i];
      assert query[i..][1..] == query[i + 1..];
      if ch == '"' && (i == 0 || query[i - 1] != '\\') {
        inQuote := !inQuote;
        continue;
      }
      if inQuote {
        continue;
      }
      if ch == '{' {
        depth := depth + 1;
        if depth > maxDepth {
          maxDepth := depth;
        }
      } else if ch == '}' {
        depth := depth - 1;
      }
    }
  }

  // ----- scanning a text in pieces -----

  /** Scanning two texts in a row is scanning one, then the other from where the first left off. */
  lemma {:induction false} AfterConcat(kind: Kind, a: string, b: string, prev: char, st: State)
    ensures After(kind, a + b, prev, st) == After(kind, b, Last(a, prev), After(kind, a, prev, st))
  {
    hide Next;
    if a == [] {
      assert a + b == b;
    } else {
      assert (a + b)[1..] == a[1..] + b;
      AfterConcat(kind, a[1..], b, a[0], Next(kind, prev, a[0], st));
    }
  }

  lemma {:induction false} FindConcat(kind: Kind, a: string, b: string, prev: char, st: State)
    ensures After(kind, a + b, prev, st) == After(kind, b, Last(a, prev), After(kind, a, prev, st))
    ensures Find(kind, a + b, prev, st)
         == match Find(kind, a, prev, st)
            case Some(k) => Some(k)
            case None => match Find(kind, b, Last(a, prev), After(kind, a, prev, st))
                         case None => None
                         case Some(k) => Some(|a| + k)
  {
    hide Next, Stops;
    AfterConcat(kind, a, b, prev, st);
    if a == [] {
      assert a + b == b;
    } else {
      assert (a + b)[1..] == a[1..] + b;
      FindConcat(kind, a[1..], b, a[0], Next(kind, prev, a[0], st));
    }
  }

  lemma {:induction false} HeightConcat(a: string, b: string, prev: char, st: State)
    ensures Height(a + b, prev, st)
         == Max(Height(a, prev, st), Height(b, Last(a, prev), After(Brace, a, prev, st)))
  {
    if a == [] {
      assert a + b == b;
      HeightAtLeast(b, prev, st);
    } else {
      assert (a + b)[1..] == a[1..] + b;
      HeightConcat(a[1..], b, a[0], Next(Brace, prev, a[0], st));
    }
  }

  lemma HeightAtLeast(s: string, prev: char, st: State)
    ensures Height(s, prev, st) >= st.depth
  {}

  /** A text the scanner walks over at depth d and leaves at depth d, not having stopped, and having
      gone h deeper in between. */
  predicate Level(kind: Kind, p: string, prev: char, d: int, h: int) {
    var st := State(d, false);
    && Find(kind, p, prev, st).None? && After(kind, p, prev, st) == st && Last(p, prev) != '\\'
    && (kind.Brace? ==> Height(p, prev, st) == d + h)
  }

  lemma LevelConcat(kind: Kind, a: string, b: string, prev: char, d: int, ha: int, hb: int)
    requires Level(kind, a, prev, d, ha) && Level(kind, b, Last(a, prev), d, hb)
    ensures Level(kind, a + b, prev, d, Max(ha, hb))
    ensures Last(a + b, prev) == Last(b, Last(a, prev))
  {
    FindConcat(kind, a, b, prev, State(d, false));
    HeightConcat(a, b, prev, State(d, false));
  }

  lemma LevelEmpty(kind: Kind, prev: char, d: int)
    requires prev != '\\'
    ensures Level(kind, "", prev, d, 0)
  {}

  /** Braces around a level text. */
  lemma LevelWrap(kind: Kind, p: string, prev: char, d: int, h: int)
    requires d >= 1 && h >= 0 && Level(kind, p, '{', d + 1, h)
    ensures Level(kind, "{" + p + "}", prev, d, h + 1)
  {
    var st, inner := State(d, false), State(d + 1, false);
    assert ("{" + p + "}")[1..] == p + "}";
    FindConcat(kind, p, "}", '{', inner);
    HeightConcat(p, "}", '{', inner);
    OneChar(kind, '}', Last(p, '{'), inner);
  }

  lemma OneChar(kind: Kind, c: char, prev: char, st: State)
    ensures After(kind, [c], prev, st) == Next(kind, prev, c, st)
    ensures Find(kind, [c], prev, st) == if Stops(kind, prev, c, st) then Some(0) else None
    ensures Height([c], prev, st) == Max(st.depth, Next(Brace, prev, c, st).depth)
  {
    assert [c][1..] == "";
  }

  /** The closing bracket is found right after a level text. */
  lemma FindCloses(kind: Kind, inner: string, rest: string, prev: char, h: int)
    requires Level(kind, inner, if kind.Paren? then '(' else '{', 1, h)
    ensures var o, c := if kind.Paren? then "(" else "{", if kind.Paren? then ")" else "}";
            Find(kind, o + inner + c + rest, prev, State(0, false)) == Some(|inner| + 1)
  {
    var o, c := if kind.Paren? then "(" else "{", if kind.Paren? then ")" else "}";
    assert (o + inner + c + rest)[1..] == inner + (c + rest);
    FindConcat(kind, inner, c + rest, o[0], State(1, false));
  }

  /** The bracket at k, outside any string, closes the first one opened: one is open before it. */
  predicate ClosesAt(kind: Kind, s: string, k: nat, prev: char, st: State) {
    k < |s| && s[k] == (if kind.Paren? then ')' else '}') && After(kind, s[..k], prev, st) == State(1, false)
  }

  /** What is found is the first such bracket, and nothing is found exactly when there is none. */
  lemma {:induction false} FindIsFirst(kind: Kind, s: string, prev: char, st: State)
    ensures Find(kind, s, prev, st).None? <==> forall k: nat :: !ClosesAt(kind, s, k, prev, st)
    ensures Find(kind, s, prev, st).Some? ==>
              var at := Find(kind, s, prev, st).value;
              ClosesAt(kind, s, at, prev, st) && forall k: nat | k < at :: !ClosesAt(kind, s, k, prev, st)
  {
    if s != [] {
      var next := Next(kind, prev, s[0], st);
      FindIsFirst(kind, s[1..], s[0], next);
      forall k: nat ensures ClosesAt(kind, s, k, prev, st) <==> if k == 0 then Stops(kind, prev, s[0], st) else ClosesAt(kind, s[1..], k - 1, s[0], next) {
        ClosesLaterBy(kind, s, k, prev, st);
      }
      hide Next, Stops, ClosesAt;
      assert ClosesAt(kind, s, 0, prev, st) <==> Stops(kind, prev, s[0], st);
      if Find(kind, s[1..], s[0], next).Some? {
        var at := Find(kind, s[1..], s[0], next).value;
        assert ClosesAt(kind, s, at + 1, prev, st);
      }
      forall k: nat | ClosesAt(kind, s[1..], k, s[0], next) ensures ClosesAt(kind, s, k + 1, prev, st) {
        assert ClosesAt(kind, s, k + 1, prev, st) <==> ClosesAt(kind, s[1..], k + 1 - 1, s[0], next);
      }
    }
  }

  lemma ClosesLaterBy(kind: Kind, s: string, k: nat, prev: char, st: State)
    requires s != []
    ensures ClosesAt(kind, s, k, prev, st)
       <==> if k == 0 then Stops(kind, prev, s[0], st) else ClosesAt(kind, s[1..], k - 1, s[0], Next(kind, prev, s[0], st))
  {
    if 0 < k < |s| {
      assert s[..k][1..] == s[1..][..k - 1] && s[..k][0] == s[0];
    } else if k == 0 {
      assert s[..0] == [];
    }
  }

  // ----- the texts that are level -----

  /** No brackets the scanner counts, no quotes, no backslashes. */
  predicate Passive(kind: Kind, p: string) {
    forall i | 0 <= i < |p| :: PassiveChar(kind, p[i])
  }

  predicate PassiveChar(kind: Kind, c: char) {
    c != '"' && c != '\\' && Turn(kind, c) == 0
  }

  lemma {:induction false} PassiveLevel(kind: Kind, p: string, prev: char, d: int)
    requires Passive(kind, p) && prev != '\\'
    ensures Level(kind, p, prev, d, 0)
  {
    if p != [] {
      assert PassiveChar(kind, p[0]);
      assert forall i | 0 <= i < |p[1..]| :: p[1..][i] == p[i + 1] && PassiveChar(kind, p[i + 1]);
      PassiveLevel(kind, p[1..], p[0], d);
    }
  }

  /** Every quote has a backslash before it. */
  predicate Escaped(t: string, prev: char) {
    t == [] || ((t[0] == '"' ==> prev == '\\') && Escaped(t[1..], t[0]))
  }

  /** What may stand between two quotes: no bare quote, and no backslash at the end to escape the
      closing one. */
  predicate Stringy(t: string) {
    Escaped(t, '"') && Last(t, '"') != '\\'
  }

  predicate NoBraces(t: string) {
    '{' !in t && '}' !in t
  }

  lemma {:induction false} InString(kind: Kind, t: string, prev: char, d: int)
    requires !kind.Raw? && Escaped(t, prev)
    ensures var st := State(d, true);
            Find(kind, t, prev, st).None? && After(kind, t, prev, st) == st && Height(t, prev, st) == d
  {
    if t != [] {
      InString(kind, t[1..], t[0], d);
    }
  }

  lemma {:induction false} RawText(t: string, prev: char, d: int)
    requires NoBraces(t)
    ensures var st := State(d, false); Find(Raw, t, prev, st).None? && After(Raw, t, prev, st) == st
  {
    if t != [] {
      RawText(t[1..], t[0], d);
    }
  }

  /** A quoted string is level; to a scanner that ignores quotes, only if it holds no braces. */
  lemma StringLevel(kind: Kind, t: string, prev: char, d: int)
    requires Stringy(t) && prev != '\\' && (kind.Raw? ==> NoBraces(t))
    ensures Level(kind, "\"" + t + "\"", prev, d, 0)
  {
    var s := "\"" + t + "\"";
    if kind.Raw? {
      RawText(s, prev, d);
    } else {
      assert s[1..] == t + "\"";
      InString(kind, t, '"', d);
      FindConcat(kind, t, "\"", '"', State(d, true));
      HeightConcat(t, "\"", '"', State(d, true));
      if kind.Paren? {
        OneChar(Brace, '"', Last(t, '"'), State(d, true));
        OneChar(kind, '"', Last(t, '"'), State(d, true));
      } else {
        OneChar(kind, '"', Last(t, '"'), State(d, true));
      }
    }
  }
}
