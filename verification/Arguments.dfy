/** Reading an argument list: `parseArgs` (engine/engine.go:566-656). */
module Arguments {
  import opened Wrappers
  import opened Text
  import opened Scanner

  /** An argument as read: text, quoted or bare, or a nested object. */
  datatype Arg = Scalar(text: string) | Object(fields: map<string, Arg>)

  type Args = map<string, Arg>

  datatype Read = Read(value: Arg, rest: string)

  /** The offset of the first quote with no backslash before it. */
  function EndQuote(s: string, prev: char): (r: Option<nat>)
    ensures r.Some? ==> r.value < |s|
  {
    if s == [] then None
    else if s[0] == '"' && prev != '\\' then Some(0)
    else match EndQuote(s[1..], s[0])
      case None => None
      case Some(k) => Some(k + 1)
  }

  /** Where a nested object ends: its closing brace, or the last character when it has none. */
  function ObjectEnd(t: string): (end: nat)
    requires t != []
    ensures end < |t|
  {
    match Find(Raw, t, ' ', State(0, false))
    case Some(k) => k
    case None => |t| - 1
  }

  /** One value and the text left after it.  A lone opening brace has no inside to slice, which Go
      answers by panicking: None. */
  function ReadValue(t: string): (r: Option<Read>)
    requires t != []
    ensures r.Some? ==> |r.value.rest| <= |t|
    decreases |t|, 0
  {
    if t[0] == '"' then
      match EndQuote(t[1..], '"')
      case Some(k) => Some(Read(Scalar(t[1..k + 1]), Trim(t[k + 2..])))
      case None => Some(Read(Scalar(t[1..]), ""))
    else if t[0] == '{' then
      var end := ObjectEnd(t);
      if end == 0 then None
      else match ArgsOf(Trim(t[1..end]))
        case None => None
        case Some(fields) => Some(Read(Object(fields), Trim(t[end + 1..])))
    else
      var end := match IndexOf(t, ',') case Some(k) => k case None => |t|;
      Some(Read(Scalar(Trim(t[..end])), Trim(t[end..])))
  }

  function PastComma(s: string): (r: string)
    ensures |r| <= |s|
  {
    if s != [] && s[0] == ',' then Trim(s[1..]) else s
  }

  /** The loop from text `s` with `acc` already read: a key up to a colon, a value, a comma. */
  function ArgsFrom(s: string, acc: Args): Option<Args>
    decreases |s|, 1
  {
    match IndexOf(s, ':')
    case None => Some(acc)
    case Some(colon) =>
      var t := Trim(s[colon + 1..]);
      if t == [] then Some(acc)
      else match ReadValue(t)
        case None => None
        case Some(got) => ArgsFrom(PastComma(got.rest), acc[Trim(s[..colon]) := got.value])
  }

  function ArgsOf(s: string): Option<Args>
    decreases |s|, 2
  {
    ArgsFrom(Trim(s), map[])
  }

  // ----- where the reading panics -----

  /** What stands after a value, whether or not a nested object can be read. */
  function AfterValue(t: string): (r: string)
    requires t != []
    ensures |r| <= |t|
  {
    if t[0] == '"' then (match EndQuote(t[1..], '"') case Some(k) => Trim(t[k + 2..]) case None => "")
    else if t[0] == '{' then Trim(t[ObjectEnd(t) + 1..])
    else match IndexOf(t, ',') case Some(k) => Trim(t[k..]) case None => ""
  }

  /** The texts at which the loop comes to read a value, here and inside nested objects: each is the
      whole of what is left. */
  function ValueTexts(s: string): seq<string>
    decreases |s|
  {
    match IndexOf(s, ':')
    case None => []
    case Some(colon) =>
      var t := Trim(s[colon + 1..]);
      if t == [] then []
      else if t == "{" then [t]
      else [t] + (if t[0] == '{' then ValueTexts(Trim(Trim(t[1..ObjectEnd(t)]))) else []) + ValueTexts(PastComma(AfterValue(t)))
  }

  lemma ObjectEndsAtOnce(t: string)
    requires t != [] && t[0] == '{'
    ensures ObjectEnd(t) == 0 <==> t == "{"
  {}

  lemma ValueFails(t: string)
    requires t != []
    ensures ReadValue(t).None? <==> t == "{" || (t[0] == '{' && ArgsOf(Trim(t[1..ObjectEnd(t)])).None?)
    ensures ReadValue(t).Some? ==> ReadValue(t).value.rest == AfterValue(t)
  {
    hide ArgsOf, EndQuote;
    if t[0] == '{' {
      ObjectEndsAtOnce(t);
    }
    hide ObjectEnd;
    if t[0] != '"' && t[0] != '{' && IndexOf(t, ',').None? {
      assert t[|t|..] == "";
    }
  }

  /** One turn of the loop, as far as failing goes. */
  lemma TurnFails(s: string, acc: Args) returns (t: string, more: Args)
    ensures IndexOf(s, ':').None? ==> t == "" && ArgsFrom(s, acc).Some?
    ensures IndexOf(s, ':').Some? ==> t == Trim(s[IndexOf(s, ':').value + 1..]) && |t| < |s|
    ensures t == "" ==> ArgsFrom(s, acc).Some? && ValueTexts(s) == []
    ensures t == "{" ==> ArgsFrom(s, acc).None? && ValueTexts(s) == ["{"]
    ensures t != "" && t != "{" ==>
              && (t[0] == '{' ==> ObjectEnd(t) > 0)
              && (ArgsFrom(s, acc).None? <==>
                    || (t[0] == '{' && ArgsFrom(Trim(Trim(t[1..ObjectEnd(t)])), map[]).None?)
                    || ArgsFrom(PastComma(AfterValue(t)), more).None?)
  {
    hide ReadValue, AfterValue, ObjectEnd, Trim, PastComma;
    t, more := "", acc;
    var colon := IndexOf(s, ':');
    if colon.Some? {
      t := Trim(s[colon.value + 1..]);
      if t != "" {
        ValueFails(t);
        if t[0] == '{' {
          ObjectEndsAtOnce(t);
        }
        if ReadValue(t).Some? {
          more := acc[Trim(s[..colon.value]) := ReadValue(t).value.value];
        }
      }
    }
  }

  /** Reading panics exactly when it comes to a value and all that is left is one opening brace. */
  lemma {:induction false} ArgsPanicIff(s: string, acc: Args)
    ensures ArgsFrom(s, acc).None? <==> "{" in ValueTexts(s)
    decreases |s|
  {
    hide ArgsFrom, ValueTexts, ReadValue, AfterValue, ObjectEnd, IndexOf, Trim, PastComma;
    var t, more := TurnFails(s, acc);
    if t != "" && t != "{" {
      if t[0] == '{' {
        ArgsPanicIff(Trim(Trim(t[1..ObjectEnd(t)])), map[]);
      }
      ArgsPanicIff(PastComma(AfterValue(t)), more);
      PanicParts(s, t);
    }
  }

  lemma PanicParts(s: string, t: string)
    requires IndexOf(s, ':').Some? && t == Trim(s[IndexOf(s, ':').value + 1..]) && t != [] && t != "{"
    requires t[0] == '{' ==> ObjectEnd(t) > 0
    ensures "{" in ValueTexts(s) <==>
              || (t[0] == '{' && "{" in ValueTexts(Trim(Trim(t[1..ObjectEnd(t)]))))
              || "{" in ValueTexts(PastComma(AfterValue(t)))
  {
    hide AfterValue, ObjectEnd, Trim, PastComma, IndexOf;
    var inner := if t[0] == '{' then ValueTexts(Trim(Trim(t[1..ObjectEnd(t)]))) else [];
    var after := ValueTexts(PastComma(AfterValue(t)));
    assert ValueTexts(s) == [t] + inner + after;
    hide ValueTexts;
    InConcat([t], inner, after, "{");
  }

  lemma InConcat<T>(a: seq<T>, b: seq<T>, c: seq<T>, x: T)
    ensures x in a + b + c <==> x in a || x in b || x in c
  {}

  // ----- the loops -----

  method ParseArgs(text: string) returns (args: Option<Args>)
    ensures args == ArgsOf(text)
    decreases |text|
  {
    hide ReadValue, IndexOf;
    var read: Args := map[];
    var s := Trim(text);
    while |s| > 0
      invariant |s| <= |text|
      invariant ArgsOf(text) == ArgsFrom(s, read)
      decreases |s|
    {
      var colonIdx := FirstColon(s);
      if colonIdx.None? {
        return Some(read);
      }
      var key := Trim(s[..colonIdx.value]);
      var t := Trim(s[colonIdx.value + 1..]);
      if |t| == 0 {
        return Some(read);
      }
      var got := ParseValue(t);
      if got.None? {
        return None;
      }
      read := read[key := got.value.value];
      s := got.value.rest;
      if |s| > 0 && s[0] == ',' {
        s := Trim(s[1..]);
      }
    }
    EmptyReadsNothing(read);
    args := Some(read);
  }

  lemma EmptyReadsNothing(acc: Args)
    ensures ArgsFrom("", acc) == Some(acc)
  {}

  method FirstColon(s: string) returns (at: Option<nat>)
    ensures at == IndexOf(s, ':')
    ensures at.Some? ==> at.value < |s|
  {
    for i := 0 to |s|
      invariant forall j | 0 <= j < i :: s[j] != ':'
    {
      if s[i] == ':' {
        return Some(i);
      }
    }
    at := None;
  }

  /** The switch on a value's first character, with its three loops. */
  method ParseValue(t: string) returns (got: Option<Read>)
    requires t != []
    ensures got == ReadValue(t) && (got.Some? ==> |got.value.rest| <= |t|)
    decreases |t|
  {
    hide ArgsOf, Find, EndQuote;
    if t[0] == '"' {
      var end := 1;
      while end < |t|
        invariant 1 <= end <= |t|
        invariant QuoteAt(1, EndQuote(t[1..], '"')) == QuoteAt(end, EndQuote(t[end..], t[end - 1]))
      {
        QuoteStep(t, end);
        if t[end] == '"' && t[end - 1] != '\\' {
          break;
        }
        end := end + 1;
      }
      QuoteStep(t, end);
      if end < |t| {
        return Some(Read(Scalar(t[1..end]), Trim(t[end + 1..])));
      }
      return Some(Read(Scalar(t[1..]), ""));
    }
    if t[0] == '{' {
      var end := ClosingBrace(t);
      if end == 0 {
        return None;
      }
      var inner := ParseArgs(Trim(t[1..end]));
      if inner.None? {
        return None;
      }
      return Some(Read(Object(inner.value), Trim(t[end + 1..])));
    }
    var end := |t|;
    for i := 0 to |t|
      invariant forall j | 0 <= j < i :: t[j] != ','
    {
      if t[i] == ',' {
        end := i;
        break;
      }
    }
    got := Some(Read(Scalar(Trim(t[..end])), Trim(t[end..])));
  }

  function QuoteAt(base: nat, found: Option<nat>): Option<nat> {
    if found.None? then None else Some(base + found.value)
  }

  lemma QuoteStep(t: string, end: nat)
    requires 1 <= end <= |t|
    ensures QuoteAt(end, EndQuote(t[end..], t[end - 1]))
         == if end == |t| then None
            else if t[end] == '"' && t[end - 1] != '\\' then Some(end)
            else QuoteAt(end + 1, EndQuote(t[end + 1..], t[end]))
  {
    if end < |t| {
      assert t[end..][1..] == t[end + 1..];
    }
  }

  method ClosingBrace(t: string) returns (end: nat)
    requires t != []
    ensures end == ObjectEnd(t)
  {
    hide Find, At;
    var depth := 0;
    for i := 0 to |t|
      invariant At(0, Find(Raw, t, ' ', State(0, false))) == At(i, Find(Raw, t[i..], Before(t, i), State(depth, false)))
    {
      FindStep(Raw, t, i, State(depth, false));
      if t[i] == '{' {
        depth := depth + 1;
      } else if t[i] == '}' {
        depth := depth - 1;
        if depth == 0 {
          AtIs(Find(Raw, t, ' ', State(0, false)));
          return i;
        }
      }
    }
    FindStep(Raw, t, |t|, State(depth, false));
    AtIs(Find(Raw, t, ' ', State(0, false)));
    end := |t| - 1;
  }

  lemma AtIs(found: Option<nat>)
    ensures At(0, found) == if found.None? then -1 else found.value
  {}

  // ----- the grammar, with every blank written out -----

  datatype Value =
    | Quoted(text: string)
    | Bare(text: string)
    | Nested(gap: string, entries: seq<Entry>)

  /** key gap0 ":" gap1 value gap2, and perhaps a comma with blanks after it. */
  datatype Entry = Entry(key: string, gap0: string, gap1: string, value: Value, gap2: string, comma: Option<string>)

  function ShowValue(v: Value): string
    decreases v
  {
    match v
    case Quoted(text) => "\"" + text + "\""
    case Bare(text) => text
    case Nested(gap, entries) => "{" + (gap + ShowEntries(entries)) + "}"
  }

  function ShowHead(e: Entry): string {
    e.key + e.gap0 + ":" + e.gap1
  }

  function ShowComma(e: Entry): string {
    match e.comma case None => "" case Some(pad) => "," + pad
  }

  function ShowEntries(es: seq<Entry>): string
    decreases es
  {
    if es == [] then ""
    else ShowHead(es[0]) + ShowValue(es[0].value) + (es[0].gap2 + ShowComma(es[0])) + ShowEntries(es[1..])
  }

  /** What the arguments mean: the last entry of a key wins. */
  function ValueOf(v: Value): Arg
    decreases v
  {
    match v
    case Quoted(text) => Scalar(text)
    case Bare(text) => Scalar(text)
    case Nested(_, entries) => Object(EntriesOn(entries, map[]))
  }

  function EntriesOn(es: seq<Entry>, acc: Args): Args
    decreases es
  {
    if es == [] then acc else EntriesOn(es[1..], acc[es[0].key := ValueOf(es[0].value)])
  }

  function ValueDepth(v: Value): nat
    decreases v
  {
    if v.Nested? then 1 + EntriesDepth(v.entries) else 0
  }

  function EntriesDepth(es: seq<Entry>): nat
    decreases es
  {
    if es == [] then 0 else Max(ValueDepth(es[0].value), EntriesDepth(es[1..]))
  }

  /** A key or a bare value: no blanks at its ends, no brackets, quotes, backslashes or commas. */
  predicate Word(w: string) {
    Solid(w) && Passive(Paren, w) && ',' !in w
  }

  /** Inside an object a quoted string holds no braces: the search for the object's end does not see
      quotes. */
  predicate ValueFits(v: Value, inside: bool)
    decreases v
  {
    match v
    case Quoted(text) => Stringy(text) && (inside ==> NoBraces(text))
    case Bare(text) => Word(text)
    case Nested(gap, entries) => AllBlank(gap) && EntriesFit(entries, true)
  }

  /** A bare value that is not the last is followed by a comma. */
  predicate EntriesFit(es: seq<Entry>, inside: bool)
    decreases es
  {
    es == [] ||
    (&& Word(es[0].key) && ':' !in es[0].key
     && AllBlank(es[0].gap0) && AllBlank(es[0].gap1) && AllBlank(es[0].gap2)
     && (es[0].comma.Some? ==> AllBlank(es[0].comma.value))
     && (es[0].value.Bare? && |es| > 1 ==> es[0].comma.Some?)
     && ValueFits(es[0].value, inside)
     && EntriesFit(es[1..], inside))
  }

  // ----- the printing is level -----

  lemma BlankIsPassive(kind: Kind, g: string)
    requires AllBlank(g)
    ensures Passive(kind, g) && ':' !in g && ',' !in g
  {}

  lemma WordIsPassive(kind: Kind, w: string)
    requires Word(w)
    ensures Passive(kind, w)
  {
    forall i | 0 <= i < |w| ensures PassiveChar(kind, w[i]) {
      assert PassiveChar(Paren, w[i]);
    }
  }

  lemma HeadIsPassive(kind: Kind, e: Entry)
    requires Word(e.key) && AllBlank(e.gap0) && AllBlank(e.gap1)
    ensures Passive(kind, ShowHead(e))
  {
    WordIsPassive(kind, e.key);
    BlankIsPassive(kind, e.gap0);
    BlankIsPassive(kind, e.gap1);
  }

  lemma TailIsPassive(kind: Kind, e: Entry)
    requires AllBlank(e.gap2) && (e.comma.Some? ==> AllBlank(e.comma.value))
    ensures Passive(kind, e.gap2 + ShowComma(e))
  {
    BlankIsPassive(kind, e.gap2);
    if e.comma.Some? {
      BlankIsPassive(kind, e.comma.value);
    }
  }

  lemma {:induction false} ValueLevel(kind: Kind, v: Value, inside: bool, prev: char, d: int)
    requires ValueFits(v, inside) && prev != '\\' && d >= 1 && (kind.Raw? ==> inside)
    ensures Level(kind, ShowValue(v), prev, d, ValueDepth(v))
    decreases v
  {
    hide Level;
    match v
    case Quoted(text) => StringLevel(kind, text, prev, d);
    case Bare(text) =>
      WordIsPassive(kind, text);
      PassiveLevel(kind, text, prev, d);
    case Nested(gap, entries) =>
      InsideLevel(kind, gap, entries, true, '{', d + 1);
      LevelWrap(kind, gap + ShowEntries(entries), prev, d, EntriesDepth(entries));
  }

  lemma {:induction false} InsideLevel(kind: Kind, gap: string, es: seq<Entry>, inside: bool, prev: char, d: int)
    requires AllBlank(gap) && EntriesFit(es, inside) && prev != '\\' && d >= 1 && (kind.Raw? ==> inside)
    ensures Level(kind, gap + ShowEntries(es), prev, d, EntriesDepth(es))
    decreases es, 2
  {
    hide Level;
    BlankIsPassive(kind, gap);
    PassiveLevel(kind, gap, prev, d);
    PassiveEnd(kind, gap, prev);
    EntriesLevel(kind, es, inside, Last(gap, prev), d);
    LevelConcat(kind, gap, ShowEntries(es), prev, d, 0, EntriesDepth(es));
  }

  lemma PassiveEnd(kind: Kind, p: string, prev: char)
    requires Passive(kind, p) && prev != '\\'
    ensures Last(p, prev) != '\\'
  {}

  lemma {:induction false} EntriesLevel(kind: Kind, es: seq<Entry>, inside: bool, prev: char, d: int)
    requires EntriesFit(es, inside) && prev != '\\' && d >= 1 && (kind.Raw? ==> inside)
    ensures Level(kind, ShowEntries(es), prev, d, EntriesDepth(es))
    decreases es, 1
  {
    if es == [] {
      LevelEmpty(kind, prev, d);
    } else {
      EntryLevel(kind, es, inside, prev, d);
    }
  }

  lemma {:induction false} EntryLevel(kind: Kind, es: seq<Entry>, inside: bool, prev: char, d: int)
    requires es != [] && EntriesFit(es, inside) && prev != '\\' && d >= 1 && (kind.Raw? ==> inside)
    ensures Level(kind, ShowEntries(es), prev, d, EntriesDepth(es))
    decreases es, 0
  {
    hide Passive, Word, AllBlank;
    var e := es[0];
    var head, val, tail, rest := ShowHead(e), ShowValue(e.value), e.gap2 + ShowComma(e), ShowEntries(es[1..]);
    HeadIsPassive(kind, e);
    PassiveLevel(kind, head, prev, d);
    ValueLevel(kind, e.value, inside, Last(head, prev), d);
    hide Level;
    LevelConcat(kind, head, val, prev, d, 0, ValueDepth(e.value));
    TailIsPassive(kind, e);
    LevelEnd(kind, head + val, prev, d, ValueDepth(e.value));
    PassiveLevel(kind, tail, Last(head + val, prev), d);
    LevelConcat(kind, head + val, tail, prev, d, ValueDepth(e.value), 0);
    LevelEnd(kind, head + val + tail, prev, d, ValueDepth(e.value));
    EntriesLevel(kind, es[1..], inside, Last(head + val + tail, prev), d);
    LevelConcat(kind, head + val + tail, rest, prev, d, ValueDepth(e.value), EntriesDepth(es[1..]));
  }

  lemma LevelEnd(kind: Kind, p: string, prev: char, d: int, h: int)
    requires Level(kind, p, prev, d, h)
    ensures Last(p, prev) != '\\'
  {}

  // ----- reading the printing back -----

  lemma {:induction false} EndQuoteSkips(t: string, rest: string, prev: char)
    requires Escaped(t, prev) && Last(t, prev) != '\\'
    ensures EndQuote(t + "\"" + rest, prev) == Some(|t|)
  {
    if t != [] {
      assert (t + "\"" + rest)[1..] == t[1..] + "\"" + rest;
      EndQuoteSkips(t[1..], rest, t[0]);
    }
  }

  /** What stands after a value: blanks, then nothing or more text; after a bare value a comma. */
  predicate Follows(v: Value, gap: string, more: string) {
    AllBlank(gap) && (v.Bare? ==> more == "" || more[0] == ',')
  }

  lemma QuotedReads(text: string, gap: string, more: string)
    requires Stringy(text) && Follows(Quoted(text), gap, more)
    ensures ReadValue(ShowValue(Quoted(text)) + TrimRight(gap + more)) == Some(Read(Scalar(text), Trim(gap + more)))
  {
    var rest := TrimRight(gap + more);
    var t := ShowValue(Quoted(text)) + rest;
    assert t[1..] == text + "\"" + rest;
    EndQuoteSkips(text, rest, '"');
    assert t[1..|text| + 1] == text && t[|text| + 2..] == rest;
    TrimAfterRight(gap + more);
  }

  lemma BareReads(text: string, gap: string, more: string)
    requires Word(text) && Follows(Bare(text), gap, more)
    ensures ReadValue(text + TrimRight(gap + more)) == Some(Read(Scalar(text), Trim(gap + more)))
  {
    hide TrimRight, Trim;
    var rest := TrimRight(gap + more);
    var t := text + rest;
    assert PassiveChar(Paren, text[0]);
    BlankIsPassive(Paren, gap);
    if more == "" {
      assert gap + more == "" + gap;
      TrimRightSkips("", gap);
      NoTrim();
      assert t == text;
      IndexSkips(text, "", ',');
      assert text + "" == text;
      SolidStays(text);
      TrimAround(gap, "", "");
      assert gap + "" + "" == gap + more;
    } else {
      assert gap + more == (gap + ",") + more[1..];
      TrimRightAfter(gap + ",", more[1..]);
      assert t == (text + gap) + ("," + TrimRight(more[1..]));
      IndexSkips(text + gap, "," + TrimRight(more[1..]), ',');
      assert t[..|text + gap|] == "" + text + gap;
      TrimAround("", text, gap);
      SolidStays(text);
      assert t[|text + gap|..] == "," + TrimRight(more[1..]);
      assert more == "," + more[1..];
      TrimRightAfter(",", more[1..]);
      TrimIsRight(more);
      TrimAfterRight(more);
      TrimAround(gap, more, "");
      assert gap + more + "" == gap + more;
    }
  }

  lemma NoTrim()
    ensures Trim("") == "" && TrimRight("") == ""
  {}

  lemma SolidStays(s: string)
    requires Solid(s)
    ensures Trim(s) == s
  {}

  lemma NestedReads(inner: string, fields: Args, more: string, h: int)
    requires Level(Raw, inner, '{', 1, h) && ArgsOf(inner) == Some(fields)
    ensures ReadValue("{" + inner + "}" + TrimRight(more)) == Some(Read(Object(fields), Trim(more)))
  {
    hide ArgsOf, Find, Level;
    var rest := TrimRight(more);
    var t := "{" + inner + "}" + rest;
    FindCloses(Raw, inner, rest, ' ', h);
    assert t[1..|inner| + 1] == inner && t[|inner| + 2..] == rest;
    assert ObjectEnd(t) == |inner| + 1;
    ArgsOfTrim(inner);
    TrimAfterRight(more);
  }

  lemma ArgsOfTrim(s: string)
    ensures ArgsOf(Trim(s)) == ArgsOf(s)
  {
    TrimTwice(s);
  }

  /** A printed value is read back whole, and what is left is what stood after it. */
  lemma {:induction false} ValueReads(v: Value, gap: string, more: string, inside: bool)
    requires ValueFits(v, inside) && Follows(v, gap, more)
    ensures ReadValue(ShowValue(v) + TrimRight(gap + more)) == Some(Read(ValueOf(v), Trim(gap + more)))
    decreases v
  {
    hide ReadValue, ArgsFrom;
    match v
    case Quoted(text) => QuotedReads(text, gap, more);
    case Bare(text) => BareReads(text, gap, more);
    case Nested(pad, entries) =>
      var inner := pad + ShowEntries(entries);
      InsideLevel(Raw, pad, entries, true, '{', 1);
      EntriesRead(entries, true, map[]);
      TrimAround(pad, ShowEntries(entries), "");
      assert pad + ShowEntries(entries) + "" == inner;
      NestedReads(inner, EntriesOn(entries, map[]), gap + more, EntriesDepth(entries));
  }

  lemma FitParts(es: seq<Entry>, inside: bool)
    requires es != [] && EntriesFit(es, inside)
    ensures EntriesFit(es[1..], inside) && ValueFits(es[0].value, inside)
    ensures Word(es[0].key) && ':' !in es[0].key && AllBlank(es[0].gap0) && AllBlank(es[0].gap1)
  {}

  lemma ShowParts(es: seq<Entry>)
    requires es != []
    ensures ShowEntries(es)
         == ShowHead(es[0]) + ShowValue(es[0].value) + (es[0].gap2 + (ShowComma(es[0]) + ShowEntries(es[1..])))
  {
    hide ShowHead, ShowValue, ShowComma;
  }

  /** The loop reads a printed list entry by entry. */
  lemma {:induction false} EntriesRead(es: seq<Entry>, inside: bool, acc: Args)
    requires EntriesFit(es, inside)
    ensures ArgsFrom(Trim(ShowEntries(es)), acc) == Some(EntriesOn(es, acc))
    decreases es
  {
    hide ReadValue, ArgsFrom, IndexOf, EntriesFit, ValueFits, Follows, PastComma, ShowHead, ShowComma, ShowValue, Word;
    if es == [] {
      EmptyReadsNothing(acc);
    } else {
      hide ShowEntries, Trim;
      var e, more := es[0], ShowComma(es[0]) + ShowEntries(es[1..]);
      FitParts(es, inside);
      RestStarts(es, inside);
      ValueReads(e.value, e.gap2, more, inside);
      EntryStep(e, more, inside, acc);
      ShowParts(es);
      CommaSkipped(es, inside);
      EntriesRead(es[1..], inside, acc[e.key := ValueOf(e.value)]);
    }
  }

  lemma RestStarts(es: seq<Entry>, inside: bool)
    requires es != [] && EntriesFit(es, inside)
    ensures Follows(es[0].value, es[0].gap2, ShowComma(es[0]) + ShowEntries(es[1..]))
  {
    if es[0].value.Bare? && es[0].comma.None? {
      assert es[1..] == [];
    }
  }

  lemma CommaThere(gap: string, pad: string, rest: string)
    requires AllBlank(gap) && AllBlank(pad)
    ensures PastComma(Trim(gap + ("," + pad + rest))) == Trim(rest)
  {
    hide Trim, TrimRight;
    var more := "," + pad + rest;
    TrimAround(gap, more, "");
    assert gap + more + "" == gap + more;
    assert more == "," + (pad + rest);
    TrimRightAfter(",", pad + rest);
    TrimIsRight(more);
    assert Trim(more)[1..] == TrimRight(pad + rest);
    TrimAfterRight(pad + rest);
    TrimAround(pad, rest, "");
    assert pad + rest + "" == pad + rest;
  }

  /** After the value the loop stands at the next entry. */
  lemma CommaSkipped(es: seq<Entry>, inside: bool)
    requires es != [] && EntriesFit(es, inside)
    ensures PastComma(Trim(es[0].gap2 + (ShowComma(es[0]) + ShowEntries(es[1..])))) == Trim(ShowEntries(es[1..]))
  {
    hide Trim, ValueFits, Word, AllBlank, ShowEntries;
    var e, rest := es[0], ShowEntries(es[1..]);
    if e.comma.Some? {
      CommaThere(e.gap2, e.comma.value, rest);
    } else {
      assert ShowComma(e) + rest == rest;
      TrimAroundLeft(e.gap2, rest);
      if es[1..] == [] {
        NothingShown();
      } else {
        StartsWithKey(es[1..], inside);
      }
    }
  }

  lemma TrimAroundLeft(gap: string, s: string)
    requires AllBlank(gap)
    ensures Trim(gap + s) == Trim(s)
  {
    TrimAround(gap, s, "");
    assert gap + s + "" == gap + s;
  }

  lemma NothingShown()
    ensures Trim(ShowEntries([])) == ""
  {}

  lemma StartsWithKey(es: seq<Entry>, inside: bool)
    requires es != [] && EntriesFit(es, inside)
    ensures Trim(ShowEntries(es)) != [] && Trim(ShowEntries(es))[0] != ','
  {
    hide Trim, TrimRight;
    var w := ShowEntries(es);
    var key := es[0].key;
    assert w == key + w[|key|..];
    assert key[0] in key;
    TrimIsRight(w);
    TrimRightAfter(key, w[|key|..]);
  }

  /** Trimming a printed list touches only what stands after the first value. */
  lemma TrimmedEntry(head: string, val: string, tail: string)
    requires head != [] && !IsBlank(head[0]) && Solid(val)
    ensures Trim(head + val + tail) == head + (val + TrimRight(tail))
  {
    hide Trim, TrimRight;
    var whole := head + val + tail;
    assert whole[0] == head[0];
    TrimIsRight(whole);
    assert (head + val)[|head + val| - 1] == val[|val| - 1];
    TrimRightAfter(head + val, tail);
    assert head + (val + TrimRight(tail)) == head + val + TrimRight(tail);
  }

  /** Splitting at the first colon gives the key, and the value with what follows it. */
  lemma KeyAndValue(e: Entry, text: string)
    requires Solid(e.key) && ':' !in e.key && AllBlank(e.gap0) && AllBlank(e.gap1)
    ensures var s, at := ShowHead(e) + text, |e.key + e.gap0|;
            IndexOf(s, ':') == Some(at) && Trim(s[..at]) == e.key && Trim(s[at + 1..]) == Trim(text)
  {
    hide Trim;
    var s, at := ShowHead(e) + text, |e.key + e.gap0|;
    assert s == (e.key + e.gap0) + (":" + (e.gap1 + text));
    BlankIsPassive(Raw, e.gap0);
    IndexSkips(e.key + e.gap0, ":" + (e.gap1 + text), ':');
    ColonFirst(e.gap1 + text);
    assert s[..at] == "" + e.key + e.gap0;
    TrimAround("", e.key, e.gap0);
    SolidStays(e.key);
    assert s[at + 1..] == e.gap1 + text;
    TrimAroundLeft(e.gap1, text);
  }

  lemma TrimmedValue(val: string, tail: string)
    requires Solid(val)
    ensures Trim(val + TrimRight(tail)) == val + TrimRight(tail)
  {
    TrimRightAfter(val, TrimRight(tail));
    TrimRightTwice(tail);
  }

  lemma EntryStep(e: Entry, more: string, inside: bool, acc: Args)
    requires Word(e.key) && ':' !in e.key && AllBlank(e.gap0) && AllBlank(e.gap1)
    requires ValueFits(e.value, inside)
    requires ReadValue(ShowValue(e.value) + TrimRight(e.gap2 + more)) == Some(Read(ValueOf(e.value), Trim(e.gap2 + more)))
    ensures ArgsFrom(Trim(ShowHead(e) + ShowValue(e.value) + (e.gap2 + more)), acc)
         == ArgsFrom(PastComma(Trim(e.gap2 + more)), acc[e.key := ValueOf(e.value)])
  {
    hide ReadValue, IndexOf, ShowValue, ValueOf, Word, ValueFits, Trim, TrimRight, PastComma, AllBlank;
    var val, tail := ShowValue(e.value), e.gap2 + more;
    ValueIsSolid(e.value, inside);
    WordIsSolid(e.key);
    TrimmedEntry(ShowHead(e), val, tail);
    KeyAndValue(e, val + TrimRight(tail));
    TrimmedValue(val, tail);
  }

  lemma ColonFirst(s: string)
    ensures IndexOf(":" + s, ':') == Some(0)
  {}

  lemma WordIsSolid(w: string)
    requires Word(w)
    ensures Solid(w)
  {}

  lemma ValueIsSolid(v: Value, inside: bool)
    requires ValueFits(v, inside)
    ensures Solid(ShowValue(v))
  {}

  /** Reading the printing of an argument list gives its meaning, whatever the blanks and however deep
      the objects. */
  lemma ArgumentsRoundTrip(gap: string, es: seq<Entry>, inside: bool)
    requires AllBlank(gap) && EntriesFit(es, inside)
    ensures ArgsOf(gap + ShowEntries(es)) == Some(EntriesOn(es, map[]))
  {
    hide ArgsFrom, EntriesFit;
    EntriesRead(es, inside, map[]);
    TrimAround(gap, ShowEntries(es), "");
    assert gap + ShowEntries(es) + "" == gap + ShowEntries(es);
  }
}
