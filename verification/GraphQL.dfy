/** Reading the top-level fields of a query (engine/engine.go:381-535).

    `strings.Index` and `strings.LastIndex` are functions; the scanning loops are methods.  Texts are
    sequences of characters: every delimiter is ASCII, so bytes and characters split alike. */
module GraphQL {
  import opened Wrappers
  import opened Text
  import opened Scanner
  import opened Arguments

  datatype Field = Field(name: string, alias: string, args: Args)

  /** What reading one field's text comes to: a field, an error the caller skips, or a Go panic. */
  datatype Outcome = Parsed(field: Field) | Skipped | Panicked

  /** What a query comes to: its fields, a refusal, or a Go panic on its way through. */
  datatype Reply = Listed(fields: seq<Field>) | Refused(why: string) | Crashed

  predicate Space(c: char) { c == ' ' || c == '\t' || c == '\n' || c == '\r' }

  predicate NameChar(c: char) {
    !Space(c) && c != '(' && c != '{' && c != ':' && c != ','
  }

  function NameLen(s: string): (n: nat)
    ensures n <= |s|
  {
    if s != [] && NameChar(s[0]) then 1 + NameLen(s[1..]) else 0
  }

  function SpaceLen(s: string): (n: nat)
    ensures n <= |s|
  {
    if s != [] && Space(s[0]) then 1 + SpaceLen(s[1..]) else 0
  }

  // ----- where a field ends -----

  /** What stands after an alias's colon: blanks, the name, blanks. */
  function AliasedLen(z: string): (k: nat)
    ensures k <= |z|
  {
    var j := SpaceLen(z);
    var k := j + NameLen(z[j..]);
    k + SpaceLen(z[k..])
  }

  /** Past the name, and past `alias: name`. */
  function HeadEnd(s: string): (i: nat)
    ensures i <= |s|
  {
    var n := NameLen(s);
    var i := n + SpaceLen(s[n..]);
    if i < |s| && s[i] == ':' then i + 1 + AliasedLen(s[i + 1..]) else i
  }

  /** How much the arguments take up, when the text starts with them. */
  function ArgsLen(t: string): (r: Option<nat>)
    ensures r.Some? ==> r.value <= |t|
  {
    if t != [] && t[0] == '(' then
      match Find(Paren, t, ' ', State(0, false))
      case None => None
      case Some(k) => Some(k + 1 + SpaceLen(t[k + 1..]))
    else Some(0)
  }

  /** How much the selection set takes up, when the text starts with it. */
  function BlockLen(t: string): (r: Option<nat>)
    ensures r.Some? ==> r.value <= |t|
  {
    if t != [] && t[0] == '{' then
      match Find(Brace, t, ' ', State(0, false))
      case None => None
      case Some(k) => Some(k + 1)
    else Some(0)
  }

  function FieldEnd(s: string): (r: Result<nat>)
    ensures r.Ok? ==> r.result <= |s|
  {
    var i := HeadEnd(s);
    match ArgsLen(s[i..])
    case None => Err("unclosed arguments")
    case Some(a) =>
      match BlockLen(s[i + a..])
      case None => Err("unclosed selection set")
      case Some(b) => Ok(i + a + b)
  }

  // ----- one field -----

  /** The alias is what stands before a colon that comes before any parenthesis or brace. */
  function AliasOf(s: string): (string, string) {
    match IndexOf(s, ':')
    case None => ("", s)
    case Some(i) =>
      if i > 0 && '(' !in s[..i] && '{' !in s[..i] then (Trim(s[..i]), Trim(s[i + 1..])) else ("", s)
  }

  /** Everything up to the first space, parenthesis or brace. */
  function NameOf(s: string): string {
    if s == [] || s[0] == '(' || s[0] == '{' || s[0] == ' ' then "" else [s[0]] + NameOf(s[1..])
  }

  /** What stands between the first parenthesis anywhere and its match. */
  function ArgText(s: string): Option<string> {
    match IndexOf(s, '(')
    case None => None
    case Some(p) =>
      match Find(Paren, s[p..], ' ', State(0, false))
      case None => None
      case Some(k) => Some(s[p + 1..p + k])
  }

  function FieldArgs(s: string): Option<Args> {
    match ArgText(s) case None => Some(map[]) case Some(text) => ArgsOf(text)
  }

  function ReadNamed(alias: string, s: string): Outcome {
    match FieldArgs(s)
    case None => Panicked
    case Some(args) => Parsed(Field(NameOf(s), alias, args))
  }

  function ReadField(text: string): Outcome {
    var s := Trim(text);
    if s == [] then Skipped else ReadNamed(AliasOf(s).0, AliasOf(s).1)
  }

  // ----- all fields -----

  function Joined(fields: seq<Field>, more: Reply): Reply {
    if more.Listed? then Listed(fields + more.fields) else more
  }

  function Kept(f: Field): seq<Field> { if f.name != "" then [f] else [] }

  function Top(body: string): Reply {
    if body == [] then Listed([])
    else if Space(body[0]) || body[0] == ',' then Top(body[1..])
    else match FieldEnd(body)
      case Err(e) => Refused(e)
      case Ok(n) =>
        if n == 0 then Refused("cannot parse field")
        else match ReadField(body[..n])
          case Panicked => Crashed
          case Skipped => Top(body[n..])
          case Parsed(f) => Joined(Kept(f), Top(body[n..]))
  }

  function TopFields(query: string): Reply {
    var start, end := IndexOf(query, '{'), LastIndexOf(query, '}');
    if start.None? || end.None? || end.value <= start.value then Refused("invalid query: missing braces")
    else
      var body := Trim(query[start.value + 1..end.value]);
      if body == "" then Refused("empty selection set")
      else if Top(body) == Listed([]) then Refused("no fields in query")
      else Top(body)
  }

  // ----- the loops -----

  method ScanName(s: string, start: nat) returns (i: nat)
    requires start <= |s|
    ensures i == start + NameLen(s[start..]) && i <= |s|
  {
    i := start;
    while i < |s| && !Space(s[i]) && s[i] != '(' && s[i] != '{' && s[i] != ':' && s[i] != ','
      invariant start <= i <= |s|
      invariant start + NameLen(s[start..]) == i + NameLen(s[i..])
    {
      assert s[i..][1..] == s[i + 1..];
      i := i + 1;
    }
  }

  method SkipSpace(s: string, start: nat) returns (i: nat)
    requires start <= |s|
    ensures i == start + SpaceLen(s[start..]) && i <= |s|
  {
    i := start;
    while i < |s| && Space(s[i])
      invariant start <= i <= |s|
      invariant start + SpaceLen(s[start..]) == i + SpaceLen(s[i..])
    {
      assert s[i..][1..] == s[i + 1..];
      i := i + 1;
    }
  }

  lemma PrevIrrelevant(kind: Kind, s: string, p: char, q: char, st: State)
    requires s != [] && s[0] != '"'
    ensures Find(kind, s, p, st) == Find(kind, s, q, st)
  {}

  /** A bracket does not close itself. */
  lemma ClosesLater(kind: Kind, s: string)
    requires s != [] && (s[0] == '{' || (kind.Paren? && s[0] == '('))
    ensures Find(kind, s, ' ', State(0, false)) != Some(0)
  {}

  method SkipHead(body: string, from: nat) returns (i: nat)
    requires from <= |body|
    ensures i == from + HeadEnd(body[from..]) && i <= |body|
  {
    hide NameLen, SpaceLen, AliasedLen;
    i := ScanName(body, from);
    assert body[from..][i - from..] == body[i..];
    i := SkipSpace(body, i);
    if i < |body| && body[i] == ':' {
      assert body[from..][i - from + 1..] == body[i + 1..];
      i := SkipAliased(body, i + 1);
    }
  }

  method SkipAliased(body: string, from: nat) returns (i: nat)
    requires from <= |body|
    ensures i == from + AliasedLen(body[from..]) && i <= |body|
  {
    hide NameLen, SpaceLen;
    i := SkipSpace(body, from);
    assert body[from..][i - from..] == body[i..];
    i := ScanName(body, i);
    assert body[from..][i - from..] == body[i..];
    i := SkipSpace(body, i);
  }

  method SkipArgs(body: string, from: nat) returns (i: Option<nat>)
    requires from <= |body|
    ensures ArgsLen(body[from..]) == match i case None => None case Some(at) => Some(at - from)
    ensures i.Some? ==> from <= i.value <= |body|
  {
    hide SpaceLen, Find;
    if from < |body| && body[from] == '(' {
      PrevIrrelevant(Paren, body[from..], Before(body, from), ' ', State(0, false));
      ClosesLater(Paren, body[from..]);
      var closed := FindMatchingParen(body, from);
      if closed <= from {
        return None;
      }
      assert body[from..][closed - from + 1..] == body[closed + 1..];
      var past := SkipSpace(body, closed + 1);
      return Some(past);
    }
    i := Some(from);
  }

  method SkipBlock(body: string, from: nat) returns (i: Option<nat>)
    requires from <= |body|
    ensures BlockLen(body[from..]) == match i case None => None case Some(at) => Some(at - from)
    ensures i.Some? ==> from <= i.value <= |body|
  {
    hide Find;
    if from < |body| && body[from] == '{' {
      PrevIrrelevant(Brace, body[from..], Before(body, from), ' ', State(0, false));
      ClosesLater(Brace, body[from..]);
      var closed := FindMatchingBrace(body, from);
      if closed <= from {
        return None;
      }
      return Some(closed + 1);
    }
    i := Some(from);
  }

  /** From one field's first character to its end. */
  method FindFieldEnd(body: string, from: nat) returns (r: Result<nat>)
    requires from <= |body|
    ensures FieldEnd(body[from..]) == match r case Err(e) => Err(e) case Ok(i) => Ok(i - from)
    ensures r.Ok? ==> from <= r.result <= |body|
  {
    hide HeadEnd, ArgsLen, BlockLen;
    var i := SkipHead(body, from);
    assert body[from..][i - from..] == body[i..];
    var j := SkipArgs(body, i);
    if j.None? {
      return Err("unclosed arguments");
    }
    assert body[from..][j.value - from..] == body[j.value..];
    var k := SkipBlock(body, j.value);
    if k.None? {
      return Err("unclosed selection set");
    }
    r := Ok(k.value);
  }

  method ParseField(text: string) returns (r: Outcome)
    ensures r == ReadField(text)
  {
    hide FieldArgs, NameOf, IndexOf;
    var s := Trim(text);
    if s == "" {
      return Skipped;
    }
    var alias := "";
    var idx := IndexOf(s, ':');
    if idx.Some? && idx.value > 0 && '(' !in s[..idx.value] && '{' !in s[..idx.value] {
      alias := Trim(s[..idx.value]);
      s := Trim(s[idx.value + 1..]);
    }
    var nameEnd := NameEnd(s);
    var args := ParseFieldArgs(s);
    if args.None? {
      return Panicked;
    }
    r := Parsed(Field(s[..nameEnd], alias, args.value));
  }

  method ParseFieldArgs(s: string) returns (args: Option<Args>)
    ensures args == FieldArgs(s)
  {
    hide Find, ArgsOf;
    var parenStart := IndexOf(s, '(');
    if parenStart.None? {
      return Some(map[]);
    }
    var p := parenStart.value;
    PrevIrrelevant(Paren, s[p..], Before(s, p), ' ', State(0, false));
    ClosesLater(Paren, s[p..]);
    var parenEnd := FindMatchingParen(s, p);
    if parenEnd <= p {
      return Some(map[]);
    }
    args := ParseArgs(s[p + 1..parenEnd]);
  }

  method NameEnd(s: string) returns (end: nat)
    ensures end <= |s| && s[..end] == NameOf(s)
  {
    end := |s|;
    for i := 0 to |s|
      invariant end == |s|
      invariant NameOf(s) == s[..i] + NameOf(s[i..])
    {
      assert s[i..][1..] == s[i + 1..];
      if s[i] == '(' || s[i] == '{' || s[i] == ' ' {
        end := i;
        break;
      }
      assert s[..i + 1] == s[..i] + [s[i]];
    }
  }

  method ParseTopFields(query: string) returns (r: Reply)
    ensures r == TopFields(query)
  {
    hide FieldEnd, ReadField;
    var start, end := IndexOf(query, '{'), LastIndexOf(query, '}');
    if start.None? || end.None? || end.value <= start.value {
      return Refused("invalid query: missing braces");
    }
    var body := Trim(query[start.value + 1..end.value]);
    if body == "" {
      return Refused("empty selection set");
    }
    var fields, i := [], 0;
    assert body[0..] == body;
    JoinedNothing(Top(body));
    while i < |body|
      invariant i <= |body|
      invariant Top(body) == Joined(fields, Top(body[i..]))
    {
      TopStep(body, i);
      if Space(body[i]) || body[i] == ',' {
        i := i + 1;
        continue;
      }
      var fieldStart := i;
      var ended := FindFieldEnd(body, i);
      if ended.Err? {
        return Refused(ended.reason);
      }
      i := ended.result;
      if i == fieldStart {
        return Refused("cannot parse field");
      }
      var f := ParseField(body[fieldStart..i]);
      if f.Panicked? {
        return Crashed;
      }
      if f.Parsed? {
        JoinedTwice(fields, Kept(f.field), Top(body[i..]));
      }
      if f.Parsed? && f.field.name != "" {
        fields := fields + [f.field];
      }
    }
    assert body[i..] == [] && fields + [] == fields;
    if |fields| == 0 {
      return Refused("no fields in query");
    }
    r := Listed(fields);
  }

  lemma JoinedNothing(more: Reply)
    ensures Joined([], more) == more
  {
    if more.Listed? {
      assert [] + more.fields == more.fields;
    }
  }

  lemma JoinedTwice(a: seq<Field>, b: seq<Field>, more: Reply)
    ensures Joined(a, Joined(b, more)) == Joined(a + b, more)
    ensures Joined(a, Joined([], more)) == Joined(a, more)
  {
    JoinedNothing(more);
    if more.Listed? {
      assert a + (b + more.fields) == a + b + more.fields;
    }
  }

  /** One turn of the loop from offset i. */
  lemma TopStep(body: string, i: nat)
    requires i < |body|
    ensures Top(body[i..])
         == if Space(body[i]) || body[i] == ',' then Top(body[i + 1..])
            else match FieldEnd(body[i..])
              case Err(e) => Refused(e)
              case Ok(n) =>
                if n == 0 then Refused("cannot parse field")
                else match ReadField(body[i..i + n])
                  case Panicked => Crashed
                  case Skipped => Top(body[i + n..])
                  case Parsed(f) => Joined(Kept(f), Top(body[i + n..]))
  {
    hide FieldEnd, ReadField;
    var s := body[i..];
    assert s[1..] == body[i + 1..];
    var end := FieldEnd(s);
    if end.Ok? {
      EndInside(s);
      assert s[..end.result] == body[i..i + end.result];
      assert s[end.result..] == body[i + end.result..];
    }
  }

  lemma EndInside(s: string)
    requires FieldEnd(s).Ok?
    ensures FieldEnd(s).result <= |s|
  {}

  // ----- what is refused -----

  ghost predicate Unclosed(kind: Kind, t: string) {
    t != [] && t[0] == (if kind.Paren? then '(' else '{') && forall k: nat :: !ClosesAt(kind, t, k, ' ', State(0, false))
  }

  /** A field cannot be cut out exactly when its arguments, or else its selection set, open a bracket
      that nothing closes. */
  lemma FieldRefusedIff(s: string)
    ensures var h := s[HeadEnd(s)..];
            && (FieldEnd(s) == Err("unclosed arguments") <==> Unclosed(Paren, h))
            && (FieldEnd(s) == Err("unclosed selection set") <==>
                  ArgsLen(h).Some? && Unclosed(Brace, h[ArgsLen(h).value..]))
            && (FieldEnd(s).Err? ==> FieldEnd(s) in [Err("unclosed arguments"), Err("unclosed selection set")])
  {
    hide HeadEnd;
    var h := s[HeadEnd(s)..];
    FindIsFirst(Paren, h, ' ', State(0, false));
    if ArgsLen(h).Some? {
      var t := h[ArgsLen(h).value..];
      assert s[HeadEnd(s) + ArgsLen(h).value..] == t;
      FindIsFirst(Brace, t, ' ', State(0, false));
    }
    assert "unclosed arguments"[9] == 'a' && "unclosed selection set"[9] == 's';
  }

  lemma {:induction false} TopRefusals(body: string)
    ensures Top(body).Refused? ==> Top(body).why in ["unclosed arguments", "unclosed selection set", "cannot parse field"]
  {
    hide HeadEnd, ReadField;
    if body == [] {
    } else if Space(body[0]) || body[0] == ',' {
      TopRefusals(body[1..]);
    } else {
      FieldRefusedIff(body);
      var end := FieldEnd(body);
      hide FieldEnd;
      if end.Ok? && end.result > 0 {
        TopRefusals(body[end.result..]);
      }
    }
  }

  /** A query has no fields to read exactly when no closing brace comes after an opening one. */
  lemma BracesRefusedIff(query: string)
    ensures TopFields(query) == Refused("invalid query: missing braces")
       <==> forall i, j | 0 <= i < j < |query| :: !(query[i] == '{' && query[j] == '}')
  {
    var start, end := IndexOf(query, '{'), LastIndexOf(query, '}');
    if start.Some? && end.Some? && start.value < end.value {
      TopRefusals(Trim(query[start.value + 1..end.value]));
      hide Top, Trim;
      assert query[start.value] == '{' && query[end.value] == '}';
      assert "invalid query: missing braces"[0] == 'i' && "empty selection set"[0] == 'e' && "no fields in query"[0] == 'n';
      assert "unclosed arguments"[0] == 'u' && "unclosed selection set"[0] == 'u' && "cannot parse field"[0] == 'c';
    }
  }

  // ----- where a query panics -----

  /** The texts of the fields the loop comes to: up to the first it cannot cut out. */
  function Slices(body: string): seq<string> {
    if body == [] then []
    else if Space(body[0]) || body[0] == ',' then Slices(body[1..])
    else match FieldEnd(body)
      case Err(_) => []
      case Ok(n) => if n == 0 then [] else [body[..n]] + Slices(body[n..])
  }

  /** A field's arguments come to a value with nothing left but one opening brace. */
  predicate LoneBrace(slice: string) {
    var s := Trim(slice);
    s != [] && ArgText(AliasOf(s).1).Some? && "{" in ValueTexts(Trim(ArgText(AliasOf(s).1).value))
  }

  lemma FieldPanicIff(slice: string)
    ensures ReadField(slice).Panicked? <==> LoneBrace(slice)
  {
    hide ArgText, AliasOf, ArgsFrom, ValueTexts, Trim, NameOf;
    var text := ArgText(AliasOf(Trim(slice)).1);
    if text.Some? {
      ArgsPanicIff(Trim(text.value), map[]);
    }
  }

  lemma {:induction false} TopPanicIff(body: string)
    ensures Top(body).Crashed? <==> exists x :: x in Slices(body) && LoneBrace(x)
  {
    hide FieldEnd, ReadField, LoneBrace;
    if body == [] {
    } else if Space(body[0]) || body[0] == ',' {
      TopPanicIff(body[1..]);
    } else {
      var end := FieldEnd(body);
      if end.Ok? && end.result > 0 {
        EndInside(body);
        var n := end.result;
        FieldPanicIff(body[..n]);
        TopPanicIff(body[n..]);
        assert Slices(body) == [body[..n]] + Slices(body[n..]);
      }
    }
  }

  /** What the top-level braces hold. */
  function BodyOf(query: string): string {
    var start, end := IndexOf(query, '{'), LastIndexOf(query, '}');
    if start.None? || end.None? || end.value <= start.value then "" else Trim(query[start.value + 1..end.value])
  }

  /** A query panics exactly when a field the loop comes to has such arguments. */
  lemma QueryPanicIff(query: string)
    ensures TopFields(query).Crashed? <==> exists x :: x in Slices(BodyOf(query)) && LoneBrace(x)
  {
    hide Top, Slices, LoneBrace, IndexOf, LastIndexOf, Trim;
    TopPanicIff(BodyOf(query));
    NoSlices();
  }

  lemma NoSlices()
    ensures Slices("") == [] && Top("") == Listed([])
  {}

  /** And such queries there are: the parentheses match, and the last value is one open brace. */
  lemma LoneBraceCrashes()
    ensures TopFields("{f(}a:{)}").Crashed?
  {
    var query := "{f(}a:{)}";
    var body := "f(}a:{)";
    assert query[1..8] == body;
    assert query[8] == '}';
    LastBrace(query);
    BodyTrims(body);
    assert BodyOf(query) == body;
    BodySlice(body);
    BodyIsLone(body);
    QueryPanicIff(query);
  }

  lemma LastBrace(query: string)
    requires query == "{f(}a:{)}"
    ensures IndexOf(query, '{') == Some(0) && LastIndexOf(query, '}') == Some(8)
  {
    assert query[0] == '{' && query[|query| - 1] == '}';
  }

  lemma BodyTrims(body: string)
    requires body == "f(}a:{)"
    ensures Trim(body) == body
  {
    assert body[0] == 'f' && body[6] == ')';
  }

  lemma BodySlice(body: string)
    requires body == "f(}a:{)"
    ensures body in Slices(body)
  {
    BodyFound(body);
    assert body[0] == 'f';
    assert body[1..][0] == '(';
    assert NameLen(body[1..]) == 0;
    assert NameLen(body) == 1;
    assert SpaceLen(body[1..]) == 0;
    assert HeadEnd(body) == 1;
    assert body[1..][6..] == "" && SpaceLen("") == 0;
    assert ArgsLen(body[1..]) == Some(6);
    assert body[7..] == "" && BlockLen("") == Some(0);
    assert FieldEnd(body) == Ok(7);
    assert body[..7] == body;
  }

  lemma BodyFound(body: string)
    requires body == "f(}a:{)"
    ensures Find(Paren, body[1..], ' ', State(0, false)) == Some(5)
  {
    var t := body[1..];
    assert t == "(" + "}a:{" + ")";
    assert t[1..] == "}a:{)" && t[1..][1..] == "a:{)" && "a:{)"[1..] == ":{)" && ":{)"[1..] == "{)" && "{)"[1..] == ")";
    assert Find(Paren, ")", '{', State(1, false)) == Some(0);
    assert Find(Paren, "{)", ':', State(0, false)) == Some(1);
    assert Find(Paren, ":{)", 'a', State(0, false)) == Some(2);
    assert Find(Paren, "a:{)", '}', State(0, false)) == Some(3);
    assert Find(Paren, "}a:{)", '(', State(1, false)) == Some(4);
  }

  lemma BodyIsLone(body: string)
    requires body == "f(}a:{)"
    ensures LoneBrace(body)
  {
    BodyTrims(body);
    BodyFound(body);
    assert body[0] == 'f' && body[1] == '(' && body[2] == '}' && body[3] == 'a' && body[4] == ':';
    assert IndexOf(body, ':') == Some(4) && '(' in body[..4];
    assert IndexOf(body, '(') == Some(1);
    var text := "}a:{";
    assert body[2..6] == text;
    assert ArgText(body) == Some(text);
    assert text[0] == '}' && text[3] == '{' && Trim(text) == text;
    assert IndexOf(text, ':') == Some(2) && text[3..] == "{" && Trim("{") == "{";
  }
}
