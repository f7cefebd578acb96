/** The queries the reader understands, printed with every blank written out, and read back
    (engine/engine.go:388-684). */
module Queries {
  import opened Wrappers
  import opened Text
  import opened Scanner
  import opened Arguments
  import opened GraphQL

  /** A selection set's text: plain text, quoted strings, and nested braces. */
  datatype Piece = Plain(text: string) | Str(text: string) | Block(pieces: seq<Piece>)

  datatype Alias = Alias(text: string, gap0: string, gap1: string)

  /** "(" gap entries ")" after */
  datatype ArgList = ArgList(gap: string, entries: seq<Entry>, after: string)

  /** One top-level field: alias gap0 ":" gap1 name gap arguments selection. */
  datatype Item = Item(alias: Option<Alias>, name: string, gap: string, args: Option<ArgList>, block: Option<seq<Piece>>)

  /** A field and what separates it from the next. */
  datatype Placed = Placed(item: Item, sep: string)

  datatype Doc = Doc(prefix: string, lead: string, items: seq<Placed>, suffix: string)

  function ShowPieces(ps: seq<Piece>): string
    decreases ps
  {
    if ps == [] then "" else ShowPiece(ps[0]) + ShowPieces(ps[1..])
  }

  function ShowPiece(p: Piece): string
    decreases p
  {
    match p
    case Plain(text) => text
    case Str(text) => "\"" + text + "\""
    case Block(pieces) => "{" + ShowPieces(pieces) + "}"
  }

  function ShowAlias(it: Item): string {
    match it.alias case None => "" case Some(a) => a.text + a.gap0 + ":" + a.gap1
  }

  function Inner(a: ArgList): string { a.gap + ShowEntries(a.entries) }

  function ShowArgs(it: Item): string {
    match it.args case None => "" case Some(a) => "(" + Inner(a) + ")" + a.after
  }

  function ShowBlock(it: Item): string {
    match it.block case None => "" case Some(ps) => "{" + ShowPieces(ps) + "}"
  }

  function ShowHead(it: Item): string { ShowAlias(it) + it.name }

  function Show(it: Item): string {
    ShowHead(it) + (it.gap + (ShowArgs(it) + ShowBlock(it)))
  }

  function ShowItems(items: seq<Placed>): string {
    if items == [] then "" else Show(items[0].item) + (items[0].sep + ShowItems(items[1..]))
  }

  function ShowDoc(d: Doc): string {
    d.prefix + ("{" + (d.lead + ShowItems(d.items)) + "}") + d.suffix
  }

  // ----- what a query means -----

  /** The blanks before the first space: the reader takes them into the name. */
  function Spill(gap: string): string {
    if gap == "" || gap[0] == ' ' then "" else [gap[0]] + Spill(gap[1..])
  }

  function ArgsMeaning(it: Item): Args {
    match it.args case None => map[] case Some(a) => EntriesOn(a.entries, map[])
  }

  function Meaning(it: Item): Field {
    Field(it.name + Spill(it.gap), match it.alias case None => "" case Some(a) => a.text, ArgsMeaning(it))
  }

  function Meanings(items: seq<Placed>): seq<Field> {
    if items == [] then [] else [Meaning(items[0].item)] + Meanings(items[1..])
  }

  function PiecesDepth(ps: seq<Piece>): nat
    decreases ps
  {
    if ps == [] then 0 else Max(PieceDepth(ps[0]), PiecesDepth(ps[1..]))
  }

  function PieceDepth(p: Piece): nat
    decreases p
  {
    if p.Block? then 1 + PiecesDepth(p.pieces) else 0
  }

  function ItemDepth(it: Item): nat {
    Max(if it.args.Some? then EntriesDepth(it.args.value.entries) else 0,
        if it.block.Some? then 1 + PiecesDepth(it.block.value) else 0)
  }

  function ItemsDepth(items: seq<Placed>): nat {
    if items == [] then 0 else Max(ItemDepth(items[0].item), ItemsDepth(items[1..]))
  }

  // ----- the grammar -----

  predicate NameFits(w: string) {
    w != [] && forall i | 0 <= i < |w| :: NameChar(w[i]) && !IsBlank(w[i]) && PassiveChar(Paren, w[i])
  }

  predicate AllSpace(g: string) {
    forall i | 0 <= i < |g| :: Space(g[i])
  }

  predicate AllSep(g: string) {
    forall i | 0 <= i < |g| :: Space(g[i]) || g[i] == ','
  }

  predicate PiecesFit(ps: seq<Piece>)
    decreases ps
  {
    ps == [] || (PieceFits(ps[0]) && PiecesFit(ps[1..]))
  }

  predicate PieceFits(p: Piece)
    decreases p
  {
    match p
    case Plain(text) => Passive(Brace, text)
    case Str(text) => Stringy(text)
    case Block(pieces) => PiecesFit(pieces)
  }

  /** A field with no arguments of its own must hold no parenthesis further in. */
  predicate ItemFits(it: Item) {
    && NameFits(it.name) && AllSpace(it.gap)
    && (it.alias.Some? ==> NameFits(it.alias.value.text) && AllSpace(it.alias.value.gap0) && AllSpace(it.alias.value.gap1))
    && (it.args.Some? ==> AllBlank(it.args.value.gap) && EntriesFit(it.args.value.entries, false) && AllSpace(it.args.value.after))
    && (it.block.Some? ==> PiecesFit(it.block.value))
    && (it.args.None? ==> '(' !in ShowBlock(it))
    && (it.block.None? && it.args.Some? ==> it.args.value.after == "")
    && (it.block.None? && it.args.None? ==> it.gap == "")
  }

  predicate Bare(it: Item) { it.args.None? && it.block.None? }

  /** Only a bare name needs a separator before the next field. */
  predicate ItemsFit(items: seq<Placed>) {
    items == [] ||
    (&& ItemFits(items[0].item) && AllSep(items[0].sep)
     && (Bare(items[0].item) && |items| > 1 ==> items[0].sep != "")
     && ItemsFit(items[1..]))
  }

  predicate DocFits(d: Doc) {
    && Passive(Brace, d.prefix) && AllSep(d.lead) && d.items != [] && ItemsFit(d.items) && Passive(Brace, d.suffix)
  }

  // ----- spans -----

  lemma {:induction false} NameLenIs(a: string, b: string)
    requires forall i | 0 <= i < |a| :: NameChar(a[i])
    requires b == [] || !NameChar(b[0])
    ensures NameLen(a + b) == |a|
  {
    if a == [] {
      assert a + b == b;
    } else {
      assert (a + b)[1..] == a[1..] + b;
      NameLenIs(a[1..], b);
    }
  }

  lemma {:induction false} SpaceLenSkips(g: string, b: string)
    requires AllSpace(g)
    ensures SpaceLen(g + b) == |g| + SpaceLen(b)
  {
    if g == [] {
      assert g + b == b;
    } else {
      assert (g + b)[1..] == g[1..] + b;
      SpaceLenSkips(g[1..], b);
    }
  }

  lemma {:induction false} SpaceLenIsSpace(s: string)
    ensures AllSpace(s[..SpaceLen(s)])
    ensures SpaceLen(s) < |s| ==> !Space(s[SpaceLen(s)])
  {
    if s != [] && Space(s[0]) {
      SpaceLenIsSpace(s[1..]);
      var n := SpaceLen(s[1..]);
      assert s[..n + 1] == [s[0]] + s[1..][..n];
      assert n < |s[1..]| ==> s[n + 1] == s[1..][n];
    }
  }

  lemma SpaceIsBlank(g: string)
    requires AllSpace(g)
    ensures AllBlank(g)
  {}

  // ----- one field is found and read -----

  lemma BracketStops(c: char)
    requires c == '(' || c == '{'
    ensures !NameChar(c) && !Space(c) && c != ':'
  {}

  lemma ColonStops()
    ensures !NameChar(':') && !Space(':')
  {}

  lemma PlainHead(name: string, y: string)
    requires NameFits(name) && (y == [] || !NameChar(y[0]))
    requires SpaceLen(y) < |y| ==> y[SpaceLen(y)] != ':'
    ensures HeadEnd(name + y) == |name| + SpaceLen(y)
  {
    hide NameLen, SpaceLen, NameChar, NameFits, Space;
    NameFitsIs(name);
    NameLenIs(name, y);
    assert (name + y)[|name|..] == y;
  }

  /** Up to the colon after an alias. */
  lemma AliasEnds(text: string, gap: string, z: string)
    requires NameFits(text) && AllSpace(gap)
    ensures var s := text + (gap + (":" + z));
            NameLen(s) == |text| && s[|text|..] == gap + (":" + z) && SpaceLen(gap + (":" + z)) == |gap|
  {
    hide NameLen, SpaceLen, NameChar, NameFits, Space;
    NameFitsIs(text);
    ColonStops();
    GapStart(gap, ":" + z);
    NameLenIs(text, gap + (":" + z));
    SpaceLenSkips(gap, ":" + z);
    NoSpaceAt(":" + z);
  }

  /** From the colon on. */
  lemma AliasedIs(gap: string, name: string, y: string)
    requires AllSpace(gap) && NameFits(name) && (y == [] || !NameChar(y[0]))
    ensures AliasedLen(gap + (name + y)) == |gap| + |name| + SpaceLen(y)
  {
    hide NameLen, SpaceLen, NameChar, NameFits, Space, AllSpace;
    NameFitsIs(name);
    SpaceLenSkips(gap, name + y);
    assert (name + y)[0] == name[0];
    NoSpaceAt(name + y);
    NameLenIs(name, y);
    var z := gap + (name + y);
    assert z[|gap|..] == name + y && z[|gap| + |name|..] == y;
  }

  lemma AliasedHead(a: Alias, name: string, y: string)
    requires NameFits(a.text) && AllSpace(a.gap0) && AllSpace(a.gap1)
    requires NameFits(name) && (y == [] || !NameChar(y[0]))
    ensures HeadEnd(a.text + (a.gap0 + (":" + (a.gap1 + (name + y))))) == |a.text| + |a.gap0| + 1 + |a.gap1| + |name| + SpaceLen(y)
  {
    hide NameLen, SpaceLen, NameChar, NameFits, Space, AllSpace, AliasedLen;
    var z := a.gap1 + (name + y);
    var s, i := a.text + (a.gap0 + (":" + z)), |a.text| + |a.gap0|;
    AliasEnds(a.text, a.gap0, z);
    AliasedIs(a.gap1, name, y);
    assert s[i] == ':' && s[i + 1..] == z;
  }

  lemma Regroup(a: string, b: string, c: string, d: string, e: string, f: string)
    ensures a + b + c + d + e + f == a + (b + (c + (d + (e + f))))
  {}

  /** Past the head the scan stands where the blanks after it end. */
  lemma HeadEnds(it: Item, y: string)
    requires ItemFits(it)
    requires y == [] || !NameChar(y[0])
    requires SpaceLen(y) < |y| ==> y[SpaceLen(y)] != ':'
    ensures HeadEnd(ShowHead(it) + y) == |ShowHead(it)| + SpaceLen(y)
  {
    hide HeadEnd, SpaceLen, NameChar, NameFits, AllSpace, PiecesFit, EntriesFit, ShowBlock;
    match it.alias
    case None =>
      assert ShowHead(it) == it.name;
      PlainHead(it.name, y);
    case Some(a) =>
      Regroup(a.text, a.gap0, ":", a.gap1, it.name, y);
      AliasedHead(a, it.name, y);
  }

  lemma NameFitsIs(w: string)
    requires NameFits(w)
    ensures w != [] && forall i | 0 <= i < |w| :: NameChar(w[i])
    ensures !Space(w[0])
  {
    assert NameChar(w[0]);
  }

  lemma GapStart(g: string, b: string)
    requires AllSpace(g) && b != [] && !NameChar(b[0])
    ensures g + b != [] && !NameChar((g + b)[0])
  {}

  lemma NoSpaceAt(s: string)
    requires s != [] && !Space(s[0])
    ensures SpaceLen(s) == 0
  {}

  /** What may follow a field: nothing that would continue it. */
  predicate Ends(it: Item, x: string) {
    || it.block.Some?
    || ((Bare(it) ==> x == [] || !NameChar(x[0]))
        && (SpaceLen(x) < |x| ==> x[SpaceLen(x)] != '(' && x[SpaceLen(x)] != '{' && x[SpaceLen(x)] != ':'))
  }

  lemma ArgsAreLevel(kind: Kind, a: ArgList, prev: char, d: int)
    requires AllBlank(a.gap) && EntriesFit(a.entries, false) && prev != '\\' && d >= 1 && !kind.Raw?
    ensures Level(kind, Inner(a), prev, d, EntriesDepth(a.entries))
  {
    hide Level, EntriesFit;
    InsideLevel(kind, a.gap, a.entries, false, prev, d);
  }

  lemma ArgsLenIs(a: ArgList, more: string)
    requires AllBlank(a.gap) && EntriesFit(a.entries, false)
    ensures ArgsLen("(" + Inner(a) + ")" + more) == Some(|Inner(a)| + 2 + SpaceLen(more))
  {
    hide Level, EntriesFit, Inner, Find;
    ArgsAreLevel(Paren, a, '(', 1);
    FindCloses(Paren, Inner(a), more, ' ', EntriesDepth(a.entries));
    var t := "(" + Inner(a) + ")" + more;
    assert t[|Inner(a)| + 2..] == more;
  }

  lemma {:induction false} PiecesLevel(ps: seq<Piece>, prev: char, d: int)
    requires PiecesFit(ps) && prev != '\\' && d >= 1
    ensures Level(Brace, ShowPieces(ps), prev, d, PiecesDepth(ps))
    decreases ps
  {
    hide Level;
    if ps == [] {
      LevelEmpty(Brace, prev, d);
    } else {
      PieceLevel(ps[0], prev, d);
      LevelEnd(Brace, ShowPiece(ps[0]), prev, d, PieceDepth(ps[0]));
      PiecesLevel(ps[1..], Last(ShowPiece(ps[0]), prev), d);
      LevelConcat(Brace, ShowPiece(ps[0]), ShowPieces(ps[1..]), prev, d, PieceDepth(ps[0]), PiecesDepth(ps[1..]));
    }
  }

  lemma {:induction false} PieceLevel(p: Piece, prev: char, d: int)
    requires PieceFits(p) && prev != '\\' && d >= 1
    ensures Level(Brace, ShowPiece(p), prev, d, PieceDepth(p))
    decreases p
  {
    hide Level;
    match p
    case Plain(text) => PassiveLevel(Brace, text, prev, d);
    case Str(text) => StringLevel(Brace, text, prev, d);
    case Block(pieces) =>
      PiecesLevel(pieces, '{', d + 1);
      LevelWrap(Brace, ShowPieces(pieces), prev, d, PiecesDepth(pieces));
  }

  lemma BlockLenIs(ps: seq<Piece>, more: string)
    requires PiecesFit(ps)
    ensures BlockLen("{" + ShowPieces(ps) + "}" + more) == Some(|ShowPieces(ps)| + 2)
  {
    hide Level, Find;
    PiecesLevel(ps, '{', 1);
    FindCloses(Brace, ShowPieces(ps), more, ' ', PiecesDepth(ps));
  }

  /** Arguments and a selection set. */
  lemma BothEnd(a: ArgList, ps: seq<Piece>, x: string)
    requires AllBlank(a.gap) && EntriesFit(a.entries, false) && AllSpace(a.after) && PiecesFit(ps)
    ensures var t := "(" + Inner(a) + ")" + (a.after + ("{" + ShowPieces(ps) + "}" + x));
            var n := |Inner(a)| + 2 + |a.after|;
            ArgsLen(t) == Some(n) && BlockLen(t[n..]) == Some(|ShowPieces(ps)| + 2)
  {
    hide SpaceLen, ArgsLen, BlockLen, Inner, ShowPieces, PiecesFit, EntriesFit, AllBlank, AllSpace;
    var block := "{" + ShowPieces(ps) + "}" + x;
    var t, n := "(" + Inner(a) + ")" + (a.after + block), |Inner(a)| + 2 + |a.after|;
    ArgsLenIs(a, a.after + block);
    SpaceLenSkips(a.after, block);
    NoSpaceAt(block);
    assert t[n..] == block;
    BlockLenIs(ps, x);
  }

  /** Arguments alone. */
  lemma ArgsEnd(a: ArgList, x: string)
    requires AllBlank(a.gap) && EntriesFit(a.entries, false)
    requires SpaceLen(x) < |x| ==> x[SpaceLen(x)] != '{'
    ensures var t := "(" + Inner(a) + ")" + x;
            var n := |Inner(a)| + 2 + SpaceLen(x);
            ArgsLen(t) == Some(n) && n <= |t| && BlockLen(t[n..]) == Some(0)
  {
    hide SpaceLen, ArgsLen, BlockLen, Inner, EntriesFit, AllBlank;
    var t, n := "(" + Inner(a) + ")" + x, |Inner(a)| + 2 + SpaceLen(x);
    ArgsLenIs(a, x);
    assert t[n..] == x[SpaceLen(x)..];
    NoBlockAt(x[SpaceLen(x)..]);
  }

  lemma RegroupTail(a: string, b: string, c: string, d: string)
    ensures a + b + c + d == a + (b + (c + d))
    ensures a + "" + "" + d == a + d
  {}

  /** From the head's end: the arguments and the selection set, and the blanks up to what follows. */
  lemma TailEnds(it: Item, x: string)
    requires ItemFits(it) && Ends(it, x)
    requires !Bare(it)
    ensures var t := ShowArgs(it) + ShowBlock(it) + x;
            && t != [] && (t[0] == '(' || t[0] == '{')
            && ArgsLen(t).Some? && BlockLen(t[ArgsLen(t).value..]).Some?
            && ArgsLen(t).value + BlockLen(t[ArgsLen(t).value..]).value
               == |ShowArgs(it) + ShowBlock(it)| + if it.block.Some? then 0 else SpaceLen(x)
  {
    hide SpaceLen, ArgsLen, BlockLen, Inner, ShowPieces, PiecesFit, EntriesFit, NameFits, AllSpace, AllBlank, NameChar, Space;
    var t := ShowArgs(it) + ShowBlock(it) + x;
    if it.args.None? {
      assert "" + ShowBlock(it) == ShowBlock(it);
      BlockLenIs(it.block.value, x);
      NoArgsAt(t);
      assert t[0..] == t;
    } else if it.block.Some? {
      var a := it.args.value;
      RegroupTail("(" + Inner(a) + ")", a.after, "{" + ShowPieces(it.block.value) + "}", x);
      BothEnd(a, it.block.value, x);
    } else {
      var a := it.args.value;
      RegroupTail("(" + Inner(a) + ")", "", "", x);
      ArgsEnd(a, x);
    }
  }

  lemma NoArgsAt(t: string)
    requires t == [] || t[0] != '('
    ensures ArgsLen(t) == Some(0)
  {}

  lemma NoBlockAt(t: string)
    requires t == [] || t[0] != '{'
    ensures BlockLen(t) == Some(0)
  {}

  /** A printed field ends where it ends, give or take the blanks up to what follows. */
  lemma FieldEnds(it: Item, x: string)
    requires ItemFits(it) && Ends(it, x)
    ensures FieldEnd(Show(it) + x) == Ok(|Show(it)| + if it.block.Some? then 0 else SpaceLen(x))
  {
    hide FieldEnd, ItemFits, Show, Ends;
    if Bare(it) {
      BareEnds(it, x);
    } else {
      FullEnds(it, x);
    }
  }

  lemma BareEnds(it: Item, x: string)
    requires ItemFits(it) && Ends(it, x) && Bare(it)
    ensures FieldEnd(Show(it) + x) == Ok(|Show(it)| + SpaceLen(x))
  {
    hide SpaceLen, ArgsLen, BlockLen, HeadEnd, NameChar, ItemFits, Show, ShowHead;
    BareShows(it);
    HeadEnds(it, x);
    var s, i := ShowHead(it) + x, |ShowHead(it)| + SpaceLen(x);
    assert s[i..] == x[SpaceLen(x)..];
    NoArgsAt(s[i..]);
    NoBlockAt(s[i + 0..]);
  }

  lemma FullEnds(it: Item, x: string)
    requires ItemFits(it) && Ends(it, x) && !Bare(it)
    ensures FieldEnd(Show(it) + x) == Ok(|Show(it)| + if it.block.Some? then 0 else SpaceLen(x))
  {
    hide SpaceLen, ArgsLen, BlockLen, HeadEnd, NameChar, ItemFits, Space, ShowArgs, ShowBlock, ShowHead, Ends, AllSpace;
    var s, t := Show(it) + x, ShowArgs(it) + ShowBlock(it) + x;
    var y := it.gap + t;
    assert s == ShowHead(it) + y;
    TailEnds(it, x);
    GapFits(it);
    BracketStops(t[0]);
    GapStart(it.gap, t);
    SpaceLenSkips(it.gap, t);
    NoSpaceAt(t);
    assert y[|it.gap|] == t[0];
    HeadEnds(it, y);
    var i, a := |ShowHead(it)| + |it.gap|, ArgsLen(t).value;
    assert s[i..] == t;
    assert s[i + a..] == t[a..];
  }

  lemma GapFits(it: Item)
    requires ItemFits(it)
    ensures AllSpace(it.gap)
  {}

  lemma BareShows(it: Item)
    requires ItemFits(it) && Bare(it)
    ensures it.gap == "" && ShowArgs(it) == "" && ShowBlock(it) == "" && Show(it) == ShowHead(it)
  {}

  // ----- the field's text is read back -----

  /** The field past its alias. */
  function Rest(it: Item): string { it.name + (it.gap + (ShowArgs(it) + ShowBlock(it))) }

  lemma NoneOf(w: string, c: char)
    requires NameFits(w) && (c == '(' || c == '{' || c == ':')
    ensures c !in w
  {}

  lemma NameIsSolid(w: string)
    requires NameFits(w)
    ensures Solid(w)
  {}

  /** A printed field begins with its name and ends with its name or a bracket. */
  lemma RestIsSolid(it: Item)
    requires ItemFits(it)
    ensures Solid(Rest(it))
  {
    hide PiecesFit, EntriesFit, ShowPieces, Inner, NameFits;
    NameIsSolid(it.name);
    if it.block.Some? {
      assert ShowBlock(it)[|ShowBlock(it)| - 1] == '}';
    } else if it.args.Some? {
      assert ShowArgs(it) == "(" + Inner(it.args.value) + ")" + "";
    }
  }

  lemma ShowIsRest(it: Item)
    ensures it.alias.None? ==> Show(it) == Rest(it)
    ensures it.alias.Some? ==> var a := it.alias.value; Show(it) == a.text + a.gap0 + (":" + (a.gap1 + Rest(it)))
  {
    hide ShowArgs, ShowBlock;
    var t := it.gap + (ShowArgs(it) + ShowBlock(it));
    if it.alias.Some? {
      var a := it.alias.value;
      Regroup(a.text, a.gap0, ":", a.gap1, it.name, t);
      assert a.text + (a.gap0 + (":" + (a.gap1 + Rest(it)))) == a.text + a.gap0 + (":" + (a.gap1 + Rest(it)));
    } else {
      assert "" + it.name == it.name;
    }
  }

  /** Without an alias no colon comes before the first bracket. */
  lemma NoAliasRead(it: Item)
    requires ItemFits(it)
    ensures AliasOf(Rest(it)) == ("", Rest(it))
  {
    hide PiecesFit, EntriesFit, ShowPieces, Inner, NameFits;
    var s, head := Rest(it), it.name + it.gap;
    var t := ShowArgs(it) + ShowBlock(it);
    assert s == head + t;
    NoneOf(it.name, ':');
    SpaceIsBlank(it.gap);
    BlankIsPassive(Raw, it.gap);
    IndexSkips(head, t, ':');
    if IndexOf(s, ':').Some? {
      var i := IndexOf(s, ':').value;
      assert t != [] && (t[0] == '(' || t[0] == '{');
      assert i > |head| && s[..i][|head|] == t[0];
    }
  }

  lemma AliasRead(a: Alias, rest: string)
    requires NameFits(a.text) && AllSpace(a.gap0) && AllSpace(a.gap1) && Solid(rest)
    ensures AliasOf(a.text + a.gap0 + (":" + (a.gap1 + rest))) == (a.text, rest)
  {
    hide NameFits, AllSpace, Space, Trim;
    var head, z := a.text + a.gap0, a.gap1 + rest;
    var s := head + (":" + z);
    NoneOf(a.text, ':');
    NoneOf(a.text, '(');
    NoneOf(a.text, '{');
    SpaceIsBlank(a.gap0);
    SpaceIsBlank(a.gap1);
    BlankIsPassive(Paren, a.gap0);
    BlankHasNoBracket(a.gap0);
    IndexSkips(head, ":" + z, ':');
    ColonFirst(z);
    NameIsSolid(a.text);
    assert s[..|head|] == "" + a.text + a.gap0 && s[|head| + 1..] == z;
    TrimAround("", a.text, a.gap0);
    SolidStays(a.text);
    TrimAroundLeft(a.gap1, rest);
    SolidStays(rest);
  }

  lemma BlankHasNoBracket(g: string)
    requires AllBlank(g)
    ensures '(' !in g && '{' !in g
  {}

  lemma {:induction false} NameOfSkips(w: string, z: string)
    requires forall i | 0 <= i < |w| :: NameChar(w[i])
    ensures NameOf(w + z) == w + NameOf(z)
  {
    if w == [] {
      assert w + z == z;
    } else {
      assert NameChar(w[0]);
      assert (w + z)[1..] == w[1..] + z;
      NameOfSkips(w[1..], z);
    }
  }

  lemma {:induction false} NameOfGap(g: string, t: string)
    requires AllSpace(g) && (t == "" || t[0] == '(' || t[0] == '{')
    ensures NameOf(g + t) == Spill(g)
  {
    if g == [] {
      assert g + t == t;
    } else {
      assert Space(g[0]);
      assert (g + t)[1..] == g[1..] + t;
      NameOfGap(g[1..], t);
    }
  }

  lemma NameRead(it: Item)
    requires ItemFits(it)
    ensures NameOf(Rest(it)) == it.name + Spill(it.gap)
  {
    hide PiecesFit, EntriesFit, ShowPieces, Inner, NameFits, NameChar;
    NameFitsIs(it.name);
    NameOfSkips(it.name, it.gap + (ShowArgs(it) + ShowBlock(it)));
    NameOfGap(it.gap, ShowArgs(it) + ShowBlock(it));
  }

  /** The first parenthesis of `head ( inner ) more` opens the arguments that are read. */
  lemma ArgsRead(head: string, a: ArgList, more: string)
    requires '(' !in head && AllBlank(a.gap) && EntriesFit(a.entries, false)
    ensures FieldArgs(head + ("(" + Inner(a) + ")" + more)) == Some(EntriesOn(a.entries, map[]))
  {
    hide Inner, Find, ArgsOf, EntriesFit, Level;
    var t := "(" + Inner(a) + ")" + more;
    var s, p := head + t, |head|;
    IndexSkips(head, t, '(');
    ParenFirst(Inner(a) + ")" + more);
    assert t == "(" + (Inner(a) + ")" + more);
    ArgsAreLevel(Paren, a, '(', 1);
    FindCloses(Paren, Inner(a), more, ' ', EntriesDepth(a.entries));
    assert s[p..] == t && s[p + 1..p + |Inner(a)| + 1] == Inner(a);
    InnerIs(a);
    ArgumentsRoundTrip(a.gap, a.entries, false);
  }

  lemma InnerIs(a: ArgList)
    ensures Inner(a) == a.gap + ShowEntries(a.entries)
  {}

  lemma ParenFirst(s: string)
    ensures IndexOf("(" + s, '(') == Some(0)
  {}

  lemma FieldArgsRead(it: Item)
    requires ItemFits(it)
    ensures FieldArgs(Rest(it)) == Some(ArgsMeaning(it))
  {
    hide PiecesFit, EntriesFit, ShowPieces, Inner, NameFits, EntriesOn;
    NoneOf(it.name, '(');
    SpaceIsBlank(it.gap);
    BlankHasNoBracket(it.gap);
    match it.args
    case None =>
      assert ShowArgs(it) + ShowBlock(it) == ShowBlock(it);
      assert '(' !in Rest(it);
    case Some(a) =>
      RegroupArgs(it.name, it.gap, "(" + Inner(a) + ")", a.after, ShowBlock(it));
      ArgsRead(it.name + it.gap, a, a.after + ShowBlock(it));
  }

  lemma RegroupArgs(a: string, b: string, c: string, d: string, e: string)
    ensures a + (b + ((c + d) + e)) == (a + b) + (c + (d + e))
  {}

  /** A printed field, and any blanks after it, is read as what it means. */
  lemma FieldReads(it: Item, g: string)
    requires ItemFits(it) && AllBlank(g)
    ensures ReadField(Show(it) + g) == Parsed(Meaning(it))
  {
    hide AliasOf, FieldArgs, NameOf, ItemFits, Rest, Show, Trim, ArgsMeaning, Spill;
    ShowIsSolid(it);
    assert Show(it) + g == "" + Show(it) + g;
    TrimAround("", Show(it), g);
    SolidStays(Show(it));
    ShowIsRest(it);
    RestIsSolid(it);
    AliasPart(it);
    NameRead(it);
    FieldArgsRead(it);
  }

  lemma AliasPart(it: Item)
    requires ItemFits(it)
    ensures AliasOf(Show(it)) == (match it.alias case None => "" case Some(a) => a.text, Rest(it))
  {
    hide AliasOf, Rest, Show, NameFits, AllSpace, PiecesFit, EntriesFit;
    ShowIsRest(it);
    RestIsSolid(it);
    match it.alias
    case None => NoAliasRead(it);
    case Some(a) => AliasRead(a, Rest(it));
  }

  lemma ShowIsSolid(it: Item)
    requires ItemFits(it)
    ensures Solid(Show(it))
  {
    hide Rest, Show, NameFits, AllSpace, PiecesFit, EntriesFit;
    ShowIsRest(it);
    RestIsSolid(it);
    if it.alias.Some? {
      var a := it.alias.value;
      NameIsSolid(a.text);
      assert Show(it) == a.text + a.gap0 + (":" + (a.gap1 + Rest(it)));
      assert Show(it)[0] == a.text[0];
    }
  }

  // ----- the list of fields is read back -----

  lemma {:induction false} SepSkips(sep: string, y: string)
    requires AllSep(sep)
    ensures Top(sep + y) == Top(y)
  {
    hide FieldEnd, ReadField;
    if sep == [] {
      assert sep + y == y;
    } else {
      assert (sep + y)[1..] == sep[1..] + y;
      SepSkips(sep[1..], y);
    }
  }

  lemma NothingLeft()
    ensures Top("") == Listed([])
  {}

  /** A printed field at the front is read, and reading goes on with what follows it. */
  lemma FieldThenRest(it: Item, x: string)
    requires ItemFits(it) && Ends(it, x)
    ensures Top(Show(it) + x) == Joined([Meaning(it)], Top(x))
  {
    hide FieldEnd, ReadField, ItemFits, Show, Ends, SpaceLen, NameFits;
    var s, k := Show(it) + x, if it.block.Some? then 0 else SpaceLen(x);
    FieldEnds(it, x);
    SpaceLenIsSpace(x);
    var blanks := x[..k];
    assert AllSpace(blanks);
    SpaceIsBlank(blanks);
    FieldReads(it, blanks);
    assert s[..|Show(it)| + k] == Show(it) + blanks && s[|Show(it)| + k..] == x[k..];
    assert x == blanks + x[k..];
    SpacesAreSeps(blanks);
    SepSkips(blanks, x[k..]);
    ShowStarts(it);
    assert s[0] == Show(it)[0];
    NameStays(it);
  }

  lemma SpacesAreSeps(g: string)
    requires AllSpace(g)
    ensures AllSep(g)
  {}

  lemma NameStays(it: Item)
    requires ItemFits(it)
    ensures Kept(Meaning(it)) == [Meaning(it)]
  {
    assert it.name != "";
    assert Meaning(it).name[0] == it.name[0];
  }

  lemma ShowStarts(it: Item)
    requires ItemFits(it)
    ensures Show(it) != [] && NameChar(Show(it)[0]) && !IsBlank(Show(it)[0])
    ensures !Space(Show(it)[0]) && Show(it)[0] != ','
  {
    hide PiecesFit, EntriesFit, ShowArgs, ShowBlock, Rest;
    ShowIsSolid(it);
    ShowIsRest(it);
    hide Show;
    if it.alias.Some? {
      var a := it.alias.value;
      assert Show(it)[0] == a.text[0];
    } else {
      assert Rest(it)[0] == it.name[0] by {
        RestStarts(it);
      }
    }
  }

  lemma RestStarts(it: Item)
    requires it.name != ""
    ensures Rest(it) != [] && Rest(it)[0] == it.name[0]
  {}

  /** What trimming leaves of a separator at the end. */
  lemma {:induction false} TrimmedSep(sep: string)
    requires AllSep(sep)
    ensures AllSep(TrimRight(sep)) && (sep == "" ==> TrimRight(sep) == "")
  {
    if sep != [] && IsBlank(sep[|sep| - 1]) {
      TrimmedSep(sep[..|sep| - 1]);
    }
  }

  lemma SepEnds(it: Item, sep: string, more: string)
    requires AllSep(sep)
    requires more == "" || (NameChar(more[0]) && !Space(more[0]))
    requires Bare(it) ==> sep != "" || more == ""
    ensures Ends(it, sep + more)
  {
    var x := sep + more;
    SpaceLenIsSpace(x);
    hide SpaceLen;
    var n := SpaceLen(x);
    assert forall j | 0 <= j < n :: x[..n][j] == x[j] && Space(x[j]);
    assert more != "" ==> x[|sep|] == more[0] && n <= |sep|;
    assert n < |sep| ==> x[n] == sep[n];
    if Bare(it) && x != [] {
      assert sep != "" && x[0] == sep[0];
    }
  }

  /** The trimmed printing of a list of fields is read as the list of their meanings. */
  lemma {:induction false} ItemsRead(items: seq<Placed>)
    requires ItemsFit(items)
    ensures Top(TrimRight(ShowItems(items))) == Listed(Meanings(items))
  {
    hide Top, Show, ItemFits, Meaning, Ends, TrimRight, FieldEnd, ReadField, AllSep, NameChar;
    if items == [] {
      TrimEmpty();
      NothingLeft();
    } else {
      var it, sep, more := items[0].item, items[0].sep, ShowItems(items[1..]);
      ShowIsSolid(it);
      TrimRightAfter(Show(it), sep + more);
      ItemsRead(items[1..]);
      if items[1..] == [] {
        assert sep + more == sep;
        TrimmedSep(sep);
        assert TrimRight(sep) == TrimRight(sep) + "";
        LastEnds(it, sep);
        FieldThenRest(it, TrimRight(sep));
        SepSkips(TrimRight(sep), "");
        NothingLeft();
      } else {
        ItemsStart(items[1..]);
        TrimRightSplits(sep, more);
        TrimRightStart(more);
        SepEnds(it, sep, TrimRight(more));
        FieldThenRest(it, sep + TrimRight(more));
        SepSkips(sep, TrimRight(more));
      }
    }
  }

  lemma LastEnds(it: Item, sep: string)
    requires AllSep(sep)
    ensures Ends(it, TrimRight(sep))
  {
    hide TrimRight;
    TrimmedSep(sep);
    assert TrimRight(sep) + "" == TrimRight(sep);
    SepAlone(it, TrimRight(sep));
  }

  lemma SepAlone(it: Item, x: string)
    requires AllSep(x)
    ensures Ends(it, x)
  {
    SpaceLenIsSpace(x);
    hide SpaceLen;
  }

  lemma TrimEmpty()
    ensures TrimRight("") == ""
  {}

  lemma ItemsStart(items: seq<Placed>)
    requires items != [] && ItemsFit(items)
    ensures ShowItems(items) != [] && NameChar(ShowItems(items)[0]) && !IsBlank(ShowItems(items)[0]) && !Space(ShowItems(items)[0])
  {
    hide Show, ItemFits;
    ShowStarts(items[0].item);
  }

  lemma TrimRightSplits(a: string, b: string)
    requires b != [] && !IsBlank(b[0])
    ensures TrimRight(a + b) == a + TrimRight(b)
  {
    hide TrimRight;
    var x, y := a + b[..1], b[1..];
    assert a + b == x + y && b == b[..1] + y;
    TrimRightAfter(x, y);
    TrimRightAfter(b[..1], y);
    assert x + TrimRight(y) == a + (b[..1] + TrimRight(y));
  }

  lemma TrimRightStart(b: string)
    requires b != [] && !IsBlank(b[0])
    ensures TrimRight(b) != [] && TrimRight(b)[0] == b[0]
  {
    hide TrimRight;
    assert b == b[..1] + b[1..];
    TrimRightAfter(b[..1], b[1..]);
  }

  /** So is the whole body, whatever blanks and commas lead it. */
  lemma {:induction false} BodyRead(lead: string, items: seq<Placed>)
    requires AllSep(lead) && items != [] && ItemsFit(items)
    ensures Trim(lead + ShowItems(items)) != [] && Top(Trim(lead + ShowItems(items))) == Listed(Meanings(items))
  {
    hide Top, TrimRight, ShowItems, Meanings, ItemsFit, NameChar;
    var r := ShowItems(items);
    ItemsStart(items);
    TrimRightStart(r);
    ItemsRead(items);
    if lead == [] {
      assert lead + r == r;
      TrimIsRight(r);
    } else if lead[0] == ',' {
      assert (lead + r)[0] == ',';
      TrimIsRight(lead + r);
      TrimRightSplits(lead, r);
      SepSkips(lead, TrimRight(r));
    } else {
      BodyRead(lead[1..], items);
      assert lead + r == [lead[0]] + (lead[1..] + r);
      TrimAroundLeft([lead[0]], lead[1..] + r);
    }
  }

  // ----- depth -----

  lemma ItemLevel(it: Item, prev: char, d: int)
    requires ItemFits(it) && prev != '\\' && d >= 1
    ensures Level(Brace, Show(it), prev, d, ItemDepth(it))
  {
    hide Level, PiecesFit, EntriesFit, ShowHead, ShowArgs, ShowBlock, NameFits, AllSpace;
    HeadPassive(it);
    var head := ShowHead(it) + it.gap;
    PassiveLevel(Brace, head, prev, d);
    PassiveEnd(Brace, head, prev);
    var a := if it.args.Some? then EntriesDepth(it.args.value.entries) else 0;
    var b := if it.block.Some? then 1 + PiecesDepth(it.block.value) else 0;
    ArgsLevel(it, Last(head, prev), d);
    LevelEnd(Brace, ShowArgs(it), Last(head, prev), d, a);
    BlockLevel(it, Last(ShowArgs(it), Last(head, prev)), d);
    LevelConcat(Brace, ShowArgs(it), ShowBlock(it), Last(head, prev), d, a, b);
    LevelConcat(Brace, head, ShowArgs(it) + ShowBlock(it), prev, d, 0, Max(a, b));
    assert Show(it) == head + (ShowArgs(it) + ShowBlock(it));
  }

  lemma HeadPassive(it: Item)
    requires ItemFits(it)
    ensures Passive(Brace, ShowHead(it) + it.gap)
  {
    hide PiecesFit, EntriesFit, ShowBlock, ShowArgs;
    NamePassive(it.name);
    SpaceIsBlank(it.gap);
    BlankIsPassive(Brace, it.gap);
    if it.alias.Some? {
      var a := it.alias.value;
      NamePassive(a.text);
      SpaceIsBlank(a.gap0);
      SpaceIsBlank(a.gap1);
      BlankIsPassive(Brace, a.gap0);
      BlankIsPassive(Brace, a.gap1);
    }
  }

  lemma NamePassive(w: string)
    requires NameFits(w)
    ensures Passive(Brace, w)
  {
    forall i | 0 <= i < |w| ensures PassiveChar(Brace, w[i]) {
      assert PassiveChar(Paren, w[i]);
    }
  }

  lemma ArgsLevel(it: Item, prev: char, d: int)
    requires ItemFits(it) && prev != '\\' && d >= 1
    ensures Level(Brace, ShowArgs(it), prev, d, if it.args.Some? then EntriesDepth(it.args.value.entries) else 0)
  {
    hide Level, PiecesFit, EntriesFit, ShowBlock, NameFits, Inner;
    match it.args
    case None => LevelEmpty(Brace, prev, d);
    case Some(a) =>
      var h := EntriesDepth(a.entries);
      SpaceIsBlank(a.after);
      BlankIsPassive(Brace, a.after);
      PassiveLevel(Brace, "(", prev, d);
      ArgsAreLevel(Brace, a, '(', d);
      LevelConcat(Brace, "(", Inner(a), prev, d, 0, h);
      LevelEnd(Brace, "(" + Inner(a), prev, d, h);
      PassiveLevel(Brace, ")" + a.after, Last("(" + Inner(a), prev), d);
      LevelConcat(Brace, "(" + Inner(a), ")" + a.after, prev, d, h, 0);
      assert "(" + Inner(a) + ")" + a.after == "(" + Inner(a) + (")" + a.after);
  }

  lemma BlockLevel(it: Item, prev: char, d: int)
    requires ItemFits(it) && prev != '\\' && d >= 1
    ensures Level(Brace, ShowBlock(it), prev, d, if it.block.Some? then 1 + PiecesDepth(it.block.value) else 0)
  {
    hide Level, PiecesFit, EntriesFit, ShowArgs, NameFits;
    match it.block
    case None => LevelEmpty(Brace, prev, d);
    case Some(ps) =>
      PiecesLevel(ps, '{', d + 1);
      LevelWrap(Brace, ShowPieces(ps), prev, d, PiecesDepth(ps));
  }

  lemma SepIsPassive(sep: string)
    requires AllSep(sep)
    ensures Passive(Brace, sep)
  {}

  lemma {:induction false} ItemsLevel(items: seq<Placed>, prev: char, d: int)
    requires ItemsFit(items) && prev != '\\' && d >= 1
    ensures Level(Brace, ShowItems(items), prev, d, ItemsDepth(items))
    decreases |items|, 0
  {
    hide Level, ItemFits, Show, ItemDepth, AllSep;
    if items == [] {
      LevelEmpty(Brace, prev, d);
    } else {
      var it, sep, more := items[0].item, items[0].sep, ShowItems(items[1..]);
      ItemLevel(it, prev, d);
      LevelEnd(Brace, Show(it), prev, d, ItemDepth(it));
      var p := Last(Show(it), prev);
      LeadLevel(sep, items[1..], p, d);
      LevelConcat(Brace, Show(it), sep + more, prev, d, ItemDepth(it), ItemsDepth(items[1..]));
    }
  }

  lemma {:induction false} LeadLevel(sep: string, items: seq<Placed>, prev: char, d: int)
    requires AllSep(sep) && ItemsFit(items) && prev != '\\' && d >= 1
    ensures Level(Brace, sep + ShowItems(items), prev, d, ItemsDepth(items))
    decreases |items|, 1
  {
    hide Level, ItemsFit, ShowItems, AllSep;
    SepIsPassive(sep);
    PassiveLevel(Brace, sep, prev, d);
    PassiveEnd(Brace, sep, prev);
    ItemsLevel(items, Last(sep, prev), d);
    LevelConcat(Brace, sep, ShowItems(items), prev, d, 0, ItemsDepth(items));
  }

  /** Level text in braces, with passive text around it, is one deeper than the text. */
  lemma OuterHeight(prefix: string, inner: string, suffix: string, h: nat)
    requires Passive(Brace, prefix) && Passive(Brace, suffix) && Level(Brace, inner, '{', 1, h)
    ensures Height(prefix + ("{" + inner + "}") + suffix, ' ', State(0, false)) == 1 + h
  {
    hide Level, Height, After, Find, Passive;
    var st, mid := State(0, false), "{" + inner + "}";
    PassiveLevel(Brace, prefix, ' ', 0);
    BracedHeight(inner, Last(prefix, ' '), h);
    PassiveLevel(Brace, suffix, '}', 0);
    LevelParts(prefix, ' ', 0, 0);
    LevelParts(suffix, '}', 0, 0);
    HeightConcat(prefix, mid, ' ', st);
    AfterConcat(Brace, prefix, mid, ' ', st);
    HeightConcat(prefix + mid, suffix, ' ', st);
  }

  lemma LevelParts(p: string, prev: char, d: int, h: int)
    requires Level(Brace, p, prev, d, h)
    ensures After(Brace, p, prev, State(d, false)) == State(d, false) && Height(p, prev, State(d, false)) == d + h
  {}

  lemma BracedHeight(inner: string, prev: char, h: nat)
    requires Level(Brace, inner, '{', 1, h)
    ensures var st := State(0, false);
            After(Brace, "{" + inner + "}", prev, st) == st && Height("{" + inner + "}", prev, st) == 1 + h
  {
    var st, one := State(0, false), State(1, false);
    assert ("{" + inner + "}")[1..] == inner + "}";
    AfterConcat(Brace, inner, "}", '{', one);
    HeightConcat(inner, "}", '{', one);
    OneChar(Brace, '}', Last(inner, '{'), one);
  }

  // ----- the theorem -----

  lemma PassiveHasNoBrace(p: string)
    requires Passive(Brace, p)
    ensures '{' !in p && '}' !in p
  {
    forall i | 0 <= i < |p| ensures p[i] != '{' && p[i] != '}' {
      assert PassiveChar(Brace, p[i]);
    }
  }

  /** The outermost braces are found. */
  lemma BodyFound(prefix: string, inner: string, suffix: string)
    requires '{' !in prefix && '}' !in suffix
    ensures var q := prefix + ("{" + inner + "}") + suffix;
            && IndexOf(q, '{') == Some(|prefix|) && LastIndexOf(q, '}') == Some(|prefix| + 1 + |inner|)
            && q[|prefix| + 1..|prefix| + 1 + |inner|] == inner
  {
    var q := prefix + ("{" + inner + "}") + suffix;
    assert q == prefix + ("{" + (inner + "}" + suffix));
    IndexSkips(prefix, "{" + (inner + "}" + suffix), '{');
    LastIndexSkips(prefix + ("{" + inner + "}"), suffix, '}');
  }

  /** Reading a printed query gives its fields in order, each with its alias and arguments, whatever
      the blanks; and the depth counted on the text is the depth of the query. */
  lemma QueryRoundTrip(d: Doc)
    requires DocFits(d)
    ensures TopFields(ShowDoc(d)) == Listed(Meanings(d.items))
    ensures Height(ShowDoc(d), ' ', State(0, false)) == 1 + ItemsDepth(d.items)
  {
    hide Top, Height, Level, Trim, ShowItems, IndexOf, LastIndexOf, Passive, AllSep, ItemsFit;
    var inner := d.lead + ShowItems(d.items);
    PassiveHasNoBrace(d.prefix);
    PassiveHasNoBrace(d.suffix);
    BodyFound(d.prefix, inner, d.suffix);
    BodyRead(d.lead, d.items);
    LeadLevel(d.lead, d.items, '{', 1);
    OuterHeight(d.prefix, inner, d.suffix, ItemsDepth(d.items));
  }

  // ----- where the reader departs from the grammar of the language -----

  /** A name is read exactly when the blanks after it are none or start with a space: a tab or a line
      break before the first space is read into the name. */
  lemma NameReadIff(it: Item, g: string)
    requires ItemFits(it) && AllBlank(g)
    ensures ReadField(Show(it) + g).Parsed?
    ensures ReadField(Show(it) + g).field.name == it.name <==> it.gap == "" || it.gap[0] == ' '
  {
    hide ReadField, Show, ItemFits, ArgsMeaning;
    FieldReads(it, g);
    assert |Meaning(it).name| == |it.name| + |Spill(it.gap)|;
    assert it.name + "" == it.name;
  }

  /** A field with no arguments of its own takes those of the first field in its selection that has
      some; it is read with none exactly when that list is empty. */
  lemma NestedArgumentsLeak(name: string, gap: string, pre: string, a: ArgList, post: string)
    requires NameFits(name) && AllSpace(gap) && '(' !in pre
    requires AllBlank(a.gap) && EntriesFit(a.entries, false)
    ensures var text := name + gap + "{" + pre + ("(" + Inner(a) + ")" + post);
            && FieldArgs(text) == Some(EntriesOn(a.entries, map[]))
            && (FieldArgs(text) == Some(map[]) <==> a.entries == [])
  {
    hide FieldArgs, EntriesFit, Inner, NameFits;
    NoneOf(name, '(');
    SpaceIsBlank(gap);
    BlankHasNoBracket(gap);
    ArgsRead(name + gap + "{" + pre, a, post);
    if a.entries != [] {
      EntriesOnKeeps(a.entries, map[], a.entries[0].key);
    }
  }

  lemma {:induction false} EntriesOnKeeps(es: seq<Entry>, acc: Args, key: string)
    requires key in acc || (es != [] && es[0].key == key)
    ensures key in EntriesOn(es, acc)
    decreases |es|
  {
    if es != [] {
      EntriesOnKeeps(es[1..], acc[es[0].key := ValueOf(es[0].value)], key);
    }
  }
}
