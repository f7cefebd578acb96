/** A page of swaps (storage/store.go:96-254, storage/store_memory.go:319-338,
    storage/store_sqlite.go:730-839): filter, sort, cut; and the same question with two of the
    filter's bounds pushed below the database's LIMIT.

    `Codec.num` is `strconv.ParseFloat` on a value's text and `Codec.text` is how a number prints.
    NaN is left out.  Only timestamp order is modelled. */
module SwapQuery {
  import opened Wrappers
  import opened Text
  import opened Window
  import opened Sorting
  import opened Heal

  datatype Val = Str(s: string) | Num(r: real)

  datatype Codec = Codec(num: string -> Option<real>, text: real -> string)

  type Where = map<string, Val>

  // ----- comparing values -----

  function NumOf(v: Val, c: Codec): Option<real> {
    match v case Str(s) => c.num(s) case Num(r) => Some(r)
  }

  function TextOf(v: Val, c: Codec): string {
    match v case Str(s) => s case Num(r) => c.text(r)
  }

  /** `compareValues`. */
  function Compare(a: Val, b: Val, c: Codec): int {
    var x, y := NumOf(a, c), NumOf(b, c);
    if x.Some? && y.Some? then (if x.value < y.value then -1 else if x.value > y.value then 1 else 0)
    else CompareText(TextOf(a, c), TextOf(b, c))
  }

  /** `equalValues`. */
  predicate Equal(a: Val, b: Val, c: Codec) {
    if a.Str? && b.Str? && c.num(a.s).None? then Lower(a.s) == Lower(b.s) else Compare(a, b, c) == 0
  }

  // ----- matching -----

  datatype CompareOp = Eq | Gte | Lte | Gt | Lt

  predicate HasSuffix(s: string, suffix: string) {
    |s| >= |suffix| && s[|s| - |suffix|..] == suffix
  }

  function FieldAndOp(k: string): (string, CompareOp) {
    if HasSuffix(k, "_gte") then (k[..|k| - 4], Gte)
    else if HasSuffix(k, "_lte") then (k[..|k| - 4], Lte)
    else if HasSuffix(k, "_gt") then (k[..|k| - 3], Gt)
    else if HasSuffix(k, "_lt") then (k[..|k| - 3], Lt)
    else (k, Eq)
  }

  /** A swap as it is served; a pool reference compares as the pool's id. */
  function Field(id: Id, sw: Swap, name: string): Option<Val> {
    if name == "id" then Some(Str(id))
    else if name == "timestamp" then Some(Num(sw.ts as real))
    else if name == "pool" then Some(Str(sw.pool))
    else if name == "amount0" then Some(Str(sw.amount0))
    else if name == "amount1" then Some(Str(sw.amount1))
    else if name == "amountUSD" then Some(Str(sw.amountUSD))
    else if name == "sender" then Some(Str(sw.sender))
    else None
  }

  predicate Holds(op: CompareOp, val: Val, v: Val, c: Codec) {
    match op
    case Eq => Equal(val, v, c)
    case Gte => Compare(val, v, c) >= 0
    case Lte => Compare(val, v, c) <= 0
    case Gt => Compare(val, v, c) > 0
    case Lt => Compare(val, v, c) < 0
  }

  predicate Meets(id: Id, sw: Swap, k: string, v: Val, c: Codec) {
    var (field, op) := FieldAndOp(k);
    Field(id, sw, field).Some? && Holds(op, Field(id, sw, field).value, v, c)
  }

  predicate Matches(id: Id, sw: Swap, where: Where, c: Codec) {
    forall k | k in where :: Meets(id, sw, k, where[k], c)
  }

  // ----- what a condition asks -----

  lemma SuffixRead(name: string)
    ensures FieldAndOp(name + "_gte") == (name, Gte) && FieldAndOp(name + "_lte") == (name, Lte)
    ensures FieldAndOp(name + "_gt") == (name, Gt) && FieldAndOp(name + "_lt") == (name, Lt)
  {
    var n := |name|;
    assert (name + "_gte")[n..] == "_gte" && (name + "_gte")[..n] == name;
    assert (name + "_lte")[n..] == "_lte" && (name + "_lte")[..n] == name && "_lte"[1] != "_gte"[1];
    assert (name + "_gt")[n..] == "_gt" && (name + "_gt")[..n] == name && (name + "_gt")[n + 2] == 't';
    assert (name + "_lt")[n..] == "_lt" && (name + "_lt")[..n] == name && (name + "_lt")[n + 2] == 't' && "_lt"[1] != "_gt"[1];
    assert "_gte"[3] == 'e' == "_lte"[3];
  }

  /** The number r, as a number or as text that reads as one. */
  predicate IsNumber(v: Val, r: real, c: Codec) { v == Num(r) || (v.Str? && c.num(v.s) == Some(r)) }

  lemma OrderConditions(id: Id, sw: Swap, name: string, val: Val, v: Val, a: real, b: real, c: Codec)
    requires Field(id, sw, name) == Some(val) && IsNumber(val, a, c) && IsNumber(v, b, c)
    ensures Meets(id, sw, name + "_gte", v, c) <==> a >= b
    ensures Meets(id, sw, name + "_lte", v, c) <==> a <= b
    ensures Meets(id, sw, name + "_gt", v, c) <==> a > b
    ensures Meets(id, sw, name + "_lt", v, c) <==> a < b
  {
    hide FieldAndOp, Field;
    SuffixRead(name);
  }

  /** A stored time is compared with a number as numbers are. */
  lemma TimeConditions(id: Id, sw: Swap, v: Val, r: real, c: Codec)
    requires IsNumber(v, r, c)
    ensures Meets(id, sw, "timestamp" + "_gte", v, c) <==> sw.ts as real >= r
    ensures Meets(id, sw, "timestamp" + "_lte", v, c) <==> sw.ts as real <= r
    ensures Meets(id, sw, "timestamp" + "_gt", v, c) <==> sw.ts as real > r
    ensures Meets(id, sw, "timestamp" + "_lt", v, c) <==> (sw.ts as real) < r
    ensures Meets(id, sw, "timestamp", v, c) <==> sw.ts as real == r
  {
    OrderConditions(id, sw, "timestamp", Num(sw.ts as real), v, sw.ts as real, r, c);
    PlainNames();
  }

  /** And so is an amount, where its text reads as one. */
  lemma AmountConditions(id: Id, sw: Swap, v: Val, r: real, a: real, c: Codec)
    requires IsNumber(v, r, c)
    ensures c.num(sw.amount0) == Some(a) ==> (Meets(id, sw, "amount0" + "_gte", v, c) <==> a >= r) && (Meets(id, sw, "amount0" + "_lt", v, c) <==> a < r)
    ensures c.num(sw.amount1) == Some(a) ==> (Meets(id, sw, "amount1" + "_gte", v, c) <==> a >= r) && (Meets(id, sw, "amount1" + "_lt", v, c) <==> a < r)
    ensures c.num(sw.amountUSD) == Some(a) ==> (Meets(id, sw, "amountUSD" + "_gte", v, c) <==> a >= r) && (Meets(id, sw, "amountUSD" + "_lt", v, c) <==> a < r)
  {
    if c.num(sw.amount0) == Some(a) {
      OrderConditions(id, sw, "amount0", Str(sw.amount0), v, a, r, c);
    }
    if c.num(sw.amount1) == Some(a) {
      OrderConditions(id, sw, "amount1", Str(sw.amount1), v, a, r, c);
    }
    if c.num(sw.amountUSD) == Some(a) {
      OrderConditions(id, sw, "amountUSD", Str(sw.amountUSD), v, a, r, c);
    }
  }

  lemma PlainNames()
    ensures forall name | name in ["id", "timestamp", "pool", "amount0", "amount1", "amountUSD", "sender"] :: FieldAndOp(name) == (name, Eq)
  {
    forall name | name in ["id", "timestamp", "pool", "amount0", "amount1", "amountUSD", "sender"]
      ensures FieldAndOp(name) == (name, Eq)
    {
      assert '_' !in name;
      NoSuffix(name);
    }
  }

  lemma NoSuffix(name: string)
    requires '_' !in name
    ensures FieldAndOp(name) == (name, Eq)
  {
    assert "_gte"[0] == "_lte"[0] == "_gt"[0] == "_lt"[0] == '_';
    assert forall suffix | HasSuffix(name, suffix) && suffix != "" :: suffix[0] == name[|name| - |suffix|];
  }

  /** Text that reads as no number is matched by the row's own field of that name, whatever its case. */
  lemma TextConditions(id: Id, sw: Swap, s: string, c: Codec)
    requires c.num(id).None? && c.num(sw.pool).None? && c.num(sw.sender).None?
    ensures Meets(id, sw, "id", Str(s), c) <==> Lower(id) == Lower(s)
    ensures Meets(id, sw, "pool", Str(s), c) <==> Lower(sw.pool) == Lower(s)
    ensures Meets(id, sw, "sender", Str(s), c) <==> Lower(sw.sender) == Lower(s)
  {
    hide Lower, FieldAndOp;
    PlainNames();
  }

  /** Text that reads as no number is ordered as text. */
  lemma TextOrder(id: Id, sw: Swap, name: string, text: string, s: string, c: Codec)
    requires Field(id, sw, name) == Some(Str(text)) && c.num(text).None?
    ensures Meets(id, sw, name + "_gte", Str(s), c) <==> CompareText(text, s) >= 0
    ensures Meets(id, sw, name + "_lte", Str(s), c) <==> CompareText(text, s) <= 0
    ensures Meets(id, sw, name + "_gt", Str(s), c) <==> CompareText(text, s) > 0
    ensures Meets(id, sw, name + "_lt", Str(s), c) <==> CompareText(text, s) < 0
  {
    hide FieldAndOp, Field, CompareText;
    SuffixRead(name);
  }

  /** A name a swap does not have matches nothing. */
  lemma UnknownNames(id: Id, sw: Swap, name: string, v: Val, c: Codec)
    requires '_' !in name && name !in ["id", "timestamp", "pool", "amount0", "amount1", "amountUSD", "sender"]
    ensures !Meets(id, sw, name, v, c)
  {
    hide FieldAndOp, Holds;
    NoSuffix(name);
  }

  method MatchesWhere(id: Id, sw: Swap, where: Where, c: Codec) returns (ok: bool)
    ensures ok <==> Matches(id, sw, where, c)
  {
    hide FieldAndOp, Field, Holds;
    var todo := where.Keys;
    while todo != {}
      invariant todo <= where.Keys && forall k | k in where && k !in todo :: Meets(id, sw, k, where[k], c)
    {
      var k :| k in todo;
      todo := todo - {k};
      var (field, op) := FieldAndOp(k);
      var val := Field(id, sw, field);
      if val.None? {
        assert !Meets(id, sw, k, where[k], c);
        return false;
      }
      if !Holds(op, val.value, where[k], c) {
        assert !Meets(id, sw, k, where[k], c);
        return false;
      }
    }
    return true;
  }

  function Filter(ids: seq<Id>, rows: Rows, where: Where, c: Codec): seq<Id>
    requires forall id | id in ids :: id in rows
  {
    if ids == [] then []
    else
      var before, id := Filter(ids[..|ids| - 1], rows, where, c), ids[|ids| - 1];
      if Matches(id, rows[id], where, c) then before + [id] else before
  }

  method FilterResults(ids: seq<Id>, rows: Rows, where: Where, c: Codec) returns (out: seq<Id>)
    requires forall id | id in ids :: id in rows
    ensures out == Filter(ids, rows, where, c)
  {
    hide Matches;
    if |where| == 0 {
      NoConditions(ids, rows, where, c);
      return ids;
    }
    out := [];
    for i := 0 to |ids|
      invariant out == Filter(ids[..i], rows, where, c)
    {
      assert ids[..i + 1][..i] == ids[..i];
      var ok := MatchesWhere(ids[i], rows[ids[i]], where, c);
      if ok {
        out := out + [ids[i]];
      }
    }
    assert ids[..|ids|] == ids;
  }

  lemma {:induction false} NoConditions(ids: seq<Id>, rows: Rows, where: Where, c: Codec)
    requires |where| == 0 && forall id | id in ids :: id in rows
    ensures Filter(ids, rows, where, c) == ids
  {
    if ids != [] {
      NoConditions(ids[..|ids| - 1], rows, where, c);
      assert where == map[];
      assert ids == ids[..|ids| - 1] + [ids[|ids| - 1]];
    }
  }

  lemma {:induction false} FilterMeaning(ids: seq<Id>, rows: Rows, where: Where, c: Codec)
    requires forall id | id in ids :: id in rows
    ensures forall id :: id in Filter(ids, rows, where, c) <==> id in ids && Matches(id, rows[id], where, c)
    ensures |Filter(ids, rows, where, c)| <= |ids|
    ensures NoDup(ids) ==> NoDup(Filter(ids, rows, where, c))
  {
    hide Matches;
    if ids != [] {
      var n := |ids| - 1;
      FilterMeaning(ids[..n], rows, where, c);
      assert ids == ids[..n] + [ids[n]];
      var before, out := Filter(ids[..n], rows, where, c), Filter(ids, rows, where, c);
      forall id ensures id in out <==> id in ids && Matches(id, rows[id], where, c) {
        assert id in out <==> id in before || (id == ids[n] && Matches(ids[n], rows[ids[n]], where, c));
      }
      if NoDup(ids) {
        assert ids[n] !in ids[..n];
        assert ids[n] !in before;
      }
    }
  }

  /** Dropping entries keeps an order. */
  lemma {:induction false} FilterSorted(ids: seq<Id>, rows: Rows, where: Where, c: Codec, less: (Id, Id) -> bool)
    requires (forall id | id in ids :: id in rows) && Sorted(ids, less)
    ensures Sorted(Filter(ids, rows, where, c), less)
  {
    hide Matches;
    if ids != [] {
      var n := |ids| - 1;
      FilterSorted(ids[..n], rows, where, c, less);
      FilterMeaning(ids[..n], rows, where, c);
      var before, out := Filter(ids[..n], rows, where, c), Filter(ids, rows, where, c);
      forall i | 0 <= i < |before| ensures !less(ids[n], before[i]) {
        assert before[i] in before && before[i] in ids[..n];
      }
    }
  }

  // ----- pages -----

  /** Timestamp order in the direction asked for. */
  function Before(times: Times, desc: bool): (Id, Id) -> bool {
    (a, b) => a in times && b in times && if desc then times[a] > times[b] else times[a] < times[b]
  }

  /** What filter-sort-cut over these rows may answer: distinct, in order, and the first `limit` of
      them.  Rows that tie in time may come either way. */
  ghost predicate IsPage(out: seq<Id>, times: Times, limit: nat, desc: bool) {
    && NoDup(out) && Sorted(out, Before(times, desc))
    && if desc then IsLatest(times, limit, Elements(out)) else IsEarliest(times, limit, Elements(out))
  }

  function MatchingTimes(rows: Rows, where: Where, c: Codec): Times {
    map id | id in rows && Matches(id, rows[id], where, c) :: rows[id].ts
  }

  function Index(times: Times, id: Id): int { if id in times then times[id] else 0 }

  /** Timestamp order is total on the rows at hand. */
  function ByTime(times: Times, desc: bool): (Id, Id) -> bool {
    (a, b) => if desc then Index(times, a) > Index(times, b) else Index(times, a) < Index(times, b)
  }

  lemma ByTimeIsOrder(times: Times, desc: bool)
    ensures IsOrder(ByTime(times, desc))
  {}

  function Cut(ids: seq<Id>, limit: nat): seq<Id> {
    if |ids| > limit then ids[..limit] else ids
  }

  /** Sorting all the rows and cutting gives a page. */
  lemma SortedCutIsPage(ids: seq<Id>, times: Times, limit: nat, desc: bool)
    requires NoDup(ids) && Elements(ids) == times.Keys
    ensures IsPage(Cut(StableSort(ids, ByTime(times, desc)), limit), times, limit, desc)
  {
    hide IsPage, NoDup, Elements, StableSort, ByTime, Sorted, IsOrder;
    var less := ByTime(times, desc);
    ByTimeIsOrder(times, desc);
    StableSortSorts(ids, less);
    var all := StableSort(ids, less);
    PermutedNoDup(ids, all);
    CutIsPage(all, times, limit, desc);
  }

  lemma CutIsPage(all: seq<Id>, times: Times, limit: nat, desc: bool)
    requires NoDup(all) && Elements(all) == times.Keys && Sorted(all, ByTime(times, desc))
    ensures IsPage(Cut(all, limit), times, limit, desc)
  {
    var n := if |all| > limit then limit else |all|;
    var cut := Cut(all, limit);
    assert cut == all[..n];
    CutSorted(all, times, n, desc);
    NoDupSize(all);
    NoDupSize(cut);
    assert |times| == |times.Keys|;
    hide Sorted, ByTime, NoDup;
    forall w, k | w in Elements(cut) && k in times.Keys - Elements(cut)
      ensures if desc then times[k] <= times[w] else times[w] <= times[k]
    {
      CutApart(all, times, n, desc, w, k);
    }
    assert forall x | x in cut :: x in all;
  }

  lemma CutSorted(all: seq<Id>, times: Times, n: nat, desc: bool)
    requires n <= |all| && NoDup(all) && Elements(all) == times.Keys && Sorted(all, ByTime(times, desc))
    ensures NoDup(all[..n]) && Sorted(all[..n], Before(times, desc))
  {
    forall i, j | 0 <= i < j < n ensures !Before(times, desc)(all[..n][j], all[..n][i]) {
      assert !ByTime(times, desc)(all[j], all[i]);
    }
  }

  lemma CutApart(all: seq<Id>, times: Times, n: nat, desc: bool, w: Id, k: Id)
    requires n <= |all| && Elements(all) == times.Keys && Sorted(all, ByTime(times, desc))
    requires w in all[..n] && k in times && k !in all[..n]
    ensures w in times && if desc then times[k] <= times[w] else times[w] <= times[k]
  {
    var i :| 0 <= i < n && all[i] == w;
    assert w in Elements(all) && k in Elements(all);
    var j :| 0 <= j < |all| && all[j] == k;
    assert forall m | 0 <= m < n :: all[m] in all[..n];
    assert !ByTime(times, desc)(all[j], all[i]);
  }

  // ----- the two stores -----

  /** `range` over a map: its keys in some order. */
  method KeysOf(rows: Rows) returns (ids: seq<Id>)
    ensures NoDup(ids) && Elements(ids) == rows.Keys
  {
    ids := [];
    var todo := rows.Keys;
    while todo != {}
      invariant todo <= rows.Keys && NoDup(ids) && Elements(ids) == rows.Keys - todo
    {
      var id :| id in todo;
      assert id !in ids by {
        assert id !in Elements(ids);
      }
      assert Elements(ids + [id]) == Elements(ids) + {id};
      todo := todo - {id};
      ids := ids + [id];
    }
  }

  /** The memory store: filter, then sort, then cut. */
  method GetSwapsMemory(rows: Rows, limit: nat, desc: bool, where: Where, c: Codec) returns (out: seq<Id>)
    ensures IsPage(out, MatchingTimes(rows, where, c), limit, desc)
  {
    hide Matches;
    var ids := KeysOf(rows);
    assert forall id | id in ids :: id in Elements(ids);
    var kept := FilterResults(ids, rows, where, c);
    FilterMeaning(ids, rows, where, c);
    var times := MatchingTimes(rows, where, c);
    assert Elements(kept) == times.Keys by {
      forall id ensures id in kept <==> id in times {
        assert id in rows <==> id in Elements(ids);
      }
    }
    var all := StableSort(kept, ByTime(times, desc));
    SortedCutIsPage(kept, times, limit, desc);
    out := Cut(all, limit);
  }

  /** The two bounds that go into the SQL. */
  predicate Pushed(sw: Swap, where: Where, c: Codec) {
    && ("pool" in where && where["pool"].Str? && where["pool"].s != "" ==> Lower(sw.pool) == Lower(where["pool"].s))
    && ("timestamp_lt" in where && NumOf(where["timestamp_lt"], c).Some? ==>
          (sw.ts as real) < NumOf(where["timestamp_lt"], c).value)
  }

  function BoundedTimes(rows: Rows, where: Where, c: Codec): Times {
    map id | id in rows && Pushed(rows[id], where, c) :: rows[id].ts
  }

  /** The database: a page of the rows inside the pushed bounds. */
  method Select(rows: Rows, limit: nat, desc: bool, where: Where, c: Codec) returns (out: seq<Id>)
    ensures IsPage(out, BoundedTimes(rows, where, c), limit, desc)
  {
    hide Pushed;
    var times := BoundedTimes(rows, where, c);
    var bounded: Rows := map id | id in rows && Pushed(rows[id], where, c) :: rows[id];
    var ids := KeysOf(bounded);
    assert Elements(ids) == times.Keys;
    var all := StableSort(ids, ByTime(times, desc));
    SortedCutIsPage(ids, times, limit, desc);
    out := Cut(all, limit);
  }

  /** The sqlite store: select below the limit, then the whole filter again, then cut. */
  method GetSwapsSqlite(rows: Rows, limit: nat, desc: bool, where: Where, c: Codec) returns (out: seq<Id>)
    ensures exists listing :: IsPage(listing, BoundedTimes(rows, where, c), limit, desc)
                           && (forall id | id in listing :: id in rows) && out == Filter(listing, rows, where, c)
  {
    hide Matches, Pushed;
    var listing := Select(rows, limit, desc, where, c);
    PageInTable(listing, rows, limit, desc, where, c);
    var kept := FilterResults(listing, rows, where, c);
    FilterMeaning(listing, rows, where, c);
    PageSize(listing, BoundedTimes(rows, where, c), limit, desc);
    out := Cut(kept, limit);
  }

  lemma PageInTable(listing: seq<Id>, rows: Rows, limit: nat, desc: bool, where: Where, c: Codec)
    requires IsPage(listing, BoundedTimes(rows, where, c), limit, desc)
    ensures forall id | id in listing :: id in rows && Pushed(rows[id], where, c)
  {
    hide Pushed;
    forall id | id in listing ensures id in rows && Pushed(rows[id], where, c) {
      assert id in Elements(listing);
    }
  }

  lemma PageSize(listing: seq<Id>, times: Times, limit: nat, desc: bool)
    requires IsPage(listing, times, limit, desc)
    ensures |listing| <= limit
  {
    NoDupSize(listing);
  }

  // ----- pushing the bounds down keeps the meaning -----

  /** Whatever the filter, in timestamp order the answer is a sorted list of matching rows within the
      limit. */
  lemma SqliteIsSound(rows: Rows, limit: nat, desc: bool, where: Where, c: Codec, listing: seq<Id>)
    requires IsPage(listing, BoundedTimes(rows, where, c), limit, desc) && forall id | id in listing :: id in rows
    ensures var out := Filter(listing, rows, where, c);
            && NoDup(out) && |out| <= limit && Sorted(out, ByTime(TimesOf(rows), desc))
            && forall id | id in out :: id in rows && Matches(id, rows[id], where, c)
  {
    hide Matches, Pushed;
    FilterMeaning(listing, rows, where, c);
    PageSize(listing, BoundedTimes(rows, where, c), limit, desc);
    PageInTable(listing, rows, limit, desc, where, c);
    var less := ByTime(TimesOf(rows), desc);
    forall i, j | 0 <= i < j < |listing| ensures !less(listing[j], listing[i]) {
      assert listing[i] in listing && listing[j] in listing;
      assert !Before(BoundedTimes(rows, where, c), desc)(listing[j], listing[i]);
    }
    FilterSorted(listing, rows, where, c, less);
  }

  /** A filter of nothing but a pool named by text and a numeric upper time bound. */
  predicate Pushable(where: Where, c: Codec) {
    && where.Keys <= {"pool", "timestamp_lt"}
    && ("pool" in where ==> where["pool"].Str? && where["pool"].s != "")
    && ("timestamp_lt" in where ==> NumOf(where["timestamp_lt"], c).Some?)
  }

  /** Reading a number ignores case, as ParseFloat does. */
  ghost predicate CaseBlind(c: Codec) {
    forall a: string, b: string | Lower(a) == Lower(b) :: c.num(a) == c.num(b)
  }

  /** No stored pool spells the same number as the one asked for in other letters. */
  ghost predicate NoRespelling(rows: Rows, where: Where, c: Codec) {
    forall id | id in rows && Pushed(rows[id], where - {"pool"}, c) && "pool" in where && where["pool"].Str?
             && c.num(rows[id].pool).Some? && c.num(rows[id].pool) == c.num(where["pool"].s) ::
      Lower(rows[id].pool) == Lower(where["pool"].s)
  }

  lemma PoolKey()
    ensures FieldAndOp("pool") == ("pool", Eq)
  {
    assert "pool"[3] == 'l' && "pool"[0] == 'p' && "pool"[1] == 'o';
  }

  lemma TimestampLtKey()
    ensures FieldAndOp("timestamp_lt") == ("timestamp", Lt)
  {
    var k := "timestamp_lt";
    assert k[|k| - 4..][0] == 'p';
    assert k[|k| - 3..] == "_lt";
    assert k[|k| - 3..][1] == 'l';
    assert k[..|k| - 3] == "timestamp";
  }

  lemma PoolMeets(id: Id, sw: Swap, s: string, c: Codec)
    ensures Meets(id, sw, "pool", Str(s), c) <==> Equal(Str(sw.pool), Str(s), c)
  {
    hide Equal, Compare;
    PoolKey();
    assert Field(id, sw, "pool") == Some(Str(sw.pool));
  }

  lemma TimeMeets(id: Id, sw: Swap, v: Val, c: Codec)
    requires NumOf(v, c).Some?
    ensures Meets(id, sw, "timestamp_lt", v, c) <==> (sw.ts as real) < NumOf(v, c).value
  {
    TimestampLtKey();
    assert Field(id, sw, "timestamp") == Some(Num(sw.ts as real));
  }

  /** A row inside the bounds matches; a matching row is inside them unless it respells the pool. */
  lemma PushedMatches(id: Id, sw: Swap, where: Where, c: Codec)
    requires Pushable(where, c) && CaseBlind(c)
    ensures Pushed(sw, where, c) ==> Matches(id, sw, where, c)
    ensures Matches(id, sw, where, c) ==> Pushed(sw, where - {"pool"}, c)
    ensures Matches(id, sw, where, c) && !Pushed(sw, where, c) <==>
              && Pushed(sw, where - {"pool"}, c) && "pool" in where
              && c.num(sw.pool).Some? && c.num(sw.pool) == c.num(where["pool"].s)
              && Lower(sw.pool) != Lower(where["pool"].s)
  {
    if "pool" in where {
      PoolMeets(id, sw, where["pool"].s, c);
      PoolEquality(sw.pool, where["pool"].s, c);
    }
    if "timestamp_lt" in where {
      TimeMeets(id, sw, where["timestamp_lt"], c);
    }
    hide Meets, Equal, Lower;
    var poolOk := "pool" in where ==> Meets(id, sw, "pool", where["pool"], c);
    var timeOk := "timestamp_lt" in where ==> Meets(id, sw, "timestamp_lt", where["timestamp_lt"], c);
    assert Matches(id, sw, where, c) <==> poolOk && timeOk;
  }

  lemma PoolEquality(a: string, b: string, c: Codec)
    requires CaseBlind(c)
    ensures Equal(Str(a), Str(b), c) <==> Lower(a) == Lower(b) || (c.num(a).Some? && c.num(a) == c.num(b))
  {
    if c.num(a).Some? && c.num(b).None? && CompareText(a, b) == 0 {
      SameText(a, b);
    }
  }

  /** For a pushable filter the two stores answer the same question at every limit exactly when no
      stored pool respells, as a number, the pool asked for.  An address or a pool hash never reads
      as a number, so for those they always do. */
  lemma PushdownExact(rows: Rows, where: Where, c: Codec, desc: bool)
    requires Pushable(where, c) && CaseBlind(c)
    ensures NoRespelling(rows, where, c)
       <==> forall limit: nat, listing | IsPage(listing, BoundedTimes(rows, where, c), limit, desc) ::
              SameQuestion(rows, where, c, desc, limit, listing)
  {
    hide Pushed, Matches, IsPage, NoRespelling;
    var bounded, matching := BoundedTimes(rows, where, c), MatchingTimes(rows, where, c);
    forall id | id in rows ensures Pushed(rows[id], where, c) ==> Matches(id, rows[id], where, c) {
      PushedMatches(id, rows[id], where, c);
    }
    BoundedIsMatching(rows, where, c);
    if NoRespelling(rows, where, c) {
      forall limit: nat, listing | IsPage(listing, bounded, limit, desc)
        ensures SameQuestion(rows, where, c, desc, limit, listing)
      {
        PageInTable(listing, rows, limit, desc, where, c);
        AllMatch(listing, rows, where, c);
      }
    } else {
      var limit := |rows|;
      var listing := SomePage(bounded, limit, desc);
      PageInTable(listing, rows, limit, desc, where, c);
      AllMatch(listing, rows, where, c);
      ShortPage(listing, rows, where, c, desc, limit);
    }
  }

  ghost predicate SameQuestion(rows: Rows, where: Where, c: Codec, desc: bool, limit: nat, listing: seq<Id>) {
    (forall id | id in listing :: id in rows) && IsPage(Filter(listing, rows, where, c), MatchingTimes(rows, where, c), limit, desc)
  }

  lemma BoundedIsMatching(rows: Rows, where: Where, c: Codec)
    requires Pushable(where, c) && CaseBlind(c)
    ensures BoundedTimes(rows, where, c).Keys <= MatchingTimes(rows, where, c).Keys
    ensures NoRespelling(rows, where, c) <==> BoundedTimes(rows, where, c) == MatchingTimes(rows, where, c)
  {
    hide Pushed, Matches, CaseBlind;
    forall id | id in rows
      ensures Pushed(rows[id], where, c) ==> Matches(id, rows[id], where, c)
      ensures Matches(id, rows[id], where, c) && !Pushed(rows[id], where, c) <==>
                && Pushed(rows[id], where - {"pool"}, c) && "pool" in where
                && c.num(rows[id].pool).Some? && c.num(rows[id].pool) == c.num(where["pool"].s)
                && Lower(rows[id].pool) != Lower(where["pool"].s)
    {
      PushedMatches(id, rows[id], where, c);
    }
    var bounded, matching := BoundedTimes(rows, where, c), MatchingTimes(rows, where, c);
    if !NoRespelling(rows, where, c) {
      var id :| id in rows && Pushed(rows[id], where - {"pool"}, c) && "pool" in where && where["pool"].Str?
             && c.num(rows[id].pool).Some? && c.num(rows[id].pool) == c.num(where["pool"].s)
             && Lower(rows[id].pool) != Lower(where["pool"].s);
      assert id in matching && id !in bounded;
    }
  }

  lemma {:induction false} AllMatch(listing: seq<Id>, rows: Rows, where: Where, c: Codec)
    requires forall id | id in listing :: id in rows && Matches(id, rows[id], where, c)
    ensures Filter(listing, rows, where, c) == listing
  {
    hide Matches;
    if listing != [] {
      var n := |listing| - 1;
      assert listing == listing[..n] + [listing[n]];
      AllMatch(listing[..n], rows, where, c);
    }
  }

  lemma {:induction false} ListSet(ids: set<Id>) returns (s: seq<Id>)
    ensures NoDup(s) && Elements(s) == ids
  {
    if ids == {} {
      s := [];
    } else {
      var id :| id in ids;
      var rest := ListSet(ids - {id});
      assert id !in rest by {
        assert id !in Elements(rest);
      }
      s := rest + [id];
      assert Elements(s) == Elements(rest) + {id};
    }
  }

  lemma SomePage(times: Times, limit: nat, desc: bool) returns (page: seq<Id>)
    ensures IsPage(page, times, limit, desc)
  {
    var ids := ListSet(times.Keys);
    SortedCutIsPage(ids, times, limit, desc);
    var all := StableSort(ids, ByTime(times, desc));
    page := Cut(all, limit);
  }

  /** With room for every row, a page that misses a matching row is not the page asked for. */
  lemma ShortPage(listing: seq<Id>, rows: Rows, where: Where, c: Codec, desc: bool, limit: nat)
    requires limit == |rows| && IsPage(listing, BoundedTimes(rows, where, c), limit, desc)
    requires BoundedTimes(rows, where, c).Keys < MatchingTimes(rows, where, c).Keys
    ensures !IsPage(listing, MatchingTimes(rows, where, c), limit, desc)
  {
    hide Pushed, Matches;
    var bounded, matching := BoundedTimes(rows, where, c), MatchingTimes(rows, where, c);
    SubsetSize(matching.Keys, rows.Keys);
    SubsetSize(bounded.Keys, rows.Keys);
    SubsetSize(bounded.Keys, matching.Keys);
    assert |matching.Keys - bounded.Keys| > 0 by {
      var id :| id in matching.Keys - bounded.Keys;
    }
    assert |rows.Keys| == |rows|;
  }

  /** With distinct times there is only one page, so the two answers are the same list. */
  lemma {:induction false} PageIsUnique(a: seq<Id>, b: seq<Id>, times: Times, limit: nat, desc: bool)
    requires IsPage(a, times, limit, desc) && IsPage(b, times, limit, desc)
    requires forall i, j | i in times && j in times && times[i] == times[j] :: i == j
    ensures a == b
  {
    WindowIsUnique(Elements(a), Elements(b), times, limit, desc);
    SortedIsUnique(a, b, times, desc);
  }

  lemma WindowIsUnique(v: set<Id>, w: set<Id>, times: Times, limit: nat, desc: bool)
    requires if desc then IsLatest(times, limit, v) && IsLatest(times, limit, w)
             else IsEarliest(times, limit, v) && IsEarliest(times, limit, w)
    requires forall i, j | i in times && j in times && times[i] == times[j] :: i == j
    ensures v == w
  {
    forall x | x in v ensures x in w {
      if x !in w {
        var y := Unshared(v, w, x);
        assert false;
      }
    }
    SameSize(v, w);
  }

  lemma Unshared<T>(v: set<T>, w: set<T>, x: T) returns (y: T)
    requires |v| == |w| && x in v && x !in w
    ensures y in w && y !in v
  {
    assert !(w <= v) by {
      if w <= v {
        SameSize(w, v);
      }
    }
    y :| y in w && y !in v;
  }

  lemma {:induction false} SortedIsUnique(a: seq<Id>, b: seq<Id>, times: Times, desc: bool)
    requires NoDup(a) && NoDup(b) && Elements(a) == Elements(b) <= times.Keys
    requires Sorted(a, Before(times, desc)) && Sorted(b, Before(times, desc))
    requires forall i, j | i in times && j in times && times[i] == times[j] :: i == j
    ensures a == b
  {
    NoDupSize(a);
    NoDupSize(b);
    if a != [] {
      var n := |a| - 1;
      LastIsExtreme(a, b, times, desc);
      assert a == a[..n] + [a[n]] && b == b[..n] + [b[n]];
      assert Elements(a[..n]) == Elements(a) - {a[n]} && Elements(b[..n]) == Elements(b) - {b[n]};
      SortedIsUnique(a[..n], b[..n], times, desc);
    }
  }

  lemma LastIsExtreme(a: seq<Id>, b: seq<Id>, times: Times, desc: bool)
    requires a != [] && |a| == |b| && Elements(a) == Elements(b) <= times.Keys
    requires Sorted(a, Before(times, desc)) && Sorted(b, Before(times, desc))
    requires forall i, j | i in times && j in times && times[i] == times[j] :: i == j
    ensures a[|a| - 1] == b[|b| - 1]
  {
    var n := |a| - 1;
    assert a[n] in Elements(a) && b[n] in Elements(b);
    assert a[n] in b && b[n] in a;
    var i :| 0 <= i <= n && b[i] == a[n];
    var j :| 0 <= j <= n && a[j] == b[n];
    assert i < n ==> !Before(times, desc)(b[n], b[i]);
    assert j < n ==> !Before(times, desc)(a[n], a[j]);
  }

  // ----- filtering above the limit, for every filter -----

  /** Sorts no later, in the direction asked for. */
  predicate NoLater(desc: bool, a: int, b: int) { if desc then b <= a else a <= b }

  /** The first `limit` rows in that direction, or all of them. */
  ghost predicate IsFirst(times: Times, limit: nat, desc: bool, win: set<Id>) {
    && win <= times.Keys && |win| == (if |times| < limit then |times| else limit)
    && forall w, k | w in win && k in times && k !in win :: NoLater(desc, times[w], times[k])
  }

  lemma PageIs(out: seq<Id>, times: Times, limit: nat, desc: bool)
    ensures IsPage(out, times, limit, desc)
       <==> NoDup(out) && Sorted(out, Before(times, desc)) && IsFirst(times, limit, desc, Elements(out))
  {
    hide NoDup, Sorted, Before;
  }

  /** Every match is inside the pushed bounds, and sorts strictly before every bounded row that is no
      match. */
  ghost predicate MatchesLead(rows: Rows, where: Where, c: Codec, desc: bool) {
    var bounded, matching := BoundedTimes(rows, where, c), MatchingTimes(rows, where, c);
    && matching.Keys <= bounded.Keys
    && forall m, b | m in matching && b in bounded && b !in matching :: !NoLater(desc, bounded[b], matching[m])
  }

  ghost predicate AlwaysSame(rows: Rows, where: Where, c: Codec, desc: bool) {
    forall limit: nat, listing | IsPage(listing, BoundedTimes(rows, where, c), limit, desc) ::
      SameQuestion(rows, where, c, desc, limit, listing)
  }

  /** For every filter whatsoever: filtering above the limit answers the question at every limit
      exactly when the matches lead the bounded rows.  Any other stored row among them, and some page
      comes back short. */
  lemma CutExact(rows: Rows, where: Where, c: Codec, desc: bool)
    ensures MatchesLead(rows, where, c, desc) <==> AlwaysSame(rows, where, c, desc)
  {
    hide Pushed, Matches, IsPage, SameQuestion, MatchesLead, MatchingTimes, BoundedTimes;
    if MatchesLead(rows, where, c, desc) {
      forall limit: nat, listing | IsPage(listing, BoundedTimes(rows, where, c), limit, desc)
        ensures SameQuestion(rows, where, c, desc, limit, listing)
      {
        LeadIsEnough(rows, where, c, desc, limit, listing);
      }
    } else {
      var limit, listing := MissedPage(rows, where, c, desc);
    }
  }

  /** The rows of a page that match, as a set. */
  lemma FilteredSet(listing: seq<Id>, rows: Rows, where: Where, c: Codec, limit: nat, desc: bool)
    requires IsPage(listing, BoundedTimes(rows, where, c), limit, desc)
    ensures forall id | id in listing :: id in rows
    ensures Elements(Filter(listing, rows, where, c)) == set id | id in listing && id in MatchingTimes(rows, where, c)
    ensures var out := Filter(listing, rows, where, c); NoDup(out) && Sorted(out, Before(MatchingTimes(rows, where, c), desc))
  {
    hide Matches, Pushed;
    PageInTable(listing, rows, limit, desc, where, c);
    FilterMeaning(listing, rows, where, c);
    var bounded, matching := BoundedTimes(rows, where, c), MatchingTimes(rows, where, c);
    var out := Filter(listing, rows, where, c);
    FilterSorted(listing, rows, where, c, Before(bounded, desc));
    forall i, j | 0 <= i < j < |out| ensures !Before(matching, desc)(out[j], out[i]) {
      assert out[i] in out && out[j] in out;
      assert out[i] in Elements(listing) && out[j] in Elements(listing);
      assert !Before(bounded, desc)(out[j], out[i]);
    }
  }

  lemma SameTimes(rows: Rows, where: Where, c: Codec)
    ensures forall id | id in MatchingTimes(rows, where, c) && id in BoundedTimes(rows, where, c) ::
              MatchingTimes(rows, where, c)[id] == BoundedTimes(rows, where, c)[id]
  {
    hide Matches, Pushed;
  }

  lemma LeadIsEnough(rows: Rows, where: Where, c: Codec, desc: bool, limit: nat, listing: seq<Id>)
    requires MatchesLead(rows, where, c, desc) && IsPage(listing, BoundedTimes(rows, where, c), limit, desc)
    ensures SameQuestion(rows, where, c, desc, limit, listing)
  {
    hide IsPage, Filter, Sorted, NoDup, Matches, Pushed, MatchingTimes, BoundedTimes, NoLater, IsFirst;
    var bounded, matching := BoundedTimes(rows, where, c), MatchingTimes(rows, where, c);
    FilteredSet(listing, rows, where, c, limit, desc);
    PageIs(listing, bounded, limit, desc);
    PageIs(Filter(listing, rows, where, c), matching, limit, desc);
    SameTimes(rows, where, c);
    LeadingWindow(bounded, matching, limit, desc, Elements(listing), Elements(Filter(listing, rows, where, c)));
  }

  /** The same on sets: the matching part of the first `limit` bounded rows is the first `limit`
      matches. */
  lemma LeadingWindow(bounded: Times, matching: Times, limit: nat, desc: bool, win: set<Id>, kept: set<Id>)
    requires matching.Keys <= bounded.Keys && forall id | id in matching :: matching[id] == bounded[id]
    requires forall m, b | m in matching && b in bounded && b !in matching :: !NoLater(desc, bounded[b], matching[m])
    requires IsFirst(bounded, limit, desc, win) && kept == set id | id in win && id in matching
    ensures IsFirst(matching, limit, desc, kept)
  {
    hide NoLater;
    LeadingSize(bounded, matching, limit, desc, win, kept);
  }

  lemma LeadingSize(bounded: Times, matching: Times, limit: nat, desc: bool, win: set<Id>, kept: set<Id>)
    requires matching.Keys <= bounded.Keys && forall id | id in matching :: matching[id] == bounded[id]
    requires forall m, b | m in matching && b in bounded && b !in matching :: !NoLater(desc, bounded[b], matching[m])
    requires IsFirst(bounded, limit, desc, win) && kept == set id | id in win && id in matching
    ensures |kept| == if |matching| < limit then |matching| else limit
  {
    hide NoLater;
    SubsetSize(win, bounded.Keys);
    SubsetSize(kept, matching.Keys);
    SubsetSize(kept, win);
    if m :| m in matching && m !in win {
      forall w | w in win ensures w in kept {
        assert NoLater(desc, bounded[w], bounded[m]);
      }
      SubsetSize(win + {m}, bounded.Keys);
      assert |win + {m}| == |win| + 1;
      assert kept == win;
    } else {
      assert kept == matching.Keys;
    }
  }

  /** And otherwise some page misses a match: one with room for everything, when the bounds shut a
      match out; or the one of all that sorts no later than a match, when another row is among it. */
  lemma MissedPage(rows: Rows, where: Where, c: Codec, desc: bool) returns (limit: nat, listing: seq<Id>)
    requires !MatchesLead(rows, where, c, desc)
    ensures IsPage(listing, BoundedTimes(rows, where, c), limit, desc)
    ensures !SameQuestion(rows, where, c, desc, limit, listing)
  {
    hide Pushed, Matches, IsPage, Sorted, Before, NoDup, NoLater, UpTo, IsFirst, MatchingTimes, BoundedTimes;
    var bounded, matching := BoundedTimes(rows, where, c), MatchingTimes(rows, where, c);
    var win: set<Id>, m: Id;
    PartsOfTable(rows, where, c);
    limit, win, m := MissedWindow(bounded, matching, desc, rows.Keys);
    listing := ListWindow(bounded, limit, desc, win);
    FilteredSet(listing, rows, where, c, limit, desc);
    var out := Filter(listing, rows, where, c);
    PageIs(out, matching, limit, desc);
    if IsFirst(matching, limit, desc, Elements(out)) {
      FirstSize(matching, limit, desc, Elements(out));
      TooFew(matching, limit, win, Elements(out), m);
    }
  }

  lemma PartsOfTable(rows: Rows, where: Where, c: Codec)
    ensures BoundedTimes(rows, where, c).Keys <= rows.Keys && MatchingTimes(rows, where, c).Keys <= rows.Keys
    ensures forall id | id in MatchingTimes(rows, where, c) && id in BoundedTimes(rows, where, c) ::
              MatchingTimes(rows, where, c)[id] == BoundedTimes(rows, where, c)[id]
  {
    hide Matches, Pushed;
  }

  lemma FirstSize(times: Times, limit: nat, desc: bool, win: set<Id>)
    requires IsFirst(times, limit, desc, win)
    ensures |win| == (if |times| < limit then |times| else limit)
  {}

  lemma MissedWindow(bounded: Times, matching: Times, desc: bool, all: set<Id>) returns (limit: nat, win: set<Id>, m: Id)
    requires bounded.Keys <= all && matching.Keys <= all
    requires forall id | id in matching && id in bounded :: matching[id] == bounded[id]
    requires !(matching.Keys <= bounded.Keys
               && forall m, b | m in matching && b in bounded && b !in matching :: !NoLater(desc, bounded[b], matching[m]))
    ensures IsFirst(bounded, limit, desc, win) && m in matching && m !in win
    ensures |matching| <= limit || (|win| <= limit && exists b :: b in win && b !in matching)
  {
    SubsetSize(bounded.Keys, all);
    SubsetSize(matching.Keys, all);
    if matching.Keys <= bounded.Keys {
      var b: Id;
      m, b :| m in matching && b in bounded && b !in matching && NoLater(desc, bounded[b], matching[m]);
      win := UpTo(bounded, desc, m);
      limit := |win|;
      UpToIsFirst(bounded, desc, m);
      assert b in win;
    } else {
      m :| m in matching && m !in bounded;
      win, limit := bounded.Keys, |all|;
    }
  }

  /** Everything that sorts no later than m, m aside. */
  function UpTo(bounded: Times, desc: bool, m: Id): set<Id>
    requires m in bounded
  {
    set x | x in bounded && x != m && NoLater(desc, bounded[x], bounded[m])
  }

  lemma UpToIsFirst(bounded: Times, desc: bool, m: Id)
    requires m in bounded
    ensures IsFirst(bounded, |UpTo(bounded, desc, m)|, desc, UpTo(bounded, desc, m))
  {
    SubsetSize(UpTo(bounded, desc, m), bounded.Keys);
  }

  lemma TooFew(matching: Times, limit: nat, win: set<Id>, kept: set<Id>, m: Id)
    requires kept == (set id | id in win && id in matching) && m in matching && m !in win
    requires |matching| <= limit || (|win| <= limit && exists b :: b in win && b !in matching)
    ensures |kept| < if |matching| < limit then |matching| else limit
  {
    assert kept <= matching.Keys - {m};
    SubsetSize(kept, matching.Keys - {m});
    if |matching| > limit {
      var b :| b in win && b !in matching;
      assert kept <= win - {b};
      SubsetSize(kept, win - {b});
    }
  }

  /** A window can be listed in order. */
  lemma ListWindow(times: Times, limit: nat, desc: bool, win: set<Id>) returns (listing: seq<Id>)
    requires IsFirst(times, limit, desc, win)
    ensures IsPage(listing, times, limit, desc) && Elements(listing) == win
  {
    hide IsPage, IsFirst, Sorted, NoDup, Elements, IsOrder, ByTime, StableSort;
    var ids := ListSet(win);
    var less := ByTime(times, desc);
    ByTimeIsOrder(times, desc);
    StableSortSorts(ids, less);
    listing := StableSort(ids, less);
    PermutedNoDup(ids, listing);
    SortedBefore(listing, times, desc);
    PageIs(listing, times, limit, desc);
  }

  lemma SortedBefore(s: seq<Id>, times: Times, desc: bool)
    requires Sorted(s, ByTime(times, desc))
    ensures Sorted(s, Before(times, desc))
  {
    forall i, j | 0 <= i < j < |s| ensures !Before(times, desc)(s[j], s[i]) {
      assert !ByTime(times, desc)(s[j], s[i]);
    }
  }

  /** So with distinct times, and the matches in the lead, the two stores answer the same list. */
  lemma SameList(rows: Rows, where: Where, c: Codec, desc: bool, limit: nat, memory: seq<Id>, listing: seq<Id>)
    requires MatchesLead(rows, where, c, desc)
    requires IsPage(memory, MatchingTimes(rows, where, c), limit, desc)
    requires IsPage(listing, BoundedTimes(rows, where, c), limit, desc)
    requires forall i, j | i in rows && j in rows && rows[i].ts == rows[j].ts :: i == j
    ensures (forall id | id in listing :: id in rows) && Filter(listing, rows, where, c) == memory
  {
    hide IsPage, Filter, Matches, Pushed, MatchesLead;
    LeadIsEnough(rows, where, c, desc, limit, listing);
    PageIsUnique(Filter(listing, rows, where, c), memory, MatchingTimes(rows, where, c), limit, desc);
  }

  /** A pool and a time bound lead exactly when no stored pool respells the one asked for. */
  lemma PushableLeads(rows: Rows, where: Where, c: Codec, desc: bool)
    requires Pushable(where, c) && CaseBlind(c)
    ensures MatchesLead(rows, where, c, desc) <==> NoRespelling(rows, where, c)
  {
    hide Pushable, CaseBlind, MatchesLead, NoRespelling, IsPage, SameQuestion;
    CutExact(rows, where, c, desc);
    PushdownExact(rows, where, c, desc);
  }

  /** The condition does fail: with one newer row from someone else, asking for the one latest trade
      of a given sender finds none. */
  lemma OtherFiltersMiss(x: Id, a: Swap, y: Id, b: Swap, c: Codec)
    requires x != y && a.ts == 1 && b.ts == 2 && a.sender == "us" && b.sender == "them"
    requires c.num("us").None? && c.num("them").None?
    ensures var rows: Rows, where: Where := map[x := a, y := b], map["sender" := Str("us")];
            && IsPage([y], BoundedTimes(rows, where, c), 1, true)
            && Filter([y], rows, where, c) == []
            && x in MatchingTimes(rows, where, c)
  {
    var rows: Rows, where: Where := map[x := a, y := b], map["sender" := Str("us")];
    SenderKey();
    assert where.Keys == {"sender"};
    NotThem();
    assert Meets(x, a, "sender", Str("us"), c) && !Meets(y, b, "sender", Str("us"), c);
    assert !Matches(y, b, where, c) && Matches(x, a, where, c);
    assert [y][..0] == [];
    var times := BoundedTimes(rows, where, c);
    assert "pool" !in where && "timestamp_lt" !in where;
    assert times == map[x := 1, y := 2];
    assert |times.Keys| == 2;
    assert Elements([y]) == {y};
  }

  lemma SenderKey()
    ensures FieldAndOp("sender") == ("sender", Eq)
  {
    assert "sender"[5] == 'r';
    assert "sender"[2..][3] == 'r' && "sender"[3..][2] == 'r';
  }

  lemma NotThem()
    ensures Lower("us") != Lower("them")
  {
    assert |Lower("us")| == 2 && |Lower("them")| == 4;
  }
}
