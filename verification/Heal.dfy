/** When a swap happened (indexer/blocks.go:36-203): reading block headers in batches, stamping the
    logs of a poll, and the heal that dates rows stored without a time.

    The node is an oracle: `up` says which batch requests come back at all, `header` what the header
    of each block says.  A block's time is absent when its batch failed, its header did not come
    back, or the header did not parse. */
module Heal {
  import opened Wrappers
  import opened Window

  type Headers = nat -> Option<nat>

  /** Go's `int64(ts)`. */
  function Int64(n: nat): int {
    var m := n % 0x1_0000_0000_0000_0000;
    if m >= 0x8000_0000_0000_0000 then m - 0x1_0000_0000_0000_0000 else m
  }

  // ----- block headers -----

  /** Block i of the list has a time: its batch came back and so did its header. */
  predicate Answered(blocks: seq<nat>, up: nat -> bool, header: Headers, i: nat)
    requires i < |blocks|
  {
    up(i / 100) && header(blocks[i]).Some?
  }

  ghost predicate IsTimes(out: map<nat, int>, blocks: seq<nat>, up: nat -> bool, header: Headers, n: nat)
    requires n <= |blocks|
  {
    && (forall i | 0 <= i < n && Answered(blocks, up, header, i) :: blocks[i] in out)
    && (forall b | b in out :: b in blocks[..n] && header(b).Some? && out[b] == Int64(header(b).value))
    && (forall b | b in out :: exists i :: 0 <= i < n && blocks[i] == b && Answered(blocks, up, header, i))
  }

  lemma TimesStep(out: map<nat, int>, blocks: seq<nat>, up: nat -> bool, header: Headers, n: nat)
    requires n < |blocks| && IsTimes(out, blocks, up, header, n)
    ensures IsTimes(if Answered(blocks, up, header, n) then out[blocks[n] := Int64(header(blocks[n]).value)] else out,
                    blocks, up, header, n + 1)
  {
    hide Int64;
    assert blocks[..n + 1] == blocks[..n] + [blocks[n]];
  }

  lemma {:induction false} TimesSkip(out: map<nat, int>, blocks: seq<nat>, up: nat -> bool, header: Headers, start: nat, end: nat)
    requires start <= end <= |blocks| && IsTimes(out, blocks, up, header, start)
    requires forall i | start <= i < end :: !Answered(blocks, up, header, i)
    ensures IsTimes(out, blocks, up, header, end)
    decreases end - start
  {
    hide IsTimes;
    if start < end {
      TimesStep(out, blocks, up, header, start);
      TimesSkip(out, blocks, up, header, start + 1, end);
    }
  }

  /** Every answered block gets its header's time, in batches of at most 100; no other block gets one. */
  method BlockTimes(blocks: seq<nat>, up: nat -> bool, header: Headers) returns (out: map<nat, int>)
    ensures IsTimes(out, blocks, up, header, |blocks|)
  {
    hide IsTimes, Int64;
    out := map[];
    NoTimesYet(blocks, up, header);
    var start := 0;
    while start < |blocks|
      invariant 0 <= start && (start % 100 == 0 || start >= |blocks|)
      invariant IsTimes(out, blocks, up, header, if start < |blocks| then start else |blocks|)
    {
      var end := if start + 100 > |blocks| then |blocks| else start + 100;
      if up(start / 100) {
        for i := start to end
          invariant IsTimes(out, blocks, up, header, i)
        {
          assert i / 100 == start / 100;
          TimesStep(out, blocks, up, header, i);
          if header(blocks[i]).Some? {
            out := out[blocks[i] := Int64(header(blocks[i]).value)];
          }
        }
      } else {
        assert forall i | start <= i < end :: i / 100 == start / 100;
        TimesSkip(out, blocks, up, header, start, end);
      }
      start := start + 100;
    }
  }

  lemma NoTimesYet(blocks: seq<nat>, up: nat -> bool, header: Headers)
    ensures IsTimes(map[], blocks, up, header, 0)
  {}

  // ----- stamping a poll's logs -----

  /** One log of a poll; `block` is None when its number does not parse. */
  datatype LogEntry = LogEntry(block: Option<nat>, body: string, time: int)

  /** The blocks a poll asks about, in the order its logs first name them. */
  function FirstSeen(logs: seq<LogEntry>): seq<nat> {
    if logs == [] then []
    else
      var before, l := FirstSeen(logs[..|logs| - 1]), logs[|logs| - 1];
      if l.block.Some? && l.block.value !in before then before + [l.block.value] else before
  }

  predicate NamesBlock(logs: seq<LogEntry>, b: nat) {
    exists i | 0 <= i < |logs| :: logs[i].block == Some(b)
  }

  /** Each block a log names, once. */
  lemma {:induction false} FirstSeenIs(logs: seq<LogEntry>)
    ensures forall b: nat :: b in FirstSeen(logs) <==> NamesBlock(logs, b)
    ensures forall i, j | 0 <= i < j < |FirstSeen(logs)| :: FirstSeen(logs)[i] != FirstSeen(logs)[j]
  {
    if logs != [] {
      var n := |logs| - 1;
      FirstSeenIs(logs[..n]);
      forall b: nat ensures NamesBlock(logs, b) <==> NamesBlock(logs[..n], b) || logs[n].block == Some(b) {
        if i :| 0 <= i < n && logs[..n][i].block == Some(b) {
          assert logs[i].block == Some(b);
        }
        if i :| 0 <= i < n && logs[i].block == Some(b) {
          assert logs[..n][i].block == Some(b);
        }
      }
    }
  }

  method NamedBlocks(logs: array<LogEntry>) returns (blocks: seq<nat>)
    ensures blocks == FirstSeen(logs[..])
  {
    blocks := [];
    for i := 0 to logs.Length
      invariant blocks == FirstSeen(logs[..i])
    {
      assert logs[..i + 1][..i] == logs[..i];
      if logs[i].block.Some? && logs[i].block.value !in blocks {
        blocks := blocks + [logs[i].block.value];
      }
    }
    assert logs[..logs.Length] == logs[..];
  }

  predicate Timed(l: LogEntry, times: map<nat, int>) { l.block.Some? ==> l.block.value in times }

  function WithTime(l: LogEntry, times: map<nat, int>): LogEntry {
    if l.block.Some? && l.block.value in times then l.(time := times[l.block.value]) else l
  }

  /** The second loop: it stops at the first log whose block has no time. */
  method StampAll(logs: array<LogEntry>, times: map<nat, int>) returns (ok: bool)
    modifies logs
    ensures ok <==> forall i | 0 <= i < logs.Length :: Timed(old(logs[i]), times)
    ensures ok ==> forall i | 0 <= i < logs.Length :: logs[i] == WithTime(old(logs[i]), times)
    ensures forall i | 0 <= i < logs.Length :: logs[i] == old(logs[i]) || logs[i] == WithTime(old(logs[i]), times)
  {
    for i := 0 to logs.Length
      invariant forall k | i <= k < logs.Length :: logs[k] == old(logs[k])
      invariant forall k | 0 <= k < i :: Timed(old(logs[k]), times) && logs[k] == WithTime(old(logs[k]), times)
    {
      if logs[i].block.Some? {
        if logs[i].block.value !in times {
          assert !Timed(old(logs[i]), times);
          return false;
        }
        logs[i] := logs[i].(time := times[logs[i].block.value]);
      }
    }
    return true;
  }

  /** Every log is timed exactly when every block named was answered for. */
  lemma TimedIffAnswered(logs: seq<LogEntry>, times: map<nat, int>, up: nat -> bool, header: Headers)
    requires IsTimes(times, FirstSeen(logs), up, header, |FirstSeen(logs)|)
    ensures (forall i | 0 <= i < |logs| :: Timed(logs[i], times))
            <==> forall k | 0 <= k < |FirstSeen(logs)| :: Answered(FirstSeen(logs), up, header, k)
  {
    FirstSeenIs(logs);
    hide FirstSeen;
    var blocks := FirstSeen(logs);
    if forall i | 0 <= i < |logs| :: Timed(logs[i], times) {
      forall k | 0 <= k < |blocks| ensures Answered(blocks, up, header, k) {
        assert NamesBlock(logs, blocks[k]);
        var i :| 0 <= i < |logs| && logs[i].block == Some(blocks[k]);
        assert Timed(logs[i], times);
      }
    }
    if forall k | 0 <= k < |blocks| :: Answered(blocks, up, header, k) {
      forall i | 0 <= i < |logs| ensures Timed(logs[i], times) {
        if logs[i].block.Some? {
          assert NamesBlock(logs, logs[i].block.value);
        }
      }
    }
  }

  predicate Carries(l: LogEntry, was: LogEntry, header: Headers) {
    match was.block
    case None => l == was
    case Some(b) => header(b).Some? && l == was.(time := Int64(header(b).value))
  }

  /** The poll goes on exactly when every block its logs name was answered for, and then each log
      carries its block's time.  Nothing else about a log ever changes. */
  method StampTimes(logs: array<LogEntry>, up: nat -> bool, header: Headers) returns (ok: bool)
    modifies logs
    ensures var blocks := FirstSeen(old(logs[..])); ok <==> forall k | 0 <= k < |blocks| :: Answered(blocks, up, header, k)
    ensures ok ==> forall i | 0 <= i < logs.Length :: Carries(logs[i], old(logs[i]), header)
    ensures forall i | 0 <= i < logs.Length :: logs[i].(time := 0) == old(logs[i].(time := 0))
  {
    hide FirstSeen, Answered, Int64;
    ghost var was := logs[..];
    var blocks := NamedBlocks(logs);
    if |blocks| == 0 {
      FirstSeenIs(was);
      forall i | 0 <= i < logs.Length ensures was[i].block.None? {
        assert was[i].block.Some? ==> NamesBlock(was, was[i].block.value);
      }
      return true;
    }
    var times := BlockTimes(blocks, up, header);
    TimedIffAnswered(was, times, up, header);
    ok := StampAll(logs, times);
    forall i | 0 <= i < logs.Length && ok ensures Carries(logs[i], was[i], header) {
      assert Timed(was[i], times);
    }
  }

  // ----- the stored rows -----

  datatype Swap = Swap(ts: int, block: nat, pool: string, amount0: string, amount1: string,
                       amountUSD: string, sender: string)
  {
    /** `SeedSwapData.Dated` (storage/store.go:89-94). */
    predicate Dated() { block != 0 && ts > 0 }
  }

  type Rows = map<Id, Swap>

  function TimesOf(rows: Rows): Times { map id | id in rows :: rows[id].ts }

  function Undated(rows: Rows): set<Id> { set id | id in rows && !rows[id].Dated() }

  /** What an undated read keeps of the window it scanned. */
  function Stale(rows: Rows, win: set<Id>): set<Id> {
    set id | id in win && id in rows && !rows[id].Dated() && rows[id].ts > 0
  }

  /** The stale rows whose block was answered, dated; everything else as it was. */
  function HealedRows(rows: Rows, stale: set<Id>, times: map<nat, int>): Rows {
    map id | id in rows :: if id in stale then HealedRow(rows[id], times) else rows[id]
  }

  function HealedRow(r: Swap, times: map<nat, int>): Swap {
    if r.ts >= 0 && r.ts in times then r.(block := r.ts, ts := times[r.ts]) else r
  }

  function Dates(rows: Rows, stale: set<Id>, times: map<nat, int>): set<Id> {
    set id | id in stale && id in rows && rows[id].ts >= 0 && rows[id].ts in times
  }

  /** One pass's surroundings: what the node says, whether the run was cancelled while it waited, what
      the polls have written since the pass before, which rows the database hands over when asked, and
      which row writes it loses.  A query that fails hands over nothing. */
  datatype Pass = Pass(up: nat -> bool, header: Headers, cancelled: bool, written: Rows, keeps: Keeps, lost: set<Id>)

  /** What one pass did: the table it met, the rows it found, the times it read, the table it left. */
  datatype Step = Step(rows: Rows, stale: set<Id>, times: map<nat, int>, after: Rows)

  function Got(rows: Rows, win: set<Id>, p: Pass): set<Id> { Stale(rows, Handed(win, p.keeps)) }

  ghost predicate IsStep(s: Step, p: Pass, window: nat) {
    && (exists win :: IsEarliest(TimesOf(s.rows), window, win) && s.stale == Got(s.rows, win, p))
    && s.after == HealedRows(s.rows, s.stale - p.lost, s.times)
    && if s.stale == {} then s.times == map[]
       else exists blocks :: Asks(blocks, s.rows, s.stale) && IsTimes(s.times, blocks, p.up, p.header, |blocks|)
  }

  class SwapTable {
    const window: nat
    var rows: Rows

    constructor (window: nat, rows: Rows)
      ensures this.window == window && this.rows == rows
    {
      this.window, this.rows := window, rows;
    }

    /** storage/store_sqlite.go:1049-1073. */
    method UndatedSwapsRaw(p: Pass) returns (stale: set<Id>)
      ensures exists win :: IsEarliest(TimesOf(rows), window, win) && stale == Got(rows, win, p)
    {
      var w := Earliest(TimesOf(rows), window);
      stale := set id | id in w && id in rows && !rows[id].Dated() && rows[id].ts > 0 && p.keeps(id);
      assert stale == Got(rows, w, p);
    }

    /** One pass of the heal. */
    method HealSwapTimes(p: Pass) returns (found: nat, healed: nat, err: bool, ghost step: Step)
      modifies this
      ensures IsStep(step, p, window) && step.rows == old(rows) && step.after == rows
      ensures found == |step.stale| && healed == |Dates(step.rows, step.stale, step.times)|
      ensures found == 0 ==> !err
      ensures found > 0 ==> (err <==> step.times == map[])
      ensures found > 0 && !err ==> healed > 0
    {
      hide Asks, IsTimes, IsEarliest, HealedRows, Dates;
      var stale := UndatedSwapsRaw(p);
      ghost var was := rows;
      found, healed := |stale|, 0;
      NoTimesNoChange(rows, stale);
      NoTimesNoChange(rows, stale - p.lost);
      if found == 0 {
        assert stale == {};
        return found, 0, false, Step(was, stale, map[], rows);
      }
      var blocks := BlocksOf(rows, stale);
      var read := BlockTimes(blocks, p.up, p.header);
      AnsweredIsHealed(rows, stale, blocks, read, p);
      if |read| == 0 {
        assert read == map[];
        return found, 0, true, Step(was, stale, read, rows);
      }
      assert read != map[];
      healed := DateAll(stale, read, p.lost);
      err := false;
      step := Step(was, stale, read, rows);
    }

    /** The write loop of a pass.  A write the database loses is counted like any other. */
    method DateAll(stale: set<Id>, times: map<nat, int>, lost: set<Id>) returns (healed: nat)
      requires stale <= rows.Keys && forall id | id in stale :: rows[id].ts > 0
      modifies this
      ensures rows == HealedRows(old(rows), stale - lost, times)
      ensures healed == |Dates(old(rows), stale, times)|
    {
      hide HealedRows, Dates;
      healed := 0;
      var todo := stale;
      ghost var was := rows;
      HealedNone(rows, times);
      assert stale - stale == {} == stale - stale - lost;
      while todo != {}
        invariant todo <= stale && rows == HealedRows(was, stale - todo - lost, times)
        invariant healed == |Dates(was, stale - todo, times)|
      {
        var id :| id in todo;
        ghost var done := stale - todo;
        HealedStep(was, done, id, times);
        HealedStep(was, done - lost, id, times);
        todo := todo - {id};
        assert stale - todo == done + {id};
        assert stale - todo - lost == if id in lost then done - lost else done - lost + {id};
        var block := rows[id].ts;
        if block in times {
          if id !in lost {
            rows := rows[id := rows[id].(block := block, ts := times[block])];
          }
          healed := healed + 1;
        }
      }
      assert stale - todo == stale;
    }

    /** The retry loop, fed one pass's surroundings at a time.  It reports whether it returned because a
        pass found nothing, as against being cancelled or still waiting. */
    method KeepSwapTimes(passes: seq<Pass>) returns (whole: bool, ghost log: seq<Step>)
      requires window > 0 && Layout(rows)
      requires forall i | 0 <= i < |passes| :: Later(rows, passes[i].header) && Above(rows, passes[i].written)
      modifies this
      ensures IsHeal(log, passes, old(rows), rows, whole, window)
      ensures whole && ReadWhole(passes[|log| - 1].keeps) ==> Undated(rows) == {}
      ensures Spared(old(rows), rows, Polled(passes)) && Layout(rows)
      ensures (forall i | 0 <= i < |passes| :: Answers(old(rows), passes[i])) && |passes| > |Undated(old(rows))| ==>
                whole && Undated(rows) == {}
    {
      hide Layout, Later, SameButTime, Undated, Answers, Above, Spared, Polled, ReadWhole, IsStep, IsHeal, OnlyFewer, Ran;
      log, whole := [], false;
      RanStart(passes, rows, window);
      for i := 0 to |passes|
        invariant !whole && |log| == i && Ran(log, passes, old(rows), rows, window)
        invariant i > 0 ==> GoesOn(log[i - 1], passes[i - 1])
        invariant Falls(old(rows), rows, passes, i)
      {
        ghost var before := rows;
        RanFacts(log, passes, old(rows), rows, window);
        rows := rows + passes[i].written;
        PollKeeps(old(rows), before, passes[i].written);
        ghost var polled := rows;
        var found, healed, err;
        ghost var step;
        found, healed, err, step := KeepPass(passes[i], old(rows));
        RanMore(log, step, passes, old(rows), before, window);
        FallsMore(old(rows), before, polled, rows, passes, i, found);
        log := log + [step];
        if found == 0 && !err {
          whole := true;
          break;
        }
        if healed > 0 && !err {
          continue;
        }
        if passes[i].cancelled {
          break;
        }
      }
      HealEnds(log, passes, old(rows), rows, whole, window);
    }

    /** One pass as the retry loop sees it; `was` is the table the loop started from. */
    method KeepPass(p: Pass, ghost was: Rows) returns (found: nat, healed: nat, err: bool, ghost step: Step)
      requires window > 0 && Layout(rows) && Later(was, p.header) && OnlyFewer(was, rows)
      modifies this
      ensures IsStep(step, p, window) && step.rows == old(rows) && step.after == rows
      ensures found == |step.stale| && (found == 0 ==> !err)
      ensures found > 0 ==> (err <==> step.times == map[]) && (!err ==> healed > 0)
      ensures Layout(rows) && SameButTime(old(rows), rows) && OnlyFewer(was, rows)
      ensures found == 0 && ReadWhole(p.keeps) ==> Undated(rows) == {}
      ensures |Undated(rows)| <= |Undated(old(rows))|
      ensures found > 0 && Answers(was, p) ==> !err && |Undated(rows)| < |Undated(old(rows))|
    {
      hide Layout, Later, SameButTime, HealedRows, OnlyFewer, Answers, Stale, Dates, Undated, IsEarliest, IsTimes, Asks, Got;
      ghost var before := rows;
      StillLater(was, before, p.header);
      found, healed, err, step := HealSwapTimes(p);
      ghost var win :| IsEarliest(TimesOf(before), window, win) && step.stale == Got(before, win, p);
      WindowSeesUndated(before, window, win);
      GotPart(before, win, p);
      StepTimes(step, p, window);
      HealKeepsLayout(before, step.stale - p.lost, step.times, p.header);
      FewerTransitive(was, before, rows);
      if found == 0 {
        NoTimesNoChange(before, step.stale - p.lost);
      }
      if found > 0 && Answers(was, p) {
        NoneLost(was, p, step.stale);
        AnswersProgress(was, before, step.stale, step.times, p);
      }
    }
  }

  lemma GotPart(rows: Rows, win: set<Id>, p: Pass)
    ensures Got(rows, win, p) <= Stale(rows, win)
    ensures ReadWhole(p.keeps) ==> Got(rows, win, p) == Stale(rows, win)
    ensures forall id | id in Got(rows, win, p) :: id in rows && rows[id].ts > 0
  {}

  lemma NoneLost(was: Rows, p: Pass, stale: set<Id>)
    requires Answers(was, p)
    ensures stale - p.lost == stale
  {}

  lemma StepTimes(s: Step, p: Pass, window: nat)
    requires IsStep(s, p, window)
    ensures forall b | b in s.times :: p.header(b).Some? && s.times[b] == Int64(p.header(b).value)
    ensures (forall k :: p.up(k)) ==>
              forall id | id in s.stale && p.header(s.rows[id].ts).Some? :: s.rows[id].ts in s.times
  {
    hide HealedRows, IsEarliest;
    var win :| IsEarliest(TimesOf(s.rows), window, win) && s.stale == Got(s.rows, win, p);
    if s.stale != {} {
      var blocks :| Asks(blocks, s.rows, s.stale) && IsTimes(s.times, blocks, p.up, p.header, |blocks|);
      GotPart(s.rows, win, p);
      TimesAreHeaders(blocks, s.times, p);
      AnsweredIsHealed(s.rows, s.stale, blocks, s.times, p);
    }
  }

  /** What a pass changes: a row that was undated, whose write was not lost and whose block's header came
      back, gets that block and that header's time, and nothing else about it changes; every other row
      stays as it was. */
  lemma StepMeans(s: Step, p: Pass, window: nat, id: Id)
    requires IsStep(s, p, window) && id in s.rows
    ensures s.after.Keys == s.rows.Keys
    ensures var was, now := s.rows[id], s.after[id];
            now != was ==>
              && (was.block == 0 || was.ts <= 0) && was.ts > 0 && id !in p.lost && p.header(was.ts).Some?
              && now == was.(block := was.ts, ts := Int64(p.header(was.ts).value))
    ensures id in s.stale && id !in p.lost && p.header(s.rows[id].ts).Some? && (forall k :: p.up(k)) ==>
              var was := s.rows[id]; s.after[id] == was.(block := was.ts, ts := Int64(p.header(was.ts).value))
  {
    hide IsEarliest, Int64;
    StepTimes(s, p, window);
    var win :| IsEarliest(TimesOf(s.rows), window, win) && s.stale == Got(s.rows, win, p);
    GotPart(s.rows, win, p);
  }

  /** A header's time, as long as it fits. */
  lemma Int64Fits(n: nat)
    requires n < 0x8000_0000_0000_0000
    ensures Int64(n) == n
  {}

  // ----- how the loop ends -----

  /** A pass after which the loop runs on: it found rows, and dated some or was not cancelled. */
  predicate GoesOn(s: Step, p: Pass) { s.stale != {} && (s.times == map[] ==> !p.cancelled) }

  /** The table i passes leave. */
  function Left(log: seq<Step>, was: Rows, i: nat): Rows
    requires i <= |log|
  {
    if i == 0 then was else log[i - 1].after
  }

  ghost predicate IsChain(log: seq<Step>, passes: seq<Pass>, was: Rows, now: Rows, window: nat) {
    && |log| <= |passes| && now == Left(log, was, |log|)
    && forall i | 0 <= i < |log| :: IsStep(log[i], passes[i], window) && log[i].rows == Left(log, was, i) + passes[i].written
  }

  /** A run of the loop: it goes on until a pass finds nothing, or dates nothing and is cancelled. */
  ghost predicate IsHeal(log: seq<Step>, passes: seq<Pass>, was: Rows, now: Rows, whole: bool, window: nat) {
    && IsChain(log, passes, was, now, window)
    && (forall i | 0 <= i < |log| - 1 :: GoesOn(log[i], passes[i]))
    && (whole <==> log != [] && log[|log| - 1].stale == {})
    && (!whole && |log| < |passes| ==> log != [] && !GoesOn(log[|log| - 1], passes[|log| - 1]))
  }

  lemma ChainMore(log: seq<Step>, step: Step, passes: seq<Pass>, was: Rows, now: Rows, window: nat)
    requires |log| < |passes| && IsChain(log, passes, was, now, window)
    requires IsStep(step, passes[|log|], window) && step.rows == now + passes[|log|].written
    ensures IsChain(log + [step], passes, was, step.after, window)
  {
    hide IsStep;
    var more := log + [step];
    forall i | 0 <= i <= |log| ensures Left(more, was, i) == Left(log, was, i) {
      assert i > 0 ==> more[i - 1] == log[i - 1];
    }
    forall i | 0 <= i < |more|
      ensures IsStep(more[i], passes[i], window) && more[i].rows == Left(more, was, i) + passes[i].written
    {
      if i < |log| {
        assert more[i] == log[i];
      }
    }
  }

  /** Where the loop stands after |log| passes. */
  ghost predicate Ran(log: seq<Step>, passes: seq<Pass>, was: Rows, now: Rows, window: nat) {
    && IsChain(log, passes, was, now, window) && (forall i | 0 <= i < |log| - 1 :: GoesOn(log[i], passes[i]))
    && Layout(now) && OnlyFewer(was, now) && Spared(was, now, Polled(passes[..|log|]))
  }

  /** With every block answered and every write kept, each pass dates a row. */
  ghost predicate Falls(was: Rows, now: Rows, passes: seq<Pass>, i: nat) {
    (forall k | 0 <= k < |passes| :: Answers(was, passes[k])) ==> |Undated(now)| + i <= |Undated(was)|
  }

  lemma RanStart(passes: seq<Pass>, was: Rows, window: nat)
    requires Layout(was)
    ensures Ran([], passes, was, was, window) && Falls(was, was, passes, 0)
  {}

  lemma RanFacts(log: seq<Step>, passes: seq<Pass>, was: Rows, now: Rows, window: nat)
    requires Ran(log, passes, was, now, window)
    ensures Layout(now) && OnlyFewer(was, now)
  {}

  lemma RanMore(log: seq<Step>, step: Step, passes: seq<Pass>, was: Rows, now: Rows, window: nat)
    requires |log| < |passes| && Ran(log, passes, was, now, window) && (log != [] ==> GoesOn(log[|log| - 1], passes[|log| - 1]))
    requires IsStep(step, passes[|log|], window) && step.rows == now + passes[|log|].written
    requires Layout(step.after) && SameButTime(step.rows, step.after) && OnlyFewer(was, step.after)
    ensures Ran(log + [step], passes, was, step.after, window)
  {
    hide IsChain, GoesOn, Layout, OnlyFewer, Spared, SameButTime, IsStep, Polled;
    ChainMore(log, step, passes, was, now, window);
    MorePolled(was, now, step.rows, step.after, passes, |log|);
    assert |log + [step]| == |log| + 1;
    forall i | 0 <= i < |log| ensures GoesOn((log + [step])[i], passes[i]) {
      assert (log + [step])[i] == log[i];
    }
  }

  lemma FallsMore(was: Rows, before: Rows, polled: Rows, now: Rows, passes: seq<Pass>, i: nat, found: nat)
    requires i < |passes| && Falls(was, before, passes, i) && |Undated(polled)| <= |Undated(before)|
    requires found == 0 && ReadWhole(passes[i].keeps) ==> Undated(now) == {}
    requires found > 0 && Answers(was, passes[i]) ==> |Undated(now)| < |Undated(polled)|
    ensures found > 0 ==> Falls(was, now, passes, i + 1)
    ensures found == 0 && Answers(was, passes[i]) ==> Undated(now) == {}
  {
    hide Undated;
  }

  lemma HealEnds(log: seq<Step>, passes: seq<Pass>, was: Rows, now: Rows, whole: bool, window: nat)
    requires Ran(log, passes, was, now, window) && |log| <= |passes|
    requires whole <==> log != [] && log[|log| - 1].stale == {}
    requires !whole && |log| < |passes| ==> log != [] && !GoesOn(log[|log| - 1], passes[|log| - 1])
    ensures IsHeal(log, passes, was, now, whole, window) && Layout(now) && Spared(was, now, Polled(passes))
  {
    PolledGrows(was, now, passes, |log|);
  }

  /** A read that fails looks like a table with nothing left to date: whatever is stored and whatever
      would come after, the loop ends at that pass for good, and every undated row stays so. */
  lemma FailedReadEnds(log: seq<Step>, passes: seq<Pass>, was: Rows, now: Rows, whole: bool, window: nat, i: nat)
    requires IsHeal(log, passes, was, now, whole, window)
    requires i < |log| && ReadFailed(passes[i].keeps)
    ensures whole && |log| == i + 1 && now == Left(log, was, i) + passes[i].written
  {
    hide IsEarliest;
    assert IsStep(log[i], passes[i], window);
    assert log[i].stale == {};
    assert !GoesOn(log[i], passes[i]);
    assert {} - passes[i].lost == {};
    HealedNone(log[i].rows, log[i].times);
  }

  lemma EmptyStep(was: Rows, p: Pass, window: nat, win: set<Id>)
    requires ReadFailed(p.keeps) && IsEarliest(TimesOf(was), window, win)
    ensures IsStep(Step(was, {}, map[], was), p, window)
  {
    hide IsEarliest, HealedRows;
    assert Got(was, win, p) == {};
    assert {} - p.lost == {};
    HealedNone(was, map[]);
  }

  /** And there is such a run, over any table. */
  lemma FailedReadHappens(was: Rows, p: Pass, window: nat) returns (log: seq<Step>)
    requires ReadFailed(p.keeps) && p.written == map[]
    ensures IsHeal(log, [p], was, was, true, window)
  {
    var step := Step(was, {}, map[], was);
    log := [step];
    var win := EarliestWindowExists(TimesOf(was), window);
    EmptyStep(was, p, window, win);
    hide IsStep;
    assert was + map[] == was;
  }

  /** What a poll writes is dated, past every block number still stored. */
  ghost predicate Above(rows: Rows, written: Rows) {
    forall id | id in written :: written[id].Dated() && BelowAll(rows, written[id].ts)
  }

  function Polled(passes: seq<Pass>): set<Id> {
    set i, id | 0 <= i < |passes| && id in passes[i].written :: id
  }

  /** No row goes, and one the polls did not write is the same but for its time. */
  ghost predicate Spared(a: Rows, b: Rows, polled: set<Id>) {
    a.Keys <= b.Keys && forall id | id in a && id !in polled :: a[id].(ts := 0, block := 0) == b[id].(ts := 0, block := 0)
  }

  lemma PollKeeps(was: Rows, rows: Rows, written: Rows)
    requires Layout(rows) && OnlyFewer(was, rows) && Above(was, written)
    ensures Layout(rows + written) && OnlyFewer(was, rows + written) && |Undated(rows + written)| <= |Undated(rows)|
  {
    var more := rows + written;
    assert forall id | id in Undated(more) :: id !in written && id in Undated(rows) && more[id] == rows[id];
    SubsetSize(Undated(more), Undated(rows));
  }

  lemma PolledStep(passes: seq<Pass>, i: nat)
    requires i < |passes|
    ensures forall id :: id in Polled(passes[..i + 1]) <==> id in Polled(passes[..i]) || id in passes[i].written
  {
    assert forall k | 0 <= k < i :: passes[..i + 1][k] == passes[..i][k];
    assert passes[..i + 1][i] == passes[i];
  }

  lemma MorePolled(was: Rows, before: Rows, polled: Rows, after: Rows, passes: seq<Pass>, i: nat)
    requires i < |passes| && Spared(was, before, Polled(passes[..i])) && polled == before + passes[i].written
    requires SameButTime(polled, after)
    ensures Spared(was, after, Polled(passes[..i + 1]))
  {
    PolledStep(passes, i);
    hide Polled;
  }

  lemma PolledGrows(was: Rows, rows: Rows, passes: seq<Pass>, n: nat)
    requires n <= |passes| && Spared(was, rows, Polled(passes[..n]))
    ensures Spared(was, rows, Polled(passes))
  {
    forall id | id in Polled(passes[..n]) ensures id in Polled(passes) {
      var k :| 0 <= k < n && id in passes[..n][k].written;
      assert id in passes[k].written;
    }
  }

  lemma AnswersProgress(was: Rows, rows: Rows, stale: set<Id>, times: map<nat, int>, p: Pass)
    requires Answers(was, p) && OnlyFewer(was, rows) && stale <= Undated(rows) && stale != {}
    requires forall id | id in stale :: id in rows && rows[id].ts > 0
    requires (forall k :: p.up(k)) ==> forall id | id in stale && p.header(rows[id].ts).Some? :: rows[id].ts in times
    ensures times != map[] && Dates(rows, stale, times) != {}
  {
    var id :| id in stale;
    assert id in Undated(was) && rows[id] == was[id];
    assert rows[id].ts in times;
    assert id in Dates(rows, stale, times);
  }

  lemma FewerTransitive(a: Rows, b: Rows, c: Rows)
    requires OnlyFewer(a, b) && OnlyFewer(b, c)
    ensures OnlyFewer(a, c)
  {}

  /** No row is newly undated, and those still undated are untouched. */
  ghost predicate OnlyFewer(was: Rows, rows: Rows) {
    Undated(rows) <= Undated(was) && forall id | id in Undated(rows) :: rows[id] == was[id]
  }

  /** The blocks of the stale rows, each once, in whatever order the rows came. */
  ghost predicate Asks(blocks: seq<nat>, rows: Rows, stale: set<Id>) {
    && (forall i, j | 0 <= i < j < |blocks| :: blocks[i] != blocks[j])
    && (forall id | id in stale && id in rows :: rows[id].ts in blocks)
    && (forall b | b in blocks :: exists id :: id in stale && id in rows && rows[id].ts == b)
  }

  method BlocksOf(rows: Rows, stale: set<Id>) returns (blocks: seq<nat>)
    requires stale <= rows.Keys && forall id | id in stale :: rows[id].ts > 0
    ensures Asks(blocks, rows, stale)
  {
    blocks := [];
    var todo := stale;
    while todo != {}
      invariant todo <= stale
      invariant forall id | id in stale - todo :: rows[id].ts in blocks
      invariant forall b | b in blocks :: exists id :: id in stale && id in rows && rows[id].ts == b
      invariant forall i, j | 0 <= i < j < |blocks| :: blocks[i] != blocks[j]
    {
      var id :| id in todo;
      todo := todo - {id};
      if rows[id].ts !in blocks {
        blocks := blocks + [rows[id].ts];
      }
    }
  }

  lemma AnsweredIsHealed(rows: Rows, stale: set<Id>, blocks: seq<nat>, times: map<nat, int>, p: Pass)
    requires stale <= rows.Keys && forall id | id in stale :: rows[id].ts > 0
    requires Asks(blocks, rows, stale) && IsTimes(times, blocks, p.up, p.header, |blocks|)
    ensures times != map[] ==> Dates(rows, stale, times) != {}
    ensures (forall k :: p.up(k)) ==>
              forall id | id in stale && p.header(rows[id].ts).Some? :: rows[id].ts in times
  {
    if times != map[] {
      var b :| b in times;
      assert b in blocks[..|blocks|];
      assert b in blocks;
      var id :| id in stale && rows[id].ts == b;
      assert id in Dates(rows, stale, times);
    }
    if forall k :: p.up(k) {
      forall id | id in stale && p.header(rows[id].ts).Some? ensures rows[id].ts in times {
        var i :| 0 <= i < |blocks| && blocks[i] == rows[id].ts;
        assert Answered(blocks, p.up, p.header, i);
      }
    }
  }

  lemma TimesAreHeaders(blocks: seq<nat>, times: map<nat, int>, p: Pass)
    requires IsTimes(times, blocks, p.up, p.header, |blocks|)
    ensures forall b | b in times :: p.header(b).Some? && times[b] == Int64(p.header(b).value)
  {}

  lemma NoTimesNoChange(rows: Rows, stale: set<Id>)
    ensures HealedRows(rows, stale, map[]) == rows && Dates(rows, stale, map[]) == {}
  {}

  lemma HealedNone(rows: Rows, times: map<nat, int>)
    ensures HealedRows(rows, {}, times) == rows && Dates(rows, {}, times) == {}
  {}

  lemma HealedStep(rows: Rows, done: set<Id>, id: Id, times: map<nat, int>)
    requires id in rows && id !in done && rows[id].ts > 0
    ensures id in HealedRows(rows, done, times) && HealedRows(rows, done, times)[id] == rows[id]
    ensures HealedRows(rows, done + {id}, times) == HealedRows(rows, done, times)[id := HealedRow(rows[id], times)]
    ensures |Dates(rows, done + {id}, times)| == |Dates(rows, done, times)| + if rows[id].ts in times then 1 else 0
  {
    hide HealedRow;
    DatesStep(rows, done, id, times);
  }

  lemma DatesStep(rows: Rows, done: set<Id>, id: Id, times: map<nat, int>)
    requires id in rows && id !in done && rows[id].ts > 0
    ensures |Dates(rows, done + {id}, times)| == |Dates(rows, done, times)| + if rows[id].ts in times then 1 else 0
  {
    assert Dates(rows, done + {id}, times) == Dates(rows, done, times) + if rows[id].ts in times then {id} else {};
  }

  // ----- what the heal keeps, and what it needs -----

  /** Undated rows hold block numbers: positive, and below every real time. */
  ghost predicate Layout(rows: Rows) {
    && (forall id | id in Undated(rows) :: rows[id].ts > 0)
    && (forall u, d | u in Undated(rows) && d in rows && rows[d].Dated() :: rows[u].ts < rows[d].ts)
  }

  /** Header times lie above every block number still stored. */
  ghost predicate Later(rows: Rows, header: Headers) {
    forall id, b: nat | id in Undated(rows) && header(b).Some? :: Int64(header(b).value) > rows[id].ts
  }

  /** Only the two fields the heal owns may differ. */
  ghost predicate SameButTime(a: Rows, b: Rows) {
    a.Keys == b.Keys && forall id | id in a :: a[id].(ts := 0, block := 0) == b[id].(ts := 0, block := 0)
  }

  /** The database hands over and stores every row, and every block of an undated row is answered. */
  ghost predicate Answers(rows: Rows, p: Pass) {
    && ReadWhole(p.keeps) && p.lost == {} && (forall k :: p.up(k))
    && forall id | id in Undated(rows) && rows[id].ts >= 0 :: p.header(rows[id].ts).Some?
  }

  lemma StillLater(was: Rows, rows: Rows, header: Headers)
    requires Later(was, header) && OnlyFewer(was, rows)
    ensures Later(rows, header)
  {}

  /** While undated rows sort first, a window of any size sees one of them. */
  lemma WindowSeesUndated(rows: Rows, limit: nat, win: set<Id>)
    requires limit > 0 && Layout(rows) && IsEarliest(TimesOf(rows), limit, win)
    ensures Stale(rows, win) == {} <==> Undated(rows) == {}
    ensures Stale(rows, win) <= Undated(rows)
  {
    assert TimesOf(rows).Keys == rows.Keys;
    if u :| u in Undated(rows) {
      if u in win {
        assert u in Stale(rows, win);
      } else {
        assert win != {} by {
          if win == {} {
            ShortIsAll(TimesOf(rows), limit, win);
          }
        }
        var w :| w in win;
        assert TimesOf(rows)[w] <= TimesOf(rows)[u];
        assert w in Undated(rows);
        assert w in Stale(rows, win);
      }
    }
  }

  /** A pass changes nothing but Block and Timestamp, dates exactly the rows it healed, and leaves
      the layout it relied on. */
  lemma HealKeepsLayout(rows: Rows, stale: set<Id>, times: map<nat, int>, header: Headers)
    requires Layout(rows) && Later(rows, header) && stale <= Undated(rows)
    requires forall b | b in times :: header(b).Some? && times[b] == Int64(header(b).value)
    ensures var after := HealedRows(rows, stale, times);
            && SameButTime(rows, after) && Layout(after) && OnlyFewer(rows, after)
            && Undated(after) == Undated(rows) - Dates(rows, stale, times)
            && |Undated(after)| == |Undated(rows)| - |Dates(rows, stale, times)|
  {
    var after, dates := HealedRows(rows, stale, times), Dates(rows, stale, times);
    assert after.Keys == rows.Keys;
    forall id | id in dates ensures BelowAll(rows, after[id].ts) {
      BelowHeaders(rows, header, rows[id].ts);
    }
    hide HealedRows, Later;
    assert forall id | id in rows && id !in dates :: after[id] == rows[id] by {
      HealedElsewhere(rows, stale, times);
    }
    HealedElsewhere(rows, stale, times);
    LayoutKept(rows, after, dates);
    SubsetSize(dates, Undated(rows));
  }

  lemma BelowHeaders(rows: Rows, header: Headers, b: nat)
    requires Later(rows, header) && header(b).Some?
    ensures BelowAll(rows, Int64(header(b).value))
  {}

  lemma HealedElsewhere(rows: Rows, stale: set<Id>, times: map<nat, int>)
    requires stale <= Undated(rows) && Layout(rows)
    ensures var after, dates := HealedRows(rows, stale, times), Dates(rows, stale, times);
            && SameButTime(rows, after) && dates <= stale
            && (forall id | id in rows && id !in dates :: after[id] == rows[id])
            && (forall id | id in dates :: after[id].block > 0)
  {}

  lemma LayoutKept(rows: Rows, after: Rows, dates: set<Id>)
    requires Layout(rows) && dates <= Undated(rows) && after.Keys == rows.Keys
    requires forall id | id in rows && id !in dates :: after[id] == rows[id]
    requires forall id | id in dates :: after[id].block > 0 && BelowAll(rows, after[id].ts)
    ensures Layout(after) && OnlyFewer(rows, after) && Undated(after) == Undated(rows) - dates
  {
    forall id | id in dates ensures after[id].Dated() {
      assert rows[id].ts > 0 && id in Undated(rows);
    }
    assert Undated(after) == Undated(rows) - dates;
    forall u, d | u in Undated(after) && d in after && after[d].Dated() ensures after[u].ts < after[d].ts {
      assert u in Undated(rows) && after[u] == rows[u];
    }
  }

  ghost predicate BelowAll(rows: Rows, ts: int) {
    forall u | u in Undated(rows) :: rows[u].ts < ts
  }

  // ----- without the assumptions -----

  /** The dated rows that sort no later than any undated one. */
  function Early(rows: Rows): set<Id> {
    set id | id in rows && rows[id].Dated() && forall u | u in Undated(rows) :: rows[id].ts <= rows[u].ts
  }

  /** In general the heal is sure to see work that is left exactly when fewer than `limit` dated rows
      sort ahead of every undated one: any more, and a read may return nothing but those. */
  lemma HealSeesIff(rows: Rows, limit: nat)
    requires Undated(rows) != {} && forall id | id in Undated(rows) :: rows[id].ts > 0
    ensures |Early(rows)| < limit
       <==> forall win | IsEarliest(TimesOf(rows), limit, win) :: Stale(rows, win) != {}
  {
    var times := TimesOf(rows);
    assert times.Keys == rows.Keys;
    if |Early(rows)| < limit {
      forall win | IsEarliest(times, limit, win) ensures Stale(rows, win) != {} {
        if Stale(rows, win) == {} {
          var u :| u in Undated(rows);
          assert u !in win by {
            assert u !in Stale(rows, win);
          }
          forall w | w in win ensures w in Early(rows) {
            assert w !in Stale(rows, win);
            forall v | v in Undated(rows) ensures rows[w].ts <= rows[v].ts {
              assert v !in win by {
                assert v !in Stale(rows, win);
              }
              assert times[w] <= times[v];
            }
          }
          SubsetSize(win, Early(rows));
          ShortIsAll(times, limit, win);
        }
      }
    } else {
      var win := BlindWindow(rows, limit);
    }
  }

  lemma BlindWindow(rows: Rows, limit: nat) returns (win: set<Id>)
    requires Undated(rows) != {} && |Early(rows)| >= limit
    ensures IsEarliest(TimesOf(rows), limit, win) && Stale(rows, win) == {}
  {
    var times := TimesOf(rows);
    assert times.Keys == rows.Keys;
    var early: Times := map id | id in Early(rows) :: rows[id].ts;
    assert early.Keys == Early(rows);
    win := EarliestWindowExists(early, limit);
    SubsetSize(Early(rows), rows.Keys);
    forall w, k | w in win && k in times.Keys - win ensures times[w] <= times[k] {
      assert early[w] == times[w];
      if k in Early(rows) {
        assert early[w] <= early[k];
      } else if !rows[k].Dated() {
        assert k in Undated(rows);
      } else {
        var u :| u in Undated(rows) && rows[u].ts < rows[k].ts;
      }
    }
  }

  /** Positive header times are not enough, whatever the window: heal a windowful of rows to a header
      time below a remaining block number, and the next pass of the same window sees only them and
      reports the table whole. */
  lemma HealCanStopEarly(limit: nat) returns (rows: Rows, xs: set<Id>, y: Id)
    requires limit > 0
    ensures Layout(rows) && IsEarliest(TimesOf(rows), limit, xs) && Stale(rows, xs) == xs
    ensures forall id | id in xs :: rows[id].ts == 5
    ensures var after := HealedRows(rows, xs, map[5 := 3]);
            && IsEarliest(TimesOf(after), limit, xs) && Stale(after, xs) == {} && y in Undated(after)
  {
    xs := ManyIds(limit);
    y := seq(limit, _ => 'x');
    rows := map id | id in xs + {y} :: Swap(if id in xs then 5 else 10, 0, "", "", "", "", "");
    var after := HealedRows(rows, xs, map[5 := 3]);
    assert rows.Keys == xs + {y} == after.Keys;
    assert rows[y].ts == 10 && after[y] == rows[y];
    assert forall id | id in xs :: rows[id].ts == 5 && after[id].ts == 3 && after[id].block == 5;
    hide HealedRows, Layout, Stale, Undated;
    AllButLast(rows, limit, xs, y);
    AllButLast(after, limit, xs, y);
    StopsEarly(rows, after, xs, y);
  }

  lemma StopsEarly(rows: Rows, after: Rows, xs: set<Id>, y: Id)
    requires y !in xs && rows.Keys == after.Keys == xs + {y} && rows[y] == after[y] && rows[y].ts == 10 && rows[y].block == 0
    requires forall id | id in xs :: rows[id].ts == 5 && rows[id].block == 0 && after[id].ts == 3 && after[id].block == 5
    ensures Layout(rows) && Stale(rows, xs) == xs && Stale(after, xs) == {} && y in Undated(after)
  {}

  lemma AllButLast(rows: Rows, limit: nat, xs: set<Id>, y: Id)
    requires |xs| == limit && y !in xs && rows.Keys == xs + {y}
    requires forall id | id in xs :: rows[id].ts <= rows[y].ts
    ensures IsEarliest(TimesOf(rows), limit, xs)
  {
    assert TimesOf(rows).Keys == rows.Keys;
    assert |TimesOf(rows)| == |rows.Keys| == limit + 1;
  }
}
