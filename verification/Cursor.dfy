/** The indexer's block cursor (indexer/indexer.go:87-111, 246-335, 498-558).

    The node is an oracle: each poll is given what the node would answer.  Decoding a log into rows
    is left out; a read that fails anywhere (the log query, its decoding, a block header, a panic
    recovered by `pollGuarded`) is one outcome, `read == false`. */
module Cursor {
  import opened Wrappers

  const REORG_DEPTH: nat := 128
  const CONFIRMATIONS: nat := 3

  type Hash = string

  /** uint64 addition. */
  function Add64(a: nat, b: nat): nat { (a + b) % 0x1_0000_0000_0000_0000 }

  /** What the node answers during one poll: the head, the genesis hash when it is asked for the
      baseline and when it is asked to confirm a reset, and whether the blocks were read whole. */
  datatype Tick = Tick(head: Option<nat>, baseline: Option<Hash>, confirm: Option<Hash>, read: bool)

  /** `genesis` is empty until a baseline is captured; `stored` is the persisted cursor. */
  datatype State = State(lastBlock: nat, streak: nat, genesis: Hash, stored: nat)

  // ----- the specification of one poll -----

  predicate FarBelow(lastBlock: nat, start: nat, latest: nat) {
    lastBlock > Add64(start, REORG_DEPTH) && Add64(latest, REORG_DEPTH) < lastBlock
  }

  function WithBaseline(s: State, t: Tick): State {
    if s.genesis == "" && t.baseline.Some? then s.(genesis := t.baseline.value) else s
  }

  function Checked(s: State, start: nat, latest: nat, confirm: Option<Hash>): State {
    if !FarBelow(s.lastBlock, start, latest) then s.(streak := 0)
    else if s.streak + 1 < CONFIRMATIONS || confirm.None? then s.(streak := s.streak + 1)
    else if s.genesis == "" then s.(streak := s.streak + 1, genesis := confirm.value)
    else if confirm.value == s.genesis then s.(streak := 0)
    else State(start, 0, confirm.value, start)
  }

  /** A reset: the head is far below for the third time running and the hash is another chain's. */
  predicate Resets(s: State, start: nat, t: Tick) {
    && t.head.Some? && FarBelow(s.lastBlock, start, t.head.value)
    && s.streak + 1 >= CONFIRMATIONS && t.confirm.Some?
    && WithBaseline(s, t).genesis != "" && t.confirm.value != WithBaseline(s, t).genesis
  }

  function BeforeRead(s: State, start: nat, t: Tick): State
    requires t.head.Some?
  {
    Checked(WithBaseline(s, t), start, t.head.value, t.confirm)
  }

  /** The blocks a poll covers, when it covers any. */
  function Reads(s: State, start: nat, t: Tick): Option<(nat, nat)> {
    if t.head.None? || t.head.value <= BeforeRead(s, start, t).lastBlock || !t.read then None
    else
      var from := BeforeRead(s, start, t).lastBlock + 1;
      Some((from, if t.head.value - from > 2000 then from + 2000 else t.head.value))
  }

  function AfterPoll(s: State, start: nat, t: Tick): State {
    if t.head.None? then s
    else match Reads(s, start, t)
      case None => BeforeRead(s, start, t)
      case Some((_, to)) => BeforeRead(s, start, t).(lastBlock := to, stored := to)
  }

  // ----- the indexer -----

  class Indexer {
    const startBlock: nat
    var lastBlock: nat
    var lowHeadStreak: nat
    var genesisHash: Hash
    var stored: nat

    ghost function View(): State
      reads this
    {
      State(lastBlock, lowHeadStreak, genesisHash, stored)
    }

    constructor (start: nat, persisted: nat)
      ensures startBlock == start && stored == persisted && genesisHash == "" && lowHeadStreak == 0
      ensures lastBlock == if persisted < start then start else persisted
    {
      startBlock, stored, genesisHash, lowHeadStreak := start, persisted, "", 0;
      lastBlock := if persisted < start then start else persisted;
    }

    method EnsureGenesisHash(t: Tick)
      modifies this
      ensures View() == WithBaseline(old(View()), t)
    {
      if genesisHash != "" {
        return;
      }
      match t.baseline
      case None =>
      case Some(h) => genesisHash := h;
    }

    method MaybeResetForRegenesis(latest: nat, confirm: Option<Hash>)
      modifies this
      ensures View() == Checked(old(View()), startBlock, latest, confirm)
    {
      var farBelow := lastBlock > Add64(startBlock, REORG_DEPTH) && Add64(latest, REORG_DEPTH) < lastBlock;
      if !farBelow {
        lowHeadStreak := 0;
        return;
      }
      lowHeadStreak := lowHeadStreak + 1;
      if lowHeadStreak < CONFIRMATIONS {
        return;
      }
      match confirm {
        case None =>
          return;
        case Some(current) =>
          if genesisHash == "" {
            genesisHash := current;
            return;
          }
          if current == genesisHash {
            lowHeadStreak := 0;
            return;
          }
          lastBlock := startBlock;
          stored := startBlock;
          genesisHash := current;
          lowHeadStreak := 0;
      }
    }

    /** One poll. */
    method Poll(t: Tick) returns (ok: bool)
      modifies this
      ensures View() == AfterPoll(old(View()), startBlock, t)
    {
      if t.head.None? {
        return false;
      }
      var latest := t.head.value;
      EnsureGenesisHash(t);
      MaybeResetForRegenesis(latest, t.confirm);
      if latest <= lastBlock {
        return true;
      }
      var fromBlock, toBlock := lastBlock + 1, latest;
      if toBlock - fromBlock > 2000 {
        toBlock := fromBlock + 2000;
      }
      if !t.read {
        return false;
      }
      lastBlock := toBlock;
      stored := toBlock;
      return true;
    }
  }

  // ----- one poll -----

  /** Away from the top of the uint64 range, "far below" means what it says. */
  lemma FarBelowMeans(lastBlock: nat, start: nat, latest: nat)
    requires start + 128 < 0x1_0000_0000_0000_0000 && latest + 128 < 0x1_0000_0000_0000_0000
    ensures FarBelow(lastBlock, start, latest) <==> lastBlock > start + 128 && latest + 128 < lastBlock
  {}

  /** Where a poll stands when it comes to read: the cursor, or the start when it has proved a reset. */
  function Standing(s: State, start: nat, t: Tick): nat {
    if Resets(s, start, t) then start else s.lastBlock
  }

  /** A poll reads exactly when its head lies past where it stands and head and blocks were answered,
      and then it reads from the next block to the head, or 2001 blocks where there are more; the
      cursor and its stored copy move there.  Otherwise nothing moves but for a reset. */
  lemma PollReads(s: State, start: nat, t: Tick)
    ensures var c, after := Standing(s, start, t), AfterPoll(s, start, t);
            && (Reads(s, start, t).Some? <==> t.head.Some? && t.head.value > c && t.read)
            && (Reads(s, start, t).Some? ==>
                  var (from, to) := Reads(s, start, t).value;
                  && from == c + 1 && to == (if t.head.value <= c + 2001 then t.head.value else c + 2001)
                  && after.lastBlock == to == after.stored)
            && (Reads(s, start, t).None? ==>
                  after.lastBlock == c && after.stored == (if Resets(s, start, t) then start else s.stored))
            && (t.head.None? ==> after == s)
  {}

  // ----- runs -----

  function After(s: State, start: nat, ts: seq<Tick>): State {
    if ts == [] then s else AfterPoll(After(s, start, ts[..|ts| - 1]), start, ts[|ts| - 1])
  }

  /** What was read since boot or the last rewind: where it began, and the intervals in order. */
  datatype Trace = Trace(base: nat, spans: seq<(int, int)>)

  function TraceOf(s: State, start: nat, ts: seq<Tick>): Trace {
    if ts == [] then Trace(s.lastBlock, [])
    else
      var before, was, t := After(s, start, ts[..|ts| - 1]), TraceOf(s, start, ts[..|ts| - 1]), ts[|ts| - 1];
      var kept := if Resets(before, start, t) then Trace(start, []) else was;
      match Reads(before, start, t)
      case None => kept
      case Some(interval) => kept.(spans := kept.spans + [interval])
  }

  /** The intervals follow one another without gap or overlap from `base` to `last`, none over 2001
      blocks: the last one ends at `last`, and those before it end right before it starts. */
  predicate Contiguous(tr: Trace, last: int)
    decreases |tr.spans|
  {
    if tr.spans == [] then last == tr.base
    else
      var n := |tr.spans| - 1;
      && tr.spans[n].0 <= tr.spans[n].1 <= tr.spans[n].0 + 2000
      && tr.spans[n].1 == last
      && Contiguous(Trace(tr.base, tr.spans[..n]), tr.spans[n].0 - 1)
  }

  /** Over every run, what was read since boot or the last rewind is one contiguous interval that
      ends at the cursor. */
  lemma {:induction false} RunCovers(s: State, start: nat, ts: seq<Tick>)
    ensures Contiguous(TraceOf(s, start, ts), After(s, start, ts).lastBlock)
  {
    if ts != [] {
      hide Reads, Resets, AfterPoll;
      var before, was, t := After(s, start, ts[..|ts| - 1]), TraceOf(s, start, ts[..|ts| - 1]), ts[|ts| - 1];
      RunCovers(s, start, ts[..|ts| - 1]);
      PollReads(before, start, t);
      if Reads(before, start, t).Some? {
        var kept := if Resets(before, start, t) then Trace(start, []) else was;
        assert (kept.spans + [Reads(before, start, t).value])[..|kept.spans|] == kept.spans;
      }
    }
  }

  predicate NoReset(s: State, start: nat, ts: seq<Tick>) {
    forall i | 0 <= i < |ts| :: !Resets(After(s, start, ts[..i]), start, ts[i])
  }

  /** The indexer catches up: while every poll is answered with a head at or past h, its blocks are read,
      and nothing resets, n polls take the cursor 2001 blocks each, or to h. */
  lemma {:induction false} CatchesUp(s: State, start: nat, ts: seq<Tick>, h: nat)
    requires NoReset(s, start, ts)
    requires forall i | 0 <= i < |ts| :: ts[i].head.Some? && ts[i].head.value >= h && ts[i].read
    ensures After(s, start, ts).lastBlock >= s.lastBlock
    ensures After(s, start, ts).lastBlock >= h || After(s, start, ts).lastBlock >= s.lastBlock + 2001 * |ts|
  {
    if ts != [] {
      hide AfterPoll, Resets, Reads;
      var m := |ts| - 1;
      forall i | 0 <= i < m ensures !Resets(After(s, start, ts[..m][..i]), start, ts[..m][i]) {
        assert ts[..m][..i] == ts[..i] && ts[..m][i] == ts[i];
      }
      CatchesUp(s, start, ts[..m], h);
      assert !Resets(After(s, start, ts[..m]), start, ts[m]);
      PollReads(After(s, start, ts[..m]), start, ts[m]);
    }
  }

  predicate Covers(interval: (int, int), b: nat) { interval.0 <= b <= interval.1 }

  /** So each block between the base and the cursor was read exactly once, and no other. */
  lemma {:induction false} BlockReadOnce(tr: Trace, last: int, b: nat)
    requires Contiguous(tr, last)
    ensures tr.base <= last
    ensures (exists i :: 0 <= i < |tr.spans| && Covers(tr.spans[i], b)) <==> tr.base < b <= last
    ensures forall i, j | 0 <= i < j < |tr.spans| :: !(Covers(tr.spans[i], b) && Covers(tr.spans[j], b))
    decreases |tr.spans|
  {
    if tr.spans != [] {
      var n := |tr.spans| - 1;
      var shorter := Trace(tr.base, tr.spans[..n]);
      BlockReadOnce(shorter, tr.spans[n].0 - 1, b);
      assert forall i | 0 <= i < n :: shorter.spans[i] == tr.spans[i];
      if tr.base < b <= last {
        if b < tr.spans[n].0 {
          var i :| 0 <= i < n && Covers(shorter.spans[i], b);
          assert Covers(tr.spans[i], b);
        } else {
          assert Covers(tr.spans[n], b);
        }
      }
    }
  }

  // ----- the cursor goes back only for a reset -----

  /** The heads a run read successfully, in order. */
  function Heads(ts: seq<Tick>): seq<nat> {
    if ts == [] then []
    else Heads(ts[..|ts| - 1]) + if ts[|ts| - 1].head.Some? then [ts[|ts| - 1].head.value] else []
  }

  predicate LowSince(lastBlock: nat, start: nat, heads: seq<nat>, k: nat) {
    k <= |heads| && forall i | |heads| - k <= i < |heads| :: FarBelow(lastBlock, start, heads[i])
  }

  lemma {:induction false} StreakIsTold(s: State, start: nat, ts: seq<Tick>)
    requires s.streak == 0
    ensures LowSince(After(s, start, ts).lastBlock, start, Heads(ts), After(s, start, ts).streak)
  {
    if ts != [] {
      var before, t := ts[..|ts| - 1], ts[|ts| - 1];
      var b := After(s, start, before);
      StreakIsTold(s, start, before);
      if t.head.Some? {
        StreakStep(b, start, t, Heads(before));
      }
    }
  }

  lemma StreakStep(b: State, start: nat, t: Tick, heads: seq<nat>)
    requires t.head.Some? && LowSince(b.lastBlock, start, heads, b.streak)
    ensures LowSince(AfterPoll(b, start, t).lastBlock, start, heads + [t.head.value], AfterPoll(b, start, t).streak)
    ensures Resets(b, start, t) ==> LowSince(b.lastBlock, start, heads + [t.head.value], 3)
  {
    hide Add64;
    var hs := heads + [t.head.value];
    assert forall i | 0 <= i < |heads| :: hs[i] == heads[i];
  }

  /** Whenever a poll moves the cursor back, it moves to the start or past it, at least the last
      three heads read were all far below the cursor it had, and the genesis hash it was shown
      differs from the baseline. */
  lemma RewindNeedsProof(s: State, start: nat, ts: seq<Tick>, t: Tick)
    requires s.streak == 0
    requires After(s, start, ts + [t]).lastBlock < After(s, start, ts).lastBlock
    ensures var before := After(s, start, ts);
            && Resets(before, start, t)
            && LowSince(before.lastBlock, start, Heads(ts + [t]), 3)
            && t.confirm.Some? && WithBaseline(before, t).genesis != "" && t.confirm.value != WithBaseline(before, t).genesis
            && start <= After(s, start, ts + [t]).lastBlock
  {
    assert (ts + [t])[..|ts|] == ts;
    var before := After(s, start, ts);
    PollReads(before, start, t);
    StreakIsTold(s, start, ts);
    hide AfterPoll, LowSince, Reads, Add64;
    StreakStep(before, start, t, Heads(ts));
  }

  predicate OneChain(ts: seq<Tick>, h: Hash) {
    forall i | 0 <= i < |ts| :: ts[i].baseline in {None, Some(h)} && ts[i].confirm in {None, Some(h)}
  }

  /** On one chain, however its head is reported, the cursor never goes back. */
  lemma {:induction false} OneChainNeverRewinds(s: State, start: nat, ts: seq<Tick>, k: nat, h: Hash)
    requires s.genesis in {"", h} && OneChain(ts, h) && k <= |ts|
    ensures After(s, start, ts).genesis in {"", h}
    ensures After(s, start, ts[..k]).lastBlock <= After(s, start, ts).lastBlock
  {
    if k == |ts| {
      assert ts[..k] == ts;
    }
    if ts != [] {
      var before, t := ts[..|ts| - 1], ts[|ts| - 1];
      if k < |ts| {
        assert before[..k] == ts[..k];
        OneChainNeverRewinds(s, start, before, k, h);
      } else {
        OneChainNeverRewinds(s, start, before, 0, h);
      }
      assert ts[|ts| - 1] == t;
      PollReads(After(s, start, before), start, t);
    }
  }

  /** A chain that really was replaced is noticed: with the head far below and the new hash answered
      three times running, the third poll at the latest rewinds. */
  lemma RegenesisIsNoticed(s: State, start: nat, ts: seq<Tick>)
    requires s.genesis != "" && |ts| == 3
    requires forall i | 0 <= i < 3 :: ts[i].head.Some? && FarBelow(s.lastBlock, start, ts[i].head.value)
                                   && ts[i].head.value <= s.lastBlock
                                   && ts[i].confirm.Some? && ts[i].confirm.value != s.genesis
    ensures Resets(s, start, ts[0])
         || Resets(After(s, start, ts[..1]), start, ts[1])
         || Resets(After(s, start, ts[..2]), start, ts[2])
  {
    hide Add64;
    assert ts[..1] == [ts[0]] && ts[..1][..0] == [] && ts[..2] == [ts[0], ts[1]] && ts[..2][..1] == ts[..1];
    assert After(s, start, ts[..1][..0]) == s;
    var s1 := After(s, start, ts[..1]);
    assert s1 == AfterPoll(s, start, ts[0]);
    if !Resets(s, start, ts[0]) {
      assert s1.lastBlock == s.lastBlock && s1.streak >= 1 && s1.genesis == s.genesis;
      var s2 := After(s, start, ts[..2]);
      assert s2 == AfterPoll(s1, start, ts[1]);
    }
  }

  /** Three low heads in a row, each poll answered with the hash h. */
  predicate ThreeLow(s: State, start: nat, ts: seq<Tick>, h: Hash) {
    && |ts| == 3 && h != ""
    && forall i | 0 <= i < 3 :: && ts[i].head.Some? && FarBelow(s.lastBlock, start, ts[i].head.value)
                                && ts[i].head.value <= s.lastBlock
                                && ts[i].baseline == Some(h) && ts[i].confirm == Some(h)
  }

  /** Which replaced chains are noticed: exactly those another hash is already held for.  The baseline
      is not persisted, so a process started after the replacement has none, adopts the new chain's
      hash, and keeps the old chain's cursor. */
  lemma NoticedIff(s: State, start: nat, ts: seq<Tick>, h: Hash)
    requires ThreeLow(s, start, ts, h)
    ensures (|| Resets(s, start, ts[0])
             || Resets(After(s, start, ts[..1]), start, ts[1])
             || Resets(After(s, start, ts[..2]), start, ts[2]))
            <==> s.genesis != "" && s.genesis != h
  {
    if s.genesis != "" && s.genesis != h {
      RegenesisIsNoticed(s, start, ts);
    } else {
      assert OneChain(ts, h);
      forall n: nat | n < 3 ensures !Resets(After(s, start, ts[..n]), start, ts[n]) {
        NoResetOnOneChain(s, start, ts, n, h);
      }
      assert ts[..0] == [];
      assert After(s, start, ts[..0]) == s;
    }
  }

  lemma NoResetOnOneChain(s: State, start: nat, ts: seq<Tick>, n: nat, h: Hash)
    requires s.genesis in {"", h} && OneChain(ts, h) && n < |ts|
    ensures !Resets(After(s, start, ts[..n]), start, ts[n])
  {
    OneChainNeverRewinds(s, start, ts[..n], 0, h);
    hide After;
  }

  lemma ChainBefore(ts: seq<Tick>, h: Hash)
    requires ts != [] && OneChain(ts, h)
    ensures OneChain(ts[..|ts| - 1], h)
  {}

  /** Such a process reads nothing, however long it runs, until the new head passes the old cursor. */
  lemma {:induction false} RestartForgets(s: State, start: nat, ts: seq<Tick>, h: Hash)
    requires s.genesis in {"", h} && OneChain(ts, h)
    requires forall i | 0 <= i < |ts| && ts[i].head.Some? :: ts[i].head.value <= s.lastBlock
    ensures After(s, start, ts).lastBlock == s.lastBlock
    ensures forall n: nat | n < |ts| :: Reads(After(s, start, ts[..n]), start, ts[n]).None?
  {
    hide AfterPoll, Reads, Resets, OneChain;
    if ts != [] {
      var m := |ts| - 1;
      ChainBefore(ts, h);
      RestartForgets(s, start, ts[..m], h);
      NoResetOnOneChain(s, start, ts, m, h);
      PollReads(After(s, start, ts[..m]), start, ts[m]);
      forall n: nat | n < |ts| ensures Reads(After(s, start, ts[..n]), start, ts[n]).None? {
        if n < m {
          assert ts[..m][..n] == ts[..n] && ts[..m][n] == ts[n];
        }
      }
    }
  }
}
