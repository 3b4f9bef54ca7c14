/** The node's chain state machine (crates/node/src/rpc.rs, main.rs): accepting
    blocks, paying rewards, and rebuilding the state from the log. */
module Node {
  import opened Machine
  import opened Types
  import opened State
  import L = Ledger
  import F = Atomicity
  import E = Emission
  import A = Asert
  import C = Compact
  import Bytes

  const FUTURE_TOLERANCE_MS: int := 7_200_000
  const ZERO_HASH: Hash := seq(32, _ => 0)

  datatype Config = Config(genesisTime: u64, bits: u32, schedule: A.Schedule, emission: E.Params)

  /** The rules the node enforces, each as a function: the ledger, the reward,
      the retarget, and three hashes. */
  datatype Rules = Rules(
    ledger: L.Transition,
    reward: E.RewardRule,
    retarget: (u32, u64, u64, u64) -> Option<u32>,
    headerHash: BlockHeader -> Hash,
    txRoot: seq<TxBody> -> Hash,
    witnessRoot: seq<Witness> -> Hash)

  /** The rules of this chain: what the other modules define. */
  ghost predicate Real(o: Rules, env: L.Env, cfg: Config) {
    && (forall db: Db, block: Block, reward: u128 {:trigger L.Apply(env, db, block, reward)} ::
          o.ledger(db, L.Paid(block, reward)) == L.Apply(env, db, block, reward))
    && (forall ts: u64, parentTs: u64, minted: u128, height: u64, last: Option<u128>
          {:trigger E.Reward(cfg.emission, cfg.genesisTime, ts, parentTs, minted, height, last)} ::
          o.reward(ts, parentTs, minted, height, last) == E.Reward(cfg.emission, cfg.genesisTime, ts, parentTs, minted,
            height, last))
    && (forall bits: u32, height: u64, parentTs: u64, ts: u64
          {:trigger A.NextBits(bits, height, parentTs, ts, cfg.schedule)} ::
          o.retarget(bits, height, parentTs, ts) == A.NextBits(bits, height, parentTs, ts, cfg.schedule))
  }

  /** The rules of the other modules, under any hashes. */
  function RulesOf(env: L.Env, cfg: Config, headerHash: BlockHeader -> Hash, txRoot: seq<TxBody> -> Hash,
                   witnessRoot: seq<Witness> -> Hash): (o: Rules)
    ensures Real(o, env, cfg)
  {
    Rules(L.LedgerOf(env), E.RuleOf(cfg.emission, cfg.genesisTime), A.RetargetOf(cfg.schedule), headerHash, txRoot,
      witnessRoot)
  }

  /** The ledger and the emission counters kept beside it. */
  datatype Books = Books(db: Db, totals: E.Totals)

  datatype Live = Live(books: Books, log: seq<Block>)

  datatype Reject =
    | PreGenesis | StaleParent | WrongHeight | RetargetPanic | WrongBits | TimeReversed | FutureTime
    | HashTooHigh | TxRootMismatch | WitnessRootMismatch | Invalid(error: L.ApplyError)

  function Tip(log: seq<Block>): Option<BlockHeader> { if log == [] then None else Some(log[|log| - 1].header) }

  function ExpectedParent(o: Rules, tip: Option<BlockHeader>): Hash {
    if tip.None? then ZERO_HASH else o.headerHash(tip.value)
  }

  function ExpectedHeight(tip: Option<BlockHeader>): u64 {
    if tip.None? then 0 else (tip.value.height + 1) % (U64_MAX + 1)
  }

  function TimeOf(tip: Option<BlockHeader>): u64 { if tip.None? then 0 else tip.value.timestamp }

  function ExpectedBits(o: Rules, cfg: Config, tip: Option<BlockHeader>, ts: u64): Option<u32> {
    match tip
    case None => o.retarget(cfg.bits, 0, 0, ts)
    case Some(p) => o.retarget(p.bits, p.height, p.timestamp, ts)
  }

  predicate MeetsWork(o: Rules, h: BlockHeader) { Bytes.Value(o.headerHash(h)) <= C.Decode(h.bits) }

  /** Everything `try_apply_block` checks before it touches the state. */
  function CheckHeader(o: Rules, cfg: Config, tip: Option<BlockHeader>, block: Block, now: u64): Option<Reject> {
    var h := block.header;
    if now < cfg.genesisTime then Some(PreGenesis)
    else if h.parent != ExpectedParent(o, tip) then Some(StaleParent)
    else if h.height != ExpectedHeight(tip) then Some(WrongHeight)
    else match ExpectedBits(o, cfg, tip, h.timestamp)
      case None => Some(RetargetPanic)
      case Some(bits) =>
        if h.bits != bits then Some(WrongBits)
        else if h.timestamp < TimeOf(tip) then Some(TimeReversed)
        else if h.timestamp > now + FUTURE_TOLERANCE_MS then Some(FutureTime)
        else if !MeetsWork(o, h) then Some(HashTooHigh)
        else if h.txRoot != o.txRoot(block.txs) then Some(TxRootMismatch)
        else if h.witnessRoot != o.witnessRoot(block.witnesses) then Some(WitnessRootMismatch)
        else None
  }

  /** The parent time the reward is computed from. */
  function RewardParentTime(cfg: Config, tip: Option<BlockHeader>): u64 {
    if tip.None? then cfg.genesisTime else tip.value.timestamp
  }

  /** What a block is paid on top of its parent's books. */
  function RewardFor(o: Rules, b: Books, h: BlockHeader, parentTime: u64): u128 {
    o.reward(h.timestamp, parentTime, b.totals.minted, h.height, b.totals.previous)
  }

  /** Reward, apply, and only then count: shared by live acceptance and replay.
      A failing block leaves the ledger's partial writes behind and nothing else. */
  function Extend(o: Rules, b: Books, block: Block, parentTime: u64): (Books, Option<L.ApplyError>) {
    var reward := RewardFor(o, b, block.header, parentTime);
    var r := o.ledger(b.db, L.Paid(block, reward));
    match r.outcome
    case Err(e) => (Books(r.db, b.totals), Some(e))
    case Ok(_) => (Books(r.db, E.Counted(b.totals, reward)), None)
  }

  /** `try_apply_block` as one atomic step. */
  function Try(o: Rules, cfg: Config, live: Live, block: Block, now: u64): (Live, Option<Reject>) {
    var bad := CheckHeader(o, cfg, Tip(live.log), block, now);
    if bad.Some? then (live, bad)
    else
      var (books, error) := Extend(o, live.books, block, RewardParentTime(cfg, Tip(live.log)));
      if error.Some? then (Live(books, live.log), Some(Invalid(error.value)))
      else (Live(books, live.log + [block]), None)
  }

  // ---- Replay ----

  /** The parent time the replay looks up by height in the whole log. */
  function ReplayParentTime(cfg: Config, blocks: seq<Block>, height: u64): u64 {
    if height == 0 || height - 1 >= |blocks| then cfg.genesisTime else blocks[height - 1].header.timestamp
  }

  function ReplayTo(o: Rules, cfg: Config, start: Db, blocks: seq<Block>, n: nat): Result<Books, L.ApplyError>
    requires n <= |blocks|
  {
    if n == 0 then Ok(Books(start, E.Totals(0, None)))
    else match ReplayTo(o, cfg, start, blocks, n - 1)
      case Err(e) => Err(e)
      case Ok(b) =>
        var (books, error) := Extend(o, b, blocks[n - 1], ReplayParentTime(cfg, blocks, blocks[n - 1].header.height));
        if error.Some? then Err(error.value) else Ok(books)
  }

  function Replay(o: Rules, cfg: Config, start: Db, blocks: seq<Block>): Result<Books, L.ApplyError> {
    ReplayTo(o, cfg, start, blocks, |blocks|)
  }

  /** A log as the node keeps it: contiguous heights, linked parents, ordered
      times, the demanded bits, enough work, committed bodies. */
  ghost predicate WellFormed(o: Rules, cfg: Config, log: seq<Block>) {
    forall i :: 0 <= i < |log| ==> log[i].header.height == i && (i > 0 ==> Follows(o, cfg, log[i - 1].header, log[i]))
  }

  ghost predicate Follows(o: Rules, cfg: Config, p: BlockHeader, b: Block) {
    var h := b.header;
    && h.parent == o.headerHash(p) && p.timestamp <= h.timestamp
    && o.retarget(p.bits, p.height, p.timestamp, h.timestamp) == Some(h.bits)
    && MeetsWork(o, h) && h.txRoot == o.txRoot(b.txs) && h.witnessRoot == o.witnessRoot(b.witnesses)
  }

  /** Replaying a prefix does not look past it. */
  lemma {:induction false} ReplayIsLocal(o: Rules, cfg: Config, start: Db, log: seq<Block>, more: seq<Block>, n: nat)
    requires n <= |log| && forall i :: 0 <= i < |log| ==> log[i].header.height == i
    ensures ReplayTo(o, cfg, start, log + more, n) == ReplayTo(o, cfg, start, log, n)
  {
    if n > 0 {
      ReplayIsLocal(o, cfg, start, log, more, n - 1);
      assert (log + more)[n - 1] == log[n - 1];
      assert ReplayParentTime(cfg, log + more, n - 1) == ReplayParentTime(cfg, log, n - 1);
    }
  }

  ghost predicate Agrees(o: Rules, cfg: Config, start: Db, live: Live) {
    Replay(o, cfg, start, live.log) == Ok(live.books)
  }

  /** One attempt keeps the log well-formed, and an accepted block keeps the live
      state equal to the replay; a rejected one changes at most the store. */
  lemma TryKeepsAgreement(o: Rules, cfg: Config, start: Db, live: Live, block: Block, now: u64)
    requires WellFormed(o, cfg, live.log) && Agrees(o, cfg, start, live) && |live.log| <= U64_MAX
    ensures var (after, reject) := Try(o, cfg, live, block, now);
            && WellFormed(o, cfg, after.log)
            && (reject.None? ==> after.log == live.log + [block] && Agrees(o, cfg, start, after))
            && (reject.Some? ==> after.log == live.log && after.books.totals == live.books.totals)
            && (reject.Some? ==> (Agrees(o, cfg, start, after) <==> after.books.db == live.books.db))
  {
    if CheckHeader(o, cfg, Tip(live.log), block, now).None? {
      AcceptedHeight(o, cfg, live.log, block, now);
      AppendKeepsForm(o, cfg, live.log, block, now);
      ReplayExtends(o, cfg, start, live, block);
    }
  }

  lemma AcceptedHeight(o: Rules, cfg: Config, log: seq<Block>, block: Block, now: u64)
    requires WellFormed(o, cfg, log) && |log| <= U64_MAX && CheckHeader(o, cfg, Tip(log), block, now).None?
    ensures block.header.height == |log|
  {
    if |log| > 0 { assert log[|log| - 1].header.height == |log| - 1; }
  }

  /** A block the ledger accepts extends the replay by the same step. */
  lemma ReplayExtends(o: Rules, cfg: Config, start: Db, live: Live, block: Block)
    requires WellFormed(o, cfg, live.log) && Agrees(o, cfg, start, live) && block.header.height == |live.log|
    ensures var (books, error) := Extend(o, live.books, block, RewardParentTime(cfg, Tip(live.log)));
            error.None? ==> Replay(o, cfg, start, live.log + [block]) == Ok(books)
  {
    var n := |live.log|;
    if n > 0 { assert live.log[n - 1].header.height == n - 1; }
    ReplayIsLocal(o, cfg, start, live.log, [block], n);
    var all := live.log + [block];
    assert all[n] == block;
    assert ReplayParentTime(cfg, all, n) == RewardParentTime(cfg, Tip(live.log));
    assert ReplayTo(o, cfg, start, all, n) == Ok(live.books);
  }

  lemma AppendKeepsForm(o: Rules, cfg: Config, log: seq<Block>, block: Block, now: u64)
    requires WellFormed(o, cfg, log) && |log| <= U64_MAX && CheckHeader(o, cfg, Tip(log), block, now).None?
    ensures WellFormed(o, cfg, log + [block])
  {
    var all, n := log + [block], |log|;
    AcceptedHeight(o, cfg, log, block, now);
    if n > 0 { assert Follows(o, cfg, log[n - 1].header, block); }
    forall i | 0 <= i < |all| ensures all[i].header.height == i && (i > 0 ==>
      Follows(o, cfg, all[i - 1].header, all[i])) {
      if i < n { assert all[i] == log[i]; }
    }
  }

  // ---- The emission chart's fold ----

  /** `emission_series`: the same rewards, folded from the second block on. */
  function SeriesTo(o: Rules, blocks: seq<Block>, n: nat): E.Totals
    requires 1 <= n <= |blocks|
  {
    if n == 1 then E.Totals(0, None)
    else
      var t, h := SeriesTo(o, blocks, n - 1), blocks[n - 1].header;
      E.Counted(t, o.reward(h.timestamp, blocks[n - 2].header.timestamp, t.minted, h.height, t.previous))
  }

  /** The running totals by height, the first block's always zero. */
  function CumulativeTo(o: Rules, blocks: seq<Block>, n: nat): map<u64, u128>
    requires 1 <= n <= |blocks|
  {
    if n == 1 then map[0 := 0]
    else CumulativeTo(o, blocks, n - 1)[blocks[n - 1].header.height := SeriesTo(o, blocks, n).minted]
  }

  datatype Sample = Sample(height: u64, timestamp: u64, minted: u128)

  function SampleOf(totals: map<u64, u128>, b: Block): Sample {
    Sample(b.header.height, b.header.timestamp, if b.header.height in totals then totals[b.header.height] else 0)
  }

  function Cutoff(tipTime: u64, windowSeconds: u64): u64 { SatSub(tipTime, Min(U64_MAX, windowSeconds * 1000)) }

  function InWindow(blocks: seq<Block>, cutoff: u64): seq<Block> {
    if blocks == [] then []
    else InWindow(blocks[..|blocks| - 1], cutoff) + if blocks[|blocks| - 1].header.timestamp >= cutoff
      then [blocks[|blocks| - 1]] else []
  }

  lemma TipInWindow(blocks: seq<Block>, cutoff: u64)
    requires blocks != [] && cutoff <= blocks[|blocks| - 1].header.timestamp
    ensures InWindow(blocks, cutoff) != [] && InWindow(blocks, cutoff)[|InWindow(blocks, cutoff)| - 1]
            == blocks[|blocks| - 1]
  {}

  /** One sample in how many, for between 2 and 500 of them. */
  function Stride(size: nat, points: nat): (n: nat)
    ensures n >= 1
  {
    Max(size / Max(2, Min(points, 500)), 1)
  }

  function EveryNth(totals: map<u64, u128>, blocks: seq<Block>, stride: nat, n: nat): seq<Sample>
    requires n <= |blocks| && stride >= 1
  {
    if n == 0 then []
    else EveryNth(totals, blocks, stride, n - 1) + if (n - 1) % stride == 0 then [SampleOf(totals, blocks[n - 1])]
      else []
  }

  /** The chart `emission_series` draws. */
  function Chart(o: Rules, blocks: seq<Block>, points: nat, windowSeconds: u64): seq<Sample> {
    if blocks == [] then []
    else
      var cutoff := Cutoff(blocks[|blocks| - 1].header.timestamp, windowSeconds);
      TipInWindow(blocks, cutoff);
      var inWindow := InWindow(blocks, cutoff);
      var totals, last := CumulativeTo(o, blocks, |blocks|), inWindow[|inWindow| - 1];
      var samples := EveryNth(totals, inWindow, Stride(|inWindow|, points), |inWindow|);
      WithLast(samples, SampleOf(totals, last))
  }

  function WithLast(samples: seq<Sample>, last: Sample): (r: seq<Sample>)
    ensures r != [] && r[|r| - 1].height == last.height && forall s :: s in r ==> s in samples || s == last
  {
    if samples == [] || samples[|samples| - 1].height != last.height then samples + [last] else samples
  }

  /** A sample that tells the truth about a block of the log. */
  ghost predicate TrueSample(o: Rules, log: seq<Block>, s: Sample) {
    exists k :: 0 <= k < |log| && log[k].header.height == s.height == k
                && s == Sample(log[k].header.height, log[k].header.timestamp, SeriesTo(o, log, k + 1).minted)
  }

  lemma {:induction false} CumulativeAt(o: Rules, log: seq<Block>, n: nat, k: nat)
    requires 1 <= n <= |log| && k < n && |log| <= U64_MAX && forall i :: 0 <= i < |log| ==> log[i].header.height == i
    ensures k in CumulativeTo(o, log, n) && CumulativeTo(o, log, n)[k] == SeriesTo(o, log, k + 1).minted
  {
    if n > 1 && k < n - 1 { CumulativeAt(o, log, n - 1, k); }
  }

  lemma {:induction false} WindowIsFromLog(blocks: seq<Block>, cutoff: u64)
    ensures forall b :: b in InWindow(blocks, cutoff) ==> b in blocks
  {
    if blocks != [] {
      WindowIsFromLog(blocks[..|blocks| - 1], cutoff);
      assert blocks == blocks[..|blocks| - 1] + [blocks[|blocks| - 1]];
    }
  }

  lemma {:induction false} SamplesAreTrue(o: Rules, log: seq<Block>, totals: map<u64, u128>, blocks: seq<Block>,
                                          stride: nat, n: nat)
    requires n <= |blocks| && stride >= 1 && forall b :: b in blocks ==> TrueSample(o, log, SampleOf(totals, b))
    ensures forall s :: s in EveryNth(totals, blocks, stride, n) ==> TrueSample(o, log, s)
  {
    if n > 0 {
      SamplesAreTrue(o, log, totals, blocks, stride, n - 1);
      assert blocks[n - 1] in blocks;
    }
  }

  /** On a log with contiguous heights every sample shows a block of it with the
      total minted up to that block, and the last one shows the tip. */
  lemma ChartShowsTheLog(o: Rules, log: seq<Block>, points: nat, windowSeconds: u64)
    requires log != [] && |log| <= U64_MAX && forall i :: 0 <= i < |log| ==> log[i].header.height == i
    ensures var chart, tip := Chart(o, log, points, windowSeconds), log[|log| - 1].header;
            && chart != [] && (forall s :: s in chart ==> TrueSample(o, log, s))
            && chart[|chart| - 1] == Sample(tip.height, tip.timestamp, SeriesTo(o, log, |log|).minted)
  {
    var cutoff, totals := Cutoff(log[|log| - 1].header.timestamp, windowSeconds), CumulativeTo(o, log, |log|);
    TipInWindow(log, cutoff);
    WindowIsFromLog(log, cutoff);
    forall b | b in log ensures TrueSample(o, log, SampleOf(totals, b)) {
      var k :| 0 <= k < |log| && log[k] == b;
      CumulativeAt(o, log, |log|, k);
    }
    var inWindow := InWindow(log, cutoff);
    SamplesAreTrue(o, log, totals, inWindow, Stride(|inWindow|, points), |inWindow|);
    var chart, tip := Chart(o, log, points, windowSeconds), SampleOf(totals, log[|log| - 1]);
    assert log[|log| - 1] in log && chart[|chart| - 1] in chart;
    TrueSamplesAgree(o, log, chart[|chart| - 1], tip);
    CumulativeAt(o, log, |log|, |log| - 1);
  }

  lemma TrueSamplesAgree(o: Rules, log: seq<Block>, s: Sample, t: Sample)
    requires TrueSample(o, log, s) && TrueSample(o, log, t) && s.height == t.height
    ensures s == t
  {}

  lemma RewardDependsOnLast(p: E.Params, genesis: u64, ts: u64, parentTs: u64, height: u64, s: E.Totals, t: E.Totals)
    requires s.minted == t.minted && E.Last(s) == E.Last(t)
    ensures E.Reward(p, genesis, ts, parentTs, s.minted, height, s.previous)
            == E.Reward(p, genesis, ts, parentTs, t.minted, height, t.previous)
  {}

  /** The same total and the same last reward, if only as zero and absent. */
  predicate SameTotals(s: E.Totals, t: E.Totals) { s.minted == t.minted && E.Last(s) == E.Last(t) }

  lemma {:induction false} SeriesFollowsReplay(o: Rules, cfg: Config, start: Db, log: seq<Block>, n: nat)
    requires WellFormed(o, cfg, log) && 1 <= n <= |log| && ReplayTo(o, cfg, start, log, n).Ok?
    requires o.reward(log[0].header.timestamp, cfg.genesisTime, 0, 0, None) == 0
    requires forall ts, parentTs, height, s, t :: SameTotals(s, t) ==>
               o.reward(ts, parentTs, s.minted, height, s.previous)
                 == o.reward(ts, parentTs, t.minted, height, t.previous)
    ensures SameTotals(SeriesTo(o, log, n), ReplayTo(o, cfg, start, log, n).value.totals)
  {
    assert log[n - 1].header.height == n - 1;
    assert ReplayTo(o, cfg, start, log, 0) == Ok(Books(start, E.Totals(0, None)));
    if n > 1 {
      SeriesFollowsReplay(o, cfg, start, log, n - 1);
      var h, s, t := log[n - 1].header, SeriesTo(o, log, n - 1), ReplayTo(o, cfg, start, log, n - 1).value.totals;
      assert o.reward(h.timestamp, log[n - 2].header.timestamp, s.minted, h.height, s.previous)
          == o.reward(h.timestamp, log[n - 2].header.timestamp, t.minted, h.height, t.previous);
    }
  }

  /** The chart reaches the minted total the ledger was replayed with, provided
      the first block earned nothing; a genesis block stamped no later than the
      genesis time, as the node mines it, never does. On a one-block log the
      proviso is also necessary. */
  lemma SeriesAgreesWithReplay(o: Rules, env: L.Env, cfg: Config, start: Db, log: seq<Block>)
    requires Real(o, env, cfg) && WellFormed(o, cfg, log) && log != [] && Replay(o, cfg, start, log).Ok?
    ensures var first := E.Reward(cfg.emission, cfg.genesisTime, log[0].header.timestamp, cfg.genesisTime, 0, 0, None);
            var s, t := SeriesTo(o, log, |log|), Replay(o, cfg, start, log).value.totals;
            && (log[0].header.timestamp <= cfg.genesisTime ==> first == 0)
            && (first == 0 ==> s.minted == t.minted)
            && (|log| == 1 ==> (s.minted == t.minted <==> first == 0))
  {
    var ts := log[0].header.timestamp;
    assert log[0].header.height == 0;
    assert o.reward(ts, cfg.genesisTime, 0, 0, None) == E.Reward(cfg.emission, cfg.genesisTime, ts, cfg.genesisTime, 0,
      0, None);
    if o.reward(ts, cfg.genesisTime, 0, 0, None) == 0 {
      forall ts, parentTs, height, s, t | SameTotals(s, t)
        ensures o.reward(ts, parentTs, s.minted, height, s.previous)
                == o.reward(ts, parentTs, t.minted, height, t.previous)
      {
        RewardDependsOnLast(cfg.emission, cfg.genesisTime, ts, parentTs, height, s, t);
      }
      SeriesFollowsReplay(o, cfg, start, log, |log|);
    }
    if |log| == 1 { FirstTotal(o, cfg, start, log); }
  }

  lemma FirstTotal(o: Rules, cfg: Config, start: Db, log: seq<Block>)
    requires |log| == 1 && log[0].header.height == 0 && Replay(o, cfg, start, log).Ok?
    ensures Replay(o, cfg, start, log).value.totals.minted == o.reward(log[0].header.timestamp, cfg.genesisTime, 0, 0,
            None)
  {
    assert ReplayTo(o, cfg, start, log, 0) == Ok(Books(start, E.Totals(0, None)));
  }

  // ---- Runs of attempts ----

  datatype Attempt = Attempt(block: Block, now: u64)

  function RunOf(o: Rules, cfg: Config, live: Live, attempts: seq<Attempt>): Live {
    if attempts == [] then live
    else
      var last := attempts[|attempts| - 1];
      Try(o, cfg, RunOf(o, cfg, live, attempts[..|attempts| - 1]), last.block, last.now).0
  }

  /** An attempt that gets past the header checks and then fails late. */
  predicate FailsLateAt(o: Rules, env: L.Env, cfg: Config, live: Live, block: Block, now: u64) {
    CheckHeader(o, cfg, Tip(live.log), block, now).None? && F.FailsLate(env, live.books.db, block)
  }

  /** No attempt of the run fails late. */
  predicate Clean(o: Rules, env: L.Env, cfg: Config, live: Live, attempts: seq<Attempt>) {
    attempts == [] ||
    (var front, last := attempts[..|attempts| - 1], attempts[|attempts| - 1];
     Clean(o, env, cfg, live, front) && !FailsLateAt(o, env, cfg, RunOf(o, cfg, live, front), last.block, last.now))
  }

  /** A rejected attempt never lengthens the log; an accepted one is within the
      tolerance of its clock and not before launch. */
  lemma AttemptKeepsToClock(o: Rules, cfg: Config, live: Live, block: Block, now: u64)
    ensures var (after, reject) := Try(o, cfg, live, block, now);
            && (after.log == live.log || (after.log == live.log + [block]
               && block.header.timestamp <= now + FUTURE_TOLERANCE_MS))
            && (now < cfg.genesisTime ==> after == live)
  {}

  /** Over any run, no block of the log outruns the latest clock by more than
      the tolerance, and before launch nothing changes at all. */
  lemma {:induction false} RunKeepsToClock(o: Rules, cfg: Config, live: Live, attempts: seq<Attempt>, clock: u64)
    requires forall b :: b in live.log ==> b.header.timestamp <= clock + FUTURE_TOLERANCE_MS
    requires forall a :: a in attempts ==> a.now <= clock
    ensures forall b :: b in RunOf(o, cfg, live, attempts).log ==> b.header.timestamp <= clock + FUTURE_TOLERANCE_MS
    ensures (forall a :: a in attempts ==> a.now < cfg.genesisTime) ==> RunOf(o, cfg, live, attempts) == live
  {
    if attempts != [] {
      var front, last := attempts[..|attempts| - 1], attempts[|attempts| - 1];
      assert last in attempts && forall a :: a in front ==> a in attempts;
      RunKeepsToClock(o, cfg, live, front, clock);
      AttemptKeepsToClock(o, cfg, RunOf(o, cfg, live, front), last.block, last.now);
    }
  }

  // ---- Difficulty on the node's chain ----

  function HeadsOf(log: seq<Block>): (h: seq<A.Head>)
    ensures |h| == |log| && forall i ::
            0 <= i < |h| ==> h[i] == A.Head(log[i].header.height, log[i].header.timestamp, log[i].header.bits)
  {
    seq(|log|, i requires 0 <= i < |log| => A.Head(log[i].header.height, log[i].header.timestamp, log[i].header.bits))
  }

  lemma BitsStayInRange(o: Rules, env: L.Env, cfg: Config, log: seq<Block>)
    requires Real(o, env, cfg) && WellFormed(o, cfg, log) && log != [] && A.InRange(log[0].header.bits)
    ensures forall i :: 0 <= i < |log| ==> A.InRange(log[i].header.bits)
  {
    var heads := HeadsOf(log);
    forall i | 0 < i < |heads|
      ensures A.NextBits(heads[i - 1].bits, heads[i - 1].height, heads[i - 1].timestamp, heads[i].timestamp,
              cfg.schedule) == Some(heads[i].bits)
    {
      assert Follows(o, cfg, log[i - 1].header, log[i]);
    }
    A.ChainStaysInRange(heads, cfg.schedule);
    forall i | 0 <= i < |log| ensures A.InRange(log[i].header.bits) { assert A.InRange(heads[i].bits); }
  }

  /** On a log whose first bits are in range, every block's are, and no further
      block can make the retarget panic. */
  lemma RetargetNeverPanics(o: Rules, env: L.Env, cfg: Config, live: Live, block: Block, now: u64)
    requires Real(o, env, cfg) && WellFormed(o, cfg, live.log) && live.log != [] && A.InRange(live.log[0].header.bits)
    ensures forall i :: 0 <= i < |live.log| ==> A.InRange(live.log[i].header.bits)
    ensures Try(o, cfg, live, block, now).1 != Some(RetargetPanic)
  {
    BitsStayInRange(o, env, cfg, live.log);
    var tip := live.log[|live.log| - 1].header;
    A.NextBitsInRange(tip.bits, tip.height, tip.timestamp, block.header.timestamp, cfg.schedule);
    PanicIsRetarget(o, cfg, live, block, now);
  }

  lemma PanicIsRetarget(o: Rules, cfg: Config, live: Live, block: Block, now: u64)
    requires ExpectedBits(o, cfg, Tip(live.log), block.header.timestamp).Some?
    ensures Try(o, cfg, live, block, now).1 != Some(RetargetPanic)
  {}
}
