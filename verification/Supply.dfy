/** The ledger's total against the emission counters, over whole runs of
    accepted and rejected blocks. */
module Supply {
  import opened Machine
  import opened Types
  import opened State
  import opened Node
  import L = Ledger
  import F = Atomicity
  import E = Emission
  import V = Conservation

  /** No more in the accounts than was minted, and no more minted than the
      emission potential allows. */
  ghost predicate Backed(cfg: Config, live: Live) {
    && Total(live.books.db) <= live.books.totals.minted
    && E.Bounded(cfg.emission, cfg.genesisTime, TimeOf(Tip(live.log)), live.books.totals)
  }

  /** One extension: an accepted block adds its reward to the ledger and to the
      minted counter alike, a rejected one never adds to either; and neither
      ever runs out of 128 bits. */
  lemma ExtendKeepsBacking(o: Rules, env: L.Env, cfg: Config, b: Books, block: Block, parentTime: u64, before: u64)
    requires Real(o, env, cfg) && E.Affordable(cfg.emission) && |block.txs| <= U64_MAX
    requires Total(b.db) <= b.totals.minted && E.Bounded(cfg.emission, cfg.genesisTime, before, b.totals)
    requires before <= block.header.timestamp
    ensures var (after, error) := Extend(o, b, block, parentTime);
            var reward := RewardFor(o, b, block.header, parentTime);
            if error.Some? then
              after.totals == b.totals && Total(after.db) <= Total(b.db) && error != Some(L.CoinbaseOverflow)
            else
              && after.totals.minted == b.totals.minted + reward
              && Total(after.db) == Total(b.db) + reward
              && E.Bounded(cfg.emission, cfg.genesisTime, block.header.timestamp, after.totals)
  {
    var reward := RewardFor(o, b, block.header, parentTime);
    var stamp := E.Stamp(block.header.height, block.header.timestamp);
    E.MintingNeverSaturates(cfg.emission, cfg.genesisTime, before, stamp, parentTime, b.totals);
    E.PayKeepsBound(cfg.emission, cfg.genesisTime, before, stamp, parentTime, b.totals);
    V.BlockConservesSupply(env, b.db, block, reward);
    V.CoinbaseNeverOverflows(env, b.db, block, reward);
    assert o.ledger(b.db, L.Paid(block, reward)) == L.Apply(env, b.db, block, reward);
  }

  /** Every attempt keeps the ledger backed, even one that is rejected after
      partial writes; equality survives every accepted block. */
  lemma AttemptKeepsBacking(o: Rules, env: L.Env, cfg: Config, live: Live, block: Block, now: u64)
    requires Real(o, env, cfg) && E.Affordable(cfg.emission) && |block.txs| <= U64_MAX && Backed(cfg, live)
    ensures var (after, reject) := Try(o, cfg, live, block, now);
            && Backed(cfg, after)
            && reject != Some(Invalid(L.CoinbaseOverflow))
            && (reject.None? && Total(live.books.db) == live.books.totals.minted ==>
               Total(after.books.db) == after.books.totals.minted)
  {
    if CheckHeader(o, cfg, Tip(live.log), block, now).None? {
      AcceptedTime(o, cfg, live.log, block, now);
      ExtendKeepsBacking(o, env, cfg, live.books, block, RewardParentTime(cfg, Tip(live.log)), TimeOf(Tip(live.log)));
      assert TimeOf(Tip(live.log + [block])) == block.header.timestamp;
    }
  }

  lemma AcceptedTime(o: Rules, cfg: Config, log: seq<Block>, block: Block, now: u64)
    requires CheckHeader(o, cfg, Tip(log), block, now).None?
    ensures TimeOf(Tip(log)) <= block.header.timestamp
  {}

  /** Past the header checks, an attempt on a backed state that does not fail
      late is accepted or changes nothing at all. */
  lemma OtherAttemptsAreAtomic(o: Rules, env: L.Env, cfg: Config, live: Live, block: Block, now: u64)
    requires Real(o, env, cfg) && E.Affordable(cfg.emission) && Backed(cfg, live)
    requires !FailsLateAt(o, env, cfg, live, block, now)
    ensures Try(o, cfg, live, block, now).1.Some? ==> Try(o, cfg, live, block, now).0 == live
  {
    if CheckHeader(o, cfg, Tip(live.log), block, now).None? {
      RewardFits(o, env, cfg, live, block, now);
      var reward := RewardFor(o, live.books, block.header, RewardParentTime(cfg, Tip(live.log)));
      F.OtherBlocksAreAtomic(env, live.books.db, block, reward);
      assert o.ledger(live.books.db, L.Paid(block, reward)) == L.Apply(env, live.books.db, block, reward);
    }
  }

  /** On a backed state all balances and the next reward fit 128 bits. */
  lemma RewardFits(o: Rules, env: L.Env, cfg: Config, live: Live, block: Block, now: u64)
    requires Real(o, env, cfg) && E.Affordable(cfg.emission) && Backed(cfg, live)
    requires CheckHeader(o, cfg, Tip(live.log), block, now).None?
    ensures Total(live.books.db) + RewardFor(o, live.books, block.header, RewardParentTime(cfg, Tip(live.log)))
            <= U128_MAX
  {
    AcceptedTime(o, cfg, live.log, block, now);
    E.MintingNeverSaturates(cfg.emission, cfg.genesisTime, TimeOf(Tip(live.log)),
      E.Stamp(block.header.height, block.header.timestamp),
                            RewardParentTime(cfg, Tip(live.log)), live.books.totals);
  }

  /** Over any run of attempts from a backed state the ledger stays backed, no
      coinbase overflows, and while no attempt fails late, what the accounts
      hold is exactly what was minted. */
  lemma {:induction false} SupplyIsBacked(o: Rules, env: L.Env, cfg: Config, live: Live, attempts: seq<Attempt>)
    requires Real(o, env, cfg) && E.Affordable(cfg.emission) && Backed(cfg, live)
    requires forall a :: a in attempts ==> |a.block.txs| <= U64_MAX
    ensures Backed(cfg, RunOf(o, cfg, live, attempts))
    ensures Clean(o, env, cfg, live, attempts) && Total(live.books.db) == live.books.totals.minted ==>
              Total(RunOf(o, cfg, live, attempts).books.db) == RunOf(o, cfg, live, attempts).books.totals.minted
  {
    if attempts != [] {
      var front, last := attempts[..|attempts| - 1], attempts[|attempts| - 1];
      assert last in attempts;
      SupplyIsBacked(o, env, cfg, live, front);
      var before := RunOf(o, cfg, live, front);
      AttemptKeepsBacking(o, env, cfg, before, last.block, last.now);
      if !FailsLateAt(o, env, cfg, before, last.block, last.now) {
        OtherAttemptsAreAtomic(o, env, cfg, before, last.block, last.now);
      }
    }
  }

  function TimeBefore(log: seq<Block>, n: nat): u64
    requires n <= |log|
  {
    if n == 0 then 0 else log[n - 1].header.timestamp
  }

  lemma LogIsTimeOrdered(o: Rules, cfg: Config, log: seq<Block>, n: nat)
    requires WellFormed(o, cfg, log) && 0 < n <= |log|
    ensures TimeBefore(log, n - 1) <= TimeBefore(log, n)
  {
    if n > 1 { assert Follows(o, cfg, log[n - 2].header, log[n - 1]); }
  }

  lemma ReplayStep(o: Rules, cfg: Config, start: Db, log: seq<Block>, n: nat) returns (before: Books, after: Books)
    requires 0 < n <= |log| && ReplayTo(o, cfg, start, log, n).Ok?
    ensures ReplayTo(o, cfg, start, log, n - 1) == Ok(before) && ReplayTo(o, cfg, start, log, n) == Ok(after)
    ensures Extend(o, before, log[n - 1], ReplayParentTime(cfg, log, log[n - 1].header.height)) == (after, None)
  {
    before, after := ReplayTo(o, cfg, start, log, n - 1).value, ReplayTo(o, cfg, start, log, n).value;
  }

  ghost predicate ExactlyBacked(cfg: Config, b: Books, time: u64) {
    Total(b.db) == b.totals.minted && E.Bounded(cfg.emission, cfg.genesisTime, time, b.totals)
  }

  lemma ExtendKeepsExact(o: Rules, env: L.Env, cfg: Config, b: Books, block: Block, parentTime: u64, before: u64,
                         after: Books)
    requires Real(o, env, cfg) && E.Affordable(cfg.emission) && |block.txs| <= U64_MAX
    requires ExactlyBacked(cfg, b, before) && before <= block.header.timestamp
    requires Extend(o, b, block, parentTime) == (after, None)
    ensures ExactlyBacked(cfg, after, block.header.timestamp)
  {
    ExtendKeepsBacking(o, env, cfg, b, block, parentTime, before);
  }

  lemma StartIsBacked(cfg: Config, start: Db)
    requires Total(start) == 0
    ensures ExactlyBacked(cfg, Books(start, E.Totals(0, None)), 0)
  {}

  lemma NextIsBacked(o: Rules, env: L.Env, cfg: Config, log: seq<Block>, n: nat, before: Books, after: Books)
    requires Real(o, env, cfg) && E.Affordable(cfg.emission) && 0 < n <= |log|
    requires forall b :: b in log ==> |b.txs| <= U64_MAX
    requires TimeBefore(log, n - 1) <= TimeBefore(log, n) && ExactlyBacked(cfg, before, TimeBefore(log, n - 1))
    requires Extend(o, before, log[n - 1], ReplayParentTime(cfg, log, log[n - 1].header.height)) == (after, None)
    ensures ExactlyBacked(cfg, after, TimeBefore(log, n))
  {
    assert log[n - 1] in log;
    ExtendKeepsExact(o, env, cfg, before, log[n - 1], ReplayParentTime(cfg, log, log[n - 1].header.height),
      TimeBefore(log, n - 1), after);
  }

  /** A replayed log is backed exactly: everything minted is in an account. */
  lemma {:induction false} ReplayIsBacked(o: Rules, env: L.Env, cfg: Config, start: Db, log: seq<Block>, n: nat)
    requires Real(o, env, cfg) && E.Affordable(cfg.emission) && Total(start) == 0
    requires WellFormed(o, cfg, log) && n <= |log| && ReplayTo(o, cfg, start, log, n).Ok?
    requires forall b :: b in log ==> |b.txs| <= U64_MAX
    ensures ExactlyBacked(cfg, ReplayTo(o, cfg, start, log, n).value, TimeBefore(log, n))
  {
    if n == 0 {
      StartIsBacked(cfg, start);
    } else {
      var before, after := ReplayStep(o, cfg, start, log, n);
      ReplayIsBacked(o, env, cfg, start, log, n - 1);
      LogIsTimeOrdered(o, cfg, log, n);
      NextIsBacked(o, env, cfg, log, n, before, after);
    }
  }

  /** A node restarted from its log is backed. */
  lemma AgreeingIsBacked(o: Rules, env: L.Env, cfg: Config, start: Db, live: Live)
    requires Real(o, env, cfg) && E.Affordable(cfg.emission) && Total(start) == 0
    requires WellFormed(o, cfg, live.log) && Agrees(o, cfg, start, live) && forall b ::
             b in live.log ==> |b.txs| <= U64_MAX
    ensures Backed(cfg, live)
  {
    ReplayIsBacked(o, env, cfg, start, live.log, |live.log|);
  }

  /** The whole supply of a running chain, in one bound. A node restarted from
      its log, with any 64-bit initial reward and the node's fixed cap, may then
      be given any blocks at all: the balances together stay within what was
      minted, and with the default 25% slew limit within three initial rewards
      of the calendar and the cap. */
  lemma SupplyCap(o: Rules, env: L.Env, cfg: Config, start: Db, live: Live, attempts: seq<Attempt>)
    requires Real(o, env, cfg) && Total(start) == 0 && WellFormed(o, cfg, live.log) && Agrees(o, cfg, start, live)
    requires cfg.emission.supplyCap == 2_100_000_000_000_000 && cfg.emission.initialReward <= U64_MAX
    requires (forall a :: a in attempts ==> |a.block.txs| <= U64_MAX)
             && (forall b :: b in live.log ==> |b.txs| <= U64_MAX)
    ensures var after := RunOf(o, cfg, live, attempts);
            && Total(after.books.db) <= after.books.totals.minted
            && (cfg.emission.slewPercent == 25 ==>
                  after.books.totals.minted
                    <= E.Scheduled(E.Elapsed(cfg.genesisTime, TimeOf(Tip(after.log))), cfg.emission)
                    + 3 * cfg.emission.initialReward
                    <= cfg.emission.supplyCap + 3 * cfg.emission.initialReward)
  {
    E.NodeParametersAreAffordable(cfg.emission);
    AgreeingIsBacked(o, env, cfg, start, live);
    SupplyIsBacked(o, env, cfg, live, attempts);
    BackedWithinCap(cfg, RunOf(o, cfg, live, attempts));
  }

  lemma BackedWithinCap(cfg: Config, live: Live)
    requires Backed(cfg, live)
    ensures cfg.emission.slewPercent == 25 ==>
              live.books.totals.minted
                <= E.Scheduled(E.Elapsed(cfg.genesisTime, TimeOf(Tip(live.log))), cfg.emission)
                  + 3 * cfg.emission.initialReward
                <= cfg.emission.supplyCap + 3 * cfg.emission.initialReward
  {
    if cfg.emission.slewPercent == 25 {
      E.BoundedByThreeRewards(cfg.emission, cfg.genesisTime, TimeOf(Tip(live.log)), live.books.totals);
    }
  }
}
