/** Exactly which blocks a node accepts, why it refuses the others, and what it
    pays for one (crates/node/src/rpc.rs), without the checks that decide it. */
module Acceptance {
  import opened Machine
  import opened Types
  import opened State
  import opened Node
  import opened Supply
  import opened Restart
  import L = Ledger
  import E = Emission
  import C = Compact
  import F = Atomicity
  import R = Replay
  import T = Transfers
  import D = Admission
  import Bytes

  // ---- The header ----

  /** Everything the node asks of a block before it looks at its transactions: the
      clock has passed genesis, the parent is the tip, the height is the next one,
      the bits are the retarget's, time does not run back nor more than two hours
      ahead, the work suffices and both roots are of the bodies that came along. */
  ghost predicate NextHeader(o: Rules, cfg: Config, log: seq<Block>, block: Block, now: u64)
    requires log != []
  {
    var h, tip := block.header, log[|log| - 1].header;
    && cfg.genesisTime <= now
    && h.parent == o.headerHash(tip) && h.height == |log|
    && o.retarget(tip.bits, tip.height, tip.timestamp, h.timestamp) == Some(h.bits)
    && tip.timestamp <= h.timestamp <= now + 7_200_000
    && Bytes.Value(o.headerHash(h)) <= C.Decode(h.bits)
    && h.txRoot == o.txRoot(block.txs) && h.witnessRoot == o.witnessRoot(block.witnesses)
  }

  /** The same for the first block of a chain, whose parent is all zeros and whose
      bits follow from the configured ones at height and time zero. */
  ghost predicate FirstHeader(o: Rules, cfg: Config, block: Block, now: u64) {
    var h := block.header;
    && cfg.genesisTime <= now
    && (forall i :: 0 <= i < 32 ==> h.parent[i] == 0) && h.height == 0
    && o.retarget(cfg.bits, 0, 0, h.timestamp) == Some(h.bits)
    && h.timestamp <= now + 7_200_000
    && Bytes.Value(o.headerHash(h)) <= C.Decode(h.bits)
    && h.txRoot == o.txRoot(block.txs) && h.witnessRoot == o.witnessRoot(block.witnesses)
  }

  lemma NextHeaderPasses(o: Rules, cfg: Config, log: seq<Block>, block: Block, now: u64)
    requires log != [] && WellFormed(o, cfg, log) && |log| <= U64_MAX
    ensures CheckHeader(o, cfg, Tip(log), block, now).None? <==> NextHeader(o, cfg, log, block, now)
  {
    assert log[|log| - 1].header.height == |log| - 1;
  }

  lemma FirstHeaderPasses(o: Rules, cfg: Config, block: Block, now: u64)
    ensures CheckHeader(o, cfg, None, block, now).None? <==> FirstHeader(o, cfg, block, now)
  {
    if forall i :: 0 <= i < 32 ==> block.header.parent[i] == 0 { assert block.header.parent == ZERO_HASH; }
  }

  // ---- The body ----

  /** Every transaction is admissible with its witness, no account sends twice, and
      no effect is refused: all on the store as it is. */
  ghost predicate GoodBody(env: L.Env, db: Db, block: Block) {
    && (forall i :: 0 <= i < |block.txs| ==> D.AdmissibleAt(env, db, block, i))
    && (forall i, j :: 0 <= i < j < |block.txs| ==> block.txs[i].sender != block.txs[j].sender)
    && L.EffectsFrom(env, db, block.header, block.txs, 0).error.None?
  }

  lemma BodyPasses(env: L.Env, db: Db, block: Block, reward: u128)
    requires Total(db) + reward <= U128_MAX && |block.txs| <= U64_MAX && R.NoncesBelowMax(block)
    ensures L.Apply(env, db, block, reward).outcome.Ok? <==> GoodBody(env, db, block)
  {
    D.ValidatedIffAdmissible(env, db, block);
    assert T.OneEach(block.txs) <==>
        forall i, j :: 0 <= i < j < |block.txs| ==> block.txs[i].sender != block.txs[j].sender;
    if F.FailsLate(env, db, block) {
      F.LateFailuresWrite(env, db, block, reward);
    } else {
      F.OtherBlocksAreAtomic(env, db, block, reward);
    }
  }

  // ---- Acceptance ----

  lemma AttemptPasses(o: Rules, env: L.Env, cfg: Config, live: Live, block: Block, now: u64)
    requires Real(o, env, cfg) && E.Affordable(cfg.emission) && Backed(cfg, live)
    requires |block.txs| <= U64_MAX && R.NoncesBelowMax(block)
    ensures Try(o, cfg, live, block, now).1.None? <==>
            CheckHeader(o, cfg, Tip(live.log), block, now).None? && GoodBody(env, live.books.db, block)
  {
    if CheckHeader(o, cfg, Tip(live.log), block, now).None? {
      var reward := RewardFor(o, live.books, block.header, RewardParentTime(cfg, Tip(live.log)));
      RewardFits(o, env, cfg, live, block, now);
      BodyPasses(env, live.books.db, block, reward);
      assert o.ledger(live.books.db, L.Paid(block, reward)) == L.Apply(env, live.books.db, block, reward);
    }
  }

  /** On a node restarted from a log, a block with nonces below the limit is
      accepted exactly when its header and its body are good. */
  lemma NextBlockAcceptedIff(o: Rules, env: L.Env, cfg: Config, start: Db, live: Live, block: Block, now: u64)
    requires Real(o, env, cfg) && E.Affordable(cfg.emission) && Restarted(o, cfg, start, live)
    requires live.log != [] && |live.log| <= U64_MAX && |block.txs| <= U64_MAX && R.NoncesBelowMax(block)
    ensures Try(o, cfg, live, block, now).1.None? <==>
            NextHeader(o, cfg, live.log, block, now) && GoodBody(env, live.books.db, block)
  {
    AgreeingIsBacked(o, env, cfg, start, live);
    AttemptPasses(o, env, cfg, live, block, now);
    NextHeaderPasses(o, cfg, live.log, block, now);
  }

  /** So is the first block of an empty log. */
  lemma FirstBlockAcceptedIff(o: Rules, env: L.Env, cfg: Config, start: Db, live: Live, block: Block, now: u64)
    requires Real(o, env, cfg) && E.Affordable(cfg.emission) && Restarted(o, cfg, start, live)
    requires live.log == [] && |block.txs| <= U64_MAX && R.NoncesBelowMax(block)
    ensures Try(o, cfg, live, block, now).1.None? <==>
            FirstHeader(o, cfg, block, now) && GoodBody(env, live.books.db, block)
  {
    AgreeingIsBacked(o, env, cfg, start, live);
    AttemptPasses(o, env, cfg, live, block, now);
    FirstHeaderPasses(o, cfg, block, now);
  }

  // ---- Refusal ----

  /** Each reason for a refusal names something the header has wrong, or the
      ledger's error. */
  lemma RefusalNamesDefect(o: Rules, cfg: Config, live: Live, block: Block, now: u64)
    requires live.log != [] && WellFormed(o, cfg, live.log) && |live.log| <= U64_MAX
    ensures var h, tip := block.header, live.log[|live.log| - 1].header;
            match Try(o, cfg, live, block, now).1 {
              case Some(PreGenesis) => now < cfg.genesisTime
              case Some(StaleParent) => h.parent != o.headerHash(tip)
              case Some(WrongHeight) => h.height != |live.log|
              case Some(RetargetPanic) => o.retarget(tip.bits, tip.height, tip.timestamp, h.timestamp) == None
              case Some(WrongBits) =>
                var bits := o.retarget(tip.bits, tip.height, tip.timestamp, h.timestamp);
                bits.Some? && bits.value != h.bits
              case Some(TimeReversed) => h.timestamp < tip.timestamp
              case Some(FutureTime) => h.timestamp > now + 7_200_000
              case Some(HashTooHigh) => Bytes.Value(o.headerHash(h)) > C.Decode(h.bits)
              case Some(TxRootMismatch) => h.txRoot != o.txRoot(block.txs)
              case Some(WitnessRootMismatch) => h.witnessRoot != o.witnessRoot(block.witnesses)
              case Some(Invalid(_)) => NextHeader(o, cfg, live.log, block, now)
              case None => NextHeader(o, cfg, live.log, block, now)
            }
  {
    NextHeaderPasses(o, cfg, live.log, block, now);
    assert live.log[|live.log| - 1].header.height == |live.log| - 1;
  }

  // ---- Payment ----

  /** The reward of the next block: the emission rule at its time and height, since
      its parent's time or, for the first block, genesis, on what has been minted and
      the last reward. */
  function NextReward(cfg: Config, live: Live, h: BlockHeader): u128 {
    E.Reward(cfg.emission, cfg.genesisTime, h.timestamp,
             if live.log == [] then cfg.genesisTime else live.log[|live.log| - 1].header.timestamp,
             live.books.totals.minted, h.height, live.books.totals.previous)
  }

  /** An accepted block joins the log, its reward is minted and remembered, and the
      store is what the ledger leaves for that reward; a refused one leaves log and
      totals alone. */
  lemma AcceptedBlockIsPaid(o: Rules, env: L.Env, cfg: Config, live: Live, block: Block, now: u64)
    requires Real(o, env, cfg) && E.Affordable(cfg.emission) && Backed(cfg, live)
    ensures var (after, reject), reward := Try(o, cfg, live, block, now), NextReward(cfg, live, block.header);
            if reject.Some? then after.log == live.log && after.books.totals == live.books.totals
            else
              && after.log == live.log + [block]
              && after.books.totals.minted == live.books.totals.minted + reward
              && after.books.totals.previous == Some(reward)
              && after.books.db == L.Apply(env, live.books.db, block, reward).db
              && L.Apply(env, live.books.db, block, reward).outcome.Ok?
  {
    if CheckHeader(o, cfg, Tip(live.log), block, now).None? {
      var reward := NextReward(cfg, live, block.header);
      RewardFits(o, env, cfg, live, block, now);
      E.MintingNeverSaturates(cfg.emission, cfg.genesisTime, TimeOf(Tip(live.log)),
        E.Stamp(block.header.height, block.header.timestamp), RewardParentTime(cfg, Tip(live.log)), live.books.totals);
      assert o.ledger(live.books.db, L.Paid(block, reward)) == L.Apply(env, live.books.db, block, reward);
    }
  }
}
