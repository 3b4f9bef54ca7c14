/** When a rejected block has written (crates/state/src/apply.rs). The order of
    `apply_block` lets a block fail after pass 2 or after some of its effects;
    whether it will can be told from the store before the call. */
module Atomicity {
  import opened Machine
  import opened Types
  import opened State
  import opened Ledger
  import opened Conservation
  import opened Replay
  import opened Authority
  import opened Transfers

  /** A block that passes validation but repeats a sender, or asks for an effect
      that is refused. Everything here is computed on the store as it is. */
  predicate FailsLate(env: Env, db: Db, block: Block) {
    StageBlock(env, db, block).Ok? &&
    (!OneEach(block.txs) || EffectsFrom(env, db, block.header, block.txs, 0).error.Some?)
  }

  // ---- Effects do not look at accounts ----

  ghost predicate SameElsewhere(a: Db, b: Db) {
    forall k: Key :: !k.sub.Accounts? ==> (k in a <==> k in b) && (k in a ==> a[k] == b[k])
  }

  lemma LooksElsewhere(a: Db, b: Db, jobId: Hash, attester: AccountId)
    requires SameElsewhere(a, b)
    ensures GovernanceOf(a) == GovernanceOf(b) && (MayAttest(a, jobId, attester) <==> MayAttest(b, jobId, attester))
  {
    assert GOVERNANCE.sub.Meta? && AuthorityKey(jobId).sub.Meta?;
    assert AuthorityOf(a, jobId) == AuthorityOf(b, jobId);
  }

  lemma EffectErrorElsewhere(env: Env, a: Db, b: Db, header: BlockHeader, idx: nat, tx: TxBody)
    requires SameElsewhere(a, b)
    ensures Effect(env, a, header, idx, tx).error == Effect(env, b, header, idx, tx).error
  {
    var jobId := if tx.call.AttestRound? || tx.call.AttestPedigree? then tx.call.jobId else seq(32, _ => 0);
    LooksElsewhere(a, b, jobId, tx.sender);
  }

  /** The record a transaction's effect writes, wherever it goes through. */
  function Written(env: Env, header: BlockHeader, tx: TxBody): map<Key, Record> {
    match tx.call
    case AttestRound(jobId, roundId, modelHash, eps) =>
      map[AttestKey(jobId, roundId) := AttestRec(jobId, roundId, modelHash, eps, tx.sender, header.height,
        header.timestamp)]
    case RegisterAttestCoordinator(jobId, coordinators, _) =>
      map[AuthorityKey(jobId) := AuthorityRec(jobId, coordinators, header.height)]
    case AttestPedigree(jobId, lotId, supplier, cage, authority) =>
      map[PedigreeKey(jobId, lotId) := PedigreeRec(jobId, lotId, supplier, cage, authority, tx.sender, header.height,
        header.timestamp)]
    case UpgradeCrypto(target, sigAlgo, hashAlgo, _) =>
      map[UPGRADE := PendingRec(PendingUpgrade(target, sigAlgo, hashAlgo, header.height))]
    case SetGovernance(cbor, _) =>
      if env.decodeConfig(cbor).Some? then map[GOVERNANCE := GovernanceRec(env.decodeConfig(cbor).value)] else map[]
    case _ => map[]
  }

  lemma EffectWrites(env: Env, db: Db, header: BlockHeader, idx: nat, tx: TxBody)
    ensures var r := Effect(env, db, header, idx, tx);
            r.db == if r.error.Some? then db else db + Written(env, header, tx)
  {}

  lemma PutElsewhere(a: Db, b: Db, w: Db)
    requires SameElsewhere(a, b)
    ensures SameElsewhere(a + w, b + w)
  {}

  lemma {:induction false} EffectsElsewhere(env: Env, a: Db, b: Db, header: BlockHeader, txs: seq<TxBody>, i: nat)
    requires SameElsewhere(a, b) && i <= |txs|
    ensures EffectsFrom(env, a, header, txs, i).error == EffectsFrom(env, b, header, txs, i).error
    decreases |txs| - i
  {
    if i < |txs| {
      var x, y := Effect(env, a, header, i, txs[i]), Effect(env, b, header, i, txs[i]);
      EffectErrorElsewhere(env, a, b, header, i, txs[i]);
      EffectWrites(env, a, header, i, txs[i]);
      EffectWrites(env, b, header, i, txs[i]);
      PutElsewhere(a, b, Written(env, header, txs[i]));
      EffectsUnfold(env, a, header, txs, i);
      EffectsUnfold(env, b, header, txs, i);
      if x.error.None? { EffectsElsewhere(env, x.db, y.db, header, txs, i + 1); }
    }
  }

  /** Pass 2 does not change which effects are refused. */
  lemma PassKeepsEffects(env: Env, db: Db, staged: seq<Staged>, header: BlockHeader, txs: seq<TxBody>)
    ensures EffectsFrom(env, ApplyAll(db, staged).db, header, txs, 0).error
            == EffectsFrom(env, db, header, txs, 0).error
  {
    forall k: Key | !k.sub.Accounts?
      ensures (k in ApplyAll(db, staged).db <==> k in db) && (k in db ==> ApplyAll(db, staged).db[k] == db[k])
    {
      PassKeepsRecord(db, staged, k);
    }
    EffectsElsewhere(env, ApplyAll(db, staged).db, db, header, txs, 0);
  }

  // ---- The two late failures ----

  lemma DistinctSendersMove(env: Env, db: Db, block: Block)
    requires StageBlock(env, db, block).Ok? && OneEach(block.txs)
    ensures ApplyAll(db, StageBlock(env, db, block).value.0).error.None?
  {
    StagedAreReady(env, db, block);
    PassTwoSucceeds(db, StageBlock(env, db, block).value.0);
  }

  lemma CoinbaseFits(env: Env, db: Db, block: Block, reward: u128)
    requires StageBlock(env, db, block).Ok? && Total(db) + reward <= U128_MAX
    requires ApplyAll(db, StageBlock(env, db, block).value.0).error.None?
    ensures var (staged, fees) := StageBlock(env, db, block).value;
            Finish(env, EffectsFrom(env, ApplyAll(db, staged).db, block.header, block.txs, 0).db, block, reward,
              fees).error.None?
  {
    var (staged, fees) := StageBlock(env, db, block).value;
    var moved := ApplyAll(db, staged).db;
    CollectShape(Verdicts(env, db, block.txs, block.witnesses), 0, 0);
    ApplyAllTotal(db, staged);
    EffectsTotal(env, moved, block.header, block.txs, 0);
    FinishTotal(env, EffectsFrom(env, moved, block.header, block.txs, 0).db, block, reward, fees);
  }

  /** A block that does not fail late is accepted or leaves the store alone,
      nonces at their limit included. */
  lemma OtherBlocksAreAtomic(env: Env, db: Db, block: Block, reward: u128)
    requires Total(db) + reward <= U128_MAX && !FailsLate(env, db, block)
    ensures Apply(env, db, block, reward).outcome.Ok? <==> StageBlock(env, db, block).Ok?
    ensures Apply(env, db, block, reward).outcome.Err? ==> Apply(env, db, block, reward).db == db
  {
    if StageBlock(env, db, block).Ok? {
      DistinctSendersMove(env, db, block);
      PassKeepsEffects(env, db, StageBlock(env, db, block).value.0, block.header, block.txs);
      CoinbaseFits(env, db, block, reward);
    }
  }

  /** A late failure is always a rejection, and leaves the nonce of the block's
      first sender raised. */
  lemma LateFailuresWrite(env: Env, db: Db, block: Block, reward: u128)
    requires NoncesBelowMax(block) && FailsLate(env, db, block)
    ensures Apply(env, db, block, reward).outcome.Err? && block.txs != []
    ensures NonceOf(db, block.txs[0].sender) < NonceOf(Apply(env, db, block, reward).db, block.txs[0].sender)
  {
    PassRaisesFirst(env, db, block);
    OnlyThePassSpends(env, db, block, reward, block.txs[0].sender);
    if !OneEach(block.txs) {
      RepeatedSenderWrites(env, db, block);
    } else {
      PassKeepsEffects(env, db, StageBlock(env, db, block).value.0, block.header, block.txs);
    }
  }

  /** The documented atomicity, exactly: below the nonce limit a block is
      rejected after writing if and only if it fails late. */
  lemma RejectedBlockWritesIff(env: Env, db: Db, block: Block, reward: u128)
    requires Total(db) + reward <= U128_MAX && NoncesBelowMax(block)
    ensures Apply(env, db, block, reward).outcome.Err? && Apply(env, db, block, reward).db != db <==>
            FailsLate(env, db, block)
  {
    if FailsLate(env, db, block) { LateFailuresWrite(env, db, block, reward); }
    else { OtherBlocksAreAtomic(env, db, block, reward); }
  }

  /** A transfer block fails late exactly when it is valid and repeats a sender. */
  lemma TransfersFailLateIff(env: Env, db: Db, block: Block)
    requires TransfersOnly(block)
    ensures FailsLate(env, db, block) <==> StageBlock(env, db, block).Ok? && !OneEach(block.txs)
  {
    TransfersHaveNoEffects(env, db, block.header, block.txs, 0);
  }

  // ---- Inputs that show it ----

  /** Any transfer accepted alone, put twice into one block. */
  lemma RepeatedTransferWrites(env: Env, db: Db, header: BlockHeader, tx: TxBody, w: Witness, reward: u128)
    requires tx.call.Transfer? && tx.nonce < U64_MAX && Apply(env, db, Block(header, [tx], [w]), reward).outcome.Ok?
    ensures var r := Apply(env, db, Block(header, [tx, tx], [w, w]), reward); r.outcome.Err? && r.db != db
  {
    var one, two := Block(header, [tx], [w]), Block(header, [tx, tx], [w, w]);
    StagedFromBlock(env, db, one);
    var s := StageBlock(env, db, one).value.0[0];
    var v := Verdicts(env, db, two.txs, two.witnesses);
    assert v[0] == Ok(s) && v[1] == Ok(s.(idx := 1));
    CollectSucceeds(v, 0, 0);
    assert two.txs[0].sender == two.txs[1].sender;
    LateFailuresWrite(env, db, two, reward);
  }

  /** Any valid announcement of a suite outside the allowlists. */
  lemma DisallowedUpgradeWrites(env: Env, db: Db, header: BlockHeader, tx: TxBody, w: Witness, reward: u128)
    requires tx.call.UpgradeCrypto? && tx.call.newSigAlgo !in env.allowedSig && tx.nonce < U64_MAX
    requires StageBlock(env, db, Block(header, [tx], [w])).Ok?
    ensures var r := Apply(env, db, Block(header, [tx], [w]), reward); r.outcome.Err? && r.db != db
  {
    EffectsUnfold(env, db, header, [tx], 0);
    LateFailuresWrite(env, db, Block(header, [tx], [w]), reward);
  }
}
