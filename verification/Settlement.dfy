/** Who pays and who is paid in an accepted block (crates/state/src/apply.rs,
    crates/core/src/address.rs), told by the block's own transactions and its
    coinbase field. */
module Settlement {
  import opened Machine
  import opened Types
  import opened State
  import opened Ledger
  import opened Conservation
  import opened Replay
  import opened Transfers

  /** What transfers to `id` carry. */
  function Received(txs: seq<TxBody>, id: AccountId): nat {
    if txs == [] then 0
    else (if txs[0].call.Transfer? && txs[0].call.to == id then txs[0].call.amount else 0) + Received(txs[1..], id)
  }

  /** What transactions of `id` send and pay in fees. */
  function Sent(txs: seq<TxBody>, id: AccountId): nat {
    if txs == [] then 0
    else
      (if txs[0].sender != id then 0
       else if txs[0].call.Transfer? then txs[0].call.amount + txs[0].feeSat else txs[0].feeSat)
      + Sent(txs[1..], id)
  }

  function Fees(txs: seq<TxBody>): nat { if txs == [] then 0 else txs[0].feeSat + Fees(txs[1..]) }

  /** A staged transaction moves what its transaction says. */
  predicate Stages(s: Staged, tx: TxBody) {
    && s.sender == tx.sender && s.feeSat == tx.feeSat
    && (tx.call.Transfer? ==> s.to == tx.call.to && s.amount == tx.call.amount)
    && (!tx.call.Transfer? ==> s.amount == 0)
  }

  lemma {:induction false} StagedSums(staged: seq<Staged>, txs: seq<TxBody>, id: AccountId)
    requires |staged| == |txs| && forall i :: 0 <= i < |txs| ==> Stages(staged[i], txs[i])
    ensures SumBy(In(id), staged) == Received(txs, id) && SumBy(Out(id), staged) == Sent(txs, id)
    ensures FeeSum(staged) == Fees(txs)
  {
    if txs != [] { StagedSums(staged[1..], txs[1..], id); }
  }

  lemma StagedMoves(env: Env, db: Db, block: Block, id: AccountId)
    requires StageBlock(env, db, block).Ok?
    ensures var (staged, fees) := StageBlock(env, db, block).value;
            && SumBy(In(id), staged) == Received(block.txs, id) && SumBy(Out(id), staged) == Sent(block.txs, id)
            && fees == Fees(block.txs)
  {
    StagedFromBlock(env, db, block);
    var staged := StageBlock(env, db, block).value.0;
    forall i | 0 <= i < |staged| ensures Stages(staged[i], block.txs[i]) {
      assert Stage(env, db, i, block.txs[i], block.witnesses) == Ok(staged[i]);
    }
    StagedSums(staged, block.txs, id);
    CollectShape(Verdicts(env, db, block.txs, block.witnesses), 0, 0);
  }

  lemma FinishPays(env: Env, db: Db, block: Block, reward: u128, fees: u128, id: AccountId)
    requires Finish(env, db, block, reward, fees).error.None?
    ensures LoadOrDefault(Finish(env, db, block, reward, fees).db, id).balance
         == LoadOrDefault(db, id).balance + if id == block.header.coinbase[..20] then reward + fees else 0
  {
    var miner := Miner(block.header);
    var a := LoadOrDefault(db, miner);
    var paid := Save(db, miner, a.(balance := a.balance + (reward + fees)));
    SaveThenLoad(db, miner, a.(balance := a.balance + (reward + fees)), id);
    var reflected := Reflected(paid, block.header, block.txs, fees, reward + fees);
    assert Load(reflected, id) == Load(paid, id);
    assert Load(Activated(reflected, block.header.height), id) == Load(reflected, id);
  }

  /** An accepted block, phase by phase. */
  lemma AcceptedInParts(env: Env, db: Db, block: Block, reward: u128) returns (staged: seq<Staged>, moved: Db, done: Db)
    requires Apply(env, db, block, reward).outcome.Ok?
    ensures StageBlock(env, db, block).Ok? && StageBlock(env, db, block).value.0 == staged
    ensures ApplyAll(db, staged) == Step(moved, None)
    ensures EffectsFrom(env, moved, block.header, block.txs, 0) == Step(done, None)
    ensures Finish(env, done, block, reward, StageBlock(env, db, block).value.1).error.None?
    ensures Apply(env, db, block, reward).db == Finish(env, done, block, reward, StageBlock(env, db, block).value.1).db
  {
    staged := StageBlock(env, db, block).value.0;
    moved := ApplyAll(db, staged).db;
    done := EffectsFrom(env, moved, block.header, block.txs, 0).db;
  }

  /** In an accepted block every account gains what transfers to it carry and
      loses what its own transactions send and pay in fees; the account that the
      coinbase field names gets the reward and all fees on top. */
  lemma AcceptedBlockSettles(env: Env, db: Db, block: Block, reward: u128, id: AccountId)
    requires Apply(env, db, block, reward).outcome.Ok? && Total(db) <= U128_MAX
    ensures LoadOrDefault(Apply(env, db, block, reward).db, id).balance + Sent(block.txs, id)
         == LoadOrDefault(db, id).balance + Received(block.txs, id)
          + if id == block.header.coinbase[..20] then reward + Fees(block.txs) else 0
  {
    var staged, moved, done := AcceptedInParts(env, db, block, reward);
    StagedMoves(env, db, block, id);
    BalanceAfterPass(db, staged, id);
    EffectsAccount(env, moved, block.header, block.txs, 0, id);
    FinishPays(env, done, block, reward, Fees(block.txs), id);
  }

  /** What it reports: how many transactions, their fees, what the coinbase got,
      and the root of the state it leaves. */
  lemma AcceptedBlockReports(env: Env, db: Db, block: Block, reward: u128)
    requires Apply(env, db, block, reward).outcome.Ok?
    ensures var r := Apply(env, db, block, reward);
            && r.outcome.value.txsApplied == |block.txs|
            && r.outcome.value.feesCollected == Fees(block.txs)
            && r.outcome.value.coinbaseMinted == reward + Fees(block.txs)
            && r.outcome.value.stateRoot == env.stateRoot(r.db)
  {
    StagedMoves(env, db, block, block.header.coinbase[..20]);
  }

  /** A key on record stays; an account without one takes the key and algorithm of
      the witness at `i`. */
  predicate Commits(before: Account, after: Account, witnesses: seq<Witness>, i: nat) {
    if before.pubkey != [] then after.pubkey == before.pubkey && after.sigAlgo == before.sigAlgo
    else i < |witnesses| && witnesses[i].pubkey == Inline(after.pubkey) && witnesses[i].sigAlgo == after.sigAlgo
  }

  lemma StagedCommits(env: Env, db: Db, idx: nat, tx: TxBody, witnesses: seq<Witness>, s: Staged)
    requires Stage(env, db, idx, tx, witnesses) == Ok(s) && LoadOrDefault(db, tx.sender).pubkey == []
    ensures idx < |witnesses| && witnesses[idx].pubkey == Inline(s.pubkey) && witnesses[idx].sigAlgo == s.sigAlgo
  {}

  lemma PassCommits(env: Env, db: Db, block: Block, i: nat)
    requires StageBlock(env, db, block).Ok? && NoncesBelowMax(block) && i < |block.txs|
    requires ApplyAll(db, StageBlock(env, db, block).value.0).error.None?
    ensures var moved, id := ApplyAll(db, StageBlock(env, db, block).value.0).db, block.txs[i].sender;
            Commits(LoadOrDefault(db, id), LoadOrDefault(moved, id), block.witnesses, i)
  {
    StagedFromBlock(env, db, block);
    var staged, id := StageBlock(env, db, block).value.0, block.txs[i].sender;
    assert staged[i].sender == id && staged[i] in staged;
    SendersAreDistinct(db, db, staged);
    KeyAfterPass(db, staged, id);
    if LoadOrDefault(db, id).pubkey == [] {
      StagedCommits(env, db, i, block.txs[i], block.witnesses, staged[i]);
    }
  }

  /** Below the nonce limit, the sender of the `i`-th transaction of an accepted
      block had that transaction's nonce and has the next one after; a sender
      without a key on record commits the one its witness carries. */
  lemma SendersCommit(env: Env, db: Db, block: Block, reward: u128, i: nat)
    requires Apply(env, db, block, reward).outcome.Ok? && NoncesBelowMax(block) && i < |block.txs|
    ensures var id := block.txs[i].sender;
            var a, b := LoadOrDefault(db, id), LoadOrDefault(Apply(env, db, block, reward).db, id);
            a.nonce == block.txs[i].nonce && b.nonce == block.txs[i].nonce + 1 && Commits(a, b, block.witnesses, i)
  {
    var id := block.txs[i].sender;
    AcceptedBlockNonces(env, db, block, reward, id);
    assert Spends(block, id);
    OnlyThePassSpends(env, db, block, reward, id);
    PassCommits(env, db, block, i);
  }

  /** Nobody else's nonce or key changes. */
  lemma OthersKeepNonceAndKey(env: Env, db: Db, block: Block, reward: u128, id: AccountId)
    requires forall i :: 0 <= i < |block.txs| ==> block.txs[i].sender != id
    ensures var a, b := LoadOrDefault(db, id), LoadOrDefault(Apply(env, db, block, reward).db, id);
            b.nonce == a.nonce && b.pubkey == a.pubkey && b.sigAlgo == a.sigAlgo
  {
    if StageBlock(env, db, block).Ok? {
      StagedFromBlock(env, db, block);
      var staged := StageBlock(env, db, block).value.0;
      forall i | 0 <= i < |staged| ensures staged[i].sender != id { assert staged[i].sender == block.txs[i].sender; }
      PassKeepsOthers(db, staged, id);
      OnlyThePassSpends(env, db, block, reward, id);
    }
  }

  lemma {:induction false} PassKeepsOthers(db: Db, staged: seq<Staged>, id: AccountId)
    requires forall i :: 0 <= i < |staged| ==> staged[i].sender != id
    ensures var a, b := LoadOrDefault(db, id), LoadOrDefault(ApplyAll(db, staged).db, id);
            b.nonce == a.nonce && b.pubkey == a.pubkey && b.sigAlgo == a.sigAlgo
    decreases |staged|
  {
    if staged != [] && ApplyStaged(db, staged[0]).error.None? {
      StagedAccount(db, staged[0], id);
      PassKeepsOthers(ApplyStaged(db, staged[0]).db, staged[1..], id);
    }
  }
}
