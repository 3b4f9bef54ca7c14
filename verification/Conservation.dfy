/** What a block does to the sum of all balances, whether it is accepted or
    fails half-way. */
module Conservation {
  import opened Machine
  import opened Types
  import opened State
  import opened Ledger

  function SumBy<T>(f: T -> nat, s: seq<T>): nat { if s == [] then 0 else f(s[0]) + SumBy(f, s[1..]) }

  function FeeOf(): Staged -> nat { (s: Staged) => s.feeSat }

  function FeeSum(staged: seq<Staged>): nat { SumBy(FeeOf(), staged) }

  /** What staging produces: one entry per transaction, each its own verdict,
      and the sum of their fees. */
  lemma {:induction false} CollectShape(verdicts: seq<Result<Staged, ApplyError>>, i: nat, fees: u128)
    requires i <= |verdicts|
    ensures var r := Collect(verdicts, i, fees);
            r.Ok? ==> && |r.value.0| == |verdicts| - i && r.value.1 == fees + FeeSum(r.value.0)
                      && forall k :: 0 <= k < |r.value.0| ==> verdicts[i + k] == Ok(r.value.0[k])
    decreases |verdicts| - i
  {
    var r := Collect(verdicts, i, fees);
    if r.Ok? && i < |verdicts| {
      var s := verdicts[i].value;
      CollectShape(verdicts, i + 1, fees + s.feeSat);
      var rest := Collect(verdicts, i + 1, fees + s.feeSat).value.0;
      assert r.value.0 == [s] + rest && r.value.0[1..] == rest;
      forall k | 0 <= k < |r.value.0| ensures verdicts[i + k] == Ok(r.value.0[k]) {
        if k > 0 { assert r.value.0[k] == rest[k - 1] && verdicts[(i + 1) + (k - 1)] == Ok(rest[k - 1]); }
      }
    }
  }

  /** Collecting fails exactly when a verdict is an error or the fees overflow. */
  lemma {:induction false} CollectSucceeds(verdicts: seq<Result<Staged, ApplyError>>, i: nat, fees: u128)
    requires i <= |verdicts| && forall k :: i <= k < |verdicts| ==> verdicts[k].Ok?
    requires fees + (|verdicts| - i) * U64_MAX <= U128_MAX
    ensures Collect(verdicts, i, fees).Ok?
    decreases |verdicts| - i
  {
    if i < |verdicts| { CollectSucceeds(verdicts, i + 1, fees + verdicts[i].value.feeSat); }
  }

  /** One transfer: a failed one changes nothing; an applied one burns exactly
      its fee, and its credit does not saturate. */
  lemma StagedTotal(db: Db, s: Staged)
    requires Total(db) <= U128_MAX
    ensures var r := ApplyStaged(db, s);
            if r.error.Some? then r.db == db
            else
              && LoadOrDefault(db, s.sender).balance >= s.amount + s.feeSat
              && Total(r.db) + s.feeSat == Total(db)
              && LoadOrDefault(Save(db, s.sender, Debited(LoadOrDefault(db, s.sender), s)), s.to).balance + s.amount
                 <= U128_MAX
  {
    var r, a := ApplyStaged(db, s), LoadOrDefault(db, s.sender);
    if r.error.None? {
      var db1 := Save(db, s.sender, Debited(a, s));
      var to := LoadOrDefault(db1, s.to);
      TotalSave(db, s.sender, Debited(a, s));
      BalanceAtMostTotal(db1, s.to);
      TotalSave(db1, s.to, Credited(to, s.amount));
    }
  }

  lemma {:induction false} ApplyAllTotal(db: Db, staged: seq<Staged>)
    requires Total(db) <= U128_MAX
    ensures var r := ApplyAll(db, staged);
            && Total(r.db) <= Total(db)
            && (r.error.None? ==> Total(r.db) + FeeSum(staged) == Total(db))
    decreases |staged|
  {
    if staged != [] {
      StagedTotal(db, staged[0]);
      var first := ApplyStaged(db, staged[0]);
      if first.error.None? { ApplyAllTotal(first.db, staged[1..]); }
    }
  }

  lemma EffectTotal(env: Env, db: Db, header: BlockHeader, idx: nat, tx: TxBody)
    ensures Total(Effect(env, db, header, idx, tx).db) == Total(db)
  {
    var r := Effect(env, db, header, idx, tx);
    if r.db != db {
      var k: Key, v: Record :| !k.sub.Accounts? && r.db == db[k := v];
      TotalElsewhere(db, k, v);
    }
  }

  lemma {:induction false} EffectsTotal(env: Env, db: Db, header: BlockHeader, txs: seq<TxBody>, i: nat)
    requires i <= |txs|
    ensures Total(EffectsFrom(env, db, header, txs, i).db) == Total(db)
    decreases |txs| - i
  {
    if i < |txs| {
      EffectTotal(env, db, header, i, txs[i]);
      var first := Effect(env, db, header, i, txs[i]);
      if first.error.None? { EffectsTotal(env, first.db, header, txs, i + 1); }
    }
  }

  lemma ClosingTotal(db: Db, header: BlockHeader, txs: seq<TxBody>, fees: u128, minted: u128)
    ensures Total(Activated(Reflected(db, header, txs, fees, minted), header.height)) == Total(db)
  {
    var rec := ReflectionRec(Reflection(header.bits, |SenderSet(txs)|, fees, minted, 0, 0, 0));
    TotalElsewhere(db, ReflectKey(header.height), rec);
    TotalElsewhere(db[ReflectKey(header.height) := rec], LATEST, rec);
    var reflected := Reflected(db, header, txs, fees, minted);
    if PendingOf(reflected).Some? {
      var p := PendingOf(reflected).value;
      TotalElsewhere(reflected, ACTIVE, ActiveRec(ActiveCrypto(p.sigAlgo, p.hashAlgo, header.height)));
    }
  }

  lemma FinishTotal(env: Env, db: Db, block: Block, reward: u128, fees: u128)
    ensures var r := Finish(env, db, block, reward, fees);
            if r.error.Some? then r.db == db && Total(db) + reward + fees > U128_MAX
            else Total(r.db) == Total(db) + reward + fees
  {
    var miner := Miner(block.header);
    var a := LoadOrDefault(db, miner);
    BalanceAtMostTotal(db, miner);
    if Finish(env, db, block, reward, fees).error.None? {
      var paid := a.(balance := a.balance + (reward + fees));
      TotalSave(db, miner, paid);
      ClosingTotal(Save(db, miner, paid), block.header, block.txs, fees, reward + fees);
    }
  }

  /** Supply is conserved: an accepted block adds exactly its reward, fees only
      move to the miner, and a rejected block never adds anything. */
  lemma BlockConservesSupply(env: Env, db: Db, block: Block, reward: u128)
    requires Total(db) <= U128_MAX
    ensures var r := Apply(env, db, block, reward);
            match r.outcome {
              case Ok(_) => Total(r.db) == Total(db) + reward
              case Err(_) => Total(r.db) <= Total(db)
            }
  {
    var stage := StageBlock(env, db, block);
    if stage.Ok? {
      var (staged, fees) := stage.value;
      CollectShape(Verdicts(env, db, block.txs, block.witnesses), 0, 0);
      ApplyAllTotal(db, staged);
      var moved := ApplyAll(db, staged);
      if moved.error.None? {
        EffectsTotal(env, moved.db, block.header, block.txs, 0);
        var effects := EffectsFrom(env, moved.db, block.header, block.txs, 0);
        if effects.error.None? { FinishTotal(env, effects.db, block, reward, fees); }
      }
    }
  }

  lemma {:induction false} PassErrors(db: Db, staged: seq<Staged>)
    ensures ApplyAll(db, staged).error != Some(CoinbaseOverflow)
    decreases |staged|
  {
    if staged != [] { PassErrors(ApplyStaged(db, staged[0]).db, staged[1..]); }
  }

  lemma {:induction false} EffectErrors(env: Env, db: Db, header: BlockHeader, txs: seq<TxBody>, i: nat)
    requires i <= |txs|
    ensures EffectsFrom(env, db, header, txs, i).error != Some(CoinbaseOverflow)
    decreases |txs| - i
  {
    if i < |txs| { EffectErrors(env, Effect(env, db, header, i, txs[i]).db, header, txs, i + 1); }
  }

  lemma {:induction false} CollectErrors(verdicts: seq<Result<Staged, ApplyError>>, i: nat, fees: u128)
    requires i <= |verdicts| && forall k :: i <= k < |verdicts| ==> verdicts[k] != Err(CoinbaseOverflow)
    requires fees + (|verdicts| - i) * U64_MAX <= U128_MAX
    ensures Collect(verdicts, i, fees) != Err(CoinbaseOverflow)
    decreases |verdicts| - i
  {
    if i < |verdicts| && verdicts[i].Ok? { CollectErrors(verdicts, i + 1, fees + verdicts[i].value.feeSat); }
  }

  /** While supply plus reward fits 128 bits (and the transaction count a
      machine word), the coinbase can never overflow. */
  lemma CoinbaseNeverOverflows(env: Env, db: Db, block: Block, reward: u128)
    requires Total(db) + reward <= U128_MAX && |block.txs| <= U64_MAX
    ensures Apply(env, db, block, reward).outcome != Err(CoinbaseOverflow)
  {
    StagingNeverOverflows(env, db, block);
    if StageBlock(env, db, block).Ok? { RestNeverOverflows(env, db, block, reward); }
  }

  lemma StagingNeverOverflows(env: Env, db: Db, block: Block)
    requires |block.txs| <= U64_MAX
    ensures StageBlock(env, db, block) != Err(CoinbaseOverflow)
  {
    var verdicts := Verdicts(env, db, block.txs, block.witnesses);
    MulMonotone(|verdicts|, U64_MAX, U64_MAX);
    CollectErrors(verdicts, 0, 0);
  }

  lemma RestNeverOverflows(env: Env, db: Db, block: Block, reward: u128)
    requires Total(db) + reward <= U128_MAX && StageBlock(env, db, block).Ok?
    ensures Apply(env, db, block, reward).outcome != Err(CoinbaseOverflow)
  {
    var (staged, fees) := StageBlock(env, db, block).value;
    CollectShape(Verdicts(env, db, block.txs, block.witnesses), 0, 0);
    ApplyAllTotal(db, staged);
    var moved := ApplyAll(db, staged);
    PassErrors(db, staged);
    EffectErrors(env, moved.db, block.header, block.txs, 0);
    if moved.error.None? {
      EffectsTotal(env, moved.db, block.header, block.txs, 0);
      FinishTotal(env, EffectsFrom(env, moved.db, block.header, block.txs, 0).db, block, reward, fees);
    }
  }
}
