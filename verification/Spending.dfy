/** Whose coins a block can take (crates/state/src/apply.rs): over any run, an
    account pays no more than its own signatures agreed to. */
module Spending {
  import opened Machine
  import opened Types
  import opened State
  import opened Ledger
  import opened Conservation
  import opened Replay
  import opened Transfers

  function BalanceOf(db: Db, id: AccountId): u128 { LoadOrDefault(db, id).balance }

  /** The witness carries a signature of the transaction's signing hash under a
      key of its sender; `Binding` says when that names the transaction. */
  ghost predicate SignedFor(env: Env, tx: TxBody, w: Witness) {
    && env.witnessHash(w) == tx.witnessHash
    && exists key :: env.derive(key) == tx.sender && env.verify(w.sigAlgo, key, w.sig, env.signingHash(tx))
  }

  function Cost(tx: TxBody): nat { (if tx.call.Transfer? then tx.call.amount else 0) + tx.feeSat }

  /** What `id` signed away in the transactions of a block from the `i`-th on. */
  ghost function SignedAway(env: Env, block: Block, id: AccountId, i: nat): nat
    requires i <= |block.txs|
    decreases |block.txs| - i
  {
    if i == |block.txs| then 0
    else
      (if block.txs[i].sender == id && i < |block.witnesses| && SignedFor(env, block.txs[i], block.witnesses[i])
        then Cost(block.txs[i]) else 0)
      + SignedAway(env, block, id, i + 1)
  }

  // ---- One block ----

  lemma StagedIsSigned(env: Env, db: Db, idx: nat, tx: TxBody, witnesses: seq<Witness>)
    requires KeysDerive(env, db) && Stage(env, db, idx, tx, witnesses).Ok?
    ensures idx < |witnesses| && SignedFor(env, tx, witnesses[idx])
    ensures var s := Stage(env, db, idx, tx, witnesses).value; s.sender == tx.sender && s.amount + s.feeSat == Cost(tx)
  {
    var w := witnesses[idx];
    var key := SigningKey(env, db, idx, tx, w).value;
    assert env.derive(key) == tx.sender && env.verify(w.sigAlgo, key, w.sig, env.signingHash(tx));
  }

  lemma {:induction false} StagedSpendingIsSigned(env: Env, db: Db, block: Block, staged: seq<Staged>, id: AccountId,
                                                  i: nat)
    requires KeysDerive(env, db) && |staged| == |block.txs| && i <= |staged|
    requires forall k :: 0 <= k < |staged| ==> Stage(env, db, k, block.txs[k], block.witnesses) == Ok(staged[k])
    ensures SumBy(Out(id), staged[i..]) == SignedAway(env, block, id, i)
    decreases |staged| - i
  {
    if i < |staged| {
      StagedIsSigned(env, db, i, block.txs[i], block.witnesses);
      StagedSpendingIsSigned(env, db, block, staged, id, i + 1);
      assert staged[i..][0] == staged[i] && staged[i..][1..] == staged[i + 1..];
    }
  }

  lemma TransferTakesAtMost(db: Db, s: Staged, id: AccountId)
    requires ApplyStaged(db, s).error.None?
    ensures BalanceOf(db, id) <= BalanceOf(ApplyStaged(db, s).db, id) + Out(id)(s)
  {
    var from := Debited(LoadOrDefault(db, s.sender), s);
    var db1 := Save(db, s.sender, from);
    SaveThenLoad(db, s.sender, from, id);
    SaveThenLoad(db, s.sender, from, s.to);
    SaveThenLoad(db1, s.to, Credited(LoadOrDefault(db1, s.to), s.amount), id);
  }

  lemma {:induction false} PassTakesAtMost(db: Db, staged: seq<Staged>, id: AccountId)
    ensures BalanceOf(db, id) <= BalanceOf(ApplyAll(db, staged).db, id) + SumBy(Out(id), staged)
    decreases |staged|
  {
    if staged != [] && ApplyStaged(db, staged[0]).error.None? {
      TransferTakesAtMost(db, staged[0], id);
      PassTakesAtMost(ApplyStaged(db, staged[0]).db, staged[1..], id);
    }
  }

  lemma FinishTakesNothing(env: Env, db: Db, block: Block, reward: u128, fees: u128, id: AccountId)
    ensures BalanceOf(db, id) <= BalanceOf(Finish(env, db, block, reward, fees).db, id)
  {
    var miner := Miner(block.header);
    var a := LoadOrDefault(db, miner);
    if Finish(env, db, block, reward, fees).error.None? {
      var credited := a.(balance := a.balance + (reward + fees));
      var paid := Save(db, miner, credited);
      SaveThenLoad(db, miner, credited, id);
      var reflected := Reflected(paid, block.header, block.txs, fees, reward + fees);
      assert Load(reflected, id) == Load(paid, id);
      assert Load(Activated(reflected, block.header.height), id) == Load(reflected, id);
    }
  }

  /** After pass 1 nothing but pass 2 takes coins from an account. */
  lemma OnlyThePassTakes(env: Env, db: Db, block: Block, reward: u128, id: AccountId)
    requires StageBlock(env, db, block).Ok?
    ensures BalanceOf(ApplyAll(db, StageBlock(env, db, block).value.0).db, id)
            <= BalanceOf(Apply(env, db, block, reward).db, id)
  {
    var (staged, fees) := StageBlock(env, db, block).value;
    var moved := ApplyAll(db, staged);
    EffectsAccount(env, moved.db, block.header, block.txs, 0, id);
    FinishTakesNothing(env, EffectsFrom(env, moved.db, block.header, block.txs, 0).db, block, reward, fees, id);
  }

  lemma PassTakesWhatWasSigned(env: Env, db: Db, block: Block, id: AccountId)
    requires KeysDerive(env, db) && StageBlock(env, db, block).Ok?
    ensures BalanceOf(db, id) <= BalanceOf(ApplyAll(db, StageBlock(env, db, block).value.0).db, id)
            + SignedAway(env, block, id, 0)
  {
    StagedFromBlock(env, db, block);
    var staged := StageBlock(env, db, block).value.0;
    PassTakesAtMost(db, staged, id);
    StagedSpendingIsSigned(env, db, block, staged, id, 0);
    assert staged[0..] == staged;
  }

  /** Whatever its outcome, a block takes from an account at most what that
      account signed away in it. */
  lemma BlockTakesWhatWasSigned(env: Env, db: Db, block: Block, reward: u128, id: AccountId)
    requires KeysDerive(env, db)
    ensures BalanceOf(db, id) <= BalanceOf(Apply(env, db, block, reward).db, id) + SignedAway(env, block, id, 0)
  {
    if StageBlock(env, db, block).Ok? {
      PassTakesWhatWasSigned(env, db, block, id);
      OnlyThePassTakes(env, db, block, reward, id);
    }
  }

  // ---- Which algorithm signs ----

  /** A committed account's transaction under another algorithm than the one on
      record brings its key along. */
  lemma OtherAlgorithmsSignInline(env: Env, db: Db, idx: nat, tx: TxBody, w: Witness)
    requires ValidateTx(env, db, idx, tx, w).Ok? && w.sigAlgo != LoadOrDefault(db, tx.sender).sigAlgo
    ensures w.pubkey.Inline?
  {}

  /** An inline key is never held to the algorithm on record. */
  lemma InlineIgnoresRecordedAlgorithm(env: Env, db: Db, idx: nat, tx: TxBody, w: Witness, algo: byte)
    requires w.pubkey.Inline?
    ensures var other := Save(db, tx.sender, LoadOrDefault(db, tx.sender).(sigAlgo := algo));
            ValidateTx(env, other, idx, tx, w) == ValidateTx(env, db, idx, tx, w)
  {
    SaveThenLoad(db, tx.sender, LoadOrDefault(db, tx.sender).(sigAlgo := algo), tx.sender);
  }

  // ---- Runs: every inclusion ----

  ghost function SignedOver(env: Env, run: seq<Paid>, id: AccountId): nat {
    if run == [] then 0 else SignedOver(env, run[..|run| - 1], id) + SignedAway(env, run[|run| - 1].block, id, 0)
  }

  lemma {:induction false} TakenOverRun(m: Transition, env: Env, db: Db, run: seq<Paid>, id: AccountId)
    requires forall d, p :: KeysDerive(env, d) ==>
               KeysDerive(env, m(d, p).db) && BalanceOf(d, id) <= BalanceOf(m(d, p).db, id)
                 + SignedAway(env, p.block, id, 0)
    requires KeysDerive(env, db)
    ensures KeysDerive(env, After(m, db, run))
    ensures BalanceOf(db, id) <= BalanceOf(After(m, db, run), id) + SignedOver(env, run, id)
  {
    if run != [] { TakenOverRun(m, env, db, run[..|run| - 1], id); }
  }

  /** Over any run of blocks, accepted or rejected, an account loses no more
      than the amounts and fees of transactions signed under its own key, each
      counted once per block that includes it. */
  lemma CoinsMoveOnlyBySignature(env: Env, db: Db, run: seq<Paid>, id: AccountId)
    requires KeysDerive(env, db)
    ensures BalanceOf(db, id) <= BalanceOf(After(LedgerOf(env), db, run), id) + SignedOver(env, run, id)
  {
    var m := LedgerOf(env);
    forall d: Db, p: Paid | KeysDerive(env, d)
      ensures KeysDerive(env, m(d, p).db) && BalanceOf(d, id) <= BalanceOf(m(d, p).db, id)
              + SignedAway(env, p.block, id, 0)
    {
      BlockKeepsKeys(env, d, p.block, p.reward, id);
      BlockTakesWhatWasSigned(env, d, p.block, p.reward, id);
    }
    TakenOverRun(m, env, db, run, id);
  }

  // ---- Runs: once per nonce ----

  /** The largest cost `id` signed at nonce `n` in a block, from the `i`-th
      transaction on. */
  ghost function LargestIn(env: Env, block: Block, id: AccountId, n: nat, i: nat): nat
    requires i <= |block.txs|
    decreases |block.txs| - i
  {
    if i == |block.txs| then 0
    else
      var tx := block.txs[i];
      var mine := tx.sender == id && tx.nonce == n && i < |block.witnesses| && SignedFor(env, tx, block.witnesses[i]);
      Max(if mine then Cost(tx) else 0, LargestIn(env, block, id, n, i + 1))
  }

  /** The largest cost `id` signed at nonce `n` anywhere in a run. */
  ghost function LargestAt(env: Env, run: seq<Paid>, id: AccountId, n: nat): nat {
    if run == [] then 0 else Max(LargestAt(env, run[..|run| - 1], id, n),
      LargestIn(env, run[|run| - 1].block, id, n, 0))
  }

  /** One such cost for every nonce in `[lo, hi)`. */
  ghost function OncePerNonce(env: Env, run: seq<Paid>, id: AccountId, lo: nat, hi: nat): nat
    requires lo <= hi
    decreases hi - lo
  {
    if lo == hi then 0 else LargestAt(env, run, id, lo) + OncePerNonce(env, run, id, lo + 1, hi)
  }

  lemma {:induction false} OnceSplits(env: Env, run: seq<Paid>, id: AccountId, lo: nat, mid: nat, hi: nat)
    requires lo <= mid <= hi
    ensures OncePerNonce(env, run, id, lo, hi) == OncePerNonce(env, run, id, lo, mid)
            + OncePerNonce(env, run, id, mid, hi)
    decreases mid - lo
  {
    if lo < mid { OnceSplits(env, run, id, lo + 1, mid, hi); }
  }

  lemma {:induction false} SignedIsAtMostLargest(env: Env, block: Block, id: AccountId, i: nat, j: nat)
    requires j <= i < |block.txs| && block.txs[i].sender == id
    requires i < |block.witnesses| && SignedFor(env, block.txs[i], block.witnesses[i])
    ensures Cost(block.txs[i]) <= LargestIn(env, block, id, block.txs[i].nonce, j)
    decreases i - j
  {
    if j < i { SignedIsAtMostLargest(env, block, id, i, j + 1); }
  }

  lemma {:induction false} LargestCoversBlocks(env: Env, run: seq<Paid>, id: AccountId, n: nat, k: nat)
    requires k < |run|
    ensures LargestIn(env, run[k].block, id, n, 0) <= LargestAt(env, run, id, n)
  {
    if k < |run| - 1 {
      assert run[..|run| - 1][k] == run[k];
      LargestCoversBlocks(env, run[..|run| - 1], id, n, k);
    }
  }

  /** Every staged spending of `id` is within what it signed at that nonce. */
  ghost predicate WithinSigned(env: Env, run: seq<Paid>, id: AccountId, staged: seq<Staged>) {
    forall s :: s in staged && s.sender == id ==> s.amount + s.feeSat <= LargestAt(env, run, id, s.expectedNonce)
  }

  lemma StagedWithinSigned(env: Env, db: Db, run: seq<Paid>, k: nat, id: AccountId)
    requires k < |run| && KeysDerive(env, db) && StageBlock(env, db, run[k].block).Ok?
    ensures WithinSigned(env, run, id, StageBlock(env, db, run[k].block).value.0)
  {
    var block := run[k].block;
    StagedFromBlock(env, db, block);
    var staged := StageBlock(env, db, block).value.0;
    forall s | s in staged && s.sender == id ensures s.amount + s.feeSat <= LargestAt(env, run, id, s.expectedNonce) {
      var i :| 0 <= i < |staged| && staged[i] == s;
      StagedIsSigned(env, db, i, block.txs[i], block.witnesses);
      SignedIsAtMostLargest(env, block, id, i, 0);
      LargestCoversBlocks(env, run, id, s.expectedNonce, k);
    }
  }

  /** Pass 2 takes only at the current nonce, and moves past it. */
  lemma {:induction false} PassTakesOncePerNonce(env: Env, run: seq<Paid>, db: Db, staged: seq<Staged>, id: AccountId)
    requires WithinSigned(env, run, id, staged) && LargestAt(env, run, id, U64_MAX) == 0
    ensures NonceOf(db, id) <= NonceOf(ApplyAll(db, staged).db, id)
    ensures BalanceOf(db, id) <= BalanceOf(ApplyAll(db, staged).db, id)
                                 + OncePerNonce(env, run, id, NonceOf(db, id), NonceOf(ApplyAll(db, staged).db, id))
    decreases |staged|
  {
    if staged != [] && ApplyStaged(db, staged[0]).error.None? {
      var s, next := staged[0], ApplyStaged(db, staged[0]).db;
      assert s in staged && forall r :: r in staged[1..] ==> r in staged;
      TransferTakesAtMost(db, s, id);
      StagedAccount(db, s, id);
      PassTakesOncePerNonce(env, run, next, staged[1..], id);
      OnceSplits(env, run, id, NonceOf(db, id), NonceOf(next, id), NonceOf(ApplyAll(db, staged).db, id));
    }
  }

  lemma BlockTakesOncePerNonce(env: Env, db: Db, run: seq<Paid>, k: nat, id: AccountId)
    requires k < |run| && KeysDerive(env, db) && LargestAt(env, run, id, U64_MAX) == 0
    ensures var after := Apply(env, db, run[k].block, run[k].reward).db;
            && NonceOf(db, id) <= NonceOf(after, id)
            && BalanceOf(db, id) <= BalanceOf(after, id) + OncePerNonce(env, run, id, NonceOf(db, id),
               NonceOf(after, id))
  {
    var block := run[k].block;
    if StageBlock(env, db, block).Ok? {
      StagedWithinSigned(env, db, run, k, id);
      PassTakesOncePerNonce(env, run, db, StageBlock(env, db, block).value.0, id);
      OnlyThePassTakes(env, db, block, run[k].reward, id);
      OnlyThePassSpends(env, db, block, run[k].reward, id);
    }
  }

  ghost predicate TakesOnce(m: Transition, env: Env, run: seq<Paid>, id: AccountId) {
    forall d, p :: p in run && KeysDerive(env, d) ==>
      var after := m(d, p).db;
      && KeysDerive(env, after) && NonceOf(d, id) <= NonceOf(after, id)
      && BalanceOf(d, id) <= BalanceOf(after, id) + OncePerNonce(env, run, id, NonceOf(d, id), NonceOf(after, id))
  }

  lemma {:induction false} TakenOncePerNonce(m: Transition, env: Env, db: Db, run: seq<Paid>, id: AccountId, k: nat)
    requires TakesOnce(m, env, run, id) && KeysDerive(env, db) && k <= |run|
    ensures var after := After(m, db, run[..k]);
            && KeysDerive(env, after) && NonceOf(db, id) <= NonceOf(after, id)
            && BalanceOf(db, id) <= BalanceOf(after, id) + OncePerNonce(env, run, id, NonceOf(db, id),
               NonceOf(after, id))
  {
    if k > 0 {
      TakenOncePerNonce(m, env, db, run, id, k - 1);
      var before, last := After(m, db, run[..k - 1]), run[k - 1];
      assert run[..k][..k - 1] == run[..k - 1] && last in run;
      assert After(m, db, run[..k]) == m(before, last).db;
      OnceSplits(env, run, id, NonceOf(db, id), NonceOf(before, id), NonceOf(m(before, last).db, id));
    }
  }

  /** No signature is charged twice: over any run of accepted and rejected
      blocks, an account that signs away nothing at the largest nonce loses at
      most one signed cost for each nonce it moves through. */
  lemma EachNonceIsChargedOnce(env: Env, db: Db, run: seq<Paid>, id: AccountId)
    requires KeysDerive(env, db) && LargestAt(env, run, id, U64_MAX) == 0
    ensures var after := After(LedgerOf(env), db, run);
            && NonceOf(db, id) <= NonceOf(after, id)
            && BalanceOf(db, id) <= BalanceOf(after, id) + OncePerNonce(env, run, id, NonceOf(db, id),
               NonceOf(after, id))
  {
    var m := LedgerOf(env);
    assert TakesOnce(m, env, run, id) by {
      forall d: Db, p: Paid | p in run && KeysDerive(env, d)
        ensures var after := m(d, p).db;
                && KeysDerive(env, after) && NonceOf(d, id) <= NonceOf(after, id)
                && BalanceOf(d, id) <= BalanceOf(after, id) + OncePerNonce(env, run, id, NonceOf(d, id),
                   NonceOf(after, id))
      {
        var k :| 0 <= k < |run| && run[k] == p;
        BlockKeepsKeys(env, d, p.block, p.reward, id);
        BlockTakesOncePerNonce(env, d, run, k, id);
      }
    }
    TakenOncePerNonce(m, env, db, run, id, |run|);
    assert run[..|run|] == run;
  }
}
