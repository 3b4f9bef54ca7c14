/** No transaction is applied twice, and account keys are committed once. */
module Replay {
  import opened Machine
  import opened Types
  import opened State
  import opened Ledger
  import opened Conservation

  function NonceOf(db: Db, id: AccountId): u64 { LoadOrDefault(db, id).nonce }

  // ---- What the passes do to one account ----

  lemma StagedAccount(db: Db, s: Staged, id: AccountId)
    requires ApplyStaged(db, s).error.None?
    ensures var a, b := LoadOrDefault(db, id), LoadOrDefault(ApplyStaged(db, s).db, id);
            && b.nonce == (if id == s.sender && a.nonce < U64_MAX then a.nonce + 1 else a.nonce)
            && (a.pubkey != [] || id != s.sender ==> b.pubkey == a.pubkey && b.sigAlgo == a.sigAlgo)
            && (a.pubkey == [] && id == s.sender ==> b.pubkey == s.pubkey && b.sigAlgo == s.sigAlgo)
  {
    var a := LoadOrDefault(db, s.sender);
    var db1 := Save(db, s.sender, Debited(a, s));
    SaveThenLoad(db, s.sender, Debited(a, s), id);
    SaveThenLoad(db, s.sender, Debited(a, s), s.to);
    SaveThenLoad(db1, s.to, Credited(LoadOrDefault(db1, s.to), s.amount), id);
  }

  /** Effects never touch an account. */
  lemma {:induction false} EffectsAccount(env: Env, db: Db, header: BlockHeader, txs: seq<TxBody>, i: nat,
                                          id: AccountId)
    requires i <= |txs|
    ensures Load(EffectsFrom(env, db, header, txs, i).db, id) == Load(db, id)
    decreases |txs| - i
  {
    if i < |txs| {
      var first := Effect(env, db, header, i, txs[i]);
      assert Load(first.db, id) == Load(db, id);
      if first.error.None? { EffectsAccount(env, first.db, header, txs, i + 1, id); }
    }
  }

  lemma FinishAccount(env: Env, db: Db, block: Block, reward: u128, fees: u128, id: AccountId)
    ensures var a, b := LoadOrDefault(db, id), LoadOrDefault(Finish(env, db, block, reward, fees).db, id);
            b.nonce == a.nonce && b.pubkey == a.pubkey && b.sigAlgo == a.sigAlgo
  {
    var miner := Miner(block.header);
    var a := LoadOrDefault(db, miner);
    if Finish(env, db, block, reward, fees).error.None? {
      var paid := Save(db, miner, a.(balance := a.balance + (reward + fees)));
      SaveThenLoad(db, miner, a.(balance := a.balance + (reward + fees)), id);
      var reflected := Reflected(paid, block.header, block.txs, fees, reward + fees);
      assert Load(reflected, id) == Load(paid, id);
      assert Load(Activated(reflected, block.header.height), id) == Load(reflected, id);
    }
  }

  /** Effects and coinbase leave an account's nonce and key as pass 2 left them. */
  lemma OnlyThePassSpends(env: Env, db: Db, block: Block, reward: u128, id: AccountId)
    requires StageBlock(env, db, block).Ok?
    ensures var a := LoadOrDefault(ApplyAll(db, StageBlock(env, db, block).value.0).db, id);
            var b := LoadOrDefault(Apply(env, db, block, reward).db, id);
            b.nonce == a.nonce && b.pubkey == a.pubkey && b.sigAlgo == a.sigAlgo
  {
    var (staged, fees) := StageBlock(env, db, block).value;
    var moved := ApplyAll(db, staged);
    EffectsAccount(env, moved.db, block.header, block.txs, 0, id);
    FinishAccount(env, EffectsFrom(env, moved.db, block.header, block.txs, 0).db, block, reward, fees, id);
  }

  // ---- Nonces ----

  lemma {:induction false} ExpectedAtLeastCurrent(db: Db, staged: seq<Staged>, j: nat)
    requires ApplyAll(db, staged).error.None? && j < |staged|
    ensures NonceOf(db, staged[j].sender) <= staged[j].expectedNonce
    decreases |staged|
  {
    if j > 0 {
      StagedAccount(db, staged[0], staged[j].sender);
      ExpectedAtLeastCurrent(ApplyStaged(db, staged[0]).db, staged[1..], j - 1);
    }
  }

  predicate DistinctSenders(staged: seq<Staged>) {
    forall i, j :: 0 <= i < j < |staged| ==> staged[i].sender != staged[j].sender
  }

  predicate StagedAgainst(pre: Db, staged: seq<Staged>) {
    forall i :: 0 <= i < |staged| ==> staged[i].expectedNonce == NonceOf(pre, staged[i].sender)
  }

  lemma {:induction false} PassNeverLowersNonces(db: Db, staged: seq<Staged>, id: AccountId)
    ensures NonceOf(db, id) <= NonceOf(ApplyAll(db, staged).db, id)
    decreases |staged|
  {
    if staged != [] && ApplyStaged(db, staged[0]).error.None? {
      StagedAccount(db, staged[0], id);
      PassNeverLowersNonces(ApplyStaged(db, staged[0]).db, staged[1..], id);
    }
  }

  /** A pass applies one sender's transactions at one nonce twice only at the
      largest nonce. */
  lemma {:induction false} NotTwiceInPass(db: Db, staged: seq<Staged>, i: nat, j: nat)
    requires ApplyAll(db, staged).error.None? && i < j < |staged|
    requires staged[i].sender == staged[j].sender && staged[i].expectedNonce == staged[j].expectedNonce
    ensures staged[i].expectedNonce == U64_MAX
    decreases |staged|
  {
    var next, rest := ApplyStaged(db, staged[0]).db, staged[1..];
    if i > 0 {
      NotTwiceInPass(next, rest, i - 1, j - 1);
    } else {
      StagedAccount(db, staged[0], staged[0].sender);
      ExpectedAtLeastCurrent(next, rest, j - 1);
    }
  }

  /** What a pass applies below the largest nonce, it leaves behind. */
  lemma {:induction false} PassOutruns(db: Db, staged: seq<Staged>, j: nat)
    requires ApplyAll(db, staged).error.None? && j < |staged| && staged[j].expectedNonce < U64_MAX
    ensures staged[j].expectedNonce < NonceOf(ApplyAll(db, staged).db, staged[j].sender)
    decreases |staged|
  {
    var next, rest := ApplyStaged(db, staged[0]).db, staged[1..];
    if j > 0 {
      PassOutruns(next, rest, j - 1);
    } else {
      StagedAccount(db, staged[0], staged[0].sender);
      PassNeverLowersNonces(next, rest, staged[0].sender);
    }
  }

  lemma SendersAreDistinct(pre: Db, db: Db, staged: seq<Staged>)
    requires StagedAgainst(pre, staged) && ApplyAll(db, staged).error.None?
    requires forall i :: 0 <= i < |staged| ==> staged[i].expectedNonce < U64_MAX
    ensures DistinctSenders(staged)
  {
    forall i, j | 0 <= i < j < |staged| ensures staged[i].sender != staged[j].sender {
      if staged[i].sender == staged[j].sender { NotTwiceInPass(db, staged, i, j); }
    }
  }

  predicate Sends(staged: seq<Staged>, id: AccountId) { exists i :: 0 <= i < |staged| && staged[i].sender == id }

  lemma {:induction false} NoncesAfterPass(db: Db, staged: seq<Staged>, id: AccountId)
    requires ApplyAll(db, staged).error.None? && DistinctSenders(staged)
    ensures NonceOf(ApplyAll(db, staged).db, id) == NonceOf(db, id) + if Sends(staged, id) && NonceOf(db, id) < U64_MAX
            then 1 else 0
    decreases |staged|
  {
    if staged != [] {
      var next, rest := ApplyStaged(db, staged[0]).db, staged[1..];
      StagedAccount(db, staged[0], id);
      if Sends(rest, id) {
        var k :| 0 <= k < |rest| && rest[k].sender == id;
        assert staged[k + 1].sender == id;
      }
      if Sends(staged, id) && staged[0].sender != id {
        var k :| 0 <= k < |staged| && staged[k].sender == id;
        assert rest[k - 1].sender == id;
      }
      NoncesAfterPass(next, rest, id);
    }
  }

  /** Every staged transaction quotes its own sender, fee and current nonce. */
  lemma StagedFromBlock(env: Env, db: Db, block: Block)
    requires StageBlock(env, db, block).Ok?
    ensures var staged := StageBlock(env, db, block).value.0;
            && |staged| == |block.txs| && StagedAgainst(db, staged)
            && forall i :: 0 <= i < |staged| ==>
                 staged[i].sender == block.txs[i].sender && staged[i].expectedNonce == block.txs[i].nonce &&
                 Stage(env, db, i, block.txs[i], block.witnesses) == Ok(staged[i])
  {
    CollectShape(Verdicts(env, db, block.txs, block.witnesses), 0, 0);
    var staged := StageBlock(env, db, block).value.0;
    forall i | 0 <= i < |staged|
      ensures staged[i].sender == block.txs[i].sender && staged[i].expectedNonce == block.txs[i].nonce
              == NonceOf(db, staged[i].sender)
      ensures Stage(env, db, i, block.txs[i], block.witnesses) == Ok(staged[i])
    {
      assert Verdicts(env, db, block.txs, block.witnesses)[0 + i] == Ok(staged[i]);
    }
  }

  predicate Spends(block: Block, id: AccountId) { exists i :: 0 <= i < |block.txs| && block.txs[i].sender == id }

  predicate NoncesBelowMax(block: Block) { forall i :: 0 <= i < |block.txs| ==> block.txs[i].nonce < U64_MAX }

  /** An accepted block holds at most one transaction per sender, at exactly
      that sender's nonce; the nonce rises by one for senders and for nobody else. */
  lemma AcceptedBlockNonces(env: Env, db: Db, block: Block, reward: u128, id: AccountId)
    requires Apply(env, db, block, reward).outcome.Ok? && NoncesBelowMax(block)
    ensures forall i, j :: 0 <= i < j < |block.txs| ==> block.txs[i].sender != block.txs[j].sender
    ensures forall i :: 0 <= i < |block.txs| ==> block.txs[i].nonce == NonceOf(db, block.txs[i].sender)
    ensures NonceOf(Apply(env, db, block, reward).db, id) == NonceOf(db, id) + if Spends(block, id) then 1 else 0
  {
    PassNonces(env, db, block, id);
    OnlyThePassSpends(env, db, block, reward, id);
  }

  lemma PassNonces(env: Env, db: Db, block: Block, id: AccountId)
    requires StageBlock(env, db, block).Ok? && NoncesBelowMax(block)
    requires ApplyAll(db, StageBlock(env, db, block).value.0).error.None?
    ensures forall i, j :: 0 <= i < j < |block.txs| ==> block.txs[i].sender != block.txs[j].sender
    ensures forall i :: 0 <= i < |block.txs| ==> block.txs[i].nonce == NonceOf(db, block.txs[i].sender)
    ensures NonceOf(ApplyAll(db, StageBlock(env, db, block).value.0).db, id) == NonceOf(db, id) + if Spends(block, id)
            then 1 else 0
  {
    StagedFromBlock(env, db, block);
    var staged := StageBlock(env, db, block).value.0;
    SendersAreDistinct(db, db, staged);
    forall i, j | 0 <= i < j < |block.txs| ensures block.txs[i].sender != block.txs[j].sender {
      assert staged[i].sender == block.txs[i].sender && staged[j].sender == block.txs[j].sender;
    }
    assert Sends(staged, id) <==> Spends(block, id) by {
      if Sends(staged, id) { var i :| 0 <= i < |staged| && staged[i].sender == id; assert block.txs[i].sender == id; }
      if Spends(block, id) {
        var i :| 0 <= i < |block.txs| && block.txs[i].sender == id;
        assert staged[i].sender == id;
      }
    }
    NoncesAfterPass(db, staged, id);
  }

  ghost predicate NoncesRise(before: Db, after: Db) {
    forall id: AccountId :: NonceOf(before, id) <= NonceOf(after, id)
  }

  /** An accepted block: each transaction has its sender's current nonce and,
      short of the largest one, leaves it behind; two by one sender are possible
      only at the largest. */
  ghost predicate NonceStep(before: Db, block: Block, after: Db) {
    && (forall t :: 0 <= t < |block.txs| ==> block.txs[t].nonce == NonceOf(before, block.txs[t].sender))
    && (forall t ::
       0 <= t < |block.txs| && block.txs[t].nonce < U64_MAX ==>
         block.txs[t].nonce < NonceOf(after, block.txs[t].sender))
    && (forall t, u ::
       0 <= t < u < |block.txs| && block.txs[t].sender == block.txs[u].sender ==> block.txs[t].nonce == U64_MAX)
  }

  /** No block, accepted or rejected, lowers a nonce. */
  lemma BlockRaisesNonces(env: Env, db: Db, block: Block, reward: u128)
    ensures NoncesRise(db, Apply(env, db, block, reward).db)
  {
    var after := Apply(env, db, block, reward).db;
    if StageBlock(env, db, block).Ok? {
      forall id: AccountId ensures NonceOf(db, id) <= NonceOf(after, id) {
        PassNeverLowersNonces(db, StageBlock(env, db, block).value.0, id);
        OnlyThePassSpends(env, db, block, reward, id);
      }
    }
  }

  lemma AcceptedBlockIsNonceStep(env: Env, db: Db, block: Block, reward: u128)
    requires Apply(env, db, block, reward).outcome.Ok?
    ensures NonceStep(db, block, Apply(env, db, block, reward).db)
  {
    var after := Apply(env, db, block, reward).db;
    var staged := StageBlock(env, db, block).value.0;
    StagedFromBlock(env, db, block);
    forall t | 0 <= t < |block.txs| && block.txs[t].nonce < U64_MAX
      ensures block.txs[t].nonce < NonceOf(after, block.txs[t].sender) {
      assert staged[t].sender == block.txs[t].sender;
      PassOutruns(db, staged, t);
      OnlyThePassSpends(env, db, block, reward, block.txs[t].sender);
    }
    forall t, u | 0 <= t < u < |block.txs| && block.txs[t].sender == block.txs[u].sender
      ensures block.txs[t].nonce == U64_MAX {
      assert staged[t].sender == block.txs[t].sender && staged[u].sender == block.txs[u].sender;
      NotTwiceInPass(db, staged, t, u);
    }
  }

  // ---- Runs ----

  /** The `k`-th block of a run of accepted and rejected ones is accepted. */
  predicate AcceptedAt(m: Transition, db: Db, run: seq<Paid>, k: nat)
    requires k < |run|
  {
    m(After(m, db, run[..k]), run[k]).outcome.Ok?
  }

  ghost predicate KeepsNonces(m: Transition) {
    forall d, p :: NoncesRise(d, m(d, p).db) && (m(d, p).outcome.Ok? ==> NonceStep(d, p.block, m(d, p).db))
  }

  /** Nonces below the largest that an accepted block of the run used are below
      the account's current one. */
  lemma {:induction false} UsedNoncesAreBelow(m: Transition, db: Db, run: seq<Paid>, b: nat, t: nat)
    requires KeepsNonces(m) && b < |run| && AcceptedAt(m, db, run, b) && t < |run[b].block.txs|
    ensures var x := run[b].block.txs[t]; x.nonce < U64_MAX ==> x.nonce < NonceOf(After(m, db, run), x.sender)
  {
    var n := |run| - 1;
    var front, last := run[..n], run[n];
    assert NoncesRise(After(m, db, front), m(After(m, db, front), last).db);
    if b < n {
      assert front[b] == run[b] && front[..b] == run[..b];
      UsedNoncesAreBelow(m, db, front, b, t);
    }
  }

  lemma {:induction false} NothingTwice(m: Transition, db: Db, run: seq<Paid>, b: nat, t: nat, c: nat, u: nat)
    requires KeepsNonces(m) && b <= c < |run| && AcceptedAt(m, db, run, b) && AcceptedAt(m, db, run, c)
    requires t < |run[b].block.txs| && u < |run[c].block.txs| && (b, t) != (c, u)
    ensures var x, y := run[b].block.txs[t], run[c].block.txs[u];
            x.sender != y.sender || x.nonce != y.nonce || x.nonce == U64_MAX
  {
    var before, here := After(m, db, run[..c]), run[c];
    assert NonceStep(before, here.block, m(before, here).db);
    if b < c {
      assert run[..c][b] == run[b] && run[..c][..b] == run[..b];
      UsedNoncesAreBelow(m, db, run[..c], b, t);
    }
  }

  /** Over any run of accepted and rejected blocks, two transactions of accepted
      ones share sender and nonce only at the largest nonce. */
  lemma NoTransactionTwice(env: Env, db: Db, run: seq<Paid>, b: nat, t: nat, c: nat, u: nat)
    requires b <= c < |run| && AcceptedAt(LedgerOf(env), db, run, b) && AcceptedAt(LedgerOf(env), db, run, c)
    requires t < |run[b].block.txs| && u < |run[c].block.txs| && (b, t) != (c, u)
    ensures var x, y := run[b].block.txs[t], run[c].block.txs[u];
            x.sender != y.sender || x.nonce != y.nonce || x.nonce == U64_MAX
  {
    var m := LedgerOf(env);
    forall d, p ensures NoncesRise(d, m(d, p).db) && (m(d, p).outcome.Ok? ==> NonceStep(d, p.block, m(d, p).db)) {
      BlockRaisesNonces(env, d, p.block, p.reward);
      if m(d, p).outcome.Ok? { AcceptedBlockIsNonceStep(env, d, p.block, p.reward); }
    }
    NothingTwice(m, db, run, b, t, c, u);
  }

  /** The bound on nonces is needed: at the largest nonce the counter stays put,
      and a free transfer that is accepted once is accepted twice in one block. */
  lemma SaturatedNonceReplays(env: Env, db: Db, header: BlockHeader, tx: TxBody, w: Witness, reward: u128)
    requires tx.call.Transfer? && tx.call.amount == 0 && tx.feeSat == 0 && tx.nonce == U64_MAX
    requires Apply(env, db, Block(header, [tx], [w]), reward).outcome.Ok?
    ensures Apply(env, db, Block(header, [tx, tx], [w, w]), reward).outcome.Ok?
  {
    var one, two := Block(header, [tx], [w]), Block(header, [tx, tx], [w, w]);
    StagedFromBlock(env, db, one);
    var s := StageBlock(env, db, one).value.0[0];
    assert StageBlock(env, db, one).value.0 == [s] && s.feeSat == 0 && s.amount == 0;
    CollectShape(Verdicts(env, db, one.txs, one.witnesses), 0, 0);
    var s1 := s.(idx := 1);
    var v := Verdicts(env, db, two.txs, two.witnesses);
    assert v[0] == Ok(s) && v[1] == Ok(s1);
    CollectTwo(v, s, s1);
    var d := ApplyStaged(db, s).db;
    assert [s][1..] == [] && ApplyAll(db, [s]) == ApplyAll(d, []);
    FreeTransferTwice(db, s);
    assert [s, s1][1..] == [s1] && [s1][1..] == [];
    assert ApplyAll(db, [s, s1]) == ApplyAll(d, [s1]) == Step(d, None);
    assert EffectsFrom(env, d, header, [tx], 1) == Step(d, None)
      && EffectsFrom(env, d, header, [tx, tx], 2) == Step(d, None);
    assert EffectsFrom(env, d, header, [tx, tx], 1) == Step(d, None);
  }

  lemma CollectTwo(v: seq<Result<Staged, ApplyError>>, s: Staged, s1: Staged)
    requires v == [Ok(s), Ok(s1)] && s.feeSat == 0 && s1.feeSat == 0
    ensures Collect(v, 0, 0) == Ok(([s, s1], 0))
  {
    assert Collect(v, 2, 0) == Ok(([], 0));
    assert Collect(v, 1, 0) == Then([s1], Collect(v, 2, 0)) && [s1] + [] == [s1];
    assert Collect(v, 0, 0) == Then([s], Collect(v, 1, 0)) && [s] + [s1] == [s, s1];
  }

  lemma FreeTransferTwice(db: Db, s: Staged)
    requires ApplyStaged(db, s).error.None? && s.amount == 0 && s.feeSat == 0 && s.expectedNonce == U64_MAX
    ensures ApplyStaged(ApplyStaged(db, s).db, s.(idx := 1)) == Step(ApplyStaged(db, s).db, None)
  {
    var d := ApplyStaged(db, s).db;
    var a := LoadOrDefault(db, s.sender);
    var db1 := Save(db, s.sender, Debited(a, s));
    SaveThenLoad(db, s.sender, Debited(a, s), s.to);
    SaveThenLoad(db1, s.to, Credited(LoadOrDefault(db1, s.to), 0), s.sender);
    SaveThenLoad(db1, s.to, Credited(LoadOrDefault(db1, s.to), 0), s.to);
    assert d == db1[AccountKey(s.to) := AccountRec(LoadOrDefault(db1, s.to))];
    var e := LoadOrDefault(d, s.sender);
    assert e == Debited(a, s);
    assert Debited(e, s.(idx := 1)) == e;
    assert Save(d, s.sender, e) == d;
    assert Save(d, s.to, Credited(LoadOrDefault(d, s.to), 0)) == d;
  }

  // ---- Account keys ----

  /** Every committed key derives to its account. */
  ghost predicate KeysDerive(env: Env, db: Db) {
    forall id: AccountId :: LoadOrDefault(db, id).pubkey != [] ==> env.derive(LoadOrDefault(db, id).pubkey) == id
  }

  lemma {:induction false} PassKeepsKeys(env: Env, db: Db, staged: seq<Staged>, id: AccountId)
    requires forall i :: 0 <= i < |staged| ==> env.derive(staged[i].pubkey) == staged[i].sender
    requires LoadOrDefault(db, id).pubkey != [] ==> env.derive(LoadOrDefault(db, id).pubkey) == id
    ensures var a, b := LoadOrDefault(db, id), LoadOrDefault(ApplyAll(db, staged).db, id);
            && (b.pubkey != [] ==> env.derive(b.pubkey) == id)
            && (a.pubkey != [] ==> b.pubkey == a.pubkey && b.sigAlgo == a.sigAlgo)
    decreases |staged|
  {
    if staged != [] && ApplyStaged(db, staged[0]).error.None? {
      StagedAccount(db, staged[0], id);
      PassKeepsKeys(env, ApplyStaged(db, staged[0]).db, staged[1..], id);
    }
  }

  lemma StagedKeysDerive(env: Env, db: Db, block: Block)
    requires KeysDerive(env, db) && StageBlock(env, db, block).Ok?
    ensures forall s :: s in StageBlock(env, db, block).value.0 ==> env.derive(s.pubkey) == s.sender
  {
    StagedFromBlock(env, db, block);
    var staged := StageBlock(env, db, block).value.0;
    forall i | 0 <= i < |staged| ensures env.derive(staged[i].pubkey) == staged[i].sender {
      assert Stage(env, db, i, block.txs[i], block.witnesses) == Ok(staged[i]);
    }
  }

  lemma BlockKeepsKey(env: Env, db: Db, block: Block, reward: u128, id: AccountId)
    requires KeysDerive(env, db)
    ensures var a, b := LoadOrDefault(db, id), LoadOrDefault(Apply(env, db, block, reward).db, id);
            && (b.pubkey != [] ==> env.derive(b.pubkey) == id)
            && (a.pubkey != [] ==> b.pubkey == a.pubkey && b.sigAlgo == a.sigAlgo)
  {
    if StageBlock(env, db, block).Ok? {
      StagedKeysDerive(env, db, block);
      PassKeepsKeys(env, db, StageBlock(env, db, block).value.0, id);
      OnlyThePassSpends(env, db, block, reward, id);
    }
  }

  /** Whatever the outcome of a block, committed keys keep deriving to their
      accounts, and a key once committed never changes. */
  lemma BlockKeepsKeys(env: Env, db: Db, block: Block, reward: u128, id: AccountId)
    requires KeysDerive(env, db)
    ensures KeysDerive(env, Apply(env, db, block, reward).db)
    ensures var a, b := LoadOrDefault(db, id), LoadOrDefault(Apply(env, db, block, reward).db, id);
            a.pubkey != [] ==> b.pubkey == a.pubkey && b.sigAlgo == a.sigAlgo
  {
    forall other: AccountId
      ensures var b := LoadOrDefault(Apply(env, db, block, reward).db, other);
              b.pubkey != [] ==> env.derive(b.pubkey) == other
    {
      BlockKeepsKey(env, db, block, reward, other);
    }
    BlockKeepsKey(env, db, block, reward, id);
  }
}
