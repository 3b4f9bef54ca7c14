/** Blocks of plain transfers are atomic, and their order does not matter. */
module Transfers {
  import opened Machine
  import opened Types
  import opened State
  import opened Ledger
  import opened Conservation
  import opened Replay

  predicate TransfersOnly(block: Block) { forall tx :: tx in block.txs ==> tx.call.Transfer? }

  predicate OneEach(txs: seq<TxBody>) { forall i, j :: 0 <= i < j < |txs| ==> txs[i].sender != txs[j].sender }

  /** Transfers only, one per sender, and the supply fits 128 bits. */
  ghost predicate Simple(db: Db, block: Block, reward: u128) {
    TransfersOnly(block) && OneEach(block.txs) && |block.txs| <= U64_MAX && Total(db) + reward <= U128_MAX
  }

  // ---- Pass 2 cannot fail ----

  predicate Ready(db: Db, staged: seq<Staged>) {
    forall s :: s in staged ==>
      s.expectedNonce == NonceOf(db, s.sender) && s.amount + s.feeSat <= LoadOrDefault(db, s.sender).balance
  }

  lemma OthersOnlyGain(db: Db, s: Staged, id: AccountId)
    requires ApplyStaged(db, s).error.None? && id != s.sender
    ensures LoadOrDefault(ApplyStaged(db, s).db, id).balance >= LoadOrDefault(db, id).balance
    ensures NonceOf(ApplyStaged(db, s).db, id) == NonceOf(db, id)
  {
    StagedAccount(db, s, id);
    var db1 := Save(db, s.sender, Debited(LoadOrDefault(db, s.sender), s));
    SaveThenLoad(db, s.sender, Debited(LoadOrDefault(db, s.sender), s), id);
    SaveThenLoad(db1, s.to, Credited(LoadOrDefault(db1, s.to), s.amount), id);
  }

  lemma {:induction false} PassTwoSucceeds(db: Db, staged: seq<Staged>)
    requires Ready(db, staged) && DistinctSenders(staged)
    ensures ApplyAll(db, staged).error.None?
    decreases |staged|
  {
    if staged != [] {
      var s, rest := staged[0], staged[1..];
      assert s in staged;
      var next := ApplyStaged(db, s).db;
      forall r | r in rest
        ensures r.expectedNonce == NonceOf(next, r.sender) && r.amount + r.feeSat
                <= LoadOrDefault(next, r.sender).balance
      {
        var k :| 0 <= k < |rest| && rest[k] == r;
        assert staged[k + 1] == r && r in staged;
        OthersOnlyGain(db, s, r.sender);
      }
      forall i, j | 0 <= i < j < |rest| ensures rest[i].sender != rest[j].sender {
        assert staged[i + 1] == rest[i] && staged[j + 1] == rest[j];
      }
      PassTwoSucceeds(next, rest);
    }
  }

  lemma {:induction false} TransfersHaveNoEffects(env: Env, db: Db, header: BlockHeader, txs: seq<TxBody>, i: nat)
    requires i <= |txs| && forall tx :: tx in txs ==> tx.call.Transfer?
    ensures EffectsFrom(env, db, header, txs, i) == Step(db, None)
    decreases |txs| - i
  {
    if i < |txs| {
      assert txs[i] in txs;
      TransfersHaveNoEffects(env, db, header, txs, i + 1);
    }
  }

  lemma StagedAreReady(env: Env, db: Db, block: Block)
    requires StageBlock(env, db, block).Ok? && OneEach(block.txs)
    ensures var staged := StageBlock(env, db, block).value.0; Ready(db, staged) && DistinctSenders(staged)
  {
    StagedFromBlock(env, db, block);
    var staged := StageBlock(env, db, block).value.0;
    forall s | s in staged
      ensures s.expectedNonce == NonceOf(db, s.sender) && s.amount + s.feeSat <= LoadOrDefault(db, s.sender).balance
    {
      var i :| 0 <= i < |staged| && staged[i] == s;
      assert Stage(env, db, i, block.txs[i], block.witnesses) == Ok(s);
    }
    forall i, j | 0 <= i < j < |staged| ensures staged[i].sender != staged[j].sender {
      assert staged[i].sender == block.txs[i].sender && staged[j].sender == block.txs[j].sender;
    }
  }

  /** Where a transfer block ends once it has passed validation. */
  function Finished(env: Env, db: Db, block: Block, reward: u128): Step
    requires StageBlock(env, db, block).Ok?
  {
    var (staged, fees) := StageBlock(env, db, block).value;
    Finish(env, ApplyAll(db, staged).db, block, reward, fees)
  }

  predicate Reports(out: ApplyOutput, applied: nat, fees: u128, reward: u128, root: Hash) {
    out.txsApplied == applied && out.feesCollected == fees && out.coinbaseMinted == reward + fees
      && out.stateRoot == root
  }

  lemma ApplyInParts(env: Env, db: Db, block: Block, reward: u128, staged: seq<Staged>, fees: u128, moved: Step,
                     done: Step)
    requires StageBlock(env, db, block) == Ok((staged, fees)) && ApplyAll(db, staged) == moved && moved.error.None?
    requires EffectsFrom(env, moved.db, block.header, block.txs, 0) == moved
    requires Finish(env, moved.db, block, reward, fees) == done && done.error.None?
    ensures Apply(env, db, block, reward).db == done.db && Apply(env, db, block, reward).outcome.Ok?
    ensures Reports(Apply(env, db, block, reward).outcome.value, |block.txs|, fees, reward, env.stateRoot(done.db))
  {}

  lemma ValidTransfersFinish(env: Env, db: Db, block: Block, reward: u128)
    requires Simple(db, block, reward) && StageBlock(env, db, block).Ok?
    ensures var (staged, fees) := StageBlock(env, db, block).value;
            var moved := ApplyAll(db, staged);
            && moved.error.None?
            && EffectsFrom(env, moved.db, block.header, block.txs, 0) == moved
            && Finish(env, moved.db, block, reward, fees).error.None?
  {
    var (staged, fees) := StageBlock(env, db, block).value;
    CollectShape(Verdicts(env, db, block.txs, block.witnesses), 0, 0);
    StagedAreReady(env, db, block);
    PassTwoSucceeds(db, staged);
    ApplyAllTotal(db, staged);
    TransfersHaveNoEffects(env, ApplyAll(db, staged).db, block.header, block.txs, 0);
    FinishTotal(env, ApplyAll(db, staged).db, block, reward, fees);
  }

  lemma ValidTransfersSucceed(env: Env, db: Db, block: Block, reward: u128)
    requires Simple(db, block, reward) && StageBlock(env, db, block).Ok?
    ensures var r := Apply(env, db, block, reward);
            && r.db == Finished(env, db, block, reward).db
            && r.outcome.Ok? && Reports(r.outcome.value, |block.txs|, StageBlock(env, db, block).value.1, reward,
               env.stateRoot(r.db))
  {
    ValidTransfersFinish(env, db, block, reward);
    var (staged, fees) := StageBlock(env, db, block).value;
    ApplyInParts(env, db, block, reward, staged, fees, ApplyAll(db, staged), Finished(env, db, block, reward));
  }

  /** A transfer block is atomic: it succeeds exactly when validation does, and
      a failing one leaves the store unchanged. */
  lemma TransferBlockIsAtomic(env: Env, db: Db, block: Block, reward: u128)
    requires Simple(db, block, reward)
    ensures var r := Apply(env, db, block, reward);
            && (r.outcome.Ok? <==> StageBlock(env, db, block).Ok?)
            && (r.outcome.Err? ==> r.db == db)
  {
    if StageBlock(env, db, block).Ok? { ValidTransfersSucceed(env, db, block, reward); }
  }

  /** A validated transaction moves when it comes first, and raises its nonce. */
  lemma FirstMoves(env: Env, db: Db, tx: TxBody, witnesses: seq<Witness>, s: Staged)
    requires Stage(env, db, 0, tx, witnesses) == Ok(s) && tx.nonce < U64_MAX
    ensures s.sender == tx.sender && ApplyStaged(db, s).error.None?
    ensures NonceOf(db, tx.sender) < NonceOf(ApplyStaged(db, s).db, tx.sender)
  {
    StagedAccount(db, s, s.sender);
  }

  lemma PassRaisesFirst(env: Env, db: Db, block: Block)
    requires StageBlock(env, db, block).Ok? && NoncesBelowMax(block) && block.txs != []
    ensures var moved, sender := ApplyAll(db, StageBlock(env, db, block).value.0), block.txs[0].sender;
            NonceOf(db, sender) < NonceOf(moved.db, sender)
  {
    StagedFromBlock(env, db, block);
    var staged := StageBlock(env, db, block).value.0;
    FirstMoves(env, db, block.txs[0], block.witnesses, staged[0]);
    PassNeverLowersNonces(ApplyStaged(db, staged[0]).db, staged[1..], staged[0].sender);
  }

  /** Below the nonce limit, a repeated sender fails pass 2 after raising a nonce. */
  lemma RepeatedSenderWrites(env: Env, db: Db, block: Block)
    requires StageBlock(env, db, block).Ok? && !OneEach(block.txs) && NoncesBelowMax(block)
    ensures var moved := ApplyAll(db, StageBlock(env, db, block).value.0); moved.error.Some? && moved.db != db
  {
    StagedFromBlock(env, db, block);
    RepeatedSenderFails(db, block.txs, StageBlock(env, db, block).value.0);
    PassRaisesFirst(env, db, block);
  }

  lemma RepeatedSenderFails(db: Db, txs: seq<TxBody>, staged: seq<Staged>)
    requires |staged| == |txs| && StagedAgainst(db, staged) && !OneEach(txs)
    requires forall i :: 0 <= i < |txs| ==> staged[i].sender == txs[i].sender && staged[i].expectedNonce < U64_MAX
    ensures ApplyAll(db, staged).error.Some? && |staged| >= 2
  {
    if ApplyAll(db, staged).error.None? {
      SendersAreDistinct(db, db, staged);
      assert false;
    }
  }

  // ---- Sums over a block ----

  lemma {:induction false} SumWithout<T>(f: T -> nat, s: seq<T>, k: nat)
    requires k < |s|
    ensures SumBy(f, s) == f(s[k]) + SumBy(f, s[..k] + s[k + 1..])
  {
    if k == 0 {
      assert s[..0] + s[1..] == s[1..];
    } else {
      SumWithout(f, s[1..], k - 1);
      assert s[1..][..k - 1] + s[1..][k..] == (s[..k] + s[k + 1..])[1..];
    }
  }

  lemma MultisetWithout<T>(s: seq<T>, k: nat)
    requires k < |s|
    ensures multiset(s[..k] + s[k + 1..]) == multiset(s) - multiset{s[k]}
  {
    assert s == s[..k] + [s[k]] + s[k + 1..];
  }

  /** A sum depends on what is summed, not on the order. */
  lemma {:induction false} SumPermutes<T>(f: T -> nat, s: seq<T>, t: seq<T>)
    requires multiset(s) == multiset(t)
    ensures SumBy(f, s) == SumBy(f, t)
  {
    assert |s| == |multiset(s)| && |t| == |multiset(t)|;
    if s != [] {
      assert s[0] in multiset(t);
      var k :| 0 <= k < |t| && t[k] == s[0];
      SumWithout(f, t, k);
      MultisetWithout(t, k);
      MultisetWithout(s, 0);
      assert s[..0] + s[1..] == s[1..];
      SumPermutes(f, s[1..], t[..k] + t[k + 1..]);
    }
  }

  function In(id: AccountId): Staged -> nat { (s: Staged) => if s.to == id then s.amount else 0 }

  function Out(id: AccountId): Staged -> nat { (s: Staged) => if s.sender == id then s.amount + s.feeSat else 0 }

  /** Balances after pass 2 in closed form. */
  lemma {:induction false} BalanceAfterPass(db: Db, staged: seq<Staged>, id: AccountId)
    requires ApplyAll(db, staged).error.None? && Total(db) <= U128_MAX
    ensures LoadOrDefault(ApplyAll(db, staged).db, id).balance + SumBy(Out(id), staged)
         == LoadOrDefault(db, id).balance + SumBy(In(id), staged)
    decreases |staged|
  {
    if staged != [] {
      var s := staged[0];
      StagedTotal(db, s);
      var a := Debited(LoadOrDefault(db, s.sender), s);
      var db1 := Save(db, s.sender, a);
      SaveThenLoad(db, s.sender, a, id);
      SaveThenLoad(db1, s.to, Credited(LoadOrDefault(db1, s.to), s.amount), id);
      BalanceAfterPass(ApplyStaged(db, s).db, staged[1..], id);
    }
  }

  predicate Touches(staged: seq<Staged>, id: AccountId) { exists s :: s in staged && (s.sender == id || s.to == id) }

  /** Pass 2 writes account records for exactly the accounts it touches. */
  lemma {:induction false} RecordsAfterPass(db: Db, staged: seq<Staged>, k: Key)
    requires ApplyAll(db, staged).error.None?
    ensures var after := ApplyAll(db, staged).db;
            if k.sub.Accounts? && |k.bytes| == 20 && Touches(staged, k.bytes) then k in after && after[k].AccountRec?
            else (k in after <==> k in db) && (k in db ==> after[k] == db[k])
    decreases |staged|
  {
    if staged != [] {
      var s, rest := staged[0], staged[1..];
      var next := ApplyStaged(db, s).db;
      RecordsAfterPass(next, rest, k);
      assert staged == [s] + rest;
    }
  }

  lemma {:induction false} KeyAfterPass(db: Db, staged: seq<Staged>, id: AccountId)
    requires ApplyAll(db, staged).error.None? && DistinctSenders(staged)
    ensures var a, b := LoadOrDefault(db, id), LoadOrDefault(ApplyAll(db, staged).db, id);
            && (a.pubkey != [] || !Sends(staged, id) ==> b.pubkey == a.pubkey && b.sigAlgo == a.sigAlgo)
            && (a.pubkey == [] ==>
               forall s :: s in staged && s.sender == id ==> b.pubkey == s.pubkey && b.sigAlgo == s.sigAlgo)
    decreases |staged|
  {
    if staged != [] {
      var s, rest := staged[0], staged[1..];
      var next := ApplyStaged(db, s).db;
      StagedAccount(db, s, id);
      KeyAfterPass(next, rest, id);
      assert staged == [s] + rest;
      if Sends(rest, id) { var k :| 0 <= k < |rest| && rest[k].sender == id; assert staged[k + 1].sender == id; }
      forall r | r in rest && r.sender == id ensures Sends(rest, id) && s.sender != id {
        var k :| 0 <= k < |rest| && rest[k] == r;
        assert staged[k + 1] == r;
      }
    }
  }

  // ---- Order does not matter ----

  /** Two staged transactions that differ at most in their position. */
  predicate Same(s: Staged, t: Staged) { s.(idx := 0) == t.(idx := 0) }

  predicate Matches(staged: seq<Staged>, others: seq<Staged>) {
    forall s :: s in staged ==> exists t :: t in others && Same(s, t)
  }

  lemma SameAccountAfter(db: Db, s: seq<Staged>, t: seq<Staged>, id: AccountId)
    requires ApplyAll(db, s).error.None? && ApplyAll(db, t).error.None? && Total(db) <= U128_MAX
    requires DistinctSenders(s) && DistinctSenders(t) && Matches(s, t) && Matches(t, s)
    requires SumBy(In(id), s) == SumBy(In(id), t) && SumBy(Out(id), s) == SumBy(Out(id), t)
    ensures LoadOrDefault(ApplyAll(db, s).db, id) == LoadOrDefault(ApplyAll(db, t).db, id)
    ensures Touches(s, id) <==> Touches(t, id)
  {
    SameSenders(s, t, id);
    SameSenders(t, s, id);
    SameNonceAndKeyAfter(db, s, t, id);
    BalanceAfterPass(db, s, id);
    BalanceAfterPass(db, t, id);
  }

  lemma SameNonceAndKeyAfter(db: Db, s: seq<Staged>, t: seq<Staged>, id: AccountId)
    requires ApplyAll(db, s).error.None? && ApplyAll(db, t).error.None?
    requires DistinctSenders(s) && DistinctSenders(t) && Matches(s, t) && (Sends(s, id) <==> Sends(t, id))
    ensures var a, b := LoadOrDefault(ApplyAll(db, s).db, id), LoadOrDefault(ApplyAll(db, t).db, id);
            a.nonce == b.nonce && a.pubkey == b.pubkey && a.sigAlgo == b.sigAlgo
  {
    NoncesAfterPass(db, s, id);
    NoncesAfterPass(db, t, id);
    KeyAfterPass(db, s, id);
    KeyAfterPass(db, t, id);
    if Sends(s, id) {
      var i :| 0 <= i < |s| && s[i].sender == id;
      assert s[i] in s;
      var r :| r in t && Same(s[i], r);
      assert r.sender == id && r.pubkey == s[i].pubkey && r.sigAlgo == s[i].sigAlgo;
    }
  }

  lemma SameSenders(s: seq<Staged>, t: seq<Staged>, id: AccountId)
    requires Matches(s, t)
    ensures Sends(s, id) ==> Sends(t, id)
    ensures Touches(s, id) ==> Touches(t, id)
  {
    if Sends(s, id) {
      var i :| 0 <= i < |s| && s[i].sender == id;
      assert s[i] in s;
      var r :| r in t && Same(s[i], r);
      var k :| 0 <= k < |t| && t[k] == r;
      assert t[k].sender == id;
    }
    if Touches(s, id) {
      var x :| x in s && (x.sender == id || x.to == id);
      var r :| r in t && Same(x, r);
      assert r.sender == id || r.to == id;
    }
  }

  /** Staged lists with the same members and the same sums leave the same store. */
  lemma PassesAgree(db: Db, s: seq<Staged>, t: seq<Staged>)
    requires ApplyAll(db, s).error.None? && ApplyAll(db, t).error.None? && Total(db) <= U128_MAX
    requires DistinctSenders(s) && DistinctSenders(t) && Matches(s, t) && Matches(t, s)
    requires forall id: AccountId :: SumBy(In(id), s) == SumBy(In(id), t) && SumBy(Out(id), s) == SumBy(Out(id), t)
    ensures ApplyAll(db, s).db == ApplyAll(db, t).db
  {
    var a, b := ApplyAll(db, s).db, ApplyAll(db, t).db;
    forall k: Key ensures (k in a <==> k in b) && (k in a ==> a[k] == b[k]) {
      RecordsAfterPass(db, s, k);
      RecordsAfterPass(db, t, k);
      if k.sub.Accounts? && |k.bytes| == 20 {
        SameAccountAfter(db, s, t, k.bytes);
        assert AccountKey(k.bytes) == k;
      }
    }
    assert a.Keys == b.Keys;
  }

  type Pair = (TxBody, Witness)

  function Pairs(block: Block): (p: seq<Pair>)
    requires |block.witnesses| == |block.txs|
    ensures |p| == |block.txs|
    ensures forall i :: 0 <= i < |p| ==> p[i] == (block.txs[i], block.witnesses[i])
  {
    seq(|block.txs|, i requires 0 <= i < |block.txs| => (block.txs[i], block.witnesses[i]))
  }

  /** A transaction's verdict wherever it stands in the block. */
  function PairVerdict(env: Env, db: Db, p: Pair): Result<Staged, ApplyError> {
    if env.witnessHash(p.1) != p.0.witnessHash then Err(WitnessHashMismatch(0)) else ValidateTx(env, db, 0, p.0, p.1)
  }

  lemma PositionDoesNotMatter(env: Env, db: Db, block: Block, i: nat)
    requires |block.witnesses| == |block.txs| && i < |block.txs|
    ensures var v, u := Stage(env, db, i, block.txs[i], block.witnesses), PairVerdict(env, db, Pairs(block)[i]);
            && (v.Ok? <==> u.Ok?)
            && (v.Ok? ==> Same(v.value, u.value))
  {}

  predicate AllValid(env: Env, db: Db, block: Block)
    requires |block.witnesses| == |block.txs|
  {
    forall p :: p in Pairs(block) ==> PairVerdict(env, db, p).Ok?
  }

  lemma StagingSucceedsIff(env: Env, db: Db, block: Block)
    requires |block.witnesses| == |block.txs| <= U64_MAX
    ensures StageBlock(env, db, block).Ok? <==> AllValid(env, db, block)
    ensures StageBlock(env, db, block).Ok? ==>
              var staged := StageBlock(env, db, block).value.0;
              |staged| == |block.txs| && forall i ::
                0 <= i < |staged| ==> Same(staged[i], PairVerdict(env, db, Pairs(block)[i]).value)
  {
    var v := Verdicts(env, db, block.txs, block.witnesses);
    if AllValid(env, db, block) {
      forall k | 0 <= k < |v| ensures v[k].Ok? {
        assert Pairs(block)[k] in Pairs(block);
        PositionDoesNotMatter(env, db, block, k);
      }
      MulMonotone(|v|, U64_MAX, U64_MAX);
      CollectSucceeds(v, 0, 0);
    }
    if StageBlock(env, db, block).Ok? {
      StagedFromBlock(env, db, block);
      var staged := StageBlock(env, db, block).value.0;
      forall i | 0 <= i < |staged| ensures PairVerdict(env, db, Pairs(block)[i]).Ok?
        && Same(staged[i], PairVerdict(env, db, Pairs(block)[i]).value) {
        PositionDoesNotMatter(env, db, block, i);
      }
    }
  }

  function OnPair(env: Env, db: Db, f: Staged -> nat, p: Pair): nat {
    match PairVerdict(env, db, p) case Ok(s) => f(s) case Err(_) => 0
  }

  function OverPairs(env: Env, db: Db, f: Staged -> nat): Pair -> nat { (p: Pair) => OnPair(env, db, f, p) }

  /** Sums over staged transactions are sums over the block's pairs. */
  lemma {:induction false} SumOverPairs(env: Env, db: Db, f: Staged -> nat, staged: seq<Staged>, pairs: seq<Pair>)
    requires |staged| == |pairs|
    requires forall i ::
             0 <= i < |staged| ==>
               PairVerdict(env, db, pairs[i]).Ok? && f(staged[i]) == f(PairVerdict(env, db, pairs[i]).value)
    ensures SumBy(f, staged) == SumBy(OverPairs(env, db, f), pairs)
  {
    if staged != [] { SumOverPairs(env, db, f, staged[1..], pairs[1..]); }
  }

  ghost predicate Reordered(a: Block, b: Block) {
    && a.header == b.header
    && |a.witnesses| == |a.txs| && |b.witnesses| == |b.txs|
    && multiset(Pairs(a)) == multiset(Pairs(b))
  }

  lemma SumsAgree(env: Env, db: Db, a: Block, b: Block, f: Staged -> nat)
    requires Reordered(a, b) && |a.txs| <= U64_MAX && |b.txs| <= U64_MAX
    requires StageBlock(env, db, a).Ok? && StageBlock(env, db, b).Ok?
    requires forall s, t :: Same(s, t) ==> f(s) == f(t)
    ensures SumBy(f, StageBlock(env, db, a).value.0) == SumBy(f, StageBlock(env, db, b).value.0)
  {
    StagingSucceedsIff(env, db, a);
    StagingSucceedsIff(env, db, b);
    AllPairsValid(env, db, a);
    AllPairsValid(env, db, b);
    SumOverPairs(env, db, f, StageBlock(env, db, a).value.0, Pairs(a));
    SumOverPairs(env, db, f, StageBlock(env, db, b).value.0, Pairs(b));
    SumPermutes(OverPairs(env, db, f), Pairs(a), Pairs(b));
  }

  lemma AllPairsValid(env: Env, db: Db, a: Block)
    requires |a.witnesses| == |a.txs| && AllValid(env, db, a)
    ensures forall i :: 0 <= i < |a.txs| ==> PairVerdict(env, db, Pairs(a)[i]).Ok?
  {
    forall i | 0 <= i < |a.txs| ensures PairVerdict(env, db, Pairs(a)[i]).Ok? { assert Pairs(a)[i] in Pairs(a); }
  }

  lemma MatchesAcross(env: Env, db: Db, a: Block, b: Block)
    requires Reordered(a, b) && |a.txs| <= U64_MAX && |b.txs| <= U64_MAX
    requires StageBlock(env, db, a).Ok? && StageBlock(env, db, b).Ok?
    ensures Matches(StageBlock(env, db, a).value.0, StageBlock(env, db, b).value.0)
  {
    StagingSucceedsIff(env, db, a);
    StagingSucceedsIff(env, db, b);
    var s, t := StageBlock(env, db, a).value.0, StageBlock(env, db, b).value.0;
    forall x | x in s ensures exists y :: y in t && Same(x, y) {
      var i :| 0 <= i < |s| && s[i] == x;
      assert Pairs(a)[i] in multiset(Pairs(b));
      var j :| 0 <= j < |Pairs(b)| && Pairs(b)[j] == Pairs(a)[i];
      assert t[j] in t && Same(x, t[j]);
    }
  }

  function SentBy(id: AccountId): Pair -> nat { (p: Pair) => if p.0.sender == id then 1 else 0 }

  lemma {:induction false} SentAtMostOnce(pairs: seq<Pair>, id: AccountId)
    requires forall i, j :: 0 <= i < j < |pairs| ==> pairs[i].0.sender != pairs[j].0.sender
    ensures SumBy(SentBy(id), pairs) <= 1
    ensures (forall i :: 0 <= i < |pairs| ==> pairs[i].0.sender != id) ==> SumBy(SentBy(id), pairs) == 0
  {
    if pairs != [] {
      var rest := pairs[1..];
      forall i, j | 0 <= i < j < |rest| ensures rest[i].0.sender != rest[j].0.sender {
        assert rest[i] == pairs[i + 1] && rest[j] == pairs[j + 1];
      }
      SentAtMostOnce(rest, id);
      if pairs[0].0.sender == id {
        forall i | 0 <= i < |rest| ensures rest[i].0.sender != id { assert rest[i] == pairs[i + 1]; }
      }
    }
  }

  lemma {:induction false} SentTwice(pairs: seq<Pair>, i: nat, j: nat)
    requires i < j < |pairs| && pairs[i].0.sender == pairs[j].0.sender
    ensures SumBy(SentBy(pairs[i].0.sender), pairs) >= 2
  {
    var f := SentBy(pairs[i].0.sender);
    SumWithout(f, pairs, i);
    var rest := pairs[..i] + pairs[i + 1..];
    assert rest[j - 1] == pairs[j];
    SumWithout(f, rest, j - 1);
  }

  lemma ReorderedIsSimple(db: Db, a: Block, b: Block, reward: u128)
    requires Simple(db, a, reward) && Reordered(a, b)
    ensures Simple(db, b, reward) && |a.txs| == |b.txs|
    ensures SenderSet(a.txs) == SenderSet(b.txs)
  {
    var p, q := Pairs(a), Pairs(b);
    assert |p| == |multiset(p)| == |multiset(q)| == |q|;
    forall tx | tx in b.txs ensures tx.call.Transfer? && tx in a.txs { TransactionMoves(b, a, tx); }
    forall tx | tx in a.txs ensures tx in b.txs { TransactionMoves(a, b, tx); }
    forall i, j | 0 <= i < j < |b.txs| ensures b.txs[i].sender != b.txs[j].sender {
      if b.txs[i].sender == b.txs[j].sender {
        SentTwice(q, i, j);
        SentAtMostOnce(p, b.txs[i].sender);
        SumPermutes(SentBy(b.txs[i].sender), p, q);
      }
    }
  }

  lemma TransactionMoves(a: Block, b: Block, tx: TxBody)
    requires Reordered(a, b) && tx in a.txs
    ensures tx in b.txs
  {
    var i :| 0 <= i < |a.txs| && a.txs[i] == tx;
    assert Pairs(a)[i] in multiset(Pairs(b));
    var j :| 0 <= j < |Pairs(b)| && Pairs(b)[j] == Pairs(a)[i];
    assert b.txs[j] == tx;
  }

  lemma ReorderedStaging(env: Env, db: Db, a: Block, b: Block)
    requires Reordered(a, b) && |a.txs| == |b.txs| <= U64_MAX
    ensures StageBlock(env, db, a).Ok? <==> StageBlock(env, db, b).Ok?
  {
    StagingSucceedsIff(env, db, a);
    StagingSucceedsIff(env, db, b);
    forall p ensures p in Pairs(a) <==> p in Pairs(b) { assert p in multiset(Pairs(a)) <==> p in multiset(Pairs(b)); }
  }

  lemma ReorderedFees(env: Env, db: Db, a: Block, b: Block)
    requires Reordered(a, b) && |a.txs| == |b.txs| <= U64_MAX
    requires StageBlock(env, db, a).Ok? && StageBlock(env, db, b).Ok?
    ensures StageBlock(env, db, a).value.1 == StageBlock(env, db, b).value.1
  {
    SumsAgree(env, db, a, b, FeeOf());
    CollectShape(Verdicts(env, db, a.txs, a.witnesses), 0, 0);
    CollectShape(Verdicts(env, db, b.txs, b.witnesses), 0, 0);
  }

  lemma ReorderedPass(env: Env, db: Db, a: Block, b: Block, reward: u128)
    requires Simple(db, a, reward) && Reordered(a, b)
    requires StageBlock(env, db, a).Ok? && StageBlock(env, db, b).Ok?
    ensures ApplyAll(db, StageBlock(env, db, a).value.0) == ApplyAll(db, StageBlock(env, db, b).value.0)
  {
    ReorderedIsSimple(db, a, b, reward);
    var s, t := StageBlock(env, db, a).value.0, StageBlock(env, db, b).value.0;
    StagedAreReady(env, db, a);
    StagedAreReady(env, db, b);
    PassTwoSucceeds(db, s);
    PassTwoSucceeds(db, t);
    MatchesAcross(env, db, a, b);
    MatchesAcross(env, db, b, a);
    forall id: AccountId ensures SumBy(In(id), s) == SumBy(In(id), t) && SumBy(Out(id), s) == SumBy(Out(id), t) {
      SumsAgree(env, db, a, b, In(id));
      SumsAgree(env, db, a, b, Out(id));
    }
    PassesAgree(db, s, t);
  }

  /** Any reordering of a transfer block, witnesses moving along, gets the same
      verdict, the same output and the same store. */
  lemma TransferOrderDoesNotMatter(env: Env, db: Db, a: Block, b: Block, reward: u128)
    requires Simple(db, a, reward) && Reordered(a, b)
    ensures var r, q := Apply(env, db, a, reward), Apply(env, db, b, reward);
            && r.db == q.db
            && (r.outcome.Ok? <==> q.outcome.Ok?)
            && (r.outcome.Ok? ==> r.outcome == q.outcome)
  {
    ReorderedIsSimple(db, a, b, reward);
    ReorderedStaging(env, db, a, b);
    if StageBlock(env, db, a).Ok? { ReorderedApply(env, db, a, b, reward); }
  }

  lemma ReorderedApply(env: Env, db: Db, a: Block, b: Block, reward: u128)
    requires Simple(db, a, reward) && Reordered(a, b)
    requires StageBlock(env, db, a).Ok? && StageBlock(env, db, b).Ok?
    ensures var r, q := Apply(env, db, a, reward), Apply(env, db, b, reward);
            r.db == q.db && r.outcome.Ok? && r.outcome == q.outcome
  {
    ReorderedIsSimple(db, a, b, reward);
    ValidTransfersSucceed(env, db, a, reward);
    ValidTransfersSucceed(env, db, b, reward);
    ReorderedFinish(env, db, a, b, reward);
    SameReport(Apply(env, db, a, reward).outcome.value, Apply(env, db, b, reward).outcome.value,
               |a.txs|, StageBlock(env, db, a).value.1, reward, env.stateRoot(Apply(env, db, a, reward).db));
  }

  lemma SameReport(x: ApplyOutput, y: ApplyOutput, n: nat, fees: u128, reward: u128, root: Hash)
    requires Reports(x, n, fees, reward, root) && Reports(y, n, fees, reward, root)
    ensures x == y
  {}

  lemma ReorderedFinish(env: Env, db: Db, a: Block, b: Block, reward: u128)
    requires Simple(db, a, reward) && Reordered(a, b)
    requires StageBlock(env, db, a).Ok? && StageBlock(env, db, b).Ok?
    ensures StageBlock(env, db, a).value.1 == StageBlock(env, db, b).value.1
    ensures Finished(env, db, a, reward) == Finished(env, db, b, reward)
  {
    ReorderedIsSimple(db, a, b, reward);
    ReorderedPass(env, db, a, b, reward);
    ReorderedFees(env, db, a, b);
    var (staged, fees) := StageBlock(env, db, a).value;
    SameFinish(env, ApplyAll(db, staged).db, a, b, reward, fees);
  }

  lemma SameFinish(env: Env, db: Db, a: Block, b: Block, reward: u128, fees: u128)
    requires a.header == b.header && SenderSet(a.txs) == SenderSet(b.txs)
    ensures Finish(env, db, a, reward, fees) == Finish(env, db, b, reward, fees)
  {}
}
