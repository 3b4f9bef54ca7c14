/** Crypto-suite rotation over runs of blocks. */
module Rotation {
  import opened Machine
  import opened Types
  import opened State
  import opened Ledger
  import opened Authority

  datatype Announcement = Announcement(target: u64, sigAlgo: byte, hashAlgo: byte)

  function Announced(db: Db): Option<Announcement> {
    match PendingOf(db)
    case None => None
    case Some(p) => Some(Announcement(p.targetHeight, p.sigAlgo, p.hashAlgo))
  }

  /** The last announcement among some transactions, or the one before them. */
  function LastIn(txs: seq<TxBody>, before: Option<Announcement>): Option<Announcement> {
    if txs == [] then before
    else
      var call := txs[|txs| - 1].call;
      if call.UpgradeCrypto? then Some(Announcement(call.targetHeight, call.newSigAlgo, call.newHashAlgo))
      else LastIn(txs[..|txs| - 1], before)
  }

  function LastInRun(run: seq<Paid>, before: Option<Announcement>): Option<Announcement> {
    if run == [] then before else LastIn(run[|run| - 1].block.txs, LastInRun(run[..|run| - 1], before))
  }

  /** The history of the active suite, told by announcements alone: at each
      height it changes exactly if the last announcement so far targets it. */
  function ActiveByHistory(run: seq<Paid>, before: Option<Announcement>,
                           start: Option<ActiveCrypto>): Option<ActiveCrypto> {
    if run == [] then start
    else
      var a, height := LastInRun(run, before), run[|run| - 1].block.header.height;
      if a.Some? && a.value.target == height then Some(ActiveCrypto(a.value.sigAlgo, a.value.hashAlgo, height))
      else ActiveByHistory(run[..|run| - 1], before, start)
  }

  lemma EffectAnnounces(env: Env, db: Db, header: BlockHeader, idx: nat, tx: TxBody)
    requires Effect(env, db, header, idx, tx).error.None?
    ensures var after := Effect(env, db, header, idx, tx).db;
            Announced(after) == LastIn([tx], Announced(db)) && ActiveOf(after) == ActiveOf(db)
    ensures tx.call.UpgradeCrypto? ==> tx.call.newSigAlgo in env.allowedSig && tx.call.newHashAlgo in env.allowedHash
  {
    MetaKeysDiffer();
    if tx.call.RegisterAttestCoordinator? { AuthorityKeyDiffers(tx.call.jobId); }
    assert [tx][..0] == [];
  }

  lemma {:induction false} LastInSplit(a: seq<TxBody>, b: seq<TxBody>, before: Option<Announcement>)
    ensures LastIn(a + b, before) == LastIn(b, LastIn(a, before))
  {
    if b == [] {
      assert a + b == a;
    } else {
      LastInSplit(a, b[..|b| - 1], before);
      assert (a + b)[..|a + b| - 1] == a + b[..|b| - 1];
    }
  }

  predicate AllAllowed(env: Env, txs: seq<TxBody>) {
    forall tx ::
      tx in txs && tx.call.UpgradeCrypto? ==>
        tx.call.newSigAlgo in env.allowedSig && tx.call.newHashAlgo in env.allowedHash
  }

  /** A refused effect leaves its announcement unmade; the ones before it stand. */
  lemma {:induction false} EffectsAnnounceUpTo(env: Env, db: Db, header: BlockHeader, txs: seq<TxBody>, i: nat)
      returns (n: nat)
    requires i <= |txs|
    ensures i <= n <= |txs| && (EffectsFrom(env, db, header, txs, i).error.None? <==> n == |txs|)
    ensures Announced(EffectsFrom(env, db, header, txs, i).db) == LastIn(txs[i..n], Announced(db))
    ensures ActiveOf(EffectsFrom(env, db, header, txs, i).db) == ActiveOf(db)
    ensures AllAllowed(env, txs[i..n])
    decreases |txs| - i
  {
    n := i;
    if i < |txs| {
      var first := Effect(env, db, header, i, txs[i]);
      EffectsUnfold(env, db, header, txs, i);
      EffectIsAuthorized(env, db, header, i, txs[i]);
      if first.error.None? {
        EffectAnnounces(env, db, header, i, txs[i]);
        n := EffectsAnnounceUpTo(env, first.db, header, txs, i + 1);
        LastInSplit([txs[i]], txs[i + 1..n], Announced(db));
        assert txs[i..n] == [txs[i]] + txs[i + 1..n];
      }
    }
  }

  lemma FinishActivates(env: Env, db: Db, block: Block, reward: u128, fees: u128)
    requires Finish(env, db, block, reward, fees).error.None?
    ensures var after, a := Finish(env, db, block, reward, fees).db, Announced(db);
            && Announced(after) == a
            && ActiveOf(after) == (if a.Some? && a.value.target == block.header.height
                                   then Some(ActiveCrypto(a.value.sigAlgo, a.value.hashAlgo, block.header.height))
                                   else ActiveOf(db))
  {
    MetaKeysDiffer();
  }

  /** What an accepted block does to the announced and the active suite. */
  ghost predicate RotationStep(before: Db, block: Block, after: Db) {
    var a, height := LastIn(block.txs, Announced(before)), block.header.height;
    && Announced(after) == a
    && ActiveOf(after) == (if a.Some? && a.value.target == height
                           then Some(ActiveCrypto(a.value.sigAlgo, a.value.hashAlgo, height)) else ActiveOf(before))
  }

  lemma AcceptedBlockRotates(env: Env, db: Db, block: Block, reward: u128)
    requires Apply(env, db, block, reward).outcome.Ok?
    ensures RotationStep(db, block, Apply(env, db, block, reward).db) && AllAllowed(env, block.txs)
  {
    var (staged, fees) := StageBlock(env, db, block).value;
    var moved := ApplyAll(db, staged).db;
    PassKeepsRecord(db, staged, UPGRADE);
    PassKeepsRecord(db, staged, ACTIVE);
    var n := EffectsAnnounceUpTo(env, moved, block.header, block.txs, 0);
    assert block.txs[0..n] == block.txs;
    FinishActivates(env, EffectsFrom(env, moved, block.header, block.txs, 0).db, block, reward, fees);
  }

  lemma {:induction false} HistoryOfSteps(m: Transition, db: Db, run: seq<Paid>)
    requires forall d, p :: p in run && m(d, p).outcome.Ok? ==> RotationStep(d, p.block, m(d, p).db)
    requires AllAccepted(m, db, run)
    ensures Announced(After(m, db, run)) == LastInRun(run, Announced(db))
    ensures ActiveOf(After(m, db, run)) == ActiveByHistory(run, Announced(db), ActiveOf(db))
  {
    if run != [] {
      var front, last := run[..|run| - 1], run[|run| - 1];
      HistoryOfSteps(m, db, front);
      assert last in run && RotationStep(After(m, db, front), last.block, After(m, db, run));
    }
  }

  /** Over any run of accepted blocks, the announced and the active suite are
      exactly what the announcements in those blocks say. */
  lemma RotationFollowsHistory(env: Env, db: Db, run: seq<Paid>)
    requires AllAccepted(LedgerOf(env), db, run)
    ensures Announced(After(LedgerOf(env), db, run)) == LastInRun(run, Announced(db))
    ensures ActiveOf(After(LedgerOf(env), db, run)) == ActiveByHistory(run, Announced(db), ActiveOf(db))
  {
    var m := LedgerOf(env);
    forall d, p | p in run && m(d, p).outcome.Ok? ensures RotationStep(d, p.block, m(d, p).db) {
      AcceptedBlockRotates(env, d, p.block, p.reward);
    }
    HistoryOfSteps(m, db, run);
  }

  // ---- Any block, accepted or rejected ----

  /** Whatever a block's outcome, what is announced after it is what its first
      `n` transactions announce; the active suite moves only with an accepted
      block. An announcement in a block rejected later on stays made. */
  lemma BlockAnnouncesUpTo(env: Env, db: Db, block: Block, reward: u128) returns (n: nat)
    ensures n <= |block.txs| && (Apply(env, db, block, reward).outcome.Ok? ==> n == |block.txs|)
    ensures Announced(Apply(env, db, block, reward).db) == LastIn(block.txs[..n], Announced(db))
            && AllAllowed(env, block.txs[..n])
    ensures Apply(env, db, block, reward).outcome.Err? ==> ActiveOf(Apply(env, db, block, reward).db) == ActiveOf(db)
  {
    n := 0;
    if StageBlock(env, db, block).Ok? {
      var (staged, fees) := StageBlock(env, db, block).value;
      var moved := ApplyAll(db, staged);
      PassKeepsRecord(db, staged, UPGRADE);
      PassKeepsRecord(db, staged, ACTIVE);
      if moved.error.None? {
        n := EffectsAnnounceUpTo(env, moved.db, block.header, block.txs, 0);
        assert block.txs[0..n] == block.txs[..n];
        var effects := EffectsFrom(env, moved.db, block.header, block.txs, 0).db;
        if Finish(env, effects, block, reward, fees).error.None? { FinishActivates(env, effects, block, reward, fees); }
      }
    }
  }

  /** The announced and the active suite, if any, are on the build's allowlists. */
  ghost predicate SuitesAllowed(env: Env, db: Db) {
    && (Announced(db).Some? ==>
       Announced(db).value.sigAlgo in env.allowedSig && Announced(db).value.hashAlgo in env.allowedHash)
    && (ActiveOf(db).Some? ==>
       ActiveOf(db).value.sigAlgo in env.allowedSig && ActiveOf(db).value.hashAlgo in env.allowedHash)
  }

  lemma BlockKeepsSuitesAllowed(env: Env, db: Db, block: Block, reward: u128)
    requires SuitesAllowed(env, db)
    ensures SuitesAllowed(env, Apply(env, db, block, reward).db)
  {
    var n := BlockAnnouncesUpTo(env, db, block, reward);
    AllowedLast(env, block.txs[..n], Announced(db));
    if Apply(env, db, block, reward).outcome.Ok? {
      AcceptedBlockRotates(env, db, block, reward);
      assert block.txs[..n] == block.txs;
    }
  }

  lemma {:induction false} AllowedOverRun(m: Transition, env: Env, db: Db, run: seq<Paid>)
    requires forall d, p :: SuitesAllowed(env, d) ==> SuitesAllowed(env, m(d, p).db)
    requires SuitesAllowed(env, db)
    ensures SuitesAllowed(env, After(m, db, run))
  {
    if run != [] { AllowedOverRun(m, env, db, run[..|run| - 1]); }
  }

  /** Over any run of blocks, accepted or rejected, every suite announced or
      active is on the build's allowlists. */
  lemma ActivatedSuitesAreAllowed(env: Env, db: Db, run: seq<Paid>)
    requires SuitesAllowed(env, db)
    ensures SuitesAllowed(env, After(LedgerOf(env), db, run))
  {
    var m := LedgerOf(env);
    forall d: Db, p: Paid | SuitesAllowed(env, d) ensures SuitesAllowed(env, m(d, p).db) {
      BlockKeepsSuitesAllowed(env, d, p.block, p.reward);
    }
    AllowedOverRun(m, env, db, run);
  }

  lemma {:induction false} AllowedLast(env: Env, txs: seq<TxBody>, before: Option<Announcement>)
    requires AllAllowed(env, txs) && (before.Some? ==>
             before.value.sigAlgo in env.allowedSig && before.value.hashAlgo in env.allowedHash)
    ensures var a := LastIn(txs, before); a.Some? ==>
            a.value.sigAlgo in env.allowedSig && a.value.hashAlgo in env.allowedHash
  {
    if txs != [] {
      assert txs[|txs| - 1] in txs;
      AllowedLast(env, txs[..|txs| - 1], before);
    }
  }

  predicate Ascending(run: seq<Paid>) {
    forall i, j :: 0 <= i < j < |run| ==> run[i].block.header.height < run[j].block.header.height
  }

  predicate Silent(run: seq<Paid>, k: nat) {
    forall i :: k <= i < |run| ==> forall tx :: tx in run[i].block.txs ==> !tx.call.UpgradeCrypto?
  }

  lemma {:induction false} SilentKeepsLast(txs: seq<TxBody>, before: Option<Announcement>)
    requires forall tx :: tx in txs ==> !tx.call.UpgradeCrypto?
    ensures LastIn(txs, before) == before
  {
    if txs != [] {
      assert txs[|txs| - 1] in txs;
      SilentKeepsLast(txs[..|txs| - 1], before);
    }
  }

  /** An announcement whose target has already passed when the chain reaches
      block `k` never activates: until another one is made nothing changes. */
  lemma {:induction false} StaleAnnouncementNeverActivates(run: seq<Paid>, before: Option<Announcement>,
                                                           start: Option<ActiveCrypto>, k: nat)
    requires Ascending(run) && 0 < k <= |run| && Silent(run, k)
    requires var a := LastInRun(run[..k], before); a.Some? && a.value.target <= run[k - 1].block.header.height
    ensures LastInRun(run, before) == LastInRun(run[..k], before)
    ensures ActiveByHistory(run, before, start) == ActiveByHistory(run[..k], before, start)
  {
    if k == |run| {
      assert run[..k] == run;
    } else {
      var n := |run| - 1;
      var front := run[..n];
      assert front[..k] == run[..k];
      StaleAnnouncementNeverActivates(front, before, start, k);
      SilentKeepsLast(run[n].block.txs, LastInRun(front, before));
    }
  }
}
