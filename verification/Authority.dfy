/** Governance over whole runs: who may change what, and under which
    configuration. */
module Authority {
  import opened Machine
  import opened Types
  import opened State
  import opened Ledger
  import G = Governance

  // ---- What each phase leaves alone ----

  lemma {:induction false} PassKeepsRecord(db: Db, staged: seq<Staged>, k: Key)
    requires !k.sub.Accounts?
    ensures var after := ApplyAll(db, staged).db; (k in after <==> k in db) && (k in db ==> after[k] == db[k])
    decreases |staged|
  {
    if staged != [] && ApplyStaged(db, staged[0]).error.None? {
      PassKeepsRecord(ApplyStaged(db, staged[0]).db, staged[1..], k);
    }
  }

  lemma FinishKeepsGovernance(env: Env, db: Db, block: Block, reward: u128, fees: u128)
    ensures GovernanceOf(Finish(env, db, block, reward, fees).db) == GovernanceOf(db)
  {
    MetaKeysDiffer();
  }

  lemma MetaKeysDiffer()
    ensures GOVERNANCE != UPGRADE && GOVERNANCE != ACTIVE && UPGRADE != ACTIVE
  {
    assert |GOVERNANCE.bytes| == 10 && |UPGRADE.bytes| == 14 && |ACTIVE.bytes| == 13;
  }

  lemma AuthorityKeyDiffers(jobId: Hash)
    ensures AuthorityKey(jobId) != GOVERNANCE && AuthorityKey(jobId) != UPGRADE && AuthorityKey(jobId) != ACTIVE
  {
    assert |GOVERNANCE.bytes| == 10 && |UPGRADE.bytes| == 14 && |ACTIVE.bytes| == 13
      && |AuthorityKey(jobId).bytes| == 37;
  }

  // ---- One transaction ----

  /** A decodable proof that meets the configuration in force, if there is one. */
  predicate ProofFor(env: Env, inForce: Option<G.Config>, proofCbor: seq<byte>, payload: Hash) {
    inForce.Some? ==>
      proofCbor != [] && env.decodeProof(proofCbor).Some? &&
      G.Meets(env.verify, inForce.value, env.decodeProof(proofCbor).value, payload)
  }

  /** What lets a governed call through under the configuration in force. */
  predicate Authorized(env: Env, inForce: Option<G.Config>, call: TxCall) {
    match call
    case UpgradeCrypto(target, sigAlgo, hashAlgo, proof) =>
      ProofFor(env, inForce, proof, env.upgradePayload(target, sigAlgo, hashAlgo))
    case RegisterAttestCoordinator(jobId, coordinators, proof) =>
      ProofFor(env, inForce, proof, env.registerPayload(jobId, coordinators))
    case SetGovernance(cbor, proof) =>
      env.decodeConfig(cbor).Some? && G.WellFormed(env.decodeConfig(cbor).value) &&
      ProofFor(env, inForce, proof, env.configPayload(env.decodeConfig(cbor).value))
    case _ => true
  }

  /** The configuration after a call that went through. */
  function Next(env: Env, inForce: Option<G.Config>, call: TxCall): Option<G.Config> {
    if call.SetGovernance? then env.decodeConfig(call.configCbor) else inForce
  }

  lemma EffectIsAuthorized(env: Env, db: Db, header: BlockHeader, idx: nat, tx: TxBody)
    ensures var r := Effect(env, db, header, idx, tx);
            if r.error.Some? then r.db == db
            else
              && Authorized(env, GovernanceOf(db), tx.call)
              && GovernanceOf(r.db) == Next(env, GovernanceOf(db), tx.call)
  {
    MetaKeysDiffer();
    if tx.call.RegisterAttestCoordinator? { AuthorityKeyDiffers(tx.call.jobId); }
  }

  // ---- One block ----

  /** The configuration in force before transaction `i` of a block. */
  function InForce(env: Env, start: Option<G.Config>, txs: seq<TxBody>, i: nat): Option<G.Config>
    requires i <= |txs|
  {
    if i == 0 then start else Next(env, InForce(env, start, txs, i - 1), txs[i - 1].call)
  }

  /** The first `n` transactions each carried their authorization under the
      configuration in force when they ran. */
  predicate AuthorizedUpTo(env: Env, start: Option<G.Config>, txs: seq<TxBody>, n: nat)
    requires n <= |txs|
  {
    forall i :: 0 <= i < n ==> Authorized(env, InForce(env, start, txs, i), txs[i].call)
  }

  lemma OneEffect(env: Env, start: Option<G.Config>, db: Db, header: BlockHeader, txs: seq<TxBody>, i: nat)
      returns (first: Step)
    requires i < |txs| && GovernanceOf(db) == InForce(env, start, txs, i) && AuthorizedUpTo(env, start, txs, i)
    ensures EffectsFrom(env, db, header, txs, i) == if first.error.Some? then first
            else EffectsFrom(env, first.db, header, txs, i + 1)
    ensures first.error.Some? ==> first.db == db
    ensures first.error.None? ==>
            GovernanceOf(first.db) == InForce(env, start, txs, i + 1) && AuthorizedUpTo(env, start, txs, i + 1)
  {
    first := Effect(env, db, header, i, txs[i]);
    EffectIsAuthorized(env, db, header, i, txs[i]);
    EffectsUnfold(env, db, header, txs, i);
    if first.error.None? { OneMoreAuthorized(env, start, txs, i); }
  }

  lemma EffectsUnfold(env: Env, db: Db, header: BlockHeader, txs: seq<TxBody>, i: nat)
    requires i < |txs|
    ensures var first := Effect(env, db, header, i, txs[i]);
            EffectsFrom(env, db, header, txs, i) == if first.error.Some? then first
              else EffectsFrom(env, first.db, header, txs, i + 1)
  {}

  lemma OneMoreAuthorized(env: Env, start: Option<G.Config>, txs: seq<TxBody>, i: nat)
    requires i < |txs| && AuthorizedUpTo(env, start, txs, i)
             && Authorized(env, InForce(env, start, txs, i), txs[i].call)
    ensures AuthorizedUpTo(env, start, txs, i + 1)
  {}

  lemma {:induction false} EffectsAreAuthorized(env: Env, start: Option<G.Config>, db: Db, header: BlockHeader,
                                                txs: seq<TxBody>, i: nat)
      returns (n: nat)
    requires i <= |txs| && GovernanceOf(db) == InForce(env, start, txs, i) && AuthorizedUpTo(env, start, txs, i)
    ensures i <= n <= |txs| && AuthorizedUpTo(env, start, txs, n)
    ensures GovernanceOf(EffectsFrom(env, db, header, txs, i).db) == InForce(env, start, txs, n)
    ensures EffectsFrom(env, db, header, txs, i).error.None? ==> n == |txs|
    decreases |txs| - i
  {
    n := i;
    if i < |txs| {
      var first := OneEffect(env, start, db, header, txs, i);
      if first.error.None? { n := EffectsAreAuthorized(env, start, first.db, header, txs, i + 1); }
    }
  }

  /** Within one block, whatever its outcome: the configuration left behind is
      the one its first `n` transactions lead to, and each of those that is
      governed carries a proof meeting the configuration in force at that very
      transaction, changes made earlier in the block included. An accepted
      block gets through all of its transactions. */
  lemma BlockFollowsGovernance(env: Env, db: Db, block: Block, reward: u128) returns (n: nat)
    ensures n <= |block.txs| && AuthorizedUpTo(env, GovernanceOf(db), block.txs, n)
    ensures GovernanceOf(Apply(env, db, block, reward).db) == InForce(env, GovernanceOf(db), block.txs, n)
    ensures Apply(env, db, block, reward).outcome.Ok? ==> n == |block.txs|
  {
    n := 0;
    var stage := StageBlock(env, db, block);
    if stage.Ok? {
      var (staged, fees) := stage.value;
      var moved := ApplyAll(db, staged);
      PassKeepsRecord(db, staged, GOVERNANCE);
      if moved.error.None? {
        n := EffectsAreAuthorized(env, GovernanceOf(db), moved.db, block.header, block.txs, 0);
        var effects := EffectsFrom(env, moved.db, block.header, block.txs, 0);
        FinishKeepsGovernance(env, effects.db, block, reward, fees);
      }
    }
  }

  // ---- Runs ----

  /** `None` is bootstrap; a configuration, once there, is well-formed. */
  predicate Sound(cfg: Option<G.Config>) { cfg.Some? ==> G.WellFormed(cfg.value) }

  lemma {:induction false} InForceStaysSound(env: Env, start: Option<G.Config>, txs: seq<TxBody>, n: nat)
    requires n <= |txs| && Sound(start) && AuthorizedUpTo(env, start, txs, n)
    ensures Sound(InForce(env, start, txs, n)) && (start.Some? ==> InForce(env, start, txs, n).Some?)
  {
    if n > 0 {
      InForceStaysSound(env, start, txs, n - 1);
      assert Authorized(env, InForce(env, start, txs, n - 1), txs[n - 1].call);
    }
  }

  lemma {:induction false} SoundOverRuns(m: Transition, db: Db, run: seq<Paid>, k: nat)
    requires forall d, p :: Sound(GovernanceOf(d)) ==>
               Sound(GovernanceOf(m(d, p).db)) && (GovernanceOf(d).Some? ==> GovernanceOf(m(d, p).db).Some?)
    requires Sound(GovernanceOf(db)) && k <= |run|
    ensures Sound(GovernanceOf(After(m, db, run)))
    ensures GovernanceOf(After(m, db, run[..k])).Some? ==> GovernanceOf(After(m, db, run)).Some?
  {
    if k == |run| { assert run[..k] == run; }
    if run != [] {
      var front := run[..|run| - 1];
      SoundOverRuns(m, db, front, if k < |run| then k else |front|);
      if k < |run| { assert front[..k] == run[..k]; }
    }
  }

  /** Over every run of blocks, accepted or rejected: a configuration once
      installed is never dropped, and always well-formed. */
  lemma GovernanceNeverReverts(env: Env, db: Db, run: seq<Paid>, k: nat)
    requires Sound(GovernanceOf(db)) && k <= |run|
    ensures Sound(GovernanceOf(After(LedgerOf(env), db, run)))
    ensures GovernanceOf(After(LedgerOf(env), db, run[..k])).Some? ==> GovernanceOf(After(LedgerOf(env), db, run)).Some?
  {
    var m := LedgerOf(env);
    forall d: Db, p: Paid | Sound(GovernanceOf(d))
      ensures Sound(GovernanceOf(m(d, p).db)) && (GovernanceOf(d).Some? ==> GovernanceOf(m(d, p).db).Some?)
    {
      var n := BlockFollowsGovernance(env, d, p.block, p.reward);
      InForceStaysSound(env, GovernanceOf(d), p.block.txs, n);
    }
    SoundOverRuns(m, db, run, k);
  }
}
