/** What an accepted block leaves in the store beside the accounts
    (crates/state/src/apply.rs), record by record. */
module Records {
  import opened Machine
  import opened Bytes
  import opened Types
  import opened State
  import opened Ledger
  import opened Replay
  import opened Authority
  import opened Transfers
  import opened Atomicity
  import opened Settlement
  import opened Admission
  import G = Governance

  // ---- Effect by effect ----

  /** The store before the `i`-th effect, as long as none is refused. */
  function Before(env: Env, db: Db, header: BlockHeader, txs: seq<TxBody>, i: nat): Db
    requires i <= |txs|
  {
    if i == 0 then db else Effect(env, Before(env, db, header, txs, i - 1), header, i - 1, txs[i - 1]).db
  }

  lemma {:induction false} EffectsReach(env: Env, db: Db, header: BlockHeader, txs: seq<TxBody>, i: nat)
    requires i <= |txs| && EffectsFrom(env, db, header, txs, 0).error.None?
    ensures EffectsFrom(env, Before(env, db, header, txs, i), header, txs, i) == EffectsFrom(env, db, header, txs, 0)
    ensures i < |txs| ==> Effect(env, Before(env, db, header, txs, i), header, i, txs[i]).error.None?
  {
    if i > 0 {
      EffectsReach(env, db, header, txs, i - 1);
      EffectsUnfold(env, Before(env, db, header, txs, i - 1), header, txs, i - 1);
    }
    if i < |txs| { EffectsUnfold(env, Before(env, db, header, txs, i), header, txs, i); }
  }

  // ---- Coordinators ----

  /** The coordinators of a job when the `i`-th effect runs: the last ones that an
      earlier transaction of the block registered, or else those on record. */
  function RegisteredBefore(db: Db, txs: seq<TxBody>, jobId: Hash, i: nat): seq<AccountId>
    requires i <= |txs|
  {
    if i == 0 then Registered(db, jobId)
    else if txs[i - 1].call.RegisterAttestCoordinator? && txs[i - 1].call.jobId == jobId
    then txs[i - 1].call.coordinators
    else RegisteredBefore(db, txs, jobId, i - 1)
  }

  lemma EffectRegisters(env: Env, db: Db, header: BlockHeader, idx: nat, tx: TxBody, jobId: Hash)
    requires Effect(env, db, header, idx, tx).error.None?
    ensures Registered(Effect(env, db, header, idx, tx).db, jobId)
         == if tx.call.RegisterAttestCoordinator? && tx.call.jobId == jobId then tx.call.coordinators
            else Registered(db, jobId)
  {
    AuthorityKeyDiffers(jobId);
    if tx.call.RegisterAttestCoordinator? { AuthorityKeysEqual(tx.call.jobId, jobId); }
  }

  lemma AuthorityKeysEqual(a: Hash, b: Hash)
    ensures AuthorityKey(a) == AuthorityKey(b) <==> a == b
  {
    RecordKeysAreApart(seq(20, _ => 0), a, b, 0, seq(16, _ => 0), 0);
  }

  lemma {:induction false} CoordinatorsReach(env: Env, db: Db, header: BlockHeader, txs: seq<TxBody>, jobId: Hash,
                                             i: nat)
    requires i <= |txs| && EffectsFrom(env, db, header, txs, 0).error.None?
    ensures Registered(Before(env, db, header, txs, i), jobId) == RegisteredBefore(db, txs, jobId, i)
  {
    if i > 0 {
      CoordinatorsReach(env, db, header, txs, jobId, i - 1);
      EffectsReach(env, db, header, txs, i - 1);
      EffectRegisters(env, Before(env, db, header, txs, i - 1), header, i - 1, txs[i - 1], jobId);
    }
  }

  lemma PassKeepsRegistered(db: Db, staged: seq<Staged>, txs: seq<TxBody>, jobId: Hash, i: nat)
    requires i <= |txs|
    ensures RegisteredBefore(ApplyAll(db, staged).db, txs, jobId, i) == RegisteredBefore(db, txs, jobId, i)
  {
    if i == 0 { PassKeepsRecord(db, staged, AuthorityKey(jobId)); }
    else { PassKeepsRegistered(db, staged, txs, jobId, i - 1); }
  }

  /** Every attestation in an accepted block, of a training round or of a pedigree,
      comes from a coordinator registered for its job at that point of the block,
      where any is; and every cage code is five digits or capital letters. */
  lemma AcceptedAttestationsAreRegistered(env: Env, db: Db, block: Block, reward: u128, i: nat)
    requires Apply(env, db, block, reward).outcome.Ok? && i < |block.txs|
    ensures var tx := block.txs[i];
            && (tx.call.AttestRound? || tx.call.AttestPedigree? ==>
                  var listed := RegisteredBefore(db, block.txs, tx.call.jobId, i);
                  listed == [] || tx.sender in listed)
            && (tx.call.AttestPedigree? ==>
                  forall k :: 0 <= k < 5 ==> 48 <= tx.call.cageCode[k] <= 57 || 65 <= tx.call.cageCode[k] <= 90)
            && !tx.call.DeployContract? && !tx.call.CallContract?
  {
    var staged, moved, done := AcceptedInParts(env, db, block, reward);
    var header, txs := block.header, block.txs;
    StagedFromBlock(env, db, block);
    StagedIffAdmissible(env, db, i, txs[i], block.witnesses);
    EffectsReach(env, moved, header, txs, i);
    EffectGoesThroughIff(env, Before(env, moved, header, txs, i), header, i, txs[i]);
    if txs[i].call.AttestRound? || txs[i].call.AttestPedigree? {
      CoordinatorsReach(env, moved, header, txs, txs[i].call.jobId, i);
      PassKeepsRegistered(db, staged, txs, txs[i].call.jobId, i);
    }
  }

  // ---- What stands afterwards ----

  predicate SameUnder(a: Db, b: Db, k: Key) { (k in a <==> k in b) && (k in a ==> a[k] == b[k]) }

  lemma {:induction false} UnwrittenStays(env: Env, db: Db, header: BlockHeader, txs: seq<TxBody>, i: nat, k: Key)
    requires i <= |txs| && EffectsFrom(env, db, header, txs, i).error.None?
    requires forall j :: i <= j < |txs| ==> k !in Written(env, header, txs[j])
    ensures SameUnder(EffectsFrom(env, db, header, txs, i).db, db, k)
    decreases |txs| - i
  {
    if i < |txs| {
      EffectsUnfold(env, db, header, txs, i);
      EffectWrites(env, db, header, i, txs[i]);
      UnwrittenStays(env, Effect(env, db, header, i, txs[i]).db, header, txs, i + 1, k);
    }
  }

  lemma LastWrittenStays(env: Env, db: Db, header: BlockHeader, txs: seq<TxBody>, i: nat, k: Key)
    requires i < |txs| && EffectsFrom(env, db, header, txs, 0).error.None? && k in Written(env, header, txs[i])
    requires forall j :: i < j < |txs| ==> k !in Written(env, header, txs[j])
    ensures var after := EffectsFrom(env, db, header, txs, 0).db;
            k in after && after[k] == Written(env, header, txs[i])[k]
  {
    var d := Before(env, db, header, txs, i);
    EffectsReach(env, db, header, txs, i);
    EffectsUnfold(env, d, header, txs, i);
    EffectWrites(env, d, header, i, txs[i]);
    UnwrittenStays(env, Effect(env, d, header, i, txs[i]).db, header, txs, i + 1, k);
  }

  lemma FinishLeaves(env: Env, db: Db, block: Block, reward: u128, fees: u128, k: Key)
    requires !k.sub.Accounts? && !k.sub.Reflect? && k != ACTIVE
    ensures SameUnder(Finish(env, db, block, reward, fees).db, db, k)
  {}

  lemma LastWrittenIsRecorded(env: Env, db: Db, block: Block, reward: u128, i: nat, k: Key, r: Record)
    requires Apply(env, db, block, reward).outcome.Ok? && i < |block.txs|
    requires !k.sub.Accounts? && !k.sub.Reflect? && k != ACTIVE
    requires k in Written(env, block.header, block.txs[i]) && Written(env, block.header, block.txs[i])[k] == r
    requires forall j :: i < j < |block.txs| ==> k !in Written(env, block.header, block.txs[j])
    ensures var after := Apply(env, db, block, reward).db; k in after && after[k] == r
  {
    var staged, moved, done := AcceptedInParts(env, db, block, reward);
    LastWrittenStays(env, moved, block.header, block.txs, i, k);
    FinishLeaves(env, done, block, reward, StageBlock(env, db, block).value.1, k);
  }

  /** Whether a transaction's effect is filed under `k`. */
  predicate FiledUnder(call: TxCall, k: Key) {
    match call
    case AttestRound(jobId, roundId, _, _) => k == AttestKey(jobId, roundId)
    case RegisterAttestCoordinator(jobId, _, _) => k == AuthorityKey(jobId)
    case AttestPedigree(jobId, lotId, _, _, _) => k == PedigreeKey(jobId, lotId)
    case UpgradeCrypto(_, _, _, _) => k == UPGRADE
    case SetGovernance(_, _) => k == GOVERNANCE
    case _ => false
  }

  lemma WritesOnlyThere(env: Env, header: BlockHeader, tx: TxBody, k: Key)
    ensures k in Written(env, header, tx) ==> FiledUnder(tx.call, k)
  {}

  /** Keys of different rounds and lots differ, and say which they are. */
  lemma AttestKeysDiffer(a: Hash, m: u64, b: Hash, n: u64)
    ensures AttestKey(a, m) == AttestKey(b, n) <==> a == b && m == n
  {
    Pow64();
    BigEndianRoundTrip(m, 8);
    BigEndianRoundTrip(n, 8);
    var x, y := AttestKey(a, m).bytes, AttestKey(b, n).bytes;
    assert x[..32] == a && y[..32] == b && x[32..] == BigEndian(m, 8) && y[32..] == BigEndian(n, 8);
  }

  lemma Pow64()
    ensures Pow256(8) == U64_MAX + 1
  {
    assert Pow256(4) == U32_MAX + 1;
    PowAdd(4, 4);
  }

  lemma PedigreeKeysDiffer(a: Hash, m: LotId, b: Hash, n: LotId)
    ensures PedigreeKey(a, m) == PedigreeKey(b, n) <==> a == b && m == n
  {
    var x, y := PedigreeKey(a, m).bytes, PedigreeKey(b, n).bytes;
    assert x[4..36] == a && y[4..36] == b && x[36..] == m && y[36..] == n;
  }

  lemma KeySizes(job: Hash, round: u64, lot: LotId)
    ensures |AttestKey(job, round).bytes| == 40 && |PedigreeKey(job, lot).bytes| == 52
    ensures AttestKey(job, round).sub.Attest? && PedigreeKey(job, lot).sub.Attest? && AuthorityKey(job).sub.Meta?
  {}

  lemma FiledAsRound(call: TxCall, job: Hash, round: u64)
    ensures FiledUnder(call, AttestKey(job, round)) <==>
            call.AttestRound? && call.jobId == job && call.roundId == round
  {
    KeySizes(job, round, seq(16, _ => 0));
    match call
    case AttestRound(jobId, roundId, _, _) => AttestKeysDiffer(jobId, roundId, job, round);
    case AttestPedigree(jobId, lotId, _, _, _) => KeySizes(jobId, round, lotId);
    case RegisterAttestCoordinator(jobId, _, _) => KeySizes(jobId, round, seq(16, _ => 0));
    case _ =>
  }

  lemma FiledAsLot(call: TxCall, job: Hash, lot: LotId)
    ensures FiledUnder(call, PedigreeKey(job, lot)) <==>
            call.AttestPedigree? && call.jobId == job && call.lotId == lot
  {
    KeySizes(job, 0, lot);
    match call
    case AttestRound(jobId, roundId, _, _) => KeySizes(jobId, roundId, lot);
    case AttestPedigree(jobId, lotId, _, _, _) => PedigreeKeysDiffer(jobId, lotId, job, lot);
    case RegisterAttestCoordinator(jobId, _, _) => KeySizes(jobId, 0, lot);
    case _ =>
  }

  lemma FiledInMeta(call: TxCall, job: Hash)
    ensures FiledUnder(call, AuthorityKey(job)) <==> call.RegisterAttestCoordinator? && call.jobId == job
    ensures FiledUnder(call, UPGRADE) <==> call.UpgradeCrypto?
    ensures FiledUnder(call, GOVERNANCE) <==> call.SetGovernance?
    ensures !FiledUnder(call, ACTIVE)
  {
    MetaKeysDiffer();
    AuthorityKeyDiffers(job);
    match call
    case AttestRound(jobId, roundId, _, _) => KeySizes(jobId, roundId, seq(16, _ => 0));
    case AttestPedigree(jobId, lotId, _, _, _) => KeySizes(jobId, 0, lotId);
    case RegisterAttestCoordinator(jobId, _, _) => AuthorityKeysEqual(jobId, job); AuthorityKeyDiffers(jobId);
    case _ =>
  }

  /** The `i`-th transaction of a block is the last one filed under `k`. */
  predicate LastFiled(block: Block, i: nat, k: Key)
    requires i < |block.txs|
  {
    FiledUnder(block.txs[i].call, k) && forall j :: i < j < |block.txs| ==> !FiledUnder(block.txs[j].call, k)
  }

  /** What the last transaction filed under a key wrote is what an accepted block
      leaves there: an attestation with its sender and the block's height and time,
      coordinators and announcements with the block's height, a configuration as it
      decodes. */
  lemma LastFiledIsRecorded(env: Env, db: Db, block: Block, reward: u128, i: nat, k: Key)
    requires Apply(env, db, block, reward).outcome.Ok? && i < |block.txs| && LastFiled(block, i, k)
    ensures var tx, h, after := block.txs[i], block.header, Apply(env, db, block, reward).db;
            k in after &&
            match tx.call {
              case AttestRound(job, round, model, eps) =>
                after[k] == AttestRec(job, round, model, eps, tx.sender, h.height, h.timestamp)
              case AttestPedigree(job, lot, supplier, cage, authority) =>
                after[k] == PedigreeRec(job, lot, supplier, cage, authority, tx.sender, h.height, h.timestamp)
              case RegisterAttestCoordinator(job, coordinators, _) =>
                after[k] == AuthorityRec(job, coordinators, h.height)
              case UpgradeCrypto(target, sigAlgo, hashAlgo, _) =>
                after[k] == PendingRec(PendingUpgrade(target, sigAlgo, hashAlgo, h.height))
              case SetGovernance(cbor, _) =>
                env.decodeConfig(cbor).Some? && after[k] == GovernanceRec(env.decodeConfig(cbor).value)
              case _ => true
            }
  {
    var tx, h := block.txs[i], block.header;
    forall j | i < j < |block.txs| ensures k !in Written(env, h, block.txs[j]) {
      WritesOnlyThere(env, h, block.txs[j], k);
    }
    if tx.call.SetGovernance? { AcceptedConfigDecodes(env, db, block, reward, i); }
    FiledIsWritten(env, h, tx, k);
    LastWrittenIsRecorded(env, db, block, reward, i, k, Written(env, h, tx)[k]);
  }

  lemma FiledIsWritten(env: Env, header: BlockHeader, tx: TxBody, k: Key)
    requires FiledUnder(tx.call, k)
    requires tx.call.SetGovernance? ==> env.decodeConfig(tx.call.configCbor).Some?
    ensures k in Written(env, header, tx) && !k.sub.Accounts? && !k.sub.Reflect? && k != ACTIVE
  {
    FiledInMeta(tx.call, seq(32, _ => 0));
  }

  lemma AcceptedConfigDecodes(env: Env, db: Db, block: Block, reward: u128, i: nat)
    requires Apply(env, db, block, reward).outcome.Ok? && i < |block.txs| && block.txs[i].call.SetGovernance?
    ensures env.decodeConfig(block.txs[i].call.configCbor).Some?
  {
    var staged, moved, done := AcceptedInParts(env, db, block, reward);
    EffectsReach(env, moved, block.header, block.txs, i);
    EffectGoesThroughIff(env, Before(env, moved, block.header, block.txs, i), block.header, i, block.txs[i]);
  }

  /** Where nothing is filed, nothing changes. */
  lemma UnfiledStays(env: Env, db: Db, block: Block, reward: u128, k: Key)
    requires Apply(env, db, block, reward).outcome.Ok?
    requires !k.sub.Accounts? && !k.sub.Reflect? && k != ACTIVE
    requires forall i :: 0 <= i < |block.txs| ==> !FiledUnder(block.txs[i].call, k)
    ensures SameUnder(Apply(env, db, block, reward).db, db, k)
  {
    var staged, moved, done := AcceptedInParts(env, db, block, reward);
    PassKeepsRecord(db, staged, k);
    UnfiledPass(env, moved, block, k);
    FinishLeaves(env, done, block, reward, StageBlock(env, db, block).value.1, k);
  }

  lemma UnfiledPass(env: Env, db: Db, block: Block, k: Key)
    requires EffectsFrom(env, db, block.header, block.txs, 0).error.None?
    requires forall i :: 0 <= i < |block.txs| ==> !FiledUnder(block.txs[i].call, k)
    ensures SameUnder(EffectsFrom(env, db, block.header, block.txs, 0).db, db, k)
  {
    forall j | 0 <= j < |block.txs| ensures k !in Written(env, block.header, block.txs[j]) {
      WritesOnlyThere(env, block.header, block.txs[j], k);
    }
    UnwrittenStays(env, db, block.header, block.txs, 0, k);
  }

  // ---- What closing the block writes ----

  /** An accepted block leaves one reflection record, under its height and as the
      latest one: its bits, how many accounts sent in it, their fees, and what the
      coinbase got; the remaining fields are zero. */
  lemma ReflectionIsRecorded(env: Env, db: Db, block: Block, reward: u128)
    requires Apply(env, db, block, reward).outcome.Ok?
    ensures reward + Fees(block.txs) <= U128_MAX
    ensures var after, h := Apply(env, db, block, reward).db, block.header;
            var senders := set tx | tx in block.txs :: tx.sender;
            var r := ReflectionRec(Reflection(h.bits, |senders|, Fees(block.txs), reward + Fees(block.txs), 0, 0, 0));
            && ReflectKey(h.height) in after && after[ReflectKey(h.height)] == r
            && LATEST in after && after[LATEST] == r
  {
    var staged, moved, done := AcceptedInParts(env, db, block, reward);
    StagedMoves(env, db, block, block.header.coinbase[..20]);
    FinishReflects(env, done, block, reward, Fees(block.txs));
  }

  lemma FinishReflects(env: Env, db: Db, block: Block, reward: u128, fees: u128)
    requires Finish(env, db, block, reward, fees).error.None?
    ensures reward + fees <= U128_MAX
    ensures var after, h := Finish(env, db, block, reward, fees).db, block.header;
            var senders := set tx | tx in block.txs :: tx.sender;
            var r := ReflectionRec(Reflection(h.bits, |senders|, fees, reward + fees, 0, 0, 0));
            && ReflectKey(h.height) in after && after[ReflectKey(h.height)] == r
            && LATEST in after && after[LATEST] == r
  {
    var senders := set tx | tx in block.txs :: tx.sender;
    assert SenderSet(block.txs) == senders;
    assert |ReflectKey(block.header.height).bytes| == 14 && |LATEST.bytes| == 6;
  }

  /** A suite becomes active exactly in the block whose height was announced: the
      announcement then pending is the active suite after it, and in every other
      accepted block the active suite stays. */
  lemma SuiteActivates(env: Env, db: Db, block: Block, reward: u128)
    requires Apply(env, db, block, reward).outcome.Ok?
    ensures var after, h := Apply(env, db, block, reward).db, block.header.height;
            if PendingOf(after).Some? && PendingOf(after).value.targetHeight == h then
              ActiveOf(after) == Some(ActiveCrypto(PendingOf(after).value.sigAlgo, PendingOf(after).value.hashAlgo, h))
            else ActiveOf(after) == ActiveOf(db)
  {
    var staged, moved, done := AcceptedInParts(env, db, block, reward);
    PassKeepsRecord(db, staged, ACTIVE);
    forall j | 0 <= j < |block.txs| ensures !FiledUnder(block.txs[j].call, ACTIVE) {
      FiledInMeta(block.txs[j].call, seq(32, _ => 0));
    }
    UnfiledPass(env, moved, block, ACTIVE);
    assert ActiveOf(done) == ActiveOf(db);
    FinishActivates(env, done, block, reward, StageBlock(env, db, block).value.1);
  }

  lemma FinishActivates(env: Env, db: Db, block: Block, reward: u128, fees: u128)
    requires Finish(env, db, block, reward, fees).error.None?
    ensures var after, h := Finish(env, db, block, reward, fees).db, block.header.height;
            if PendingOf(after).Some? && PendingOf(after).value.targetHeight == h then
              ActiveOf(after) == Some(ActiveCrypto(PendingOf(after).value.sigAlgo, PendingOf(after).value.hashAlgo, h))
            else ActiveOf(after) == ActiveOf(db)
  {
    MetaKeysDiffer();
  }
}
