/** Which transactions and effects go through (crates/state/src/apply.rs), each
    condition read from the transaction, its witness and the store. */
module Admission {
  import opened Machine
  import opened Types
  import opened State
  import opened Ledger
  import opened Conservation
  import opened Replay
  import opened Authority
  import opened Settlement
  import G = Governance

  // ---- Pass 1 ----

  /** The key a witness signs under: the one it carries, if that derives to the
      sender, or the one on record, if that has the witness's algorithm. */
  ghost predicate KeyFor(env: Env, db: Db, tx: TxBody, w: Witness, key: seq<byte>) {
    match w.pubkey
    case Inline(bytes) => key == bytes && env.derive(bytes) == tx.sender
    case Known(_) =>
      && AccountKey(tx.sender) in db && db[AccountKey(tx.sender)].AccountRec?
      && var a := db[AccountKey(tx.sender)].account; key == a.pubkey && key != [] && a.sigAlgo == w.sigAlgo
  }

  /** A transaction that may enter a block: its body commits to the witness, the
      witness signs it under a key of the sender, the nonce is the sender's and
      the balance covers amount and fee; contract calls may not. */
  ghost predicate Admissible(env: Env, db: Db, tx: TxBody, w: Witness) {
    && env.witnessHash(w) == tx.witnessHash
    && !tx.call.DeployContract? && !tx.call.CallContract?
    && (exists key :: KeyFor(env, db, tx, w, key) && env.verify(w.sigAlgo, key, w.sig, env.signingHash(tx)))
    && tx.nonce == LoadOrDefault(db, tx.sender).nonce
    && (if tx.call.Transfer? then tx.call.amount else 0) + tx.feeSat <= LoadOrDefault(db, tx.sender).balance
  }

  lemma SigningKeyIs(env: Env, db: Db, idx: nat, tx: TxBody, w: Witness, key: seq<byte>)
    ensures KeyFor(env, db, tx, w, key) <==> SigningKey(env, db, idx, tx, w) == Ok(key)
  {}

  lemma StagedIffAdmissible(env: Env, db: Db, idx: nat, tx: TxBody, witnesses: seq<Witness>)
    ensures Stage(env, db, idx, tx, witnesses).Ok? <==>
            idx < |witnesses| && Admissible(env, db, tx, witnesses[idx])
  {
    if idx < |witnesses| {
      var w := witnesses[idx];
      forall key ensures KeyFor(env, db, tx, w, key) <==> SigningKey(env, db, idx, tx, w) == Ok(key) {
        SigningKeyIs(env, db, idx, tx, w, key);
      }
    }
  }

  /** The transaction at a position, with the witness at the same one. */
  ghost predicate AdmissibleAt(env: Env, db: Db, block: Block, i: nat)
    requires i < |block.txs|
  {
    i < |block.witnesses| && Admissible(env, db, block.txs[i], block.witnesses[i])
  }

  /** Validation passes exactly when every transaction is admissible with the
      witness at its position, on the store before the block. */
  lemma ValidatedIffAdmissible(env: Env, db: Db, block: Block)
    requires |block.txs| <= U64_MAX
    ensures StageBlock(env, db, block).Ok? <==> forall i :: 0 <= i < |block.txs| ==> AdmissibleAt(env, db, block, i)
  {
    var v := Verdicts(env, db, block.txs, block.witnesses);
    CollectedIff(v);
    if StageBlock(env, db, block).Ok? {
      forall i | 0 <= i < |block.txs| ensures AdmissibleAt(env, db, block, i) {
        assert v[i].Ok?;
        StagedIffAdmissible(env, db, i, block.txs[i], block.witnesses);
      }
    }
    if forall i :: 0 <= i < |block.txs| ==> AdmissibleAt(env, db, block, i) {
      forall i | 0 <= i < |v| ensures v[i].Ok? {
        assert AdmissibleAt(env, db, block, i);
        StagedIffAdmissible(env, db, i, block.txs[i], block.witnesses);
      }
    }
  }

  lemma CollectedIff(v: seq<Verdict>)
    requires |v| <= U64_MAX
    ensures Collect(v, 0, 0).Ok? <==> forall i :: 0 <= i < |v| ==> v[i].Ok?
  {
    MulMonotone(|v|, U64_MAX, U64_MAX);
    if Collect(v, 0, 0).Ok? {
      CollectShape(v, 0, 0);
      forall i | 0 <= i < |v| ensures v[i].Ok? { assert v[0 + i] == Ok(Collect(v, 0, 0).value.0[i]); }
    }
    if forall i :: 0 <= i < |v| ==> v[i].Ok? { CollectSucceeds(v, 0, 0); }
  }

  /** What is wrong with a transaction that has this error. */
  ghost predicate Defect(env: Env, db: Db, i: nat, tx: TxBody, witnesses: seq<Witness>, e: ApplyError) {
    var a := LoadOrDefault(db, tx.sender);
    var required := (if tx.call.Transfer? then tx.call.amount else 0) + tx.feeSat;
    match e
    case WitnessMissing(k) => k == i >= |witnesses|
    case WitnessHashMismatch(k) => k == i < |witnesses| && env.witnessHash(witnesses[i]) != tx.witnessHash
    case UnsupportedCall(k) => k == i && (tx.call.DeployContract? || tx.call.CallContract?)
    case PubKeyMismatch(k) =>
      k == i < |witnesses| && witnesses[i].pubkey.Inline? && env.derive(witnesses[i].pubkey.key) != tx.sender
    case AccountUnknown(k) => k == i < |witnesses| && witnesses[i].pubkey.Known? && a.pubkey == []
    case AlgoMismatch(k, algo, used) =>
      k == i < |witnesses| && witnesses[i].pubkey.Known? && algo == a.sigAlgo != witnesses[i].sigAlgo == used
    case BadSignature(k) =>
      k == i < |witnesses| && exists key ::
        KeyFor(env, db, tx, witnesses[i], key)
        && !env.verify(witnesses[i].sigAlgo, key, witnesses[i].sig, env.signingHash(tx))
    case NonceMismatch(k, got, expected) => k == i && got == tx.nonce != a.nonce == expected
    case AmountOverflow(k) => k == i && required > U128_MAX
    case InsufficientBalance(k, balance, need) => k == i && balance == a.balance < required == need
    case _ => false
  }

  lemma KeyDefect(env: Env, db: Db, i: nat, tx: TxBody, witnesses: seq<Witness>)
    requires i < |witnesses| && SigningKey(env, db, i, tx, witnesses[i]).Err?
    ensures Defect(env, db, i, tx, witnesses, SigningKey(env, db, i, tx, witnesses[i]).error)
  {}

  lemma SpendingDefect(env: Env, db: Db, i: nat, tx: TxBody, witnesses: seq<Witness>)
    requires i < |witnesses| && ValidateTx(env, db, i, tx, witnesses[i]).Err?
    requires SigningKey(env, db, i, tx, witnesses[i]).Ok?
    ensures Defect(env, db, i, tx, witnesses, ValidateTx(env, db, i, tx, witnesses[i]).error)
  {
    SigningKeyIs(env, db, i, tx, witnesses[i], SigningKey(env, db, i, tx, witnesses[i]).value);
  }

  lemma VerdictNamesDefect(env: Env, db: Db, i: nat, tx: TxBody, witnesses: seq<Witness>)
    ensures var s := Stage(env, db, i, tx, witnesses); s.Err? ==> Defect(env, db, i, tx, witnesses, s.error)
  {
    if i < |witnesses| && ValidateTx(env, db, i, tx, witnesses[i]).Err? {
      if SigningKey(env, db, i, tx, witnesses[i]).Ok? { SpendingDefect(env, db, i, tx, witnesses); }
      else { KeyDefect(env, db, i, tx, witnesses); }
    }
  }

  lemma {:induction false} FirstError(verdicts: seq<Verdict>, i: nat, fees: u128) returns (k: nat)
    requires i <= |verdicts| && fees + (|verdicts| - i) * U64_MAX <= U128_MAX
    requires Collect(verdicts, i, fees).Err?
    ensures i <= k < |verdicts| && verdicts[k] == Err(Collect(verdicts, i, fees).error)
    ensures forall j :: i <= j < k ==> verdicts[j].Ok?
    decreases |verdicts| - i
  {
    if verdicts[i].Err? { k := i; } else { k := FirstError(verdicts, i + 1, fees + verdicts[i].value.feeSat); }
  }

  /** A block refused in validation is refused for a defect of its first
      transaction that is not admissible. */
  lemma FirstDefectIsReported(env: Env, db: Db, block: Block) returns (i: nat)
    requires |block.txs| <= U64_MAX && StageBlock(env, db, block).Err?
    ensures i < |block.txs|
    ensures Defect(env, db, i, block.txs[i], block.witnesses, StageBlock(env, db, block).error)
    ensures forall j :: 0 <= j < i ==> AdmissibleAt(env, db, block, j)
  {
    var v := Verdicts(env, db, block.txs, block.witnesses);
    MulMonotone(|v|, U64_MAX, U64_MAX);
    i := FirstError(v, 0, 0);
    VerdictNamesDefect(env, db, i, block.txs[i], block.witnesses);
    forall j | 0 <= j < i ensures AdmissibleAt(env, db, block, j) {
      assert v[j].Ok?;
      StagedIffAdmissible(env, db, j, block.txs[j], block.witnesses);
    }
  }

  // ---- Effects ----

  /** The coordinators registered for a job, where there are any. */
  function Registered(db: Db, jobId: Hash): seq<AccountId> {
    if AuthorityKey(jobId) in db && db[AuthorityKey(jobId)].AuthorityRec? then db[AuthorityKey(jobId)].coordinators
    else []
  }

  lemma CageByPosition(cage: CageCode)
    ensures ValidCage(cage) <==> forall i :: 0 <= i < |cage| ==> 48 <= cage[i] <= 57 || 65 <= cage[i] <= 90
  {
    if ValidCage(cage) {
      forall i | 0 <= i < |cage| ensures 48 <= cage[i] <= 57 || 65 <= cage[i] <= 90 { assert cage[i] in cage; }
    }
  }

  /** An effect goes through exactly when: an attestation comes from a registered
      coordinator, or none is registered; a pedigree also has a cage code of
      digits and capital letters; an announcement names allowed suites; a new
      configuration decodes to one a chain can run under; and the governed three
      carry a proof that meets the configuration in force, if there is one. */
  lemma EffectGoesThroughIff(env: Env, db: Db, header: BlockHeader, idx: nat, tx: TxBody)
    ensures Effect(env, db, header, idx, tx).error.None? <==>
            match tx.call {
              case AttestRound(jobId, _, _, _) => Registered(db, jobId) == [] || tx.sender in Registered(db, jobId)
              case AttestPedigree(jobId, _, _, cage, _) =>
                && (forall i :: 0 <= i < |cage| ==> 48 <= cage[i] <= 57 || 65 <= cage[i] <= 90)
                && (Registered(db, jobId) == [] || tx.sender in Registered(db, jobId))
              case UpgradeCrypto(target, sigAlgo, hashAlgo, proof) =>
                && sigAlgo in env.allowedSig && hashAlgo in env.allowedHash
                && ProofFor(env, GovernanceOf(db), proof, env.upgradePayload(target, sigAlgo, hashAlgo))
              case RegisterAttestCoordinator(jobId, coordinators, proof) =>
                ProofFor(env, GovernanceOf(db), proof, env.registerPayload(jobId, coordinators))
              case SetGovernance(cbor, proof) =>
                env.decodeConfig(cbor).Some? &&
                var cfg := env.decodeConfig(cbor).value;
                && 0 < cfg.threshold <= |cfg.signers|
                && (forall i, j :: 0 <= i < j < |cfg.signers| ==> cfg.signers[i].id != cfg.signers[j].id)
                && ProofFor(env, GovernanceOf(db), proof, env.configPayload(cfg))
              case _ => true
            }
  {
    if tx.call.AttestPedigree? { CageByPosition(tx.call.cageCode); }
  }

  /** What is wrong with a refused effect: the error says which of these
      conditions it broke first. */
  lemma EffectErrorNamesDefect(env: Env, db: Db, header: BlockHeader, idx: nat, tx: TxBody)
    requires Effect(env, db, header, idx, tx).error.Some?
    ensures Effect(env, db, header, idx, tx).db == db
    ensures match Effect(env, db, header, idx, tx).error.value {
              case PedigreeCageCodeInvalid(k) =>
                k == idx && tx.call.AttestPedigree?
                && exists i :: 0 <= i < 5 && !(48 <= tx.call.cageCode[i] <= 57 || 65 <= tx.call.cageCode[i] <= 90)
              case AttestCoordinatorNotAuthorized(k) =>
                k == idx && (tx.call.AttestRound? || tx.call.AttestPedigree?)
                && Registered(db, tx.call.jobId) != [] && tx.sender !in Registered(db, tx.call.jobId)
              case UpgradeSigAlgoNotAllowed(k, algo) =>
                k == idx && tx.call.UpgradeCrypto? && algo == tx.call.newSigAlgo && algo !in env.allowedSig
              case UpgradeHashAlgoNotAllowed(k, algo) =>
                k == idx && tx.call.UpgradeCrypto? && algo == tx.call.newHashAlgo && algo !in env.allowedHash
                && tx.call.newSigAlgo in env.allowedSig
              case GovernanceProofMissing(k) => k == idx && GovernanceOf(db).Some? && Governed(tx.call) == Some([])
              case GovernanceProofInvalid(k) =>
                k == idx && GovernanceOf(db).Some? && Governed(tx.call).Some? && Governed(tx.call) != Some([])
                && !Authorized(env, GovernanceOf(db), tx.call)
              case GovernanceConfigInvalid(k) =>
                k == idx && tx.call.SetGovernance?
                && (env.decodeConfig(tx.call.configCbor).None?
                    || !G.WellFormed(env.decodeConfig(tx.call.configCbor).value))
              case _ => false
            }
  {
    if tx.call.AttestPedigree? { CageByPosition(tx.call.cageCode); }
  }

  /** The proof a governed call carries. */
  function Governed(call: TxCall): Option<seq<byte>> {
    match call
    case UpgradeCrypto(_, _, _, proof) => Some(proof)
    case RegisterAttestCoordinator(_, _, proof) => Some(proof)
    case SetGovernance(_, proof) => Some(proof)
    case _ => None
  }
}
