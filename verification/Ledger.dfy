/** Block application (crates/state/src/apply.rs).

    `Apply` says what a block does to the database, including what a failing
    block has already written; the methods below do it in place. */
module Ledger {
  import opened Machine
  import opened Types
  import opened State
  import G = Governance
  import E = Encoding

  /** Everything the ledger asks of code outside this module. Its laws hold for
      any such functions; `StandardEnv` supplies the chain's own preimages. */
  datatype Env = Env(
    verify: G.Verifier,
    derive: seq<byte> -> AccountId,
    signingHash: TxBody -> Hash,
    witnessHash: Witness -> Hash,
    upgradePayload: (u64, byte, byte) -> Hash,
    registerPayload: (Hash, seq<AccountId>) -> Hash,
    configPayload: G.Config -> Hash,
    decodeProof: seq<byte> -> Option<G.Proof>,
    decodeConfig: seq<byte> -> Option<G.Config>,
    allowedSig: set<byte>,
    allowedHash: set<byte>,
    stateRoot: Db -> Hash)

  /** The environment of the running chain, over a hash and a config codec. */
  function StandardEnv(hash: seq<byte> -> Hash, verify: G.Verifier, derive: seq<byte> -> AccountId,
                       decodeProof: seq<byte> -> Option<G.Proof>, decodeConfig: seq<byte> -> Option<G.Config>,
                       encodeConfig: G.Config -> seq<byte>, allowedSig: set<byte>, allowedHash: set<byte>,
                       stateRoot: Db -> Hash): Env
  {
    Env(verify, derive,
        tx => hash(E.SigningBytes(tx)), w => hash(E.WitnessBytes(w)),
        (height, sigAlgo, hashAlgo) => hash(G.UpgradeBytes(height, sigAlgo, hashAlgo)),
        (jobId, coordinators) => hash(G.RegisterBytes(jobId, coordinators)),
        cfg => hash(G.SetGovernanceBytes(encodeConfig(cfg))),
        decodeProof, decodeConfig, allowedSig, allowedHash, stateRoot)
  }

  datatype ApplyError =
    | WitnessMissing(idx: nat) | WitnessHashMismatch(idx: nat) | AccountUnknown(idx: nat) | PubKeyMismatch(idx: nat)
    | BadSignature(idx: nat) | NonceMismatch(idx: nat, got: u64, expected: u64)
    | InsufficientBalance(idx: nat, balance: u128, required: u128) | AmountOverflow(idx: nat)
    | UnsupportedCall(idx: nat)
    | AlgoMismatch(idx: nat, algo: byte, sigAlgo: byte)
    | UpgradeSigAlgoNotAllowed(idx: nat, sigAlgo: byte) | UpgradeHashAlgoNotAllowed(idx: nat, hashAlgo: byte)
    | AttestCoordinatorNotAuthorized(idx: nat) | PedigreeCageCodeInvalid(idx: nat)
    | GovernanceProofMissing(idx: nat) | GovernanceProofInvalid(idx: nat) | GovernanceConfigInvalid(idx: nat)
    | CoinbaseOverflow

  datatype ApplyOutput = ApplyOutput(txsApplied: nat, feesCollected: u128, coinbaseMinted: u128, stateRoot: Hash)
  datatype Staged = Staged(idx: nat, sender: AccountId, expectedNonce: u64, to: AccountId, amount: u128, feeSat: u64,
    pubkey: seq<byte>, sigAlgo: byte)
  datatype Step = Step(db: Db, error: Option<ApplyError>)
  datatype Applied = Applied(db: Db, outcome: Result<ApplyOutput, ApplyError>)

  // ---- Pass 1: validation against the state before the block ----

  function Target(idx: nat, tx: TxBody): Result<(AccountId, u128), ApplyError> {
    match tx.call
    case Transfer(to, amount) => Ok((to, amount))
    case DeployContract(_, _) => Err(UnsupportedCall(idx))
    case CallContract(_, _, _) => Err(UnsupportedCall(idx))
    case _ => Ok((tx.sender, 0))
  }

  function SigningKey(env: Env, db: Db, idx: nat, tx: TxBody, w: Witness): Result<seq<byte>, ApplyError> {
    match w.pubkey
    case Inline(bytes) => if env.derive(bytes) != tx.sender then Err(PubKeyMismatch(idx)) else Ok(bytes)
    case Known(_) =>
      match Load(db, tx.sender)
      case None => Err(AccountUnknown(idx))
      case Some(a) =>
        if a.pubkey == [] then Err(AccountUnknown(idx))
        else if a.sigAlgo != w.sigAlgo then Err(AlgoMismatch(idx, a.sigAlgo, w.sigAlgo))
        else Ok(a.pubkey)
  }

  function ValidateTx(env: Env, db: Db, idx: nat, tx: TxBody, w: Witness): Result<Staged, ApplyError> {
    match Target(idx, tx)
    case Err(e) => Err(e)
    case Ok((to, amount)) =>
      match SigningKey(env, db, idx, tx, w)
      case Err(e) => Err(e)
      case Ok(key) =>
        var a := LoadOrDefault(db, tx.sender);
        if !env.verify(w.sigAlgo, key, w.sig, env.signingHash(tx)) then Err(BadSignature(idx))
        else if tx.nonce != a.nonce then Err(NonceMismatch(idx, tx.nonce, a.nonce))
        else if amount + tx.feeSat > U128_MAX then Err(AmountOverflow(idx))
        else if a.balance < amount + tx.feeSat then Err(InsufficientBalance(idx, a.balance, amount + tx.feeSat))
        else Ok(Staged(idx, tx.sender, a.nonce, to, amount, tx.feeSat, key, w.sigAlgo))
  }

  function Stage(env: Env, db: Db, idx: nat, tx: TxBody, witnesses: seq<Witness>): Result<Staged, ApplyError> {
    if idx >= |witnesses| then Err(WitnessMissing(idx))
    else if env.witnessHash(witnesses[idx]) != tx.witnessHash then Err(WitnessHashMismatch(idx))
    else ValidateTx(env, db, idx, tx, witnesses[idx])
  }

  type Verdict = Result<Staged, ApplyError>

  type Staging = Result<(seq<Staged>, u128), ApplyError>

  function Then(done: seq<Staged>, r: Staging): Staging {
    match r
    case Err(e) => Err(e)
    case Ok((rest, fees)) => Ok((done + rest, fees))
  }

  /** Each transaction's verdict, against the state before the block. */
  function Verdicts(env: Env, db: Db, txs: seq<TxBody>, witnesses: seq<Witness>): (v: seq<Verdict>)
    ensures |v| == |txs| && forall i :: 0 <= i < |txs| ==> v[i] == Stage(env, db, i, txs[i], witnesses)
  {
    seq(|txs|, i requires 0 <= i < |txs| => Stage(env, db, i, txs[i], witnesses))
  }

  /** The staged transactions and their fees, or the first error. */
  function Collect(verdicts: seq<Verdict>, i: nat, fees: u128): Staging
    requires i <= |verdicts|
    decreases |verdicts| - i
  {
    if i == |verdicts| then Ok(([], fees))
    else match verdicts[i]
      case Err(e) => Err(e)
      case Ok(s) =>
        if fees + s.feeSat > U128_MAX then Err(CoinbaseOverflow)
        else Then([s], Collect(verdicts, i + 1, fees + s.feeSat))
  }

  function StageBlock(env: Env, db: Db, block: Block): Staging {
    Collect(Verdicts(env, db, block.txs, block.witnesses), 0, 0)
  }

  lemma ThenThen(done: seq<Staged>, s: Staged, r: Staging)
    ensures Then(done, Then([s], r)) == Then(done + [s], r)
  {
    if r.Ok? { assert done + ([s] + r.value.0) == (done + [s]) + r.value.0; }
  }

  lemma ThenDone(done: seq<Staged>, fees: u128)
    ensures Then(done, Ok(([], fees))) == Ok((done, fees))
  {
    assert done + [] == done;
  }

  lemma CollectStep(done: seq<Staged>, verdicts: seq<Verdict>, i: nat, fees: u128)
    requires i < |verdicts| && verdicts[i].Ok?
    ensures var s := verdicts[i].value;
            Then(done, Collect(verdicts, i, fees)) ==
            if fees + s.feeSat > U128_MAX then Err(CoinbaseOverflow)
              else Then(done + [s], Collect(verdicts, i + 1, fees + s.feeSat))
  {
    var s := verdicts[i].value;
    if fees + s.feeSat <= U128_MAX { ThenThen(done, s, Collect(verdicts, i + 1, fees + s.feeSat)); }
  }

  lemma ThenNothing(r: Staging)
    ensures Then([], r) == r
  {
    if r.Ok? { assert [] + r.value.0 == r.value.0; }
  }

  // ---- Pass 2: moving balances ----

  function Debited(a: Account, s: Staged): Account
    requires a.balance >= s.amount + s.feeSat
  {
    Account(a.balance - (s.amount + s.feeSat), if a.nonce == U64_MAX then U64_MAX else a.nonce + 1,
            if a.pubkey == [] then s.pubkey else a.pubkey, if a.pubkey == [] then s.sigAlgo else a.sigAlgo)
  }

  function Credited(a: Account, amount: u128): Account { a.(balance := SatAdd(a.balance, amount)) }

  function Transferred(db: Db, s: Staged): Db
    requires LoadOrDefault(db, s.sender).balance >= s.amount + s.feeSat
  {
    var db1 := Save(db, s.sender, Debited(LoadOrDefault(db, s.sender), s));
    Save(db1, s.to, Credited(LoadOrDefault(db1, s.to), s.amount))
  }

  function ApplyStaged(db: Db, s: Staged): Step {
    var a := LoadOrDefault(db, s.sender);
    if a.nonce != s.expectedNonce then Step(db, Some(NonceMismatch(s.idx, a.nonce, s.expectedNonce)))
    else if s.amount + s.feeSat > U128_MAX then Step(db, Some(AmountOverflow(s.idx)))
    else if a.balance < s.amount + s.feeSat then
      Step(db, Some(InsufficientBalance(s.idx, a.balance, s.amount + s.feeSat)))
    else Step(Transferred(db, s), None)
  }

  function ApplyAll(db: Db, staged: seq<Staged>): Step
    decreases |staged|
  {
    if staged == [] then Step(db, None)
    else
      var first := ApplyStaged(db, staged[0]);
      if first.error.Some? then first else ApplyAll(first.db, staged[1..])
  }

  // ---- Effects outside the accounts ----

  predicate ValidCage(cage: CageCode) {
    forall b :: b in cage ==> 65 <= b <= 90 || 48 <= b <= 57
  }

  predicate MayAttest(db: Db, jobId: Hash, attester: AccountId) {
    AuthorityOf(db, jobId).Some? && AuthorityOf(db, jobId).value != [] ==> attester in AuthorityOf(db, jobId).value
  }

  /** The governance gate: open while no configuration exists, otherwise a
      present, decodable proof that meets the configuration in force. */
  function Gate(env: Env, db: Db, idx: nat, proofCbor: seq<byte>, payload: Hash): Option<ApplyError> {
    match GovernanceOf(db)
    case None => None
    case Some(cfg) =>
      if proofCbor == [] then Some(GovernanceProofMissing(idx))
      else match env.decodeProof(proofCbor)
        case None => Some(GovernanceProofInvalid(idx))
        case Some(proof) =>
          if G.Meets(env.verify, cfg, proof, payload) then None else Some(GovernanceProofInvalid(idx))
  }

  function Effect(env: Env, db: Db, header: BlockHeader, idx: nat, tx: TxBody): Step {
    match tx.call
    case AttestRound(jobId, roundId, modelHash, eps) =>
      if !MayAttest(db, jobId, tx.sender) then Step(db, Some(AttestCoordinatorNotAuthorized(idx)))
      else Step(db[AttestKey(jobId, roundId) := AttestRec(jobId, roundId, modelHash, eps, tx.sender, header.height,
        header.timestamp)], None)
    case RegisterAttestCoordinator(jobId, coordinators, proof) =>
      var e := Gate(env, db, idx, proof, env.registerPayload(jobId, coordinators));
      if e.Some? then Step(db, e)
      else Step(db[AuthorityKey(jobId) := AuthorityRec(jobId, coordinators, header.height)], None)
    case AttestPedigree(jobId, lotId, supplier, cage, authority) =>
      if !ValidCage(cage) then Step(db, Some(PedigreeCageCodeInvalid(idx)))
      else if !MayAttest(db, jobId, tx.sender) then Step(db, Some(AttestCoordinatorNotAuthorized(idx)))
      else
        var rec := PedigreeRec(jobId, lotId, supplier, cage, authority, tx.sender, header.height, header.timestamp);
        Step(db[PedigreeKey(jobId, lotId) := rec], None)
    case UpgradeCrypto(target, sigAlgo, hashAlgo, proof) =>
      if sigAlgo !in env.allowedSig then Step(db, Some(UpgradeSigAlgoNotAllowed(idx, sigAlgo)))
      else if hashAlgo !in env.allowedHash then Step(db, Some(UpgradeHashAlgoNotAllowed(idx, hashAlgo)))
      else
        var e := Gate(env, db, idx, proof, env.upgradePayload(target, sigAlgo, hashAlgo));
        if e.Some? then Step(db, e)
        else Step(db[UPGRADE := PendingRec(PendingUpgrade(target, sigAlgo, hashAlgo, header.height))], None)
    case SetGovernance(configCbor, proof) =>
      (match env.decodeConfig(configCbor)
       case None => Step(db, Some(GovernanceConfigInvalid(idx)))
       case Some(cfg) =>
         if !G.WellFormed(cfg) then Step(db, Some(GovernanceConfigInvalid(idx)))
         else
           var e := Gate(env, db, idx, proof, env.configPayload(cfg));
           if e.Some? then Step(db, e) else Step(db[GOVERNANCE := GovernanceRec(cfg)], None))
    case _ => Step(db, None)
  }

  function EffectsFrom(env: Env, db: Db, header: BlockHeader, txs: seq<TxBody>, i: nat): Step
    requires i <= |txs|
    decreases |txs| - i
  {
    if i == |txs| then Step(db, None)
    else
      var first := Effect(env, db, header, i, txs[i]);
      if first.error.Some? then first else EffectsFrom(env, first.db, header, txs, i + 1)
  }

  // ---- Coinbase, reflection, activation ----

  function Miner(header: BlockHeader): AccountId { header.coinbase[..20] }

  function SenderSet(txs: seq<TxBody>): set<AccountId> { set tx | tx in txs :: tx.sender }

  function Reflected(db: Db, header: BlockHeader, txs: seq<TxBody>, fees: u128, minted: u128): Db {
    var r := ReflectionRec(Reflection(header.bits, |SenderSet(txs)|, fees, minted, 0, 0, 0));
    db[ReflectKey(header.height) := r][LATEST := r]
  }

  function Activated(db: Db, height: u64): Db {
    match PendingOf(db)
    case None => db
    case Some(p) =>
      if p.targetHeight == height then db[ACTIVE := ActiveRec(ActiveCrypto(p.sigAlgo, p.hashAlgo, height))] else db
  }

  function Finish(env: Env, db: Db, block: Block, reward: u128, fees: u128): Step {
    var miner := Miner(block.header);
    var a := LoadOrDefault(db, miner);
    if reward + fees > U128_MAX || a.balance + (reward + fees) > U128_MAX then Step(db, Some(CoinbaseOverflow))
    else
      var paid := Save(db, miner, a.(balance := a.balance + (reward + fees)));
      Step(Activated(Reflected(paid, block.header, block.txs, fees, reward + fees), block.header.height), None)
  }

  function Output(env: Env, db: Db, block: Block, reward: u128, fees: u128): ApplyOutput
    requires reward + fees <= U128_MAX
  {
    ApplyOutput(|block.txs|, fees, reward + fees, env.stateRoot(db))
  }

  /** `apply_block`. A failure leaves behind whatever was written before it. */
  function Apply(env: Env, db: Db, block: Block, reward: u128): Applied {
    match StageBlock(env, db, block)
    case Err(e) => Applied(db, Err(e))
    case Ok((staged, fees)) =>
      var moved := ApplyAll(db, staged);
      if moved.error.Some? then Applied(moved.db, Err(moved.error.value))
      else
        var effects := EffectsFrom(env, moved.db, block.header, block.txs, 0);
        if effects.error.Some? then Applied(effects.db, Err(effects.error.value))
        else
          var done := Finish(env, effects.db, block, reward, fees);
          if done.error.Some? then Applied(done.db, Err(done.error.value))
          else Applied(done.db, Ok(Output(env, done.db, block, reward, fees)))
  }

  // ---- Runs ----

  datatype Paid = Paid(block: Block, reward: u128)

  /** A ledger as a transition function. */
  type Transition = (Db, Paid) -> Applied

  function LedgerOf(env: Env): Transition { (db: Db, p: Paid) => Apply(env, db, p.block, p.reward) }

  function After(m: Transition, db: Db, run: seq<Paid>): Db {
    if run == [] then db else m(After(m, db, run[..|run| - 1]), run[|run| - 1]).db
  }

  predicate AllAccepted(m: Transition, db: Db, run: seq<Paid>) {
    run == [] ||
    (AllAccepted(m, db, run[..|run| - 1]) && m(After(m, db, run[..|run| - 1]), run[|run| - 1]).outcome.Ok?)
  }

  // ---- In place ----

  method StageAll(env: Env, store: Store, block: Block) returns (r: Staging)
    ensures r == StageBlock(env, store.data, block)
  {
    var judge := Judge(env, store.data, block.txs, block.witnesses);
    r := CollectWhile(|block.txs|, judge);
    JudgeGivesVerdicts(env, store.data, block.txs, block.witnesses);
  }

  /** The verdict on each position of a block, to be asked one at a time. */
  function Judge(env: Env, db: Db, txs: seq<TxBody>, witnesses: seq<Witness>): nat -> Verdict {
    (i: nat) => if i < |txs| then Stage(env, db, i, txs[i], witnesses) else Err(WitnessMissing(i))
  }

  lemma JudgeGivesVerdicts(env: Env, db: Db, txs: seq<TxBody>, witnesses: seq<Witness>)
    ensures Asked(|txs|, Judge(env, db, txs, witnesses)) == Verdicts(env, db, txs, witnesses)
  {}

  function Asked(n: nat, judge: nat -> Verdict): (v: seq<Verdict>)
    ensures |v| == n && forall i :: 0 <= i < n ==> v[i] == judge(i)
  {
    seq(n, i requires 0 <= i < n => judge(i))
  }

  /** Asks for verdicts in order and stops at the first error. */
  method CollectWhile(n: nat, judge: nat -> Verdict) returns (r: Staging)
    ensures r == Collect(Asked(n, judge), 0, 0)
  {
    var staged: seq<Staged> := [];
    var fees: u128 := 0;
    ghost var verdicts := Asked(n, judge);
    ghost var whole := Collect(verdicts, 0, 0);
    ThenNothing(whole);
    var i := 0;
    while i < n
      invariant 0 <= i <= n
      invariant whole == Then(staged, Collect(verdicts, i, fees))
    {
      var s := judge(i);
      if s.Err? { return Err(s.error); }
      CollectStep(staged, verdicts, i, fees);
      if fees + s.value.feeSat > U128_MAX { return Err(CoinbaseOverflow); }
      fees := fees + s.value.feeSat;
      staged := staged + [s.value];
      i := i + 1;
    }
    ThenDone(staged, fees);
    return Ok((staged, fees));
  }

  method ApplyStagedInPlace(store: Store, s: Staged) returns (e: Option<ApplyError>)
    modifies store
    ensures Step(store.data, e) == ApplyStaged(old(store.data), s)
  {
    var from := LoadOrDefault(store.data, s.sender);
    if from.nonce != s.expectedNonce { return Some(NonceMismatch(s.idx, from.nonce, s.expectedNonce)); }
    if s.amount + s.feeSat > U128_MAX { return Some(AmountOverflow(s.idx)); }
    var required := s.amount + s.feeSat;
    if from.balance < required { return Some(InsufficientBalance(s.idx, from.balance, required)); }
    var nonce := if from.nonce == U64_MAX then U64_MAX else from.nonce + 1;
    from := from.(balance := from.balance - required, nonce := nonce);
    if from.pubkey == [] { from := from.(pubkey := s.pubkey, sigAlgo := s.sigAlgo); }
    store.SaveAccount(s.sender, from);
    var to := LoadOrDefault(store.data, s.to);
    store.SaveAccount(s.to, to.(balance := SatAdd(to.balance, s.amount)));
    return None;
  }

  method CheckGate(env: Env, store: Store, idx: nat, proofCbor: seq<byte>, payload: Hash)
      returns (e: Option<ApplyError>)
    ensures e == Gate(env, store.data, idx, proofCbor, payload)
  {
    var current := GovernanceOf(store.data);
    if current.None? { return None; }
    if proofCbor == [] { return Some(GovernanceProofMissing(idx)); }
    var proof := env.decodeProof(proofCbor);
    if proof.None? { return Some(GovernanceProofInvalid(idx)); }
    var below := G.VerifyProof(env.verify, current.value, proof.value, payload);
    return if below.Some? then Some(GovernanceProofInvalid(idx)) else None;
  }

  method EffectInPlace(env: Env, store: Store, header: BlockHeader, idx: nat, tx: TxBody)
      returns (e: Option<ApplyError>)
    modifies store
    ensures Step(store.data, e) == Effect(env, old(store.data), header, idx, tx)
  {
    e := None;
    match tx.call {
      case AttestRound(jobId, roundId, modelHash, eps) =>
        if !MayAttest(store.data, jobId, tx.sender) { return Some(AttestCoordinatorNotAuthorized(idx)); }
        store.Put(AttestKey(jobId, roundId), AttestRec(jobId, roundId, modelHash, eps, tx.sender, header.height,
          header.timestamp));
      case RegisterAttestCoordinator(jobId, coordinators, proof) =>
        e := CheckGate(env, store, idx, proof, env.registerPayload(jobId, coordinators));
        if e.Some? { return; }
        store.Put(AuthorityKey(jobId), AuthorityRec(jobId, coordinators, header.height));
      case AttestPedigree(jobId, lotId, supplier, cage, authority) =>
        if !ValidCage(cage) { return Some(PedigreeCageCodeInvalid(idx)); }
        if !MayAttest(store.data, jobId, tx.sender) { return Some(AttestCoordinatorNotAuthorized(idx)); }
        store.Put(PedigreeKey(jobId, lotId), PedigreeRec(jobId, lotId, supplier, cage, authority, tx.sender,
          header.height, header.timestamp));
      case UpgradeCrypto(target, sigAlgo, hashAlgo, proof) =>
        if sigAlgo !in env.allowedSig { return Some(UpgradeSigAlgoNotAllowed(idx, sigAlgo)); }
        if hashAlgo !in env.allowedHash { return Some(UpgradeHashAlgoNotAllowed(idx, hashAlgo)); }
        e := CheckGate(env, store, idx, proof, env.upgradePayload(target, sigAlgo, hashAlgo));
        if e.Some? { return; }
        store.Put(UPGRADE, PendingRec(PendingUpgrade(target, sigAlgo, hashAlgo, header.height)));
      case SetGovernance(configCbor, proof) =>
        var cfg := env.decodeConfig(configCbor);
        if cfg.None? { return Some(GovernanceConfigInvalid(idx)); }
        var bad := G.Validate(cfg.value);
        if bad.Some? { return Some(GovernanceConfigInvalid(idx)); }
        e := CheckGate(env, store, idx, proof, env.configPayload(cfg.value));
        if e.Some? { return; }
        store.Put(GOVERNANCE, GovernanceRec(cfg.value));
      case _ =>
    }
  }

  method FinishInPlace(env: Env, store: Store, block: Block, reward: u128, fees: u128) returns (e: Option<ApplyError>)
    modifies store
    ensures Step(store.data, e) == Finish(env, old(store.data), block, reward, fees)
  {
    var header := block.header;
    var miner := Miner(header);
    var a := LoadOrDefault(store.data, miner);
    if reward + fees > U128_MAX { return Some(CoinbaseOverflow); }
    var minted: u128 := reward + fees;
    if a.balance + minted > U128_MAX { return Some(CoinbaseOverflow); }
    store.SaveAccount(miner, a.(balance := a.balance + minted));
    var reflection := ReflectionRec(Reflection(header.bits, |SenderSet(block.txs)|, fees, minted, 0, 0, 0));
    store.Put(ReflectKey(header.height), reflection);
    store.Put(LATEST, reflection);
    var pending := PendingOf(store.data);
    if pending.Some? && pending.value.targetHeight == header.height {
      store.Put(ACTIVE, ActiveRec(ActiveCrypto(pending.value.sigAlgo, pending.value.hashAlgo, header.height)));
    }
    return None;
  }

  /** Pass 2 over the staged transactions, up to the first error. */
  method ApplyAllInPlace(store: Store, staged: seq<Staged>) returns (e: Option<ApplyError>)
    modifies store
    ensures Step(store.data, e) == ApplyAll(old(store.data), staged)
  {
    ghost var before := store.data;
    var i := 0;
    while i < |staged|
      invariant 0 <= i <= |staged|
      invariant ApplyAll(before, staged) == ApplyAll(store.data, staged[i..])
    {
      assert staged[i..][0] == staged[i] && staged[i..][1..] == staged[i + 1..];
      e := ApplyStagedInPlace(store, staged[i]);
      if e.Some? { return; }
      i := i + 1;
    }
    assert staged[i..] == [];
    e := None;
  }

  method EffectsInPlace(env: Env, store: Store, header: BlockHeader, txs: seq<TxBody>) returns (e: Option<ApplyError>)
    modifies store
    ensures Step(store.data, e) == EffectsFrom(env, old(store.data), header, txs, 0)
  {
    ghost var before := store.data;
    var i := 0;
    while i < |txs|
      invariant 0 <= i <= |txs|
      invariant EffectsFrom(env, before, header, txs, 0) == EffectsFrom(env, store.data, header, txs, i)
    {
      e := EffectInPlace(env, store, header, i, txs[i]);
      if e.Some? { return; }
      i := i + 1;
    }
    e := None;
  }

  method ApplyBlock(env: Env, store: Store, block: Block, reward: u128) returns (r: Result<ApplyOutput, ApplyError>)
    modifies store
    ensures store.data == Apply(env, old(store.data), block, reward).db
    ensures r == Apply(env, old(store.data), block, reward).outcome
  {
    var stage := StageAll(env, store, block);
    if stage.Err? { return Err(stage.error); }
    var (staged, fees) := stage.value;
    var e := ApplyAllInPlace(store, staged);
    if e.Some? { return Err(e.value); }
    e := EffectsInPlace(env, store, block.header, block.txs);
    if e.Some? { return Err(e.value); }
    e := FinishInPlace(env, store, block, reward, fees);
    if e.Some? { return Err(e.value); }
    return Ok(Output(env, store.data, block, reward, fees));
  }
}
