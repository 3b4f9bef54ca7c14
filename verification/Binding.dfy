/** What a signature speaks for, once the ledger's hashes are the chain's own
    (crates/core/src/tx.rs, crates/state/src/apply.rs): one transaction, and
    under a majority threshold one governance action. */
module Binding {
  import opened Machine
  import opened Types
  import opened State
  import opened Ledger
  import opened Authority
  import opened Order
  import E = Encoding
  import G = Governance

  /** The environment hashes the canonical preimages. */
  ghost predicate Standard(env: Env, hash: seq<byte> -> Hash, encodeConfig: G.Config -> seq<byte>) {
    && (forall tx {:trigger env.signingHash(tx)} :: env.signingHash(tx) == hash(E.SigningBytes(tx)))
    && (forall w {:trigger env.witnessHash(w)} :: env.witnessHash(w) == hash(E.WitnessBytes(w)))
    && (forall h, s, k {:trigger env.upgradePayload(h, s, k)} ::
       env.upgradePayload(h, s, k) == hash(G.UpgradeBytes(h, s, k)))
    && (forall j, c {:trigger env.registerPayload(j, c)} :: env.registerPayload(j, c) == hash(G.RegisterBytes(j, c)))
    && (forall cfg {:trigger env.configPayload(cfg)} ::
       env.configPayload(cfg) == hash(G.SetGovernanceBytes(encodeConfig(cfg))))
  }

  lemma StandardEnvIsStandard(hash: seq<byte> -> Hash, verify: G.Verifier, derive: seq<byte> -> AccountId,
                              decodeProof: seq<byte> -> Option<G.Proof>, decodeConfig: seq<byte> -> Option<G.Config>,
                              encodeConfig: G.Config -> seq<byte>, allowedSig: set<byte>, allowedHash: set<byte>,
                              stateRoot: Db -> Hash)
    ensures Standard(StandardEnv(hash, verify, derive, decodeProof, decodeConfig, encodeConfig, allowedSig,
            allowedHash, stateRoot), hash, encodeConfig)
  {}

  /** A signature holds for at most one of two messages under a key. */
  predicate Binds(verify: G.Verifier, algo: byte, key: seq<byte>, sig: seq<byte>, m: Hash, m': Hash) {
    verify(algo, key, sig, m) && verify(algo, key, sig, m') ==> m == m'
  }

  // ---- Transactions ----

  /** A witness that validates two transactions under one key, on whatever
      stores, validates the same transaction twice: the two agree on nonce,
      sender, fee and call, and commit to the same witness. */
  lemma WitnessServesOneTransaction(env: Env, hash: seq<byte> -> Hash, encodeConfig: G.Config -> seq<byte>,
                                    db: Db, db': Db, i: nat, j: nat, a: TxBody, b: TxBody, ws: seq<Witness>,
                                    ws': seq<Witness>)
    requires Standard(env, hash, encodeConfig) && E.LengthsFit(a.call) && E.LengthsFit(b.call)
    requires Stage(env, db, i, a, ws).Ok? && Stage(env, db', j, b, ws').Ok? && ws[i] == ws'[j]
    requires Stage(env, db, i, a, ws).value.pubkey == Stage(env, db', j, b, ws').value.pubkey
    requires E.NoClash(hash, E.SigningBytes(a), E.SigningBytes(b))
    requires Binds(env.verify, ws[i].sigAlgo, Stage(env, db, i, a, ws).value.pubkey, ws[i].sig, env.signingHash(a),
             env.signingHash(b))
    ensures E.SameSigned(a, b) && a.witnessHash == b.witnessHash
  {
    E.SigningBytesIdentifyTransactions(a, b);
  }

  // ---- Governance actions ----

  datatype Action =
    | Rotate(targetHeight: u64, sigAlgo: byte, hashAlgo: byte)
    | Register(jobId: Hash, coordinators: seq<AccountId>)
    | Configure(config: G.Config)

  function ActionBytes(a: Action, encodeConfig: G.Config -> seq<byte>): seq<byte> {
    match a
    case Rotate(h, s, k) => G.UpgradeBytes(h, s, k)
    case Register(j, c) => G.RegisterBytes(j, c)
    case Configure(cfg) => G.SetGovernanceBytes(encodeConfig(cfg))
  }

  /** The message a proof for an action signs. */
  function Payload(env: Env, a: Action): Hash {
    match a
    case Rotate(h, s, k) => env.upgradePayload(h, s, k)
    case Register(j, c) => env.registerPayload(j, c)
    case Configure(cfg) => env.configPayload(cfg)
  }

  predicate SameAction(a: Action, b: Action, encodeConfig: G.Config -> seq<byte>) {
    match (a, b)
    case (Rotate(_, _, _), Rotate(_, _, _)) => a == b
    case (Register(j, c), Register(j', c')) => j == j' && multiset(c) == multiset(c')
    case (Configure(cfg), Configure(cfg')) => encodeConfig(cfg) == encodeConfig(cfg')
    case (_, _) => false
  }

  lemma BytesNameAction(a: Action, b: Action, encodeConfig: G.Config -> seq<byte>)
    ensures ActionBytes(a, encodeConfig) == ActionBytes(b, encodeConfig) <==> SameAction(a, b, encodeConfig)
  {
    match (a, b)
    case (Rotate(h, s, k), Rotate(h', s', k')) => G.PayloadsIdentifyActions(h, s, k, h', s', k', seq(32, _ => 0), [],
      seq(32, _ => 0), [], [], []);
    case (Register(j, c), Register(j', c')) => G.PayloadsIdentifyActions(0, 0, 0, 0, 0, 0, j, c, j', c', [], []);
    case (Configure(g), Configure(g')) =>
      G.PayloadsIdentifyActions(0, 0, 0, 0, 0, 0, seq(32, _ => 0), [], seq(32, _ => 0), [], encodeConfig(g),
        encodeConfig(g'));
    case (Rotate(h, s, k), Register(j, c)) => G.PayloadsIdentifyActions(h, s, k, h, s, k, j, c, j, c, [], []);
    case (Register(j, c), Rotate(h, s, k)) => G.PayloadsIdentifyActions(h, s, k, h, s, k, j, c, j, c, [], []);
    case (Rotate(h, s, k), Configure(g)) =>
      G.PayloadsIdentifyActions(h, s, k, h, s, k, seq(32, _ => 0), [], seq(32, _ => 0), [], encodeConfig(g),
        encodeConfig(g));
    case (Configure(g), Rotate(h, s, k)) =>
      G.PayloadsIdentifyActions(h, s, k, h, s, k, seq(32, _ => 0), [], seq(32, _ => 0), [], encodeConfig(g),
        encodeConfig(g));
    case (Register(j, c), Configure(g)) => G.PayloadsIdentifyActions(0, 0, 0, 0, 0, 0, j, c, j, c, encodeConfig(g),
      encodeConfig(g));
    case (Configure(g), Register(j, c)) => G.PayloadsIdentifyActions(0, 0, 0, 0, 0, 0, j, c, j, c, encodeConfig(g),
      encodeConfig(g));
  }

  function SignerIds(signers: seq<G.Signer>): set<Hash> { set s | s in signers :: s.id }

  lemma ApproversAreSigners(verify: G.Verifier, cfg: G.Config, proof: G.Proof, msg: Hash)
    ensures G.Approvers(verify, cfg, proof, msg) <= SignerIds(cfg.signers)
  {}

  /** With a majority threshold a proof accepted for two messages was signed
      twice by one signer, so the messages are one. */
  lemma MajorityProofNamesOneMessage(verify: G.Verifier, cfg: G.Config, proof: G.Proof, m: Hash, m': Hash)
    requires 2 * cfg.threshold > |cfg.signers| && G.Meets(verify, cfg, proof, m) && G.Meets(verify, cfg, proof, m')
    requires forall s, t ::
             s in cfg.signers && t in proof.signatures ==> Binds(verify, s.sigAlgo, s.pubkey, t.sig, m, m')
    ensures m == m'
  {
    var a, b := G.Approvers(verify, cfg, proof, m), G.Approvers(verify, cfg, proof, m');
    ApproversAreSigners(verify, cfg, proof, m);
    ApproversAreSigners(verify, cfg, proof, m');
    ListedAtMost(cfg.signers, (s: G.Signer) => s.id, SignerIds(cfg.signers));
    Overlap(a, b, SignerIds(cfg.signers));
    var id :| id in a * b;
    FirstIsListed(proof.signatures, id);
    var t :| t in proof.signatures && t.id == id && G.FirstSignature(proof.signatures, id) == Some(t.sig);
    var s := G.Find(cfg.signers, id).value;
    assert s in cfg.signers && Binds(verify, s.sigAlgo, s.pubkey, t.sig, m, m');
  }

  lemma {:induction false} FirstIsListed(sigs: seq<G.Signature>, id: Hash)
    requires G.FirstSignature(sigs, id).Some?
    ensures exists t :: t in sigs && t.id == id && G.FirstSignature(sigs, id) == Some(t.sig)
  {
    if sigs[0].id != id {
      FirstIsListed(sigs[1..], id);
      var t :| t in sigs[1..] && t.id == id && G.FirstSignature(sigs[1..], id) == Some(t.sig);
      assert t in sigs;
    }
  }

  /** With a majority threshold a proof that gets two governed calls through
      under one configuration got the same action through twice. */
  lemma MajorityProofNamesOneAction(env: Env, hash: seq<byte> -> Hash, encodeConfig: G.Config -> seq<byte>,
                                    cfg: G.Config, proofCbor: seq<byte>, a: Action, b: Action)
    requires Standard(env, hash, encodeConfig) && 2 * cfg.threshold > |cfg.signers|
    requires ProofFor(env, Some(cfg), proofCbor, Payload(env, a))
             && ProofFor(env, Some(cfg), proofCbor, Payload(env, b))
    requires E.NoClash(hash, ActionBytes(a, encodeConfig), ActionBytes(b, encodeConfig))
    requires forall s, t :: s in cfg.signers && t in env.decodeProof(proofCbor).value.signatures ==>
               Binds(env.verify, s.sigAlgo, s.pubkey, t.sig, Payload(env, a), Payload(env, b))
    ensures SameAction(a, b, encodeConfig)
  {
    MajorityProofNamesOneMessage(env.verify, cfg, env.decodeProof(proofCbor).value, Payload(env, a), Payload(env, b));
    assert Payload(env, a) == hash(ActionBytes(a, encodeConfig))
      && Payload(env, b) == hash(ActionBytes(b, encodeConfig));
    BytesNameAction(a, b, encodeConfig);
  }
}
