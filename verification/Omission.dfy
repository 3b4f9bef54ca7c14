/** What a header leaves open: governance proofs are in no hash it commits to
    (crates/core/src/tx.rs), so two bodies under one header can fare differently. */
module Omission {
  import opened Machine
  import opened Types
  import opened State
  import opened Ledger
  import opened Authority
  import opened Atomicity
  import opened Node
  import opened History
  import opened Binding
  import E = Encoding
  import G = Governance
  import R = Replay

  predicate Governed(call: TxCall) { call.UpgradeCrypto? || call.RegisterAttestCoordinator? || call.SetGovernance? }

  /** The same transaction without its governance proof. */
  function Unproven(tx: TxBody): TxBody {
    match tx.call
    case UpgradeCrypto(h, s, k, _) => tx.(call := UpgradeCrypto(h, s, k, []))
    case RegisterAttestCoordinator(j, c, _) => tx.(call := RegisterAttestCoordinator(j, c, []))
    case SetGovernance(cbor, _) => tx.(call := SetGovernance(cbor, []))
    case _ => tx
  }

  function WithoutProof(b: Block, i: nat): Block
    requires i < |b.txs|
  {
    b.(txs := b.txs[i := Unproven(b.txs[i])])
  }

  // ---- No hash sees the difference ----

  lemma SameBytes(tx: TxBody)
    ensures E.SigningBytes(Unproven(tx)) == E.SigningBytes(tx) && E.BodyBytes(Unproven(tx)) == E.BodyBytes(tx)
  {
    assert E.CallBytes(Unproven(tx).call) == E.CallBytes(tx.call);
  }

  lemma SameRoot(b: Block, i: nat, body: Digest)
    requires i < |b.txs|
    ensures TxRootBytes(WithoutProof(b, i).txs, body) == TxRootBytes(b.txs, body)
  {
    SameBytes(b.txs[i]);
    assert TxLeaves(WithoutProof(b, i).txs, body) == TxLeaves(b.txs, body);
  }

  // ---- Validation does not either, the gate does ----

  lemma SameStaging(env: Env, hash: Digest, enc: G.Config -> seq<byte>, db: Db, b: Block, i: nat)
    requires Standard(env, hash, enc) && i < |b.txs|
    ensures StageBlock(env, db, WithoutProof(b, i)) == StageBlock(env, db, b)
  {
    SameBytes(b.txs[i]);
    var stripped := WithoutProof(b, i);
    var v, u := Verdicts(env, db, b.txs, b.witnesses), Verdicts(env, db, stripped.txs, b.witnesses);
    forall k | 0 <= k < |v| ensures v[k] == u[k] {
      if k == i { StageUnproven(env, hash, enc, db, k, b.txs[k], b.witnesses); }
    }
    assert v == u;
  }

  lemma StageUnproven(env: Env, hash: Digest, enc: G.Config -> seq<byte>, db: Db, i: nat, tx: TxBody, ws: seq<Witness>)
    requires Standard(env, hash, enc)
    ensures Stage(env, db, i, Unproven(tx), ws) == Stage(env, db, i, tx, ws)
  {
    SameBytes(tx);
    assert env.signingHash(Unproven(tx)) == env.signingHash(tx);
    assert Target(i, Unproven(tx)) == Target(i, tx);
  }

  lemma UnprovenIsRefused(env: Env, db: Db, header: BlockHeader, i: nat, tx: TxBody)
    requires Governed(tx.call) && GovernanceOf(db).Some?
    ensures Effect(env, db, header, i, Unproven(tx)).error.Some?
  {}

  /** Once a configuration exists, the effects of a block with one proof removed
      are refused, at that transaction or before it. */
  lemma {:induction false} EffectsRefused(env: Env, db: Db, header: BlockHeader, txs: seq<TxBody>, i: nat, k: nat)
    requires k <= i < |txs| && Governed(txs[i].call) && GovernanceOf(db).Some?
    ensures EffectsFrom(env, db, header, txs[i := Unproven(txs[i])], k).error.Some?
    decreases i - k
  {
    var stripped := txs[i := Unproven(txs[i])];
    EffectsUnfold(env, db, header, stripped, k);
    if k == i {
      UnprovenIsRefused(env, db, header, i, txs[i]);
    } else {
      EffectIsAuthorized(env, db, header, k, txs[k]);
      var first := Effect(env, db, header, k, txs[k]);
      if first.error.None? { EffectsRefused(env, first.db, header, txs, i, k + 1); }
    }
  }

  // ---- One header, two fates ----

  /** On a store with a configuration, an accepted block that has one governance
      proof removed is rejected after raising its first sender's nonce, and then
      the block itself is no longer valid. */
  lemma ProofDecides(env: Env, hash: Digest, enc: G.Config -> seq<byte>, db: Db, b: Block, i: nat, reward: u128)
    requires Standard(env, hash, enc) && R.NoncesBelowMax(b) && i < |b.txs| && Governed(b.txs[i].call)
    requires GovernanceOf(db).Some? && StageBlock(env, db, b).Ok?
    ensures var r := Apply(env, db, WithoutProof(b, i), reward);
            && r.outcome.Err?
            && R.NonceOf(db, b.txs[0].sender) < R.NonceOf(r.db, b.txs[0].sender)
            && StageBlock(env, r.db, b).Err?
  {
    var stripped := WithoutProof(b, i);
    SameStaging(env, hash, enc, db, b, i);
    EffectsRefused(env, db, b.header, b.txs, i, 0);
    assert forall k ::
      0 <= k < |b.txs| ==> stripped.txs[k].nonce == b.txs[k].nonce && stripped.txs[k].sender == b.txs[k].sender;
    LateFailuresWrite(env, db, stripped, reward);
    NonceMoved(env, db, Apply(env, db, stripped, reward).db, b);
  }

  lemma NonceMoved(env: Env, before: Db, after: Db, b: Block)
    requires b.txs != [] && StageBlock(env, before, b).Ok?
    requires R.NonceOf(before, b.txs[0].sender) < R.NonceOf(after, b.txs[0].sender)
    ensures StageBlock(env, after, b).Err?
  {
    R.StagedFromBlock(env, before, b);
    if StageBlock(env, after, b).Ok? { R.StagedFromBlock(env, after, b); }
  }

  lemma SameHeaderCheck(o: Rules, cfg: Config, header: Digest, body: Digest, tip: Option<BlockHeader>, b: Block,
                        i: nat, now: u64)
    requires Hashes(o, header, body) && i < |b.txs|
    ensures CheckHeader(o, cfg, tip, WithoutProof(b, i), now) == CheckHeader(o, cfg, tip, b, now)
  {
    SameRoot(b, i, body);
    assert o.txRoot(WithoutProof(b, i).txs) == o.txRoot(b.txs);
  }

  /** The header does not commit to governance proofs: take any block a node with
      a configuration would accept, below the nonce limit, and remove the proof
      of any governed call in it. The two have the same header and pass the same
      header checks; the one without the proof is rejected but changes the store,
      and after it the one with the proof is rejected as well. */
  lemma HeaderLeavesProofsOpen(o: Rules, env: Env, cfg: Config, header: Digest, body: Digest, hash: Digest,
                               enc: G.Config -> seq<byte>,
                               live: Live, b: Block, i: nat, now: u64)
    requires Real(o, env, cfg) && Hashes(o, header, body) && Standard(env, hash, enc)
    requires Try(o, cfg, live, b, now).1.None? && R.NoncesBelowMax(b) && GovernanceOf(live.books.db).Some?
    requires i < |b.txs| && Governed(b.txs[i].call)
    ensures var (after, reject) := Try(o, cfg, live, WithoutProof(b, i), now);
            && CheckHeader(o, cfg, Tip(live.log), WithoutProof(b, i), now).None?
            && reject.Some? && after.log == live.log && after.books.db != live.books.db
            && Try(o, cfg, after, b, now).1.Some?
  {
    var stripped, parentTime := WithoutProof(b, i), RewardParentTime(cfg, Tip(live.log));
    SameHeaderCheck(o, cfg, header, body, Tip(live.log), b, i, now);
    var reward := RewardFor(o, live.books, b.header, parentTime);
    assert o.ledger(live.books.db, Paid(b, reward)) == Apply(env, live.books.db, b, reward);
    assert o.ledger(live.books.db, Paid(stripped, reward)) == Apply(env, live.books.db, stripped, reward);
    ProofDecides(env, hash, enc, live.books.db, b, i, reward);
    var left := Apply(env, live.books.db, stripped, reward).db;
    assert o.ledger(left, Paid(b, reward)) == Apply(env, left, b, reward);
  }
}
