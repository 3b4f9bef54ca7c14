/** Nodes that share a tip share their state: where `History` fixes the blocks
    below a tip, this fixes what replaying them leaves behind. */
module Convergence {
  import opened Machine
  import opened Types
  import opened State
  import opened Ledger
  import opened Authority
  import opened Atomicity
  import opened Node
  import opened History
  import opened Binding
  import E = Encoding
  import G = Governance

  /** Equal records, up to the order in which coordinators are listed. */
  ghost predicate SameRecord(r: Record, s: Record) {
    r == s ||
    (r.AuthorityRec? && s.AuthorityRec? && r.jobId == s.jobId && r.registeredAt == s.registeredAt
     && multiset(r.coordinators) == multiset(s.coordinators))
  }

  ghost predicate SameState(a: Db, b: Db) {
    forall k: Key :: (k in a <==> k in b) && (k in a ==> SameRecord(a[k], b[k]))
  }

  lemma SameLookups(a: Db, b: Db, id: AccountId)
    requires SameState(a, b)
    ensures Load(a, id) == Load(b, id) && PendingOf(a) == PendingOf(b)
  {
    assert AccountKey(id) in a <==> AccountKey(id) in b;
    assert UPGRADE in a <==> UPGRADE in b;
  }

  lemma SumSame(a: Db, b: Db, w: Db, v: Db)
    requires SameState(a, b) && SameState(w, v)
    ensures SameState(a + w, b + v)
  {}

  // ---- One block ----

  lemma StageSame(env: Env, hash: Digest, enc: G.Config -> seq<byte>, a: Db, b: Db, i: nat, x: TxBody, y: TxBody,
                  ws: seq<Witness>)
    requires Standard(env, hash, enc) && SameState(a, b) && SameTx(x, y) && E.LengthsFit(x.call) && E.LengthsFit(y.call)
    ensures Stage(env, a, i, x, ws) == Stage(env, b, i, y, ws)
  {
    SameLookups(a, b, x.sender);
    E.SigningBytesIdentifyTransactions(x, y);
    assert env.signingHash(x) == env.signingHash(y);
    assert Target(i, x) == Target(i, y);
  }

  lemma StagingSame(env: Env, hash: Digest, enc: G.Config -> seq<byte>, a: Db, b: Db, p: Block, q: Block)
    requires Standard(env, hash, enc) && SameState(a, b) && SameBody(p, q) && Encodable(p) && Encodable(q)
    ensures StageBlock(env, a, p) == StageBlock(env, b, q)
  {
    var v, u := Verdicts(env, a, p.txs, p.witnesses), Verdicts(env, b, q.txs, q.witnesses);
    forall i | 0 <= i < |v| ensures v[i] == u[i] {
      assert p.txs[i] in p.txs && q.txs[i] in q.txs && SameTx(p.txs[i], q.txs[i]);
      StageSame(env, hash, enc, a, b, i, p.txs[i], q.txs[i], p.witnesses);
    }
    assert v == u;
  }

  lemma MoveSame(a: Db, b: Db, s: Staged)
    requires SameState(a, b)
    ensures ApplyStaged(a, s).error == ApplyStaged(b, s).error && SameState(ApplyStaged(a, s).db, ApplyStaged(b, s).db)
  {
    SameLookups(a, b, s.sender);
    if ApplyStaged(a, s).error.None? {
      var from := Debited(LoadOrDefault(a, s.sender), s);
      var a1, b1 := Save(a, s.sender, from), Save(b, s.sender, from);
      SameLookups(a1, b1, s.to);
    }
  }

  lemma {:induction false} PassSame(a: Db, b: Db, staged: seq<Staged>)
    requires SameState(a, b)
    ensures ApplyAll(a, staged).error == ApplyAll(b, staged).error
            && SameState(ApplyAll(a, staged).db, ApplyAll(b, staged).db)
    decreases |staged|
  {
    if staged != [] {
      MoveSame(a, b, staged[0]);
      if ApplyStaged(a, staged[0]).error.None? {
        PassSame(ApplyStaged(a, staged[0]).db, ApplyStaged(b, staged[0]).db, staged[1..]);
      }
    }
  }

  lemma WrittenSame(env: Env, header: BlockHeader, x: TxBody, y: TxBody)
    requires SameTx(x, y)
    ensures SameState(Written(env, header, x), Written(env, header, y))
  {}

  lemma {:induction false} EffectsSame(env: Env, a: Db, b: Db, header: BlockHeader, xs: seq<TxBody>, ys: seq<TxBody>,
                                       i: nat)
    requires SameState(a, b) && i <= |xs| == |ys| && forall k :: 0 <= k < |xs| ==> SameTx(xs[k], ys[k])
    requires EffectsFrom(env, a, header, xs, i).error.None? && EffectsFrom(env, b, header, ys, i).error.None?
    ensures SameState(EffectsFrom(env, a, header, xs, i).db, EffectsFrom(env, b, header, ys, i).db)
    decreases |xs| - i
  {
    if i < |xs| {
      EffectsUnfold(env, a, header, xs, i);
      EffectsUnfold(env, b, header, ys, i);
      EffectWrites(env, a, header, i, xs[i]);
      EffectWrites(env, b, header, i, ys[i]);
      WrittenSame(env, header, xs[i], ys[i]);
      SumSame(a, b, Written(env, header, xs[i]), Written(env, header, ys[i]));
      EffectsSame(env, Effect(env, a, header, i, xs[i]).db, Effect(env, b, header, i, ys[i]).db, header, xs, ys, i + 1);
    }
  }

  lemma SendersSame(p: Block, q: Block)
    requires SameBody(p, q)
    ensures SenderSet(p.txs) == SenderSet(q.txs)
  {
    forall tx | tx in p.txs ensures tx.sender in SenderSet(q.txs) {
      var i :| 0 <= i < |p.txs| && p.txs[i] == tx;
      assert SameTx(p.txs[i], q.txs[i]) && q.txs[i] in q.txs;
    }
    forall tx | tx in q.txs ensures tx.sender in SenderSet(p.txs) {
      var i :| 0 <= i < |q.txs| && q.txs[i] == tx;
      assert SameTx(p.txs[i], q.txs[i]) && p.txs[i] in p.txs;
    }
  }

  /** Everything that closing a block writes, beside what is there. */
  function Closing(db: Db, b: Block, fees: u128, minted: u128): Db
    requires LoadOrDefault(db, Miner(b.header)).balance + minted <= U128_MAX
  {
    var a := LoadOrDefault(db, Miner(b.header));
    var r := ReflectionRec(Reflection(b.header.bits, |SenderSet(b.txs)|, fees, minted, 0, 0, 0));
    var paid: Db := map[AccountKey(Miner(b.header)) := AccountRec(a.(balance := a.balance + minted))];
    var read: Db := map[ReflectKey(b.header.height) := r, LATEST := r];
    var rotated: Db :=
      match PendingOf(db)
      case Some(p) =>
        if p.targetHeight == b.header.height then map[ACTIVE := ActiveRec(ActiveCrypto(p.sigAlgo, p.hashAlgo,
          b.header.height))] else map[]
      case None => map[];
    paid + read + rotated
  }

  function At(db: Db, k: Key): Option<Record> { if k in db then Some(db[k]) else None }

  lemma FinishAt(env: Env, db: Db, b: Block, reward: u128, fees: u128, k: Key)
    requires Finish(env, db, b, reward, fees).error.None?
    ensures reward + fees <= U128_MAX && LoadOrDefault(db, Miner(b.header)).balance + (reward + fees) <= U128_MAX
    ensures var c := Closing(db, b, fees, reward + fees);
            At(Finish(env, db, b, reward, fees).db, k) == if k in c then At(c, k) else At(db, k)
  {
    var a, miner, minted: u128 := LoadOrDefault(db, Miner(b.header)), Miner(b.header), reward + fees;
    var paid := Save(db, miner, a.(balance := a.balance + minted));
    assert PendingOf(Reflected(paid, b.header, b.txs, fees, minted)) == PendingOf(db);
  }

  lemma ClosingSame(a: Db, b: Db, p: Block, q: Block, fees: u128, minted: u128)
    requires SameState(a, b) && p.header == q.header && SenderSet(p.txs) == SenderSet(q.txs)
    requires LoadOrDefault(a, Miner(p.header)).balance + minted <= U128_MAX
    ensures LoadOrDefault(b, Miner(q.header)).balance + minted <= U128_MAX
    ensures Closing(a, p, fees, minted) == Closing(b, q, fees, minted)
  {
    SameLookups(a, b, Miner(p.header));
  }

  ghost predicate SameAt(a: Db, b: Db, k: Key) {
    match (At(a, k), At(b, k))
    case (Some(r), Some(s)) => SameRecord(r, s)
    case (r, s) => r == s
  }

  lemma SameEverywhere(a: Db, b: Db)
    requires forall k :: SameAt(a, b, k)
    ensures SameState(a, b)
  {
    forall k: Key ensures (k in a <==> k in b) && (k in a ==> SameRecord(a[k], b[k])) {
      assert SameAt(a, b, k);
    }
  }

  lemma FinishSameAt(env: Env, a: Db, b: Db, p: Block, q: Block, reward: u128, fees: u128, k: Key)
    requires SameState(a, b) && p.header == q.header && SenderSet(p.txs) == SenderSet(q.txs)
    requires Finish(env, a, p, reward, fees).error.None? && Finish(env, b, q, reward, fees).error.None?
    ensures SameAt(Finish(env, a, p, reward, fees).db, Finish(env, b, q, reward, fees).db, k)
  {
    FinishAt(env, a, p, reward, fees, k);
    FinishAt(env, b, q, reward, fees, k);
    ClosingSame(a, b, p, q, fees, reward + fees);
    OverwrittenAlike(a, b, Closing(a, p, fees, reward + fees), Finish(env, a, p, reward, fees).db,
      Finish(env, b, q, reward, fees).db, k);
  }

  lemma OverwrittenAlike(a: Db, b: Db, c: Db, x: Db, y: Db, k: Key)
    requires SameState(a, b)
    requires At(x, k) == if k in c then At(c, k) else At(a, k)
    requires At(y, k) == if k in c then At(c, k) else At(b, k)
    ensures SameAt(x, y, k)
  {
    assert k in a <==> k in b;
  }

  lemma FinishSame(env: Env, a: Db, b: Db, p: Block, q: Block, reward: u128, fees: u128)
    requires SameState(a, b) && p.header == q.header && SenderSet(p.txs) == SenderSet(q.txs)
    requires Finish(env, a, p, reward, fees).error.None? && Finish(env, b, q, reward, fees).error.None?
    ensures SameState(Finish(env, a, p, reward, fees).db, Finish(env, b, q, reward, fees).db)
  {
    var x, y := Finish(env, a, p, reward, fees).db, Finish(env, b, q, reward, fees).db;
    forall k ensures SameAt(x, y, k) { FinishSameAt(env, a, b, p, q, reward, fees, k); }
    SameEverywhere(x, y);
  }

  lemma ApplySame(env: Env, hash: Digest, enc: G.Config -> seq<byte>, a: Db, b: Db, p: Block, q: Block, reward: u128)
    requires Standard(env, hash, enc) && SameState(a, b)
    requires p.header == q.header && SameBody(p, q) && Encodable(p) && Encodable(q)
    requires Apply(env, a, p, reward).outcome.Ok? && Apply(env, b, q, reward).outcome.Ok?
    ensures SameState(Apply(env, a, p, reward).db, Apply(env, b, q, reward).db)
  {
    StagingSame(env, hash, enc, a, b, p, q);
    var (staged, fees) := StageBlock(env, a, p).value;
    PassSame(a, b, staged);
    EffectsSame(env, ApplyAll(a, staged).db, ApplyAll(b, staged).db, p.header, p.txs, q.txs, 0);
    SendersSame(p, q);
    FinishSame(env, EffectsFrom(env, ApplyAll(a, staged).db, p.header, p.txs, 0).db,
               EffectsFrom(env, ApplyAll(b, staged).db, q.header, q.txs, 0).db, p, q, reward, fees);
  }

  // ---- Whole logs ----

  ghost predicate SameBooks(x: Books, y: Books) { SameState(x.db, y.db) && x.totals == y.totals }

  lemma ExtendSame(o: Rules, env: Env, cfg: Config, hash: Digest, enc: G.Config -> seq<byte>, x: Books, y: Books,
                   p: Block, q: Block, parentTime: u64)
    requires Real(o, env, cfg) && Standard(env, hash, enc) && SameBooks(x, y)
    requires p.header == q.header && SameBody(p, q) && Encodable(p) && Encodable(q)
    requires Extend(o, x, p, parentTime).1.None? && Extend(o, y, q, parentTime).1.None?
    ensures SameBooks(Extend(o, x, p, parentTime).0, Extend(o, y, q, parentTime).0)
  {
    var reward := RewardFor(o, x, p.header, parentTime);
    assert o.ledger(x.db, Paid(p, reward)) == Apply(env, x.db, p, reward);
    assert o.ledger(y.db, Paid(q, reward)) == Apply(env, y.db, q, reward);
    ApplySame(env, hash, enc, x.db, y.db, p, q, reward);
  }

  ghost predicate SameLogs(a: seq<Block>, b: seq<Block>) {
    |a| == |b| && forall k ::
      0 <= k < |a| ==> a[k].header == b[k].header && SameBody(a[k], b[k]) && Encodable(a[k]) && Encodable(b[k])
  }

  lemma {:induction false} ReplaySame(o: Rules, env: Env, cfg: Config, hash: Digest, enc: G.Config -> seq<byte>,
                                      start: Db, a: seq<Block>, b: seq<Block>, n: nat)
    requires Real(o, env, cfg) && Standard(env, hash, enc) && SameLogs(a, b) && n <= |a|
    requires ReplayTo(o, cfg, start, a, n).Ok? && ReplayTo(o, cfg, start, b, n).Ok?
    ensures SameBooks(ReplayTo(o, cfg, start, a, n).value, ReplayTo(o, cfg, start, b, n).value)
  {
    if n > 0 {
      ReplaySame(o, env, cfg, hash, enc, start, a, b, n - 1);
      var p, q := a[n - 1], b[n - 1];
      assert p.header == q.header;
      ExtendSame(o, env, cfg, hash, enc, ReplayTo(o, cfg, start, a, n - 1).value,
        ReplayTo(o, cfg, start, b, n - 1).value, p, q,
                 ReplayParentTime(cfg, a, p.header.height));
    }
  }

  /** Two logs with the same genesis block and the same tip hash, both replaying
      without error, leave the same totals and the same state, up to the order in
      which coordinators are listed. */
  lemma TipFixesReplay(o: Rules, env: Env, cfg: Config, header: Digest, body: Digest, hash: Digest,
                       enc: G.Config -> seq<byte>,
                       start: Db, a: seq<Block>, b: seq<Block>)
    requires Real(o, env, cfg) && Standard(env, hash, enc) && Hashes(o, header, body)
    requires WellFormed(o, cfg, a) && WellFormed(o, cfg, b) && LogsDoNotClash(header, body, a, b)
    requires a != [] && b != [] && a[0] == b[0] && o.headerHash(a[|a| - 1].header) == o.headerHash(b[|b| - 1].header)
    requires (forall p :: p in a ==> Encodable(p)) && (forall q :: q in b ==> Encodable(q))
    requires Node.Replay(o, cfg, start, a).Ok? && Node.Replay(o, cfg, start, b).Ok?
    ensures SameBooks(Node.Replay(o, cfg, start, a).value, Node.Replay(o, cfg, start, b).value)
  {
    TipFixesLog(o, cfg, header, body, a, b);
    ReplaySame(o, env, cfg, hash, enc, start, a, b, |a|);
  }

  lemma TipFixesLog(o: Rules, cfg: Config, header: Digest, body: Digest, a: seq<Block>, b: seq<Block>)
    requires Hashes(o, header, body) && WellFormed(o, cfg, a) && WellFormed(o, cfg, b)
             && LogsDoNotClash(header, body, a, b)
    requires a != [] && b != [] && a[0] == b[0] && o.headerHash(a[|a| - 1].header) == o.headerHash(b[|b| - 1].header)
    requires (forall p :: p in a ==> Encodable(p)) && (forall q :: q in b ==> Encodable(q))
    ensures SameLogs(a, b)
  {
    TipFixesHistory(o, cfg, header, body, a, b);
    forall k | 0 <= k < |a| ensures SameBody(a[k], b[k]) && Encodable(a[k]) && Encodable(b[k]) {
      assert a[k] in a && b[k] in b;
    }
  }
}
