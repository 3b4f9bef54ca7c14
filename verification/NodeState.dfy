/** The running node: the in-place counterparts of the steps in `Node`
    (crates/node/src/rpc.rs, main.rs). */
module NodeState {
  import opened Machine
  import opened Types
  import opened State
  import opened Node
  import L = Ledger
  import E = Emission
  import C = Compact
  import G = Governance
  import P = Mempool
  import S = ChainStore
  import N = Encoding
  import H = History

  /** Reward, apply, count: the code shared by block acceptance and replay. */
  method ExtendInPlace(o: Rules, env: L.Env, cfg: Config, state: Store, totals: E.Totals, block: Block, parentTime: u64)
    returns (after: E.Totals, error: Option<L.ApplyError>)
    requires Real(o, env, cfg)
    modifies state
    ensures var x := Extend(o, Books(old(state.data), totals), block, parentTime);
            state.data == x.0.db && after == x.0.totals && error == x.1
  {
    var h := block.header;
    var reward := E.CurrentRewardWithHeight(cfg.emission, cfg.genesisTime, h.timestamp, parentTime, totals.minted,
      h.height, totals.previous);
    var out := L.ApplyBlock(env, state, block, reward);
    if out.Err? { return totals, Some(out.error); }
    return E.Counted(totals, reward), None;
  }

  method HasWork(o: Rules, h: BlockHeader) returns (ok: bool)
    ensures ok <==> MeetsWork(o, h)
  {
    var target := C.TargetFromBits(h.bits);
    ok := C.MeetsTarget(o.headerHash(h), target);
  }

  class NodeState {
    const o: Rules
    const env: L.Env
    const cfg: Config
    const state: Store
    const chain: S.ChainStore
    const pool: P.Mempool
    var minted: u128
    var previous: Option<u128>

    ghost predicate Valid()
      reads this, chain, pool
    {
      chain.Valid() && pool.Valid()
    }

    ghost function View(): Live
      reads this, state, chain
    {
      Live(Books(state.data, E.Totals(minted, previous)), chain.blocks)
    }

    constructor (o: Rules, env: L.Env, cfg: Config, state: Store, chain: S.ChainStore, pool: P.Mempool, books: E.Totals)
      requires chain.Valid() && pool.Valid()
      ensures Valid() && View() == Live(Books(state.data, books), chain.blocks)
      ensures this.state == state && this.chain == chain && this.pool == pool && this.cfg == cfg && this.o == o
              && this.env == env
    {
      this.o, this.env, this.cfg := o, env, cfg;
      this.state, this.chain, this.pool := state, chain, pool;
      minted, previous := books.minted, books.previous;
    }

    /** The header checks, against the cached tip. */
    method CheckBlock(block: Block, now: u64) returns (r: Option<Reject>)
      requires Valid()
      ensures r == CheckHeader(o, cfg, Tip(chain.blocks), block, now)
    {
      var h := block.header;
      var tip := if chain.tip.Some? then Some(chain.tip.value.header) else None;
      assert tip == Tip(chain.blocks);
      if now < cfg.genesisTime { return Some(PreGenesis); }
      if h.parent != ExpectedParent(o, tip) { return Some(StaleParent); }
      if h.height != ExpectedHeight(tip) { return Some(WrongHeight); }
      var expected := ExpectedBits(o, cfg, tip, h.timestamp);
      if expected.None? { return Some(RetargetPanic); }
      if h.bits != expected.value { return Some(WrongBits); }
      if h.timestamp < TimeOf(tip) { return Some(TimeReversed); }
      if h.timestamp > now + FUTURE_TOLERANCE_MS { return Some(FutureTime); }
      var work := HasWork(o, h);
      if !work { return Some(HashTooHigh); }
      if h.txRoot != o.txRoot(block.txs) { return Some(TxRootMismatch); }
      if h.witnessRoot != o.witnessRoot(block.witnesses) { return Some(WitnessRootMismatch); }
      return None;
    }

    /** What follows an accepted block: the counters move, its transactions
        leave the pool, and it joins the log. */
    method Record(block: Block, totals: E.Totals)
      requires Valid()
      modifies this`minted, this`previous, chain, pool
      ensures minted == totals.minted && previous == totals.previous
      ensures chain.blocks == old(chain.blocks) + [block]
      ensures pool.inner == P.Without(old(pool.inner), H.TxLeaves(block.txs, pool.hash))
      ensures chain.file == old(chain.file) + S.Frame(chain.codec, block)
      ensures S.Framable(chain.codec, block) ==> Valid()
    {
      minted, previous := totals.minted, totals.previous;
      var confirmed := CollectBodyHashes(block.txs, pool.hash);
      pool.Confirm(confirmed);
      chain.Append(block);
    }

    /** `try_apply_block`: exactly one step of the chain state machine; on
        success the block's transactions leave the pool and the block joins the
        log, on failure neither changes. */
    method TryApplyBlock(block: Block, now: u64) returns (r: Option<Reject>)
      requires Valid() && Real(o, env, cfg)
      modifies this`minted, this`previous, state, chain, pool
      ensures var x := Try(o, cfg, old(View()), block, now);
              && r == x.1 && chain.blocks == x.0.log
              && state.data == x.0.books.db && minted == x.0.books.totals.minted
                 && previous == x.0.books.totals.previous
      ensures pool.inner == if r.None? then P.Without(old(pool.inner), H.TxLeaves(block.txs, pool.hash))
              else old(pool.inner)
      ensures chain.file == old(chain.file) + if r.None? then S.Frame(chain.codec, block) else []
      ensures r.Some? || S.Framable(chain.codec, block) ==> Valid()
    {
      r := CheckBlock(block, now);
      if r.Some? { return; }
      var error := Advance(block);
      return if error.Some? then Some(Invalid(error.value)) else None;
    }

    /** Applies a block that has passed the header checks, and records it if the
        ledger accepts it. */
    method Advance(block: Block) returns (error: Option<L.ApplyError>)
      requires Valid() && Real(o, env, cfg)
      modifies this`minted, this`previous, state, chain, pool
      ensures var x := Extend(o, old(View()).books, block, RewardParentTime(cfg, Tip(old(chain.blocks))));
              && error == x.1 && state.data == x.0.db
              && minted == x.0.totals.minted && previous == x.0.totals.previous
      ensures chain.blocks == old(chain.blocks) + if error.None? then [block] else []
      ensures pool.inner == if error.None? then P.Without(old(pool.inner), H.TxLeaves(block.txs, pool.hash))
              else old(pool.inner)
      ensures chain.file == old(chain.file) + if error.None? then S.Frame(chain.codec, block) else []
      ensures error.Some? || S.Framable(chain.codec, block) ==> Valid()
    {
      var parentTime := if chain.tip.Some? then chain.tip.value.header.timestamp else cfg.genesisTime;
      var totals;
      totals, error := ExtendInPlace(o, env, cfg, state, E.Totals(minted, previous), block, parentTime);
      if error.None? { Record(block, totals); }
    }
  }

  /** What an accepted block takes out of the pool: the entries under the body hashes
      of its transactions, and nothing else. */
  lemma IncludedLeavePool(pool: P.Pool, txs: seq<TxBody>, hash: seq<byte> -> Hash, h: Hash)
    ensures var kept := P.Without(pool, H.TxLeaves(txs, hash));
            && (h in kept <==> h in pool && forall tx :: tx in txs ==> hash(N.BodyBytes(tx)) != h)
            && (h in kept ==> kept[h] == pool[h])
  {
    HashesOfBodies(txs, hash, h);
  }

  lemma HashesOfBodies(txs: seq<TxBody>, hash: seq<byte> -> Hash, h: Hash)
    ensures h in H.TxLeaves(txs, hash) <==> exists tx :: tx in txs && hash(N.BodyBytes(tx)) == h
  {
    var leaves := H.TxLeaves(txs, hash);
    if tx :| tx in txs && hash(N.BodyBytes(tx)) == h {
      var i :| 0 <= i < |txs| && txs[i] == tx;
      assert leaves[i] == h;
    }
    if h in leaves {
      var i :| 0 <= i < |leaves| && leaves[i] == h;
      assert txs[i] in txs;
    }
  }

  method CollectBodyHashes(txs: seq<TxBody>, hash: seq<byte> -> Hash) returns (r: seq<Hash>)
    ensures r == H.TxLeaves(txs, hash)
  {
    ghost var leaves := H.TxLeaves(txs, hash);
    r := [];
    var i := 0;
    while i < |txs|
      invariant 0 <= i <= |txs|
      invariant r == leaves[..i]
    {
      assert leaves[..i + 1] == leaves[..i] + [leaves[i]];
      var h := N.BodyHash(txs[i], hash);
      r := r + [h];
      i := i + 1;
    }
    assert leaves[..i] == leaves;
  }

  /** The start-up loop of `cmd_run`: replaying the whole log. */
  method ReplayLog(o: Rules, env: L.Env, cfg: Config, state: Store, blocks: seq<Block>)
      returns (r: Result<E.Totals, L.ApplyError>)
    requires Real(o, env, cfg)
    modifies state
    ensures match Replay(o, cfg, old(state.data), blocks) {
              case Ok(books) => r == Ok(books.totals) && state.data == books.db
              case Err(e) => r == Err(e)
            }
  {
    ghost var start := state.data;
    var totals := E.Totals(0, None);
    var i := 0;
    while i < |blocks|
      invariant 0 <= i <= |blocks|
      invariant ReplayTo(o, cfg, start, blocks, i) == Ok(Books(state.data, totals))
    {
      var parentTime := ReplayParentTime(cfg, blocks, blocks[i].header.height);
      var after, error := ExtendInPlace(o, env, cfg, state, totals, blocks[i], parentTime);
      if error.Some? {
        FailedReplay(o, cfg, start, blocks, i + 1, error.value);
        return Err(error.value);
      }
      totals := after;
      i := i + 1;
    }
    return Ok(totals);
  }

  lemma {:induction false} FailedReplay(o: Rules, cfg: Config, start: Db, blocks: seq<Block>, n: nat, e: L.ApplyError)
    requires n <= |blocks| && ReplayTo(o, cfg, start, blocks, n) == Err(e)
    ensures Replay(o, cfg, start, blocks) == Err(e)
    decreases |blocks| - n
  {
    if n < |blocks| { FailedReplay(o, cfg, start, blocks, n + 1, e); }
  }

  /** The chart's running totals, by height, over a non-empty log. */
  method RunningTotals(o: Rules, env: L.Env, cfg: Config, blocks: seq<Block>) returns (totals: map<u64, u128>)
    requires Real(o, env, cfg) && blocks != []
    ensures totals == CumulativeTo(o, blocks, |blocks|)
  {
    totals := map[0 := 0];
    var running: u128 := 0;
    var previous: Option<u128> := None;
    var i := 1;
    while i < |blocks|
      invariant 1 <= i <= |blocks|
      invariant SeriesTo(o, blocks, i) == E.Totals(running, previous) && totals == CumulativeTo(o, blocks, i)
    {
      var h := blocks[i].header;
      var reward := E.CurrentRewardWithHeight(cfg.emission, cfg.genesisTime, h.timestamp,
        blocks[i - 1].header.timestamp, running, h.height, previous);
      running := SatAdd(running, reward);
      previous := Some(reward);
      totals := totals[h.height := running];
      i := i + 1;
    }
  }

  /** `emission_series`: a bounded number of samples over a window that ends at
      the tip, always including the tip. */
  method EmissionSeries(o: Rules, env: L.Env, cfg: Config, blocks: seq<Block>, points: nat, windowSeconds: u64)
    returns (samples: seq<Sample>)
    requires Real(o, env, cfg)
    ensures samples == Chart(o, blocks, points, windowSeconds)
  {
    if blocks == [] { return []; }
    var cutoff := Cutoff(blocks[|blocks| - 1].header.timestamp, windowSeconds);
    TipInWindow(blocks, cutoff);
    var inWindow := Windowed(blocks, cutoff);
    var totals := RunningTotals(o, env, cfg, blocks);
    samples := TakeSamples(totals, inWindow, Stride(|inWindow|, points));
    var last := inWindow[|inWindow| - 1];
    if samples == [] || samples[|samples| - 1].height != last.header.height {
      samples := samples + [SampleOf(totals, last)];
    }
  }

  method Windowed(blocks: seq<Block>, cutoff: u64) returns (r: seq<Block>)
    ensures r == InWindow(blocks, cutoff)
  {
    r := [];
    var i := 0;
    while i < |blocks|
      invariant 0 <= i <= |blocks| && r == InWindow(blocks[..i], cutoff)
    {
      assert blocks[..i + 1][..i] == blocks[..i];
      if blocks[i].header.timestamp >= cutoff { r := r + [blocks[i]]; }
      i := i + 1;
    }
    assert blocks[..i] == blocks;
  }

  method TakeSamples(totals: map<u64, u128>, blocks: seq<Block>, stride: nat) returns (r: seq<Sample>)
    requires stride >= 1
    ensures r == EveryNth(totals, blocks, stride, |blocks|)
  {
    r := [];
    var i := 0;
    while i < |blocks|
      invariant 0 <= i <= |blocks| && r == EveryNth(totals, blocks, stride, i)
    {
      if i % stride == 0 { r := r + [SampleOf(totals, blocks[i])]; }
      i := i + 1;
    }
  }

  /** Public-key sizes of the known signature algorithms. */
  function KeySize(algo: byte): Option<nat> {
    match algo
    case 1 => Some(897)
    case 2 => Some(32)
    case 3 => Some(32)
    case 4 => Some(1952)
    case 5 => Some(48)
    case _ => None
  }

  /** A committee member as the genesis file spells it. */
  datatype Member = Member(idHex: string, sigAlgo: byte, pubkeyHex: string)

  type HexDecoder = string -> Option<seq<byte>>

  /** The signer a member spells: both fields are hex, the id has 32 bytes, and
      the key has its algorithm's size where that is known. */
  function Spelled(hex: HexDecoder, m: Member): Option<G.Signer> {
    match (hex(m.idHex), hex(m.pubkeyHex))
    case (Some(id), Some(key)) =>
      if |id| == 32 && (KeySize(m.sigAlgo).None? || |key| == KeySize(m.sigAlgo).value)
        then Some(G.Signer(id, m.sigAlgo, key)) else None
    case (_, _) => None
  }

  predicate AllSpelled(hex: HexDecoder, members: seq<Member>) { forall m :: m in members ==> Spelled(hex, m).Some? }

  function Signers(hex: HexDecoder, members: seq<Member>): (r: seq<G.Signer>)
    requires AllSpelled(hex, members)
    ensures |r| == |members| && forall i :: 0 <= i < |r| ==> Spelled(hex, members[i]) == Some(r[i])
  {
    if members == [] then []
    else
      assert members[|members| - 1] in members;
      Signers(hex, members[..|members| - 1]) + [Spelled(hex, members[|members| - 1]).value]
  }

  /** An omitted threshold means all members. */
  function GenesisConfig(members: seq<G.Signer>, threshold: u32, epoch: u64): G.Config {
    G.Config(epoch, if threshold == 0 then |members| % (U32_MAX + 1) else threshold, members)
  }

  /** `install_genesis_governance`: a committee is installed whole and
      well-formed, or not at all. */
  method InstallGenesisGovernance(hex: HexDecoder, state: Store, members: seq<Member>, threshold: u32, epoch: u64)
      returns (ok: bool)
    modifies state
    ensures ok <==> AllSpelled(hex, members) && G.WellFormed(GenesisConfig(Signers(hex, members), threshold, epoch))
    ensures !ok ==> state.data == old(state.data)
    ensures ok ==>
            state.data == old(state.data)[GOVERNANCE := GovernanceRec(GenesisConfig(Signers(hex, members), threshold,
              epoch))]
  {
    var signers: seq<G.Signer> := [];
    var i := 0;
    while i < |members|
      invariant 0 <= i <= |members|
      invariant AllSpelled(hex, members[..i]) && signers == Signers(hex, members[..i])
    {
      var m := members[i];
      assert m in members && members[..i + 1][..i] == members[..i];
      var id := hex(m.idHex);
      if id.None? || |id.value| != 32 { return false; }
      var key := hex(m.pubkeyHex);
      if key.None? { return false; }
      var size := KeySize(m.sigAlgo);
      if size.Some? && |key.value| != size.value { return false; }
      signers := signers + [G.Signer(id.value, m.sigAlgo, key.value)];
      i := i + 1;
    }
    assert members[..i] == members;
    var cfg := GenesisConfig(signers, threshold, epoch);
    var bad := G.Validate(cfg);
    if bad.Some? { return false; }
    state.Put(GOVERNANCE, GovernanceRec(cfg));
    return true;
  }

  /** A genesis state holds no coins, no announcement and no active suite, and
      its governance is sound. */
  lemma GenesisStateIsSound(members: seq<G.Signer>, threshold: u32, epoch: u64)
    requires G.WellFormed(GenesisConfig(members, threshold, epoch))
    ensures var start: Db := map[GOVERNANCE := GovernanceRec(GenesisConfig(members, threshold, epoch))];
            && Total(start) == 0 && Total(map[]) == 0
            && GovernanceOf(start).Some? && G.WellFormed(GovernanceOf(start).value)
            && PendingOf(start) == None && ActiveOf(start) == None
  {
    var start: Db := map[GOVERNANCE := GovernanceRec(GenesisConfig(members, threshold, epoch))];
    var empty: Db := map[];
    assert start == empty[GOVERNANCE := GovernanceRec(GenesisConfig(members, threshold, epoch))];
    TotalElsewhere(empty, GOVERNANCE, GovernanceRec(GenesisConfig(members, threshold, epoch)));
    assert |GOVERNANCE.bytes| == 10 && |UPGRADE.bytes| == 14 && |ACTIVE.bytes| == 13;
  }

  /** A member of the genesis file becomes a signer exactly when its id is 32 bytes
      of hex and its key is hex of its algorithm's size: 897 bytes, 32, 32, 1952 or
      48 for algorithms 1 to 5, any for others. */
  lemma SpelledIff(hex: HexDecoder, m: Member, s: G.Signer)
    ensures Spelled(hex, m) == Some(s) <==>
            && hex(m.idHex) == Some(s.id) && hex(m.pubkeyHex) == Some(s.pubkey) && s.sigAlgo == m.sigAlgo
            && (m.sigAlgo == 1 ==> |s.pubkey| == 897) && (m.sigAlgo == 2 || m.sigAlgo == 3 ==> |s.pubkey| == 32)
            && (m.sigAlgo == 4 ==> |s.pubkey| == 1952) && (m.sigAlgo == 5 ==> |s.pubkey| == 48)
  {}

  /** The configuration it installs: the signers in order, the epoch, and the
      threshold given or, where that is zero, one as large as the committee. */
  lemma GenesisConfigIs(signers: seq<G.Signer>, threshold: u32, epoch: u64)
    requires |signers| <= U32_MAX
    ensures GenesisConfig(signers, threshold, epoch)
         == G.Config(epoch, if threshold > 0 then threshold else |signers|, signers)
  {}

  /** A chain started with an omitted threshold needs every member: a proof its
      configuration accepts carries a valid signature under each member's key. */
  lemma OmittedThresholdMeansAll(verify: G.Verifier, members: seq<G.Signer>, epoch: u64, proof: G.Proof, msg: Hash,
                                 i: nat)
    requires G.WellFormed(GenesisConfig(members, 0, epoch)) && |members| <= U32_MAX && i < |members|
    requires G.Meets(verify, GenesisConfig(members, 0, epoch), proof, msg)
    ensures exists s :: s in proof.signatures && s.id == members[i].id
                        && verify(members[i].sigAlgo, members[i].pubkey, s.sig, msg)
  {
    var cfg := GenesisConfig(members, 0, epoch);
    G.FullThresholdNeedsAll(verify, cfg, proof, msg, i);
    G.ApproverIff(verify, cfg, proof, msg, i);
    var k :| 0 <= k < |proof.signatures| && proof.signatures[k].id == members[i].id
      && verify(members[i].sigAlgo, members[i].pubkey, proof.signatures[k].sig, msg);
    assert proof.signatures[k] in proof.signatures;
  }
}
