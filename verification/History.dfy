/** What the hash of the tip commits to: header preimages
    (crates/consensus/src/pow.rs), body roots (crates/core/src/block.rs), and
    through parent links every block below. */
module History {
  import opened Machine
  import opened Bytes
  import opened Types
  import opened Encoding
  import opened Node

  type Digest = seq<byte> -> Hash

  // ---- Headers ----

  function NumberBytes(h: BlockHeader): (r: seq<byte>)
    ensures |r| == 64
  {
    LittleEndian(h.version, 4) + (LittleEndian(h.height, 8) + (h.parent +
      (LittleEndian(h.timestamp, 8) + (LittleEndian(h.bits, 4) + LittleEndian(h.nonce, 8)))))
  }

  function CommitmentBytes(h: BlockHeader): seq<byte> {
    h.txRoot + (h.witnessRoot + (h.stateRoot + (h.reflectRoot + (h.coinbase + [h.sigAlgo, h.hashAlgo]))))
  }

  /** The bytes fed to the proof-of-work hash. */
  function HeaderBytes(h: BlockHeader): seq<byte> { NumberBytes(h) + CommitmentBytes(h) }

  lemma NumbersEqual(a: BlockHeader, b: BlockHeader)
    ensures NumberBytes(a) == NumberBytes(b) <==>
            a.version == b.version && a.height == b.height && a.parent == b.parent && a.timestamp == b.timestamp
              && a.bits == b.bits && a.nonce == b.nonce
  {
    WordSizes();
    var (n, n') := (LittleEndian(a.nonce, 8), LittleEndian(b.nonce, 8));
    var (u, u') := (LittleEndian(a.bits, 4) + n, LittleEndian(b.bits, 4) + n');
    var (t, t') := (LittleEndian(a.timestamp, 8) + u, LittleEndian(b.timestamp, 8) + u');
    var (p, p') := (a.parent + t, b.parent + t');
    Split(LittleEndian(a.version, 4), LittleEndian(a.height, 8) + p, LittleEndian(b.version, 4),
      LittleEndian(b.height, 8) + p');
    Split(LittleEndian(a.height, 8), p, LittleEndian(b.height, 8), p');
    Split(a.parent, t, b.parent, t');
    Split(LittleEndian(a.timestamp, 8), u, LittleEndian(b.timestamp, 8), u');
    Split(LittleEndian(a.bits, 4), n, LittleEndian(b.bits, 4), n');
    WordsEqual(a.version, b.version, 4);
    WordsEqual(a.height, b.height, 8);
    WordsEqual(a.timestamp, b.timestamp, 8);
    WordsEqual(a.bits, b.bits, 4);
    WordsEqual(a.nonce, b.nonce, 8);
  }

  lemma CommitmentsEqual(a: BlockHeader, b: BlockHeader)
    ensures CommitmentBytes(a) == CommitmentBytes(b) <==>
            && a.txRoot == b.txRoot && a.witnessRoot == b.witnessRoot && a.stateRoot == b.stateRoot
            && a.reflectRoot == b.reflectRoot && a.coinbase == b.coinbase && a.sigAlgo == b.sigAlgo
               && a.hashAlgo == b.hashAlgo
  {
    var (s, s') := ([a.sigAlgo, a.hashAlgo], [b.sigAlgo, b.hashAlgo]);
    var (c, c') := (a.coinbase + s, b.coinbase + s');
    var (r, r') := (a.reflectRoot + c, b.reflectRoot + c');
    var (t, t') := (a.stateRoot + r, b.stateRoot + r');
    Split(a.txRoot, a.witnessRoot + t, b.txRoot, b.witnessRoot + t');
    Split(a.witnessRoot, t, b.witnessRoot, t');
    Split(a.stateRoot, r, b.stateRoot, r');
    Split(a.reflectRoot, c, b.reflectRoot, c');
    Split(a.coinbase, s, b.coinbase, s');
    assert s[0] == a.sigAlgo && s[1] == a.hashAlgo && s'[0] == b.sigAlgo && s'[1] == b.hashAlgo;
  }

  /** A header preimage fixes every field of the header. */
  lemma HeaderBytesIdentifyHeaders(a: BlockHeader, b: BlockHeader)
    ensures HeaderBytes(a) == HeaderBytes(b) <==> a == b
  {
    Split(NumberBytes(a), CommitmentBytes(a), NumberBytes(b), CommitmentBytes(b));
    NumbersEqual(a, b);
    CommitmentsEqual(a, b);
  }

  // ---- Bodies ----

  function TxLeaves(txs: seq<TxBody>, digest: Digest): (r: seq<Hash>)
    ensures |r| == |txs| && forall i :: 0 <= i < |txs| ==> r[i] == digest(BodyBytes(txs[i]))
  {
    seq<Hash>(|txs|, i requires 0 <= i < |txs| => digest(BodyBytes(txs[i])))
  }

  function WitnessLeaves(wits: seq<Witness>, digest: Digest): (r: seq<Hash>)
    ensures |r| == |wits| && forall i :: 0 <= i < |wits| ==> r[i] == digest(WitnessBytes(wits[i]))
  {
    seq<Hash>(|wits|, i requires 0 <= i < |wits| => digest(WitnessBytes(wits[i])))
  }

  function TxRootBytes(txs: seq<TxBody>, digest: Digest): seq<byte> { RootBytes(TX_ROOT_TAG, TxLeaves(txs, digest)) }

  function WitnessRootBytes(wits: seq<Witness>, digest: Digest): seq<byte> {
    RootBytes(WITNESS_ROOT_TAG, WitnessLeaves(wits, digest))
  }

  /** The node hashes exactly these preimages. */
  ghost predicate Hashes(o: Rules, header: Digest, body: Digest) {
    && (forall h {:trigger o.headerHash(h)} :: o.headerHash(h) == header(HeaderBytes(h)))
    && (forall txs {:trigger o.txRoot(txs)} :: o.txRoot(txs) == body(TxRootBytes(txs, body)))
    && (forall wits {:trigger o.witnessRoot(wits)} :: o.witnessRoot(wits) == body(WitnessRootBytes(wits, body)))
  }

  /** Neither two transactions, nor two witnesses, nor the roots of these two
      bodies have different preimages under one hash. */
  ghost predicate BodiesDoNotClash(body: Digest, p: Block, q: Block) {
    && NoClash(body, TxRootBytes(p.txs, body), TxRootBytes(q.txs, body))
    && NoClash(body, WitnessRootBytes(p.witnesses, body), WitnessRootBytes(q.witnesses, body))
    && (forall i, j :: 0 <= i < |p.txs| && 0 <= j < |q.txs| ==> NoClash(body, BodyBytes(p.txs[i]), BodyBytes(q.txs[j])))
    && (forall i, j :: 0 <= i < |p.witnesses| && 0 <= j < |q.witnesses| ==>
          NoClash(body, WitnessBytes(p.witnesses[i]), WitnessBytes(q.witnesses[j])))
  }

  /** The lengths a preimage casts to 32 bits are the real ones. */
  predicate Encodable(b: Block) {
    (forall tx :: tx in b.txs ==> LengthsFit(tx.call)) && (forall w :: w in b.witnesses ==> |w.sig| < LENGTHS)
  }

  /** Everything a body hash covers: not the governance proofs, and not the
      order in which coordinators are listed. */
  predicate SameTx(a: TxBody, b: TxBody) {
    SameSigned(a, b) && a.gasLimit == b.gasLimit && a.witnessHash == b.witnessHash
  }

  predicate SameBody(p: Block, q: Block) {
    |p.txs| == |q.txs| && (forall i :: 0 <= i < |p.txs| ==> SameTx(p.txs[i], q.txs[i])) && p.witnesses == q.witnesses
  }

  lemma TxRootsFixTransactions(body: Digest, p: Block, q: Block)
    requires Encodable(p) && Encodable(q) && BodiesDoNotClash(body, p, q)
    requires body(TxRootBytes(p.txs, body)) == body(TxRootBytes(q.txs, body))
    ensures |p.txs| == |q.txs| && forall i :: 0 <= i < |p.txs| ==> SameTx(p.txs[i], q.txs[i])
  {
    var a, b := TxLeaves(p.txs, body), TxLeaves(q.txs, body);
    assert NoClash(body, TxRootBytes(p.txs, body), TxRootBytes(q.txs, body));
    RootBytesIdentifyLeaves(TX_ROOT_TAG, a, b);
    forall i | 0 <= i < |p.txs| ensures SameTx(p.txs[i], q.txs[i]) {
      assert a[i] == b[i];
      assert NoClash(body, BodyBytes(p.txs[i]), BodyBytes(q.txs[i]));
      assert p.txs[i] in p.txs && q.txs[i] in q.txs;
      BodyBytesIdentifyTransactions(p.txs[i], q.txs[i]);
    }
  }

  lemma WitnessRootsFixWitnesses(body: Digest, p: Block, q: Block)
    requires Encodable(p) && Encodable(q) && BodiesDoNotClash(body, p, q)
    requires body(WitnessRootBytes(p.witnesses, body)) == body(WitnessRootBytes(q.witnesses, body))
    ensures p.witnesses == q.witnesses
  {
    var a, b := WitnessLeaves(p.witnesses, body), WitnessLeaves(q.witnesses, body);
    assert NoClash(body, WitnessRootBytes(p.witnesses, body), WitnessRootBytes(q.witnesses, body));
    RootBytesIdentifyLeaves(WITNESS_ROOT_TAG, a, b);
    forall i | 0 <= i < |p.witnesses| ensures p.witnesses[i] == q.witnesses[i] {
      assert a[i] == b[i];
      assert NoClash(body, WitnessBytes(p.witnesses[i]), WitnessBytes(q.witnesses[i]));
      assert p.witnesses[i] in p.witnesses && q.witnesses[i] in q.witnesses;
      WitnessBytesIdentifyWitnesses(p.witnesses[i], q.witnesses[i]);
    }
  }

  // ---- Logs ----

  /** No block of one log collides with a block of the other. */
  ghost predicate LogsDoNotClash(header: Digest, body: Digest, a: seq<Block>, b: seq<Block>) {
    && (forall p, q :: p in a && q in b ==> NoClash(header, HeaderBytes(p.header), HeaderBytes(q.header)))
    && (forall p, q :: p in a && q in b ==> BodiesDoNotClash(body, p, q))
  }

  lemma SameHash(o: Rules, header: Digest, body: Digest, p: BlockHeader, q: BlockHeader)
    requires Hashes(o, header, body) && NoClash(header, HeaderBytes(p), HeaderBytes(q))
             && o.headerHash(p) == o.headerHash(q)
    ensures p == q
  {
    HeaderBytesIdentifyHeaders(p, q);
  }

  lemma {:induction false} ParentsFixHeaders(o: Rules, cfg: Config, header: Digest, body: Digest, a: seq<Block>,
                                             b: seq<Block>, k: nat)
    requires Hashes(o, header, body) && WellFormed(o, cfg, a) && WellFormed(o, cfg, b)
             && LogsDoNotClash(header, body, a, b)
    requires k < |a| == |b| && a[|a| - 1].header == b[|b| - 1].header
    ensures a[k].header == b[k].header
    decreases |a| - k
  {
    if k < |a| - 1 {
      ParentsFixHeaders(o, cfg, header, body, a, b, k + 1);
      assert Follows(o, cfg, a[k].header, a[k + 1]) && Follows(o, cfg, b[k].header, b[k + 1]);
      assert a[k] in a && b[k] in b;
      SameHash(o, header, body, a[k].header, b[k].header);
    }
  }

  lemma SameHeaderSameBody(o: Rules, header: Digest, body: Digest, p: Block, q: Block)
    requires Hashes(o, header, body) && BodiesDoNotClash(body, p, q) && Encodable(p) && Encodable(q)
    requires o.txRoot(p.txs) == o.txRoot(q.txs) && o.witnessRoot(p.witnesses) == o.witnessRoot(q.witnesses)
    ensures SameBody(p, q)
  {
    TxRootsFixTransactions(body, p, q);
    WitnessRootsFixWitnesses(body, p, q);
  }

  /** Unless two preimages among their blocks collide, two logs whose tips have
      the same hash are equally long and hold the same headers, and above the
      unchecked genesis block the same witnesses and the same transactions up
      to what a body hash leaves out. */
  lemma TipFixesHistory(o: Rules, cfg: Config, header: Digest, body: Digest, a: seq<Block>, b: seq<Block>)
    requires Hashes(o, header, body) && WellFormed(o, cfg, a) && WellFormed(o, cfg, b)
             && LogsDoNotClash(header, body, a, b)
    requires a != [] && b != [] && o.headerHash(a[|a| - 1].header) == o.headerHash(b[|b| - 1].header)
    requires (forall p :: p in a ==> Encodable(p)) && (forall q :: q in b ==> Encodable(q))
    ensures |a| == |b|
    ensures forall k :: 0 <= k < |a| ==> a[k].header == b[k].header
    ensures forall k :: 0 < k < |a| ==> SameBody(a[k], b[k])
  {
    var p, q := a[|a| - 1], b[|b| - 1];
    assert p in a && q in b;
    SameHash(o, header, body, p.header, q.header);
    assert p.header.height == |a| - 1 && q.header.height == |b| - 1;
    forall k | 0 <= k < |a| ensures a[k].header == b[k].header { ParentsFixHeaders(o, cfg, header, body, a, b, k); }
    forall k | 0 < k < |a| ensures SameBody(a[k], b[k]) {
      assert Follows(o, cfg, a[k - 1].header, a[k]) && Follows(o, cfg, b[k - 1].header, b[k]);
      assert a[k] in a && b[k] in b;
      SameHeaderSameBody(o, header, body, a[k], b[k]);
    }
  }
}
