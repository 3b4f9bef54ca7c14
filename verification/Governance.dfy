/** Threshold governance (crates/state/src/apply.rs): configurations, proofs
    and the payloads that proofs sign. */
module Governance {
  import opened Machine
  import opened Bytes
  import opened Order
  import opened Encoding
  import opened Types

  datatype Signer = Signer(id: Hash, sigAlgo: byte, pubkey: seq<byte>)
  datatype Config = Config(epoch: u64, threshold: u32, signers: seq<Signer>)
  datatype Signature = Signature(id: Hash, sig: seq<byte>)
  datatype Proof = Proof(signatures: seq<Signature>)
  datatype ConfigError = NoSigners | ZeroThreshold | ThresholdTooHigh | DuplicateSigner
  datatype BelowThreshold = BelowThreshold(got: u32, need: u32)

  type Verifier = (byte, seq<byte>, seq<byte>, Hash) -> bool

  predicate DistinctIds(signers: seq<Signer>) {
    forall i, j :: 0 <= i < j < |signers| ==> signers[i].id != signers[j].id
  }

  /** A configuration a chain may run under. */
  predicate WellFormed(cfg: Config) {
    0 < cfg.threshold <= |cfg.signers| && DistinctIds(cfg.signers)
  }

  method Validate(cfg: Config) returns (r: Option<ConfigError>)
    ensures r.None? <==> WellFormed(cfg)
    ensures r.None? <==> 0 < cfg.threshold <= |cfg.signers|
                         && forall i, j :: 0 <= i < j < |cfg.signers| ==> cfg.signers[i].id != cfg.signers[j].id
    ensures r == Some(NoSigners) <==> cfg.signers == []
    ensures r == Some(ZeroThreshold) <==> cfg.signers != [] && cfg.threshold == 0
    ensures r == Some(ThresholdTooHigh) <==> cfg.threshold > |cfg.signers| > 0
    ensures r == Some(DuplicateSigner) <==> 0 < cfg.threshold <= |cfg.signers| && !DistinctIds(cfg.signers)
  {
    if cfg.signers == [] { return Some(NoSigners); }
    if cfg.threshold == 0 { return Some(ZeroThreshold); }
    if cfg.threshold > |cfg.signers| { return Some(ThresholdTooHigh); }
    var seen: set<Hash> := {};
    var i := 0;
    while i < |cfg.signers|
      invariant 0 <= i <= |cfg.signers|
      invariant DistinctIds(cfg.signers[..i])
      invariant forall id :: id in seen <==> exists k :: 0 <= k < i && cfg.signers[k].id == id
    {
      if cfg.signers[i].id in seen { return Some(DuplicateSigner); }
      seen := seen + {cfg.signers[i].id};
      i := i + 1;
    }
    assert cfg.signers[..i] == cfg.signers;
    return None;
  }

  function Find(signers: seq<Signer>, id: Hash): (r: Option<Signer>)
    ensures r.Some? ==> r.value in signers && r.value.id == id
  {
    if signers == [] then None else if signers[0].id == id then Some(signers[0]) else Find(signers[1..], id)
  }

  /** The signature that speaks for `id`: its first one in the proof. */
  function FirstSignature(sigs: seq<Signature>, id: Hash): Option<seq<byte>> {
    if sigs == [] then None else if sigs[0].id == id then Some(sigs[0].sig) else FirstSignature(sigs[1..], id)
  }

  /** `id` is a configured signer whose first signature in the proof is valid. */
  predicate Approves(verify: Verifier, cfg: Config, proof: Proof, msg: Hash, id: Hash) {
    var signer, sig := Find(cfg.signers, id), FirstSignature(proof.signatures, id);
    signer.Some? && sig.Some? && verify(signer.value.sigAlgo, signer.value.pubkey, sig.value, msg)
  }

  function Approvers(verify: Verifier, cfg: Config, proof: Proof, msg: Hash): set<Hash> {
    set s | s in proof.signatures && Approves(verify, cfg, proof, msg, s.id) :: s.id
  }

  /** A proof meets a configuration when enough distinct signers approve. The
      proof's length is compared after a cast to 32 bits, and a threshold of
      zero still needs one approval. */
  predicate Meets(verify: Verifier, cfg: Config, proof: Proof, msg: Hash) {
    |proof.signatures| % LENGTHS >= cfg.threshold &&
    |Approvers(verify, cfg, proof, msg)| >= Max(cfg.threshold, 1)
  }

  method VerifyProof(verify: Verifier, cfg: Config, proof: Proof, msg: Hash) returns (r: Option<BelowThreshold>)
    ensures r.None? <==> Meets(verify, cfg, proof, msg)
    ensures var given := |proof.signatures| % LENGTHS;
            r.Some? ==> r.value.need == cfg.threshold &&
                        r.value.got == if given < cfg.threshold then given else |Approvers(verify, cfg, proof, msg)|
  {
    var given: u32 := |proof.signatures| % LENGTHS;
    if given < cfg.threshold { return Some(BelowThreshold(given, cfg.threshold)); }
    ghost var all := FirstsDecide(verify, cfg, proof, msg);
    r := CountApprovals(verify, cfg, proof.signatures, msg, all);
  }

  /** One signature holds under the key configured for its id. */
  predicate Holds(verify: Verifier, cfg: Config, s: Signature, msg: Hash) {
    var signer := Find(cfg.signers, s.id);
    signer.Some? && verify(signer.value.sigAlgo, signer.value.pubkey, s.sig, msg)
  }

  predicate IsFirst(sigs: seq<Signature>, i: nat)
    requires i < |sigs|
  {
    forall k :: 0 <= k < i ==> sigs[k].id != sigs[i].id
  }

  /** `all` is decided by the first signature under each id. */
  predicate DecidedByFirsts(verify: Verifier, cfg: Config, sigs: seq<Signature>, msg: Hash, all: set<Hash>) {
    && (forall id :: id in all ==> exists i :: 0 <= i < |sigs| && sigs[i].id == id)
    && (forall i :: 0 <= i < |sigs| && IsFirst(sigs, i) ==> (sigs[i].id in all <==> Holds(verify, cfg, sigs[i], msg)))
  }

  method CountApprovals(verify: Verifier, cfg: Config, sigs: seq<Signature>, msg: Hash, ghost all: set<Hash>)
    returns (r: Option<BelowThreshold>)
    requires DecidedByFirsts(verify, cfg, sigs, msg, all)
    ensures r.None? <==> |all| >= Max(cfg.threshold, 1)
    ensures r.Some? ==> r.value.need == cfg.threshold && r.value.got == |all|
  {
    ghost var counted: set<Hash> := {};
    var seen: set<Hash> := {};
    var verified: u32 := 0;
    var i := 0;
    while i < |sigs|
      invariant 0 <= i <= |sigs|
      invariant Counted(sigs, i, seen, counted, all, verified) && (verified == 0 || verified < cfg.threshold)
    {
      var s := sigs[i];
      if s.id !in seen {
        FirstAt(verify, cfg, sigs, msg, all, i);
        CountStep(sigs, i, seen, counted, all, verified);
        seen := seen + {s.id};
        if Holds(verify, cfg, s, msg) {
          counted := counted + {s.id};
          verified := verified + 1;
          if verified >= cfg.threshold { return None; }
        }
      }
      i := i + 1;
    }
    AllCounted(sigs, seen, counted, all);
    return Some(BelowThreshold(verified, cfg.threshold));
  }

  /** Counting so far: the ids of the first `i` signatures have been seen, and
      those among them that are in `all` have been counted. */
  ghost predicate Counted(sigs: seq<Signature>, i: nat, seen: set<Hash>, counted: set<Hash>, all: set<Hash>, n: nat) {
    && i <= |sigs|
    && (forall k :: 0 <= k < i ==> sigs[k].id in seen)
    && (forall id :: id in counted <==> id in seen && id in all)
    && n == |counted|
  }

  lemma CountStep(sigs: seq<Signature>, i: nat, seen: set<Hash>, counted: set<Hash>, all: set<Hash>, n: nat)
    requires i < |sigs| && Counted(sigs, i, seen, counted, all, n) && sigs[i].id !in seen
    ensures var id := sigs[i].id;
            if id in all then Counted(sigs, i + 1, seen + {id}, counted + {id}, all, n + 1) && n + 1 <= |all|
            else Counted(sigs, i + 1, seen + {id}, counted, all, n)
  {
    if sigs[i].id in all { CountOne(counted, all, sigs[i].id); }
  }

  lemma FirstAt(verify: Verifier, cfg: Config, sigs: seq<Signature>, msg: Hash, all: set<Hash>, i: nat)
    requires DecidedByFirsts(verify, cfg, sigs, msg, all) && i < |sigs| && IsFirst(sigs, i)
    ensures sigs[i].id in all <==> Holds(verify, cfg, sigs[i], msg)
  {}

  lemma AllCounted(sigs: seq<Signature>, seen: set<Hash>, counted: set<Hash>, all: set<Hash>)
    requires forall id :: id in counted <==> id in seen && id in all
    requires forall k :: 0 <= k < |sigs| ==> sigs[k].id in seen
    requires forall id :: id in all ==> exists i :: 0 <= i < |sigs| && sigs[i].id == id
    ensures |counted| == |all|
  {
    assert counted == all;
  }

  lemma CountOne(counted: set<Hash>, all: set<Hash>, id: Hash)
    requires id !in counted && id in all && forall x :: x in counted ==> x in all
    ensures |counted| < |counted + {id}| == |counted| + 1 <= |all|
  {
    SubsetSize(counted + {id}, all);
  }

  /** The first signature under an id decides whether that id approves. */
  lemma FirstDecides(verify: Verifier, cfg: Config, proof: Proof, msg: Hash, i: nat)
    requires i < |proof.signatures| && IsFirst(proof.signatures, i)
    ensures proof.signatures[i].id in Approvers(verify, cfg, proof, msg) <==>
            Holds(verify, cfg, proof.signatures[i], msg)
  {
    var sigs := proof.signatures;
    FirstOccurrence(sigs, i);
    assert sigs[i] in sigs;
  }

  lemma FirstsDecide(verify: Verifier, cfg: Config, proof: Proof, msg: Hash) returns (all: set<Hash>)
    ensures all == Approvers(verify, cfg, proof, msg) && DecidedByFirsts(verify, cfg, proof.signatures, msg, all)
  {
    var sigs := proof.signatures;
    all := Approvers(verify, cfg, proof, msg);
    forall i | 0 <= i < |sigs| && IsFirst(sigs, i) ensures sigs[i].id in all <==> Holds(verify, cfg, sigs[i], msg) {
      FirstDecides(verify, cfg, proof, msg, i);
    }
  }

  lemma {:induction false} FirstOccurrence(sigs: seq<Signature>, i: nat)
    requires i < |sigs| && IsFirst(sigs, i)
    ensures FirstSignature(sigs, sigs[i].id) == Some(sigs[i].sig)
  {
    if i > 0 { FirstOccurrence(sigs[1..], i - 1); }
  }

  lemma {:induction false} FindAt(signers: seq<Signer>, i: nat)
    requires i < |signers| && DistinctIds(signers)
    ensures Find(signers, signers[i].id) == Some(signers[i])
  {
    if i > 0 {
      assert signers[0].id != signers[i].id;
      FindAt(signers[1..], i - 1);
    }
  }

  /** A configured signer is an approver exactly when the first signature under
      its id in the proof holds under its key and algorithm. */
  lemma ApproverIff(verify: Verifier, cfg: Config, proof: Proof, msg: Hash, i: nat)
    requires i < |cfg.signers| && DistinctIds(cfg.signers)
    ensures cfg.signers[i].id in Approvers(verify, cfg, proof, msg) <==>
            exists k :: 0 <= k < |proof.signatures| && proof.signatures[k].id == cfg.signers[i].id
                        && (forall j :: 0 <= j < k ==> proof.signatures[j].id != cfg.signers[i].id)
                        && verify(cfg.signers[i].sigAlgo, cfg.signers[i].pubkey, proof.signatures[k].sig, msg)
  {
    var sigs, signer := proof.signatures, cfg.signers[i];
    FindAt(cfg.signers, i);
    if signer.id in Approvers(verify, cfg, proof, msg) {
      var k := FirstUnder(sigs, signer.id);
      FirstDecides(verify, cfg, proof, msg, k);
    }
    if k :| 0 <= k < |sigs| && sigs[k].id == signer.id && (forall j :: 0 <= j < k ==> sigs[j].id != signer.id)
            && verify(signer.sigAlgo, signer.pubkey, sigs[k].sig, msg) {
      FirstDecides(verify, cfg, proof, msg, k);
    }
  }

  lemma FirstUnder(sigs: seq<Signature>, id: Hash) returns (k: nat)
    requires exists s :: s in sigs && s.id == id
    ensures k < |sigs| && sigs[k].id == id && IsFirst(sigs, k)
  {
    k := 0;
    while sigs[k].id != id
      invariant k < |sigs| && (forall j :: 0 <= j < k ==> sigs[j].id != id)
      invariant exists j :: k <= j < |sigs| && sigs[j].id == id
      decreases |sigs| - k
    {
      k := k + 1;
    }
  }

  lemma ApproversAreSigners(verify: Verifier, cfg: Config, proof: Proof, msg: Hash)
    ensures Approvers(verify, cfg, proof, msg) <= set s | s in cfg.signers :: s.id
  {
    forall id | id in Approvers(verify, cfg, proof, msg) ensures id in set s | s in cfg.signers :: s.id {
      assert Find(cfg.signers, id).value in cfg.signers;
    }
  }

  /** A threshold as large as the configuration is met only by all of it. */
  lemma FullThresholdNeedsAll(verify: Verifier, cfg: Config, proof: Proof, msg: Hash, i: nat)
    requires cfg.threshold >= |cfg.signers| && Meets(verify, cfg, proof, msg) && i < |cfg.signers|
    ensures cfg.signers[i].id in Approvers(verify, cfg, proof, msg)
  {
    var ids, approvers := set s | s in cfg.signers :: s.id, Approvers(verify, cfg, proof, msg);
    ListedAtMost(cfg.signers, (s: Signer) => s.id, ids);
    ApproversAreSigners(verify, cfg, proof, msg);
    assert cfg.signers[i] in cfg.signers && cfg.signers[i].id in ids;
    if cfg.signers[i].id !in approvers { SubsetSize(approvers, ids - {cfg.signers[i].id}); }
  }

  /** Under a well-formed configuration a proof is accepted exactly when at
      least `threshold` distinct configured signers approve: unknown, repeated
      and invalid signatures neither help nor harm. */
  lemma AcceptanceIsThreshold(verify: Verifier, cfg: Config, proof: Proof, msg: Hash)
    requires WellFormed(cfg) && |proof.signatures| < LENGTHS
    ensures Meets(verify, cfg, proof, msg) <==> |Approvers(verify, cfg, proof, msg)| >= cfg.threshold
    ensures Approvers(verify, cfg, proof, msg) <= set s | s in cfg.signers :: s.id
  {
    ListedAtMost(proof.signatures, (s: Signature) => s.id, Approvers(verify, cfg, proof, msg));
    ApproversAreSigners(verify, cfg, proof, msg);
  }

  // ---- Payloads ----

  function Ascii(s: string): (r: seq<byte>)
    ensures |r| == |s|
  {
    seq(|s|, i requires 0 <= i < |s| => (s[i] as int) % 256)
  }

  function UpgradeBytes(targetHeight: u64, sigAlgo: byte, hashAlgo: byte): seq<byte> {
    Ascii("PGgov:upgrade\0") + (LittleEndian(targetHeight, 8) + [sigAlgo, hashAlgo])
  }

  function RegisterBytes(jobId: Hash, coordinators: seq<AccountId>): seq<byte> {
    Ascii("PGgov:regattest\0") + (jobId + (LengthBytes(|coordinators|) + Flatten(Sort(coordinators))))
  }

  function SetGovernanceBytes(configCbor: seq<byte>): seq<byte> {
    Ascii("PGgov:setgov\0") + Prefixed(configCbor)
  }

  /** A proof for one action proves that action only: payloads of different
      actions never coincide, and each fixes what it authorizes. */
  lemma PayloadsIdentifyActions(h: u64, s: byte, k: byte, h': u64, s': byte, k': byte,
                                j: Hash, c: seq<AccountId>, j': Hash, c': seq<AccountId>, g: seq<byte>, g': seq<byte>)
    ensures UpgradeBytes(h, s, k) != RegisterBytes(j, c)
    ensures UpgradeBytes(h, s, k) != SetGovernanceBytes(g)
    ensures RegisterBytes(j, c) != SetGovernanceBytes(g)
    ensures UpgradeBytes(h, s, k) == UpgradeBytes(h', s', k') <==> h == h' && s == s' && k == k'
    ensures RegisterBytes(j, c) == RegisterBytes(j', c') <==> j == j' && multiset(c) == multiset(c')
    ensures SetGovernanceBytes(g) == SetGovernanceBytes(g') <==> g == g'
  {
    assert UpgradeBytes(h, s, k)[6] == 117 && RegisterBytes(j, c)[6] == 114 && SetGovernanceBytes(g)[6] == 115;
    WordSizes();
    var u, r, t := Ascii("PGgov:upgrade\0"), Ascii("PGgov:regattest\0"), Ascii("PGgov:setgov\0");
    Split(u, LittleEndian(h, 8) + [s, k], u, LittleEndian(h', 8) + [s', k']);
    Split(LittleEndian(h, 8), [s, k], LittleEndian(h', 8), [s', k']);
    WordsEqual(h, h', 8);
    assert [s, k] == [s', k'] <==> s == s' && k == k' by {
      assert [s, k][0] == s && [s, k][1] == k && [s', k'][0] == s' && [s', k'][1] == k';
    }
    var (x, y) := (LengthBytes(|c|) + Flatten(Sort(c)), LengthBytes(|c'|) + Flatten(Sort(c')));
    Split(r, j + x, r, j' + y);
    Split(j, x, j', y);
    CoordinatorsEqual(c, c');
    Split(t, Prefixed(g), t, Prefixed(g'));
    PrefixedEqual(g, g');
  }
}
