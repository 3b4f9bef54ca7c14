/** Finality certificates (crates/finality/src/lib.rs). Signature checks and
    the two hash payloads are parameters. */
module Finality {
  import opened Machine
  import opened Order
  import opened Types

  datatype ValidatorPubkey = ValidatorPubkey(id: Hash, sigAlgo: byte, pubkey: seq<byte>)
  datatype Committee = Committee(epoch: u64, members: seq<ValidatorPubkey>, epochBlocks: u64, quorum: u32)
  datatype Vote = Vote(epoch: u64, round: u64, height: u64, blockHash: Hash, validator: Hash, sigAlgo: byte,
    sig: seq<byte>)
  datatype Cert = Cert(epoch: u64, round: u64, height: u64, blockHash: Hash, votes: seq<Vote>)
  datatype AggregatedCert = AggregatedCert(
    epoch: u64, round: u64, height: u64, blockHash: Hash, bitmap: seq<byte>, aggSigAlgo: byte, aggSig: seq<byte>)

  datatype FinalityError =
    | BadSignature(validator: Hash) | WrongRound(validator: Hash, expected: u64, got: u64)
    | WrongBlockHash(validator: Hash)
    | DuplicateVote(validator: Hash) | NotInCommittee(validator: Hash) | BelowQuorum(count: nat, need: u32)
    | EpochMismatch(claimed: u64, current: u64) | AlgoMismatch(algo: byte)

  /** What is signed: everything in a vote but the signature. */
  datatype Payload = Payload(epoch: u64, round: u64, height: u64, blockHash: Hash, validator: Hash)

  /** What every member signs for aggregation: the same, minus the signer. */
  datatype SharedPayload = SharedPayload(epoch: u64, round: u64, height: u64, blockHash: Hash)

  datatype Crypto = Crypto(
    verify: (byte, seq<byte>, seq<byte>, Payload) -> bool,
    aggregate: seq<seq<byte>> -> Option<seq<byte>>,
    verifyAggregate: (seq<byte>, seq<byte>, SharedPayload) -> bool)

  function SignedBy(v: Vote): Payload { Payload(v.epoch, v.round, v.height, v.blockHash, v.validator) }

  function SharedBy(cert: AggregatedCert): SharedPayload {
    SharedPayload(cert.epoch, cert.round, cert.height, cert.blockHash)
  }

  /** The first committee record under an id, as the verifier looks it up. */
  function Find(members: seq<ValidatorPubkey>, id: Hash): (r: Option<ValidatorPubkey>)
    ensures r.None? <==> forall m :: m in members ==> m.id != id
    ensures r.Some? ==> r.value in members && r.value.id == id
  {
    if members == [] then None else if members[0].id == id then Some(members[0]) else Find(members[1..], id)
  }

  function VerifyVote(y: Crypto, c: Committee, v: Vote): Option<FinalityError> {
    if v.epoch != c.epoch then Some(EpochMismatch(v.epoch, c.epoch))
    else match Find(c.members, v.validator)
      case None => Some(NotInCommittee(v.validator))
      case Some(m) =>
        if m.sigAlgo != v.sigAlgo then Some(AlgoMismatch(v.sigAlgo))
        else if !y.verify(v.sigAlgo, m.pubkey, v.sig, SignedBy(v)) then Some(BadSignature(v.validator))
        else None
  }

  /** A vote that counts toward a certificate. */
  ghost predicate Counts(y: Crypto, c: Committee, cert: Cert, v: Vote) {
    v.round == cert.round && v.height == cert.height && v.blockHash == cert.blockHash && VerifyVote(y, c, v) == None
  }

  ghost predicate Distinct(votes: seq<Vote>) {
    forall i, j :: 0 <= i < j < |votes| ==> votes[i].validator != votes[j].validator
  }

  /** What is wrong with a certificate that has this error. */
  ghost predicate CertDefect(y: Crypto, c: Committee, cert: Cert, e: FinalityError) {
    || (cert.epoch != c.epoch && e == EpochMismatch(cert.epoch, c.epoch))
    || (|cert.votes| < c.quorum && e == BelowQuorum(|cert.votes|, c.quorum))
    || (exists v :: v in cert.votes && v.round != cert.round && e == WrongRound(v.validator, cert.round, v.round))
    || (exists v :: v in cert.votes && (v.blockHash != cert.blockHash || v.height != cert.height)
                    && e == WrongBlockHash(v.validator))
    || (exists i, j :: 0 <= i < j < |cert.votes| && cert.votes[i].validator == cert.votes[j].validator
                       && e == DuplicateVote(cert.votes[j].validator))
    || (exists v :: v in cert.votes && VerifyVote(y, c, v) == Some(e))
  }

  method VerifyCert(y: Crypto, c: Committee, cert: Cert) returns (r: Option<FinalityError>)
    ensures r.None? <==> Accepted(y, c, cert)
    ensures cert.epoch != c.epoch ==> r == Some(EpochMismatch(cert.epoch, c.epoch))
    ensures cert.epoch == c.epoch && |cert.votes| < c.quorum ==> r == Some(BelowQuorum(|cert.votes|, c.quorum))
    ensures r.Some? ==> CertDefect(y, c, cert, r.value)
  {
    if cert.epoch != c.epoch { return Some(EpochMismatch(cert.epoch, c.epoch)); }
    if |cert.votes| < c.quorum { return Some(BelowQuorum(|cert.votes|, c.quorum)); }
    var seen: set<Hash> := {};
    var i := 0;
    while i < |cert.votes|
      invariant 0 <= i <= |cert.votes|
      invariant seen == set v | v in cert.votes[..i] :: v.validator
      invariant Distinct(cert.votes[..i]) && forall v :: v in cert.votes[..i] ==> Counts(y, c, cert, v)
    {
      var v := cert.votes[i];
      assert v in cert.votes;
      assert cert.votes[..i + 1] == cert.votes[..i] + [v];
      if v.round != cert.round { return Some(WrongRound(v.validator, cert.round, v.round)); }
      if v.blockHash != cert.blockHash || v.height != cert.height { return Some(WrongBlockHash(v.validator)); }
      if v.validator in seen {
        var j :| 0 <= j < i && cert.votes[j].validator == v.validator;
        return Some(DuplicateVote(v.validator));
      }
      seen := seen + {v.validator};
      var e := VerifyVote(y, c, v);
      if e.Some? { return e; }
      i := i + 1;
    }
    assert cert.votes[..i] == cert.votes;
    return None;
  }

  /** Exactly what an accepted certificate consists of. */
  ghost predicate Accepted(y: Crypto, c: Committee, cert: Cert) {
    && cert.epoch == c.epoch && |cert.votes| >= c.quorum
    && Distinct(cert.votes) && forall v :: v in cert.votes ==> Counts(y, c, cert, v)
  }

  // ---- Accountability ----

  function MemberIds(c: Committee): set<Hash> { set m | m in c.members :: m.id }

  function Signers(cert: Cert): set<Hash> { set v | v in cert.votes :: v.validator }

  /** A valid signature by `id`, under its committee key, on this block. */
  ghost predicate SignedBlock(y: Crypto, c: Committee, cert: Cert, id: Hash) {
    exists sig :: Find(c.members, id).Some? &&
      y.verify(Find(c.members, id).value.sigAlgo, Find(c.members, id).value.pubkey, sig,
               Payload(cert.epoch, cert.round, cert.height, cert.blockHash, id))
  }

  lemma {:induction false} DistinctSigners(votes: seq<Vote>)
    requires Distinct(votes)
    ensures |set v | v in votes :: v.validator| == |votes|
  {
    if votes == [] {
    } else {
      var front, last := votes[..|votes| - 1], votes[|votes| - 1];
      DistinctSigners(front);
      assert votes == front + [last];
      assert (set v | v in votes :: v.validator) == (set v | v in front :: v.validator) + {last.validator};
      assert last.validator !in set v | v in front :: v.validator;
    }
  }

  /** An accepted certificate names at least a quorum of distinct committee
      members, each with a valid signature on its block. */
  lemma AcceptedCertHasQuorum(y: Crypto, c: Committee, cert: Cert)
    requires Accepted(y, c, cert)
    ensures |Signers(cert)| >= c.quorum && Signers(cert) <= MemberIds(c)
    ensures forall id :: id in Signers(cert) ==> SignedBlock(y, c, cert, id)
  {
    DistinctSigners(cert.votes);
    forall id | id in Signers(cert) ensures id in MemberIds(c) && SignedBlock(y, c, cert, id) {
      var v :| v in cert.votes && v.validator == id;
      assert Counts(y, c, cert, v);
      var m := Find(c.members, id).value;
      assert y.verify(m.sigAlgo, m.pubkey, v.sig, Payload(cert.epoch, cert.round, cert.height, cert.blockHash, id));
    }
  }

  /** Two accepted certificates for the same round but different blocks convict
      at least 2·quorum − n members of signing both. */
  lemma ConflictingCertsShareSigners(y: Crypto, c: Committee, a: Cert, b: Cert)
    requires Accepted(y, c, a) && Accepted(y, c, b)
    requires a.round == b.round && (a.height != b.height || a.blockHash != b.blockHash)
    ensures var guilty := Signers(a) * Signers(b);
            && |guilty| >= 2 * c.quorum - |c.members|
            && forall id :: id in guilty ==> id in MemberIds(c) && SignedBlock(y, c, a, id) && SignedBlock(y, c, b, id)
    ensures a.epoch == b.epoch
  {
    AcceptedCertHasQuorum(y, c, a);
    AcceptedCertHasQuorum(y, c, b);
    ListedAtMost(c.members, (m: ValidatorPubkey) => m.id, MemberIds(c));
    Overlap(Signers(a), Signers(b), MemberIds(c));
  }

  // ---- Aggregated certificates ----

  function Bit(b: byte, i: nat): nat
    requires i < 8
  {
    b / [1, 2, 4, 8, 16, 32, 64, 128][i] % 2
  }

  function PopCount(b: byte): nat {
    Bit(b, 0) + Bit(b, 1) + Bit(b, 2) + Bit(b, 3) + Bit(b, 4) + Bit(b, 5) + Bit(b, 6) + Bit(b, 7)
  }

  function SignerCount(bitmap: seq<byte>): nat {
    if bitmap == [] then 0 else SignerCount(bitmap[..|bitmap| - 1]) + PopCount(bitmap[|bitmap| - 1])
  }

  predicate IsSigner(bitmap: seq<byte>, index: nat) {
    index / 8 < |bitmap| && Bit(bitmap[index / 8], index % 8) == 1
  }

  /** How many slots in `[lo, hi)` are marked. */
  function Marked(bitmap: seq<byte>, lo: nat, hi: nat): nat
    requires lo <= hi
    decreases hi - lo
  {
    if lo == hi then 0 else Marked(bitmap, lo, hi - 1) + if IsSigner(bitmap, hi - 1) then 1 else 0
  }

  lemma {:induction false} MarkedPrefix(bitmap: seq<byte>, more: seq<byte>, hi: nat)
    requires hi <= 8 * |bitmap|
    ensures Marked(bitmap + more, 0, hi) == Marked(bitmap, 0, hi)
  {
    if hi > 0 { MarkedPrefix(bitmap, more, hi - 1); }
  }

  lemma {:induction false} MarkedSplit(bitmap: seq<byte>, lo: nat, mid: nat, hi: nat)
    requires lo <= mid <= hi
    ensures Marked(bitmap, lo, hi) == Marked(bitmap, lo, mid) + Marked(bitmap, mid, hi)
    decreases hi
  {
    if mid < hi { MarkedSplit(bitmap, lo, mid, hi - 1); }
  }

  lemma LastByteMarks(bitmap: seq<byte>, n: nat)
    requires |bitmap| == n + 1
    ensures Marked(bitmap, 8 * n, 8 * n + 8) == PopCount(bitmap[n])
  {
    var b := bitmap[n];
    forall i: nat | i < 8 ensures IsSigner(bitmap, 8 * n + i) <==> Bit(b, i) == 1 {
      assert (8 * n + i) / 8 == n && (8 * n + i) % 8 == i;
    }
    assert Marked(bitmap, 8 * n, 8 * n) == 0;
    assert Marked(bitmap, 8 * n, 8 * n + 1) == Bit(b, 0);
    assert Marked(bitmap, 8 * n, 8 * n + 2) == Bit(b, 0) + Bit(b, 1);
    assert Marked(bitmap, 8 * n, 8 * n + 3) == Bit(b, 0) + Bit(b, 1) + Bit(b, 2);
    assert Marked(bitmap, 8 * n, 8 * n + 4) == Bit(b, 0) + Bit(b, 1) + Bit(b, 2) + Bit(b, 3);
    assert Marked(bitmap, 8 * n, 8 * n + 5) == Bit(b, 0) + Bit(b, 1) + Bit(b, 2) + Bit(b, 3) + Bit(b, 4);
    assert Marked(bitmap, 8 * n, 8 * n + 6) == Bit(b, 0) + Bit(b, 1) + Bit(b, 2) + Bit(b, 3) + Bit(b, 4) + Bit(b, 5);
    assert Marked(bitmap, 8 * n, 8 * n + 7) == Bit(b, 0) + Bit(b, 1) + Bit(b, 2) + Bit(b, 3) + Bit(b, 4) + Bit(b, 5)
      + Bit(b, 6);
  }

  lemma {:induction false} SignerCountIsMarked(bitmap: seq<byte>)
    ensures SignerCount(bitmap) == Marked(bitmap, 0, 8 * |bitmap|)
  {
    if bitmap == [] {
    } else {
      var n := |bitmap| - 1;
      var front := bitmap[..n];
      assert bitmap == front + [bitmap[n]];
      SignerCountIsMarked(front);
      MarkedPrefix(front, [bitmap[n]], 8 * n);
      assert SignerCount(bitmap) == Marked(bitmap, 0, 8 * n) + PopCount(bitmap[n]);
      MarkedSplit(bitmap, 0, 8 * n, 8 * n + 8);
      LastByteMarks(bitmap, n);
    }
  }

  lemma {:induction false} NothingMarkedPastEnd(bitmap: seq<byte>, lo: nat, hi: nat)
    requires 8 * |bitmap| <= lo <= hi
    ensures Marked(bitmap, lo, hi) == 0
    decreases hi
  {
    if lo < hi { NothingMarkedPastEnd(bitmap, lo, hi - 1); }
  }

  /** Bits set beyond the committee's last slot. */
  function PaddingCount(bitmap: seq<byte>, n: nat): nat {
    if n <= 8 * |bitmap| then Marked(bitmap, n, 8 * |bitmap|) else 0
  }

  /** The counted signers are the aggregated keys plus the padding bits, so the
      count is right exactly when the padding is clear. */
  lemma SignerCountIncludesPadding(bitmap: seq<byte>, n: nat)
    ensures SignerCount(bitmap) == Marked(bitmap, 0, n) + PaddingCount(bitmap, n)
    ensures SignerCount(bitmap) == Marked(bitmap, 0, n) <==> PaddingCount(bitmap, n) == 0
  {
    SignerCountIsMarked(bitmap);
    if n <= 8 * |bitmap| {
      MarkedSplit(bitmap, 0, n, 8 * |bitmap|);
    } else {
      MarkedSplit(bitmap, 0, 8 * |bitmap|, n);
      NothingMarkedPastEnd(bitmap, 8 * |bitmap|, n);
    }
  }

  /** The keys that go into the aggregate: one per marked slot, in slot order. */
  function SignerKeys(members: seq<ValidatorPubkey>, bitmap: seq<byte>): (keys: seq<seq<byte>>)
    ensures |keys| == Marked(bitmap, 0, |members|)
  {
    if members == [] then []
    else
      var n := |members| - 1;
      SignerKeys(members[..n], bitmap) + if IsSigner(bitmap, n) then [members[n].pubkey] else []
  }

  lemma SignerKeysStep(members: seq<ValidatorPubkey>, i: nat, bitmap: seq<byte>)
    requires i < |members|
    ensures SignerKeys(members[..i + 1], bitmap) == SignerKeys(members[..i], bitmap) + if IsSigner(bitmap, i)
            then [members[i].pubkey] else []
  {
    assert members[..i + 1][..i] == members[..i];
  }

  predicate AggregateAccepted(y: Crypto, c: Committee, cert: AggregatedCert) {
    && cert.epoch == c.epoch && SignerCount(cert.bitmap) >= c.quorum && cert.aggSigAlgo == 5
    && AllAggregatable(c.members, cert.bitmap)
    && SignerKeys(c.members, cert.bitmap) != []
    && y.aggregate(SignerKeys(c.members, cert.bitmap)).Some?
    && y.verifyAggregate(y.aggregate(SignerKeys(c.members, cert.bitmap)).value, cert.aggSig, SharedBy(cert))
  }

  predicate AllAggregatable(members: seq<ValidatorPubkey>, bitmap: seq<byte>) {
    forall i :: 0 <= i < |members| && IsSigner(bitmap, i) ==> members[i].sigAlgo == 5
  }

  lemma AggregatableStep(members: seq<ValidatorPubkey>, i: nat, bitmap: seq<byte>)
    requires i < |members|
    ensures AllAggregatable(members[..i + 1], bitmap) <==>
            AllAggregatable(members[..i], bitmap) && (IsSigner(bitmap, i) ==> members[i].sigAlgo == 5)
    ensures AllAggregatable(members, bitmap) ==> AllAggregatable(members[..i + 1], bitmap)
  {}

  /** Collects the marked members' keys; the error is the first other algorithm. */
  method CollectKeys(members: seq<ValidatorPubkey>, bitmap: seq<byte>) returns (r: Result<seq<seq<byte>>, byte>)
    ensures r.Ok? <==> AllAggregatable(members, bitmap)
    ensures r.Ok? ==> r.value == SignerKeys(members, bitmap)
    ensures r.Err? ==> exists i :: 0 <= i < |members| && IsSigner(bitmap, i) && members[i].sigAlgo == r.error != 5
  {
    var keys: seq<seq<byte>> := [];
    var i := 0;
    while i < |members|
      invariant 0 <= i <= |members|
      invariant keys == SignerKeys(members[..i], bitmap)
      invariant AllAggregatable(members[..i], bitmap)
    {
      SignerKeysStep(members, i, bitmap);
      AggregatableStep(members, i, bitmap);
      if IsSigner(bitmap, i) {
        if members[i].sigAlgo != 5 { return Err(members[i].sigAlgo); }
        keys := keys + [members[i].pubkey];
      }
      i := i + 1;
    }
    assert members[..i] == members;
    return Ok(keys);
  }

  method VerifyAggregatedCert(y: Crypto, c: Committee, cert: AggregatedCert) returns (r: Option<FinalityError>)
    ensures r.None? <==> AggregateAccepted(y, c, cert)
    ensures cert.epoch != c.epoch ==> r == Some(EpochMismatch(cert.epoch, c.epoch))
    ensures cert.epoch == c.epoch && SignerCount(cert.bitmap) < c.quorum ==>
            r == Some(BelowQuorum(SignerCount(cert.bitmap), c.quorum))
    ensures r.Some? && r.value.BadSignature? ==>
            AllAggregatable(c.members, cert.bitmap) && SignerKeys(c.members, cert.bitmap) != []
    ensures r.Some? && r.value.AlgoMismatch? ==>
            && r.value.algo != 5
            && (r.value.algo == cert.aggSigAlgo
                || exists i :: 0 <= i < |c.members| && IsSigner(cert.bitmap, i) && c.members[i].sigAlgo == r.value.algo)
  {
    if cert.epoch != c.epoch { return Some(EpochMismatch(cert.epoch, c.epoch)); }
    if SignerCount(cert.bitmap) < c.quorum { return Some(BelowQuorum(SignerCount(cert.bitmap), c.quorum)); }
    if cert.aggSigAlgo != 5 { return Some(AlgoMismatch(cert.aggSigAlgo)); }
    var keys := CollectKeys(c.members, cert.bitmap);
    if keys.Err? { return Some(AlgoMismatch(keys.error)); }
    if keys.value == [] { return Some(BelowQuorum(0, c.quorum)); }
    var key := y.aggregate(keys.value);
    if key.None? { return Some(BadSignature(seq(32, _ => 0))); }
    if !y.verifyAggregate(key.value, cert.aggSig, SharedBy(cert)) { return Some(BadSignature(seq(32, _ => 0))); }
    return None;
  }

  /** With clear padding an accepted aggregate carries a quorum of keys; in
      general padding bits stand in for missing ones. */
  lemma AggregateHasQuorum(y: Crypto, c: Committee, cert: AggregatedCert)
    requires AggregateAccepted(y, c, cert)
    ensures |SignerKeys(c.members, cert.bitmap)| + PaddingCount(cert.bitmap, |c.members|) >= c.quorum
    ensures PaddingCount(cert.bitmap, |c.members|) == 0 ==>
              |SignerKeys(c.members, cert.bitmap)| == SignerCount(cert.bitmap) >= c.quorum
  {
    SignerCountIncludesPadding(cert.bitmap, |c.members|);
  }

  /** Padding bits stand in for missing ones: with five members and a quorum of
      five, bits 0 and 4 and three bits of padding, two keys are enough. */
  lemma PaddingReachesQuorum(y: Crypto, c: Committee, cert: AggregatedCert)
    requires |c.members| == 5 && c.quorum == 5 && c.members[0].sigAlgo == 5 && c.members[4].sigAlgo == 5
    requires cert.epoch == c.epoch && cert.bitmap == [0xF1] && cert.aggSigAlgo == 5
    requires var key := y.aggregate([c.members[0].pubkey, c.members[4].pubkey]);
             key.Some? && y.verifyAggregate(key.value, cert.aggSig,
                                            SharedPayload(cert.epoch, cert.round, cert.height, cert.blockHash))
    ensures AggregateAccepted(y, c, cert) && |SignerKeys(c.members, cert.bitmap)| == 2 < c.quorum
  {
    var bitmap, members := cert.bitmap, c.members;
    FiveMarks(bitmap);
    TwoKeys(members, bitmap);
    assert SignerCount(bitmap) == 5;
  }

  lemma TwoKeys(members: seq<ValidatorPubkey>, bitmap: seq<byte>)
    requires |members| == 5 && bitmap == [0xF1]
    ensures SignerKeys(members, bitmap) == [members[0].pubkey, members[4].pubkey]
  {
    FiveMarks(bitmap);
    SignerKeysStep(members, 0, bitmap);
    SignerKeysStep(members, 1, bitmap);
    SignerKeysStep(members, 2, bitmap);
    SignerKeysStep(members, 3, bitmap);
    SignerKeysStep(members, 4, bitmap);
    assert members[..5] == members && members[..0] == [];
  }

  lemma FiveMarks(bitmap: seq<byte>)
    requires bitmap == [0xF1]
    ensures IsSigner(bitmap, 0) && !IsSigner(bitmap, 1) && !IsSigner(bitmap, 2) && !IsSigner(bitmap, 3)
            && IsSigner(bitmap, 4)
  {}
}
