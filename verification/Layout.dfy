/** The canonical byte strings, byte by byte (crates/core/src/tx.rs,
    crates/consensus/src/pow.rs, crates/state/src/apply.rs): which field stands
    where, and in which byte order. */
module Layout {
  import opened Machine
  import opened Bytes
  import opened Order
  import opened Types
  import opened Encoding
  import opened History
  import opened State
  import G = Governance
  import S = ChainStore
  import D = Stores

  /** The digits of `v`, lowest first. */
  predicate LowFirst(s: seq<byte>, v: nat) { forall k :: 0 <= k < |s| ==> s[k] == v / Pow256(k) % 256 }

  /** The digits of `v`, highest first. */
  predicate HighFirst(s: seq<byte>, v: nat) { forall k :: 0 <= k < |s| ==> s[|s| - 1 - k] == v / Pow256(k) % 256 }

  lemma {:induction false} LittleEndianDigits(v: nat, n: nat)
    ensures LowFirst(LittleEndian(v, n), v)
  {
    if n > 0 {
      LittleEndianDigits(v / 256, n - 1);
      var s, rest := LittleEndian(v, n), LittleEndian(v / 256, n - 1);
      forall k | 0 <= k < n ensures s[k] == v / Pow256(k) % 256 {
        if k > 0 {
          assert s[k] == rest[k - 1];
          DigitShifts(v, k);
        }
      }
    }
  }

  lemma {:induction false} BigEndianDigits(v: nat, n: nat)
    ensures HighFirst(BigEndian(v, n), v)
  {
    if n > 0 {
      BigEndianDigits(v / 256, n - 1);
      var s, rest := BigEndian(v, n), BigEndian(v / 256, n - 1);
      forall k | 0 <= k < n ensures s[n - 1 - k] == v / Pow256(k) % 256 {
        if k > 0 {
          assert s[n - 1 - k] == rest[n - 1 - 1 - (k - 1)];
          DigitShifts(v, k);
        }
      }
    }
  }

  lemma DigitShifts(v: nat, k: nat)
    requires k > 0
    ensures v / 256 / Pow256(k - 1) == v / Pow256(k)
  {
    var p := Pow256(k - 1);
    var q := v / 256 / p;
    DivLower(q, v / 256, p);
    DivLower(q + 1, v / 256, p);
    DivLower(q * p, v, 256);
    DivLower((q + 1) * p, v, 256);
    MulAssociative(q, 256, p);
    MulAssociative(q + 1, 256, p);
    DivLower(q, v, Pow256(k));
    DivLower(q + 1, v, Pow256(k));
  }

  lemma LengthDigits(n: nat)
    ensures |LengthBytes(n)| == 4 && LowFirst(LengthBytes(n), n % 0x1_0000_0000)
  {
    LittleEndianDigits(n % LENGTHS, 4);
  }

  // ---- Transactions ----

  /** Coordinators as they are hashed: in ascending order, each 20 bytes. */
  ghost predicate ListsSorted(s: seq<byte>, coordinators: seq<AccountId>) {
    exists sorted: seq<seq<byte>> ::
      && multiset(sorted) == multiset(coordinators) && |s| == 20 * |sorted|
      && (forall i, j :: 0 <= i < j < |sorted| ==> !LexLess(sorted[j], sorted[i]))
      && (forall i :: 0 <= i < |sorted| ==> s[20 * i..20 * i + 20] == sorted[i])
  }

  lemma {:induction false} FlattenedAt(parts: seq<seq<byte>>, i: nat)
    requires i < |parts| && forall p :: p in parts ==> |p| == 20
    ensures |Flatten(parts)| == 20 * |parts| && Flatten(parts)[20 * i..20 * i + 20] == parts[i]
  {
    var rest := parts[1..];
    assert Flatten(parts) == parts[0] + Flatten(rest) && parts[0] in parts;
    FlattenedSize(rest);
    if i > 0 {
      FlattenedAt(rest, i - 1);
      assert Flatten(parts)[20 * i..20 * i + 20] == Flatten(rest)[20 * (i - 1)..20 * (i - 1) + 20];
    }
  }

  lemma {:induction false} FlattenedSize(parts: seq<seq<byte>>)
    requires forall p :: p in parts ==> |p| == 20
    ensures |Flatten(parts)| == 20 * |parts|
  {
    if parts != [] {
      assert parts[0] in parts;
      FlattenedSize(parts[1..]);
    }
  }

  lemma SortedIsListed(coordinators: seq<AccountId>)
    ensures ListsSorted(Flatten(Sort(coordinators)), coordinators)
  {
    var sorted := Sort(coordinators);
    SortSorts(coordinators);
    forall p | p in sorted ensures |p| == 20 { assert p in multiset(coordinators); }
    FlattenedSize(sorted);
    forall i | 0 <= i < |sorted| ensures Flatten(sorted)[20 * i..20 * i + 20] == sorted[i] { FlattenedAt(sorted, i); }
  }

  /** The bytes of a call: its kind, then its fields, numbers low byte first,
      variable ones behind their length in four bytes. */
  ghost predicate CallLaidOut(s: seq<byte>, call: TxCall) {
    match call
    case Transfer(to, amount) => |s| == 37 && s[0] == 0 && s[1..21] == to && LowFirst(s[21..], amount)
    case DeployContract(codeRef, initArgs) =>
      |s| == 37 + |initArgs| && s[0] == 1 && s[1..33] == codeRef
      && LowFirst(s[33..37], |initArgs| % 0x1_0000_0000) && s[37..] == initArgs
    case CallContract(contract, name, args) =>
      var n := 25 + |name|;
      && |s| == n + 4 + |args| && s[0] == 2 && s[1..21] == contract
      && LowFirst(s[21..25], |name| % 0x1_0000_0000) && s[25..n] == name
      && LowFirst(s[n..n + 4], |args| % 0x1_0000_0000) && s[n + 4..] == args
    case UpgradeCrypto(height, sigAlgo, hashAlgo, _) =>
      |s| == 11 && s[0] == 3 && LowFirst(s[1..9], height) && s[9] == sigAlgo && s[10] == hashAlgo
    case AttestRound(jobId, roundId, modelHash, eps) =>
      |s| == 77 && s[0] == 4 && s[1..33] == jobId && LowFirst(s[33..41], roundId) && s[41..73] == modelHash
      && LowFirst(s[73..], eps)
    case RegisterAttestCoordinator(jobId, coordinators, _) =>
      |s| >= 37 && s[0] == 5 && s[1..33] == jobId && LowFirst(s[33..37], |coordinators| % 0x1_0000_0000)
      && ListsSorted(s[37..], coordinators)
    case AttestPedigree(jobId, lotId, supplier, cage, authority) =>
      |s| == 118 && s[0] == 6 && s[1..33] == jobId && s[33..49] == lotId && s[49..81] == supplier
      && s[81..86] == cage && s[86..] == authority
    case SetGovernance(config, _) =>
      |s| == 5 + |config| && s[0] == 7 && LowFirst(s[1..5], |config| % 0x1_0000_0000) && s[5..] == config
  }

  lemma TransferLayout(call: TxCall)
    requires call.Transfer?
    ensures CallLaidOut(CallBytes(call), call)
  {
    var amount, s := call.amount, CallBytes(call);
    LittleEndianDigits(amount, 16);
    assert s[21..] == LittleEndian(amount, 16);
  }

  lemma DeployContractLayout(call: TxCall)
    requires call.DeployContract?
    ensures CallLaidOut(CallBytes(call), call)
  {
    var initArgs, s := call.initArgs, CallBytes(call);
    LengthDigits(|initArgs|);
    assert s[33..37] == LengthBytes(|initArgs|);
  }

  lemma CallContractLayout(call: TxCall)
    requires call.CallContract?
    ensures CallLaidOut(CallBytes(call), call)
  {
    var name, args := call.methodName, call.args;
    LengthDigits(|name|);
    LengthDigits(|args|);
    ContractParts(CallBytes(call), call.contract, LengthBytes(|name|), name, LengthBytes(|args|), args);
  }

  lemma ContractParts(s: seq<byte>, contract: AccountId, nameLength: seq<byte>, name: seq<byte>, length: seq<byte>,
                      args: seq<byte>)
    requires |nameLength| == |length| == 4
    requires s == [2] + (contract + (nameLength + (name + (length + args))))
    ensures var n := 25 + |name|;
            && |s| == n + 4 + |args| && s[0] == 2 && s[1..21] == contract && s[21..25] == nameLength
            && s[25..n] == name && s[n..n + 4] == length && s[n + 4..] == args
  {}

  lemma UpgradeCryptoLayout(call: TxCall)
    requires call.UpgradeCrypto?
    ensures CallLaidOut(CallBytes(call), call)
  {
    var height, s := call.targetHeight, CallBytes(call);
    LittleEndianDigits(height, 8);
    assert s[1..9] == LittleEndian(height, 8);
  }

  lemma AttestRoundLayout(call: TxCall)
    requires call.AttestRound?
    ensures CallLaidOut(CallBytes(call), call)
  {
    LittleEndianDigits(call.roundId, 8);
    LittleEndianDigits(call.dpEpsilonMilli, 4);
    RoundParts(CallBytes(call), call.jobId, LittleEndian(call.roundId, 8), call.modelHash,
      LittleEndian(call.dpEpsilonMilli, 4));
  }

  lemma RoundParts(s: seq<byte>, jobId: Hash, roundId: seq<byte>, modelHash: Hash, eps: seq<byte>)
    requires |roundId| == 8 && |eps| == 4 && s == [4] + (jobId + (roundId + (modelHash + eps)))
    ensures |s| == 77 && s[0] == 4 && s[1..33] == jobId && s[33..41] == roundId
    ensures s[41..73] == modelHash && s[73..] == eps
  {}

  lemma RegisterAttestCoordinatorLayout(call: TxCall)
    requires call.RegisterAttestCoordinator?
    ensures CallLaidOut(CallBytes(call), call)
  {
    var listed := Flatten(Sort(call.coordinators));
    LengthDigits(|call.coordinators|);
    SortedIsListed(call.coordinators);
    RegisterParts(CallBytes(call), call.jobId, LengthBytes(|call.coordinators|), listed);
  }

  lemma RegisterParts(s: seq<byte>, jobId: Hash, length: seq<byte>, listed: seq<byte>)
    requires |length| == 4 && s == [5] + (jobId + (length + listed))
    ensures |s| >= 37 && s[0] == 5 && s[1..33] == jobId && s[33..37] == length && s[37..] == listed
  {}

  lemma AttestPedigreeLayout(call: TxCall)
    requires call.AttestPedigree?
    ensures CallLaidOut(CallBytes(call), call)
  {
    PedigreeParts(CallBytes(call), call.jobId, call.lotId, call.supplier, call.cageCode, call.authority);
  }

  lemma PedigreeParts(s: seq<byte>, jobId: Hash, lotId: LotId, supplier: Hash, cage: CageCode, authority: Hash)
    requires s == [6] + (jobId + (lotId + (supplier + (cage + authority))))
    ensures |s| == 118 && s[0] == 6 && s[1..33] == jobId && s[33..49] == lotId && s[49..81] == supplier
    ensures s[81..86] == cage && s[86..] == authority
  {}

  lemma SetGovernanceLayout(call: TxCall)
    requires call.SetGovernance?
    ensures CallLaidOut(CallBytes(call), call)
  {
    var config, s := call.configCbor, CallBytes(call);
    LengthDigits(|config|);
    assert s[1..5] == LengthBytes(|config|);
  }

  lemma CallLayout(call: TxCall)
    ensures CallLaidOut(CallBytes(call), call)
  {
    match call
    case Transfer(_, _) => TransferLayout(call);
    case DeployContract(_, _) => DeployContractLayout(call);
    case CallContract(_, _, _) => CallContractLayout(call);
    case UpgradeCrypto(_, _, _, _) => UpgradeCryptoLayout(call);
    case AttestRound(_, _, _, _) => AttestRoundLayout(call);
    case RegisterAttestCoordinator(_, _, _) => RegisterAttestCoordinatorLayout(call);
    case AttestPedigree(_, _, _, _, _) => AttestPedigreeLayout(call);
    case SetGovernance(_, _) => SetGovernanceLayout(call);
  }

  /** What is signed: the tag "PGtxsign" and a zero, nonce, sender, call, fee. */
  lemma SigningLayout(tx: TxBody)
    ensures var s, n := SigningBytes(tx), 37 + |CallBytes(tx.call)|;
            && |s| == n + 8 && s[..9] == [80, 71, 116, 120, 115, 105, 103, 110, 0]
            && LowFirst(s[9..17], tx.nonce) && s[17..37] == tx.sender
            && s[37..n] == CallBytes(tx.call) && LowFirst(s[n..], tx.feeSat)
  {
    var s, n := SigningBytes(tx), 37 + |CallBytes(tx.call)|;
    LittleEndianDigits(tx.nonce, 8);
    LittleEndianDigits(tx.feeSat, 8);
    assert s[9..17] == LittleEndian(tx.nonce, 8) && s[37..n] == CallBytes(tx.call)
      && s[n..] == LittleEndian(tx.feeSat, 8);
  }

  /** What identifies a transaction: the same under "PGtxbody", and behind it the
      gas limit and the witness hash. */
  lemma BodyLayout(tx: TxBody)
    ensures var s, n := BodyBytes(tx), 37 + |CallBytes(tx.call)|;
            && |s| == n + 44 && s[..9] == [80, 71, 116, 120, 98, 111, 100, 121, 0]
            && LowFirst(s[9..17], tx.nonce) && s[17..37] == tx.sender
            && s[37..n] == CallBytes(tx.call) && LowFirst(s[n..n + 8], tx.feeSat)
            && LowFirst(s[n + 8..n + 12], tx.gasLimit) && s[n + 12..] == tx.witnessHash
  {
    var s, n := BodyBytes(tx), 37 + |CallBytes(tx.call)|;
    LittleEndianDigits(tx.nonce, 8);
    LittleEndianDigits(tx.feeSat, 8);
    LittleEndianDigits(tx.gasLimit, 4);
    BodyParts(s, n, LittleEndian(tx.nonce, 8), tx.sender, CallBytes(tx.call), LittleEndian(tx.feeSat, 8),
      LittleEndian(tx.gasLimit, 4), tx.witnessHash);
  }

  lemma BodyParts(s: seq<byte>, n: nat, nonce: seq<byte>, sender: AccountId, call: seq<byte>, fee: seq<byte>,
                  gas: seq<byte>, witnessHash: Hash)
    requires |nonce| == 8 && |fee| == 8 && |gas| == 4 && n == 37 + |call|
    requires s == BODY_TAG + (nonce + (sender + (call + (fee + (gas + witnessHash)))))
    ensures |s| == n + 44 && s[..9] == BODY_TAG && s[9..17] == nonce && s[17..37] == sender && s[37..n] == call
    ensures s[n..n + 8] == fee && s[n + 8..n + 12] == gas && s[n + 12..] == witnessHash
  {}

  /** A witness: "PGwit" and a zero, the algorithm, the signature behind its length,
      and a key by account id after a zero or in full after a one. */
  lemma WitnessLayout(w: Witness)
    ensures var s, n := WitnessBytes(w), 11 + |w.sig|;
            && |s| > n && s[..6] == [80, 71, 119, 105, 116, 0] && s[6] == w.sigAlgo
            && LowFirst(s[7..11], |w.sig| % 0x1_0000_0000) && s[11..n] == w.sig
            && match w.pubkey {
                 case Known(id) => s[n] == 0 && s[n + 1..] == id
                 case Inline(key) =>
                   && s[n] == 1 && |s| == n + 5 + |key|
                   && LowFirst(s[n + 1..n + 5], |key| % 0x1_0000_0000) && s[n + 5..] == key
               }
  {
    LengthDigits(|w.sig|);
    KeyParts(w.pubkey);
    WitnessParts(WitnessBytes(w), w, LengthBytes(|w.sig|), KeyBytes(w.pubkey));
    if w.pubkey.Inline? { LengthDigits(|w.pubkey.key|); }
  }

  lemma KeyParts(key: PubKeyRef)
    ensures var s := KeyBytes(key);
            match key {
              case Known(id) => |s| == 21 && s[0] == 0 && s[1..] == id
              case Inline(bytes) =>
                |s| == 5 + |bytes| && s[0] == 1 && s[1..5] == LengthBytes(|bytes|) && s[5..] == bytes
            }
  {}

  lemma WitnessParts(s: seq<byte>, w: Witness, length: seq<byte>, key: seq<byte>)
    requires |length| == 4 && s == WITNESS_TAG + ([w.sigAlgo] + (length + (w.sig + key))) && |key| >= 5
    ensures var n := 11 + |w.sig|;
            && |s| == n + |key| && s[..6] == WITNESS_TAG && s[6] == w.sigAlgo && s[7..11] == length && s[11..n] == w.sig
            && s[n] == key[0] && s[n + 1..] == key[1..] && s[n + 1..n + 5] == key[1..5] && s[n + 5..] == key[5..]
  {}

  // ---- Headers ----

  lemma NumbersLayout(h: BlockHeader)
    ensures var n := NumberBytes(h);
            && LowFirst(n[..4], h.version) && LowFirst(n[4..12], h.height) && n[12..44] == h.parent
            && LowFirst(n[44..52], h.timestamp) && LowFirst(n[52..56], h.bits) && LowFirst(n[56..64], h.nonce)
  {
    LittleEndianDigits(h.version, 4);
    LittleEndianDigits(h.height, 8);
    LittleEndianDigits(h.timestamp, 8);
    LittleEndianDigits(h.bits, 4);
    LittleEndianDigits(h.nonce, 8);
    NumberParts(NumberBytes(h), LittleEndian(h.version, 4), LittleEndian(h.height, 8), h.parent,
      LittleEndian(h.timestamp, 8), LittleEndian(h.bits, 4), LittleEndian(h.nonce, 8));
  }

  lemma NumberParts(n: seq<byte>, version: seq<byte>, height: seq<byte>, parent: Hash, time: seq<byte>,
                    bits: seq<byte>, nonce: seq<byte>)
    requires |version| == |bits| == 4 && |height| == |time| == |nonce| == 8
    requires n == version + (height + (parent + (time + (bits + nonce))))
    ensures |n| == 64 && n[..4] == version && n[4..12] == height && n[12..44] == parent && n[44..52] == time
    ensures n[52..56] == bits && n[56..64] == nonce
  {}

  lemma CommitmentsLayout(h: BlockHeader)
    ensures var c := CommitmentBytes(h);
            && |c| == 162 && c[..32] == h.txRoot && c[32..64] == h.witnessRoot && c[64..96] == h.stateRoot
            && c[96..128] == h.reflectRoot && c[128..160] == h.coinbase && c[160] == h.sigAlgo && c[161] == h.hashAlgo
  {}

  /** What the proof of work hashes: the header's fields in order, numbers low byte
      first, 226 bytes in all. */
  lemma HeaderLayout(h: BlockHeader)
    ensures var s := HeaderBytes(h);
            && |s| == 226 && LowFirst(s[..4], h.version) && LowFirst(s[4..12], h.height) && s[12..44] == h.parent
            && LowFirst(s[44..52], h.timestamp) && LowFirst(s[52..56], h.bits) && LowFirst(s[56..64], h.nonce)
            && s[64..96] == h.txRoot && s[96..128] == h.witnessRoot && s[128..160] == h.stateRoot
            && s[160..192] == h.reflectRoot && s[192..224] == h.coinbase && s[224] == h.sigAlgo && s[225] == h.hashAlgo
  {
    NumbersLayout(h);
    CommitmentsLayout(h);
    Joined(HeaderBytes(h), NumberBytes(h), CommitmentBytes(h));
  }

  lemma Joined(s: seq<byte>, n: seq<byte>, c: seq<byte>)
    requires s == n + c && |n| == 64 && |c| == 162
    ensures s[..4] == n[..4] && s[4..12] == n[4..12] && s[12..44] == n[12..44] && s[44..52] == n[44..52]
    ensures s[52..56] == n[52..56] && s[56..64] == n[56..64]
    ensures s[64..96] == c[..32] && s[96..128] == c[32..64] && s[128..160] == c[64..96] && s[160..192] == c[96..128]
    ensures s[192..224] == c[128..160] && s[224] == c[160] && s[225] == c[161]
  {}

  // ---- Roots and governance ----

  /** A root: its tag, "PGtxroot" or "PGwitroot" and a zero, the number of leaves
      and the leaves in order. */
  lemma RootLayout(tag: seq<byte>, leaves: seq<Hash>, i: nat)
    requires i < |leaves|
    ensures TX_ROOT_TAG == [80, 71, 116, 120, 114, 111, 111, 116, 0]
    ensures WITNESS_ROOT_TAG == [80, 71, 119, 105, 116, 114, 111, 111, 116, 0]
    ensures var s, n := RootBytes(tag, leaves), |tag| + 4;
            && |s| == n + 32 * |leaves| && s[..|tag|] == tag && LowFirst(s[|tag|..n], |leaves| % 0x1_0000_0000)
            && s[n + 32 * i..n + 32 * i + 32] == leaves[i]
  {
    LengthDigits(|leaves|);
    LeafAt(leaves, i);
    RootParts(RootBytes(tag, leaves), tag, LengthBytes(|leaves|), Flatten(leaves), 32 * i);
  }

  /** The two roots a header commits to: of the transactions' body hashes under
      "PGtxroot", and of the witnesses' hashes under "PGwitroot". */
  lemma BodyRootsLayout(txs: seq<TxBody>, wits: seq<Witness>, digest: Digest, i: nat, j: nat)
    requires i < |txs| && j < |wits|
    ensures var s := TxRootBytes(txs, digest);
            && |s| == 13 + 32 * |txs| && s[..9] == [80, 71, 116, 120, 114, 111, 111, 116, 0]
            && LowFirst(s[9..13], |txs| % 0x1_0000_0000)
            && s[13 + 32 * i..13 + 32 * i + 32] == digest(BodyBytes(txs[i]))
    ensures var s := WitnessRootBytes(wits, digest);
            && |s| == 14 + 32 * |wits| && s[..10] == [80, 71, 119, 105, 116, 114, 111, 111, 116, 0]
            && LowFirst(s[10..14], |wits| % 0x1_0000_0000)
            && s[14 + 32 * j..14 + 32 * j + 32] == digest(WitnessBytes(wits[j]))
  {
    RootLayout(TX_ROOT_TAG, TxLeaves(txs, digest), i);
    RootLayout(WITNESS_ROOT_TAG, WitnessLeaves(wits, digest), j);
  }

  lemma RootParts(s: seq<byte>, tag: seq<byte>, length: seq<byte>, rest: seq<byte>, k: nat)
    requires s == tag + (length + rest) && |length| == 4 && k + 32 <= |rest|
    ensures |s| == |tag| + 4 + |rest| && s[..|tag|] == tag && s[|tag|..|tag| + 4] == length
    ensures s[|tag| + 4 + k..|tag| + 4 + k + 32] == rest[k..k + 32]
  {}

  lemma {:induction false} LeafAt(leaves: seq<Hash>, i: nat)
    requires i < |leaves|
    ensures |Flatten(leaves)| == 32 * |leaves| && Flatten(leaves)[32 * i..32 * i + 32] == leaves[i]
    decreases |leaves|
  {
    var rest := leaves[1..];
    if i > 0 {
      LeafAt(rest, i - 1);
      assert Flatten(leaves)[32 * i..32 * i + 32] == Flatten(rest)[32 * (i - 1)..32 * (i - 1) + 32];
    } else if rest != [] {
      LeafAt(rest, 0);
    }
  }

  /** What a governance proof signs: "PGgov:upgrade", "PGgov:regattest" or
      "PGgov:setgov" and a zero, then what it authorizes. */
  lemma GovernanceLayout(height: u64, sigAlgo: byte, hashAlgo: byte, jobId: Hash, coordinators: seq<AccountId>,
                         config: seq<byte>)
    ensures var s := G.UpgradeBytes(height, sigAlgo, hashAlgo);
            && |s| == 24 && s[..14] == [80, 71, 103, 111, 118, 58, 117, 112, 103, 114, 97, 100, 101, 0]
            && LowFirst(s[14..22], height) && s[22] == sigAlgo && s[23] == hashAlgo
    ensures var s := G.RegisterBytes(jobId, coordinators);
            && |s| >= 52 && s[..16] == [80, 71, 103, 111, 118, 58, 114, 101, 103, 97, 116, 116, 101, 115, 116, 0]
            && s[16..48] == jobId && LowFirst(s[48..52], |coordinators| % 0x1_0000_0000)
            && s[52..] == Flatten(Sort(coordinators))
    ensures var s := G.SetGovernanceBytes(config);
            && |s| == 17 + |config| && s[..13] == [80, 71, 103, 111, 118, 58, 115, 101, 116, 103, 111, 118, 0]
            && LowFirst(s[13..17], |config| % 0x1_0000_0000) && s[17..] == config
  {
    LittleEndianDigits(height, 8);
    LengthDigits(|coordinators|);
    LengthDigits(|config|);
    UpgradeParts(height, sigAlgo, hashAlgo);
    RegattestParts(jobId, coordinators);
    SetgovParts(config);
  }

  lemma UpgradeParts(height: u64, sigAlgo: byte, hashAlgo: byte)
    ensures var s := G.UpgradeBytes(height, sigAlgo, hashAlgo);
            && |s| == 24 && s[..14] == [80, 71, 103, 111, 118, 58, 117, 112, 103, 114, 97, 100, 101, 0]
            && s[14..22] == LittleEndian(height, 8) && s[22] == sigAlgo && s[23] == hashAlgo
  {}

  lemma RegattestParts(jobId: Hash, coordinators: seq<AccountId>)
    ensures var s := G.RegisterBytes(jobId, coordinators);
            && |s| >= 52 && s[..16] == [80, 71, 103, 111, 118, 58, 114, 101, 103, 97, 116, 116, 101, 115, 116, 0]
            && s[16..48] == jobId && s[48..52] == LengthBytes(|coordinators|)
            && s[52..] == Flatten(Sort(coordinators))
  {}

  lemma SetgovParts(config: seq<byte>)
    ensures var s := G.SetGovernanceBytes(config);
            && |s| == 17 + |config| && s[..13] == [80, 71, 103, 111, 118, 58, 115, 101, 116, 103, 111, 118, 0]
            && s[13..17] == LengthBytes(|config|) && s[17..] == config
  {}

  // ---- Storage ----

  /** Where records are stored: "attau", "ped/" and "block/" before an id or a
      height, rounds behind their job, heights and rounds high byte first. */
  lemma KeyLayout(id: AccountId, jobId: Hash, lotId: LotId, number: u64)
    ensures AccountKey(id) == Key(Accounts, id)
    ensures AuthorityKey(jobId) == Key(Meta, [97, 116, 116, 97, 117] + jobId)
    ensures PedigreeKey(jobId, lotId) == Key(Attest, [112, 101, 100, 47] + (jobId + lotId))
    ensures var k := AttestKey(jobId, number);
            k.sub.Attest? && |k.bytes| == 40 && k.bytes[..32] == jobId && HighFirst(k.bytes[32..], number)
    ensures var k := ReflectKey(number);
            && k.sub.Reflect? && |k.bytes| == 14 && k.bytes[..6] == [98, 108, 111, 99, 107, 47]
            && HighFirst(k.bytes[6..], number)
  {
    BigEndianDigits(number, 8);
    assert AttestKey(jobId, number).bytes[32..] == BigEndian(number, 8);
    assert ReflectKey(number).bytes[6..] == BigEndian(number, 8);
  }

  /** The single records: "governance", "latest", "upgrade_crypto" and
      "active_crypto". */
  lemma SingleKeys()
    ensures GOVERNANCE == Key(Meta, [103, 111, 118, 101, 114, 110, 97, 110, 99, 101])
    ensures LATEST == Key(Reflect, [108, 97, 116, 101, 115, 116])
  {}

  lemma RotationKeys()
    ensures UPGRADE == Key(Meta, [117, 112, 103, 114, 97, 100, 101, 95, 99, 114, 121, 112, 116, 111])
    ensures ACTIVE == Key(Meta, [97, 99, 116, 105, 118, 101, 95, 99, 114, 121, 112, 116, 111])
  {}

  /** A block in the log: four bytes of length, low byte first, and its encoding. */
  lemma FrameLayout(c: S.Codec, b: Block)
    ensures var s := S.Frame(c, b);
            |s| == 4 + |c.encode(b)| && LowFirst(s[..4], |c.encode(b)| % 0x1_0000_0000) && s[4..] == c.encode(b)
  {
    LengthDigits(|c.encode(b)|);
    assert S.Frame(c, b)[..4] == LengthBytes(|c.encode(b)|);
  }

  /** An entry of a state root's preimage: the subtree, the key behind its length
      and the value behind its length; a stored key is the subtree and the key. */
  lemma EntryLayout(k: D.StoreKey, v: seq<byte>)
    ensures var s, n := D.EntryBytes(k, v), 5 + |k.key|;
            && |s| == n + 4 + |v| && s[0] == k.sub && LowFirst(s[1..5], |k.key| % 0x1_0000_0000) && s[5..n] == k.key
            && LowFirst(s[n..n + 4], |v| % 0x1_0000_0000) && s[n + 4..] == v
    ensures D.Tagged(k) == [k.sub] + k.key
    ensures D.ROOT_TAG == [80, 71, 109, 101, 109, 114, 111, 111, 116, 0]
  {
    LengthDigits(|k.key|);
    LengthDigits(|v|);
    EntryParts(D.EntryBytes(k, v), k, LengthBytes(|k.key|), LengthBytes(|v|), v);
  }

  lemma EntryParts(s: seq<byte>, k: D.StoreKey, keyLength: seq<byte>, length: seq<byte>, v: seq<byte>)
    requires |keyLength| == |length| == 4 && s == [k.sub] + (keyLength + (k.key + (length + v)))
    ensures var n := 5 + |k.key|;
            && |s| == n + 4 + |v| && s[0] == k.sub && s[1..5] == keyLength && s[5..n] == k.key
            && s[n..n + 4] == length && s[n + 4..] == v
  {}
}
