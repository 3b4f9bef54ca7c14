/** The byte strings that are hashed to sign and identify transactions
    (crates/core/src/tx.rs), and why they identify them. */
module Encoding {
  import opened Machine
  import opened Bytes
  import opened Order
  import opened Types

  const SIGN_TAG: seq<byte> := [80, 71, 116, 120, 115, 105, 103, 110, 0]          // "PGtxsign\0"
  const BODY_TAG: seq<byte> := [80, 71, 116, 120, 98, 111, 100, 121, 0]           // "PGtxbody\0"
  const WITNESS_TAG: seq<byte> := [80, 71, 119, 105, 116, 0]                      // "PGwit\0"
  const TX_ROOT_TAG: seq<byte> := [80, 71, 116, 120, 114, 111, 111, 116, 0]       // "PGtxroot\0"
  const WITNESS_ROOT_TAG: seq<byte> := [80, 71, 119, 105, 116, 114, 111, 111, 116, 0]  // "PGwitroot\0"
  const LENGTHS: int := 0x1_0000_0000

  /** A length cast to u32, little-endian. */
  function LengthBytes(n: nat): (r: seq<byte>)
    ensures |r| == 4
  {
    LittleEndian(n % LENGTHS, 4)
  }

  function Prefixed(s: seq<byte>): seq<byte> { LengthBytes(|s|) + s }

  function Flatten(parts: seq<seq<byte>>): seq<byte> {
    if parts == [] then [] else parts[0] + Flatten(parts[1..])
  }

  function CallBytes(call: TxCall): seq<byte> {
    match call
    case Transfer(to, amount) => [0] + (to + LittleEndian(amount, 16))
    case DeployContract(codeRef, initArgs) => [1] + (codeRef + Prefixed(initArgs))
    case CallContract(contract, name, args) => [2] + (contract + (LengthBytes(|name|) + (name + Prefixed(args))))
    case UpgradeCrypto(height, sigAlgo, hashAlgo, _) => [3] + (LittleEndian(height, 8) + [sigAlgo, hashAlgo])
    case AttestRound(jobId, roundId, modelHash, eps) =>
      [4] + (jobId + (LittleEndian(roundId, 8) + (modelHash + LittleEndian(eps, 4))))
    case RegisterAttestCoordinator(jobId, coordinators, _) =>
      [5] + (jobId + (LengthBytes(|coordinators|) + Flatten(Sort(coordinators))))
    case AttestPedigree(jobId, lotId, supplier, cage, authority) =>
      [6] + (jobId + (lotId + (supplier + (cage + authority))))
    case SetGovernance(config, _) => [7] + Prefixed(config)
  }

  function SigningBytes(tx: TxBody): seq<byte> {
    SIGN_TAG + (LittleEndian(tx.nonce, 8) + (tx.sender + (CallBytes(tx.call) + LittleEndian(tx.feeSat, 8))))
  }

  function BodyBytes(tx: TxBody): seq<byte> {
    BODY_TAG + (LittleEndian(tx.nonce, 8) + (tx.sender + (CallBytes(tx.call) +
      (LittleEndian(tx.feeSat, 8) + (LittleEndian(tx.gasLimit, 4) + tx.witnessHash)))))
  }

  function KeyBytes(key: PubKeyRef): seq<byte> {
    match key
    case Known(id) => [0] + id
    case Inline(bytes) => [1] + Prefixed(bytes)
  }

  function WitnessBytes(w: Witness): seq<byte> {
    WITNESS_TAG + ([w.sigAlgo] + (LengthBytes(|w.sig|) + (w.sig + KeyBytes(w.pubkey))))
  }

  function RootBytes(tag: seq<byte>, leaves: seq<Hash>): seq<byte> {
    tag + (LengthBytes(|leaves|) + Flatten(leaves))
  }

  /** Agreement on everything a call's encoding is meant to fix: not the
      governance proof, and not the order of a coordinator list. */
  predicate SameCall(a: TxCall, b: TxCall) {
    match (a, b)
    case (UpgradeCrypto(h, s, k, _), UpgradeCrypto(h', s', k', _)) => h == h' && s == s' && k == k'
    case (RegisterAttestCoordinator(j, c, _), RegisterAttestCoordinator(j', c', _)) =>
      j == j' && multiset(c) == multiset(c')
    case (SetGovernance(c, _), SetGovernance(c', _)) => c == c'
    case (_, _) => a == b
  }

  predicate SameSigned(a: TxBody, b: TxBody) {
    a.nonce == b.nonce && a.sender == b.sender && a.feeSat == b.feeSat && SameCall(a.call, b.call)
  }

  /** The one length that must not wrap for calls to stay apart: a method name
      is followed by another variable-length field. */
  predicate LengthsFit(call: TxCall) { call.CallContract? ==> |call.methodName| < LENGTHS }

  /** Two preimages do not collide under a hash. */
  predicate NoClash(hash: seq<byte> -> Hash, x: seq<byte>, y: seq<byte>) { hash(x) == hash(y) ==> x == y }

  // ---- Preimage builders ----

  /** Appending pieces one by one appends their right-nested concatenation. */
  lemma Chunks3(h: seq<byte>, a: seq<byte>, b: seq<byte>, c: seq<byte>)
    ensures h + a + b + c == h + (a + (b + c))
  {}

  lemma Chunks4(h: seq<byte>, a: seq<byte>, b: seq<byte>, c: seq<byte>, d: seq<byte>)
    ensures h + a + b + c + d == h + (a + (b + (c + d)))
  {
    Chunks3(h, a, b, c);
    Chunks3(h, a, b + c, d);
    Chunks3(a, b, c, d);
  }

  lemma Chunks6(h: seq<byte>, a: seq<byte>, b: seq<byte>, c: seq<byte>, d: seq<byte>, e: seq<byte>, f: seq<byte>)
    ensures h + a + b + c + d + e == h + (a + (b + (c + (d + e))))
    ensures h + a + b + c + d + e + f == h + (a + (b + (c + (d + (e + f)))))
  {
    Chunks4(h, a, b, c, d);
    Chunks4(h + a, b, c, d, e);
    Chunks3(h, a, b + (c + (d + e)), f);
    Chunks4(b, c, d, e, f);
  }

  class Hasher {
    var input: seq<byte>

    constructor ()
      ensures input == []
    {
      input := [];
    }

    method Update(data: seq<byte>)
      modifies this
      ensures input == old(input) + data
    {
      input := input + data;
    }
  }

  method HashCall(h: Hasher, call: TxCall)
    modifies h
    ensures h.input == old(h.input) + CallBytes(call)
  {
    ghost var before := h.input;
    match call {
      case Transfer(to, amount) =>
        h.Update([0]); h.Update(to); h.Update(LittleEndian(amount, 16));
        Chunks3(before, [0], to, LittleEndian(amount, 16));
      case DeployContract(codeRef, initArgs) =>
        h.Update([1]); h.Update(codeRef); h.Update(LengthBytes(|initArgs|)); h.Update(initArgs);
        Chunks4(before, [1], codeRef, LengthBytes(|initArgs|), initArgs);
      case CallContract(contract, name, args) =>
        h.Update([2]); h.Update(contract); h.Update(LengthBytes(|name|)); h.Update(name);
        h.Update(LengthBytes(|args|)); h.Update(args);
        Chunks6(before, [2], contract, LengthBytes(|name|), name, LengthBytes(|args|), args);
      case UpgradeCrypto(height, sigAlgo, hashAlgo, _) =>
        h.Update([3]); h.Update(LittleEndian(height, 8)); h.Update([sigAlgo, hashAlgo]);
        Chunks3(before, [3], LittleEndian(height, 8), [sigAlgo, hashAlgo]);
      case AttestRound(jobId, roundId, modelHash, eps) =>
        h.Update([4]); h.Update(jobId); h.Update(LittleEndian(roundId, 8)); h.Update(modelHash);
        h.Update(LittleEndian(eps, 4));
        Chunks6(before, [4], jobId, LittleEndian(roundId, 8), modelHash, LittleEndian(eps, 4), []);
      case RegisterAttestCoordinator(jobId, coordinators, _) =>
        h.Update([5]); h.Update(jobId); h.Update(LengthBytes(|coordinators|));
        UpdateAll(h, Sort(coordinators));
        Chunks4(before, [5], jobId, LengthBytes(|coordinators|), Flatten(Sort(coordinators)));
      case AttestPedigree(jobId, lotId, supplier, cage, authority) =>
        h.Update([6]); h.Update(jobId); h.Update(lotId); h.Update(supplier); h.Update(cage); h.Update(authority);
        Chunks6(before, [6], jobId, lotId, supplier, cage, authority);
      case SetGovernance(config, _) =>
        h.Update([7]); h.Update(LengthBytes(|config|)); h.Update(config);
        Chunks3(before, [7], LengthBytes(|config|), config);
    }
  }

  method UpdateAll(h: Hasher, parts: seq<seq<byte>>)
    modifies h
    ensures h.input == old(h.input) + Flatten(parts)
  {
    ghost var before := h.input;
    var i := 0;
    while i < |parts|
      invariant 0 <= i <= |parts|
      invariant h.input + Flatten(parts[i..]) == before + Flatten(parts)
    {
      assert parts[i..][1..] == parts[i + 1..];
      h.Update(parts[i]);
      i := i + 1;
    }
    assert parts[i..] == [];
  }

  method SigningHash(tx: TxBody, hash: seq<byte> -> Hash) returns (r: Hash)
    ensures r == hash(SigningBytes(tx))
  {
    var h := new Hasher();
    h.Update(SIGN_TAG);
    h.Update(LittleEndian(tx.nonce, 8));
    h.Update(tx.sender);
    HashCall(h, tx.call);
    h.Update(LittleEndian(tx.feeSat, 8));
    Chunks4(SIGN_TAG, LittleEndian(tx.nonce, 8), tx.sender, CallBytes(tx.call), LittleEndian(tx.feeSat, 8));
    assert [] + SIGN_TAG == SIGN_TAG;
    r := hash(h.input);
  }

  method BodyHash(tx: TxBody, hash: seq<byte> -> Hash) returns (r: Hash)
    ensures r == hash(BodyBytes(tx))
  {
    var h := new Hasher();
    h.Update(BODY_TAG);
    h.Update(LittleEndian(tx.nonce, 8));
    h.Update(tx.sender);
    HashCall(h, tx.call);
    h.Update(LittleEndian(tx.feeSat, 8));
    h.Update(LittleEndian(tx.gasLimit, 4));
    h.Update(tx.witnessHash);
    Chunks6(BODY_TAG, LittleEndian(tx.nonce, 8), tx.sender, CallBytes(tx.call),
      LittleEndian(tx.feeSat, 8), LittleEndian(tx.gasLimit, 4), tx.witnessHash);
    assert [] + BODY_TAG == BODY_TAG;
    r := hash(h.input);
  }

  method WitnessHash(w: Witness, hash: seq<byte> -> Hash) returns (r: Hash)
    ensures r == hash(WitnessBytes(w))
  {
    var h := new Hasher();
    h.Update(WITNESS_TAG);
    h.Update([w.sigAlgo]);
    h.Update(LengthBytes(|w.sig|));
    h.Update(w.sig);
    ghost var before := h.input;
    match w.pubkey {
      case Known(id) =>
        h.Update([0]); h.Update(id);
        Chunks3(before, [], [0], id);
      case Inline(bytes) =>
        h.Update([1]); h.Update(LengthBytes(|bytes|)); h.Update(bytes);
        Chunks3(before, [1], LengthBytes(|bytes|), bytes);
    }
    assert h.input == before + KeyBytes(w.pubkey);
    Chunks4(WITNESS_TAG, [w.sigAlgo], LengthBytes(|w.sig|), w.sig, KeyBytes(w.pubkey));
    assert [] + WITNESS_TAG == WITNESS_TAG;
    r := hash(h.input);
  }

  method VecRoot(tag: seq<byte>, leaves: seq<Hash>, hash: seq<byte> -> Hash) returns (r: Hash)
    ensures r == hash(RootBytes(tag, leaves))
  {
    var h := new Hasher();
    h.Update(tag);
    h.Update(LengthBytes(|leaves|));
    UpdateAll(h, leaves);
    assert h.input == RootBytes(tag, leaves);
    r := hash(h.input);
  }

  // ---- Preimages determine what they encode ----

  lemma Split(a: seq<byte>, x: seq<byte>, b: seq<byte>, y: seq<byte>)
    requires |a| == |b| || |x| == |y|
    ensures a + x == b + y <==> a == b && x == y
  {
    if a + x == b + y {
      assert |a + x| == |a| + |x| && |b + y| == |b| + |y|;
      assert (a + x)[..|a|] == a && (b + y)[..|b|] == b;
      assert (a + x)[|a|..] == x && (b + y)[|b|..] == y;
    }
  }

  lemma WordsEqual(a: nat, b: nat, n: nat)
    requires n in {4, 8, 16} && a < Pow256(n) && b < Pow256(n)
    ensures LittleEndian(a, n) == LittleEndian(b, n) <==> a == b
  {
    if LittleEndian(a, n) == LittleEndian(b, n) { LittleEndianInjective(a, b, n); }
  }

  lemma WordSizes()
    ensures Pow256(4) == LENGTHS && Pow256(8) == U64_MAX + 1 && Pow256(16) == U128_MAX + 1
  {
    assert Pow256(4) == LENGTHS;
    PowAdd(4, 4);
    PowAdd(8, 8);
  }

  /** Concatenations of equally long parts split in only one way. */
  lemma {:induction false} FlattenInjective(s: seq<seq<byte>>, t: seq<seq<byte>>, n: nat)
    requires n > 0 && (forall p :: p in s ==> |p| == n) && (forall p :: p in t ==> |p| == n)
    requires Flatten(s) == Flatten(t)
    ensures s == t
  {
    if s == [] || t == [] {
    } else {
      Split(s[0], Flatten(s[1..]), t[0], Flatten(t[1..]));
      FlattenInjective(s[1..], t[1..], n);
    }
  }

  lemma CoordinatorsEqual(c: seq<AccountId>, c': seq<AccountId>)
    ensures LengthBytes(|c|) + Flatten(Sort(c)) == LengthBytes(|c'|) + Flatten(Sort(c')) <==>
            multiset(c) == multiset(c')
  {
    SortIdentifiesMultisets(c, c');
    SortSorts(c);
    SortSorts(c');
    Split(LengthBytes(|c|), Flatten(Sort(c)), LengthBytes(|c'|), Flatten(Sort(c')));
    if Flatten(Sort(c)) == Flatten(Sort(c')) {
      forall p | p in Sort(c) ensures |p| == 20 { assert p in multiset(Sort(c)); }
      forall p | p in Sort(c') ensures |p| == 20 { assert p in multiset(Sort(c')); }
      FlattenInjective(Sort(c), Sort(c'), 20);
    }
    if multiset(c) == multiset(c') { assert |c| == |multiset(c)| == |c'|; }
  }

  lemma PrefixedEqual(s: seq<byte>, t: seq<byte>)
    ensures Prefixed(s) == Prefixed(t) <==> s == t
  {
    Split(LengthBytes(|s|), s, LengthBytes(|t|), t);
  }

  lemma ContractCallsEqual(n: seq<byte>, x: seq<byte>, n': seq<byte>, x': seq<byte>)
    requires |n| < LENGTHS && |n'| < LENGTHS
    ensures LengthBytes(|n|) + (n + Prefixed(x)) == LengthBytes(|n'|) + (n' + Prefixed(x')) <==> n == n' && x == x'
  {
    FieldThenRestEqual(n, Prefixed(x), n', Prefixed(x'));
    PrefixedEqual(x, x');
  }

  lemma TransfersEqual(a: TxCall, b: TxCall)
    requires a.Transfer? && b.Transfer?
    ensures CallBytes(a) == CallBytes(b) <==> a == b
  {
    WordSizes();
    var (x, y) := (LittleEndian(a.amount, 16), LittleEndian(b.amount, 16));
    Split([0], a.to + x, [0], b.to + y);
    Split(a.to, x, b.to, y);
    WordsEqual(a.amount, b.amount, 16);
  }

  lemma ContractsEqual(a: TxCall, b: TxCall)
    requires (a.DeployContract? && b.DeployContract?) || (a.CallContract? && b.CallContract?)
    requires LengthsFit(a) && LengthsFit(b)
    ensures CallBytes(a) == CallBytes(b) <==> a == b
  {
    match (a, b)
    case (DeployContract(c, x), DeployContract(c', x')) =>
      Split([1], c + Prefixed(x), [1], c' + Prefixed(x'));
      Split(c, Prefixed(x), c', Prefixed(x'));
      PrefixedEqual(x, x');
    case (CallContract(c, n, x), CallContract(c', n', x')) =>
      Split([2], c + (LengthBytes(|n|) + (n + Prefixed(x))), [2], c' + (LengthBytes(|n'|) + (n' + Prefixed(x'))));
      Split(c, LengthBytes(|n|) + (n + Prefixed(x)), c', LengthBytes(|n'|) + (n' + Prefixed(x')));
      ContractCallsEqual(n, x, n', x');
  }

  lemma UpgradesEqual(a: TxCall, b: TxCall)
    requires a.UpgradeCrypto? && b.UpgradeCrypto?
    ensures CallBytes(a) == CallBytes(b) <==> SameCall(a, b)
  {
    WordSizes();
    match (a, b)
    case (UpgradeCrypto(h, s, k, _), UpgradeCrypto(h', s', k', _)) =>
      Split([3], LittleEndian(h, 8) + [s, k], [3], LittleEndian(h', 8) + [s', k']);
      Split(LittleEndian(h, 8), [s, k], LittleEndian(h', 8), [s', k']);
      WordsEqual(h, h', 8);
      assert [s, k][0] == s && [s, k][1] == k && [s', k'][0] == s' && [s', k'][1] == k';
  }

  lemma RoundsEqual(a: TxCall, b: TxCall)
    requires a.AttestRound? && b.AttestRound?
    ensures CallBytes(a) == CallBytes(b) <==> a == b
  {
    WordSizes();
    match (a, b)
    case (AttestRound(j, r, m, e), AttestRound(j', r', m', e')) =>
      Split([4], j + (LittleEndian(r, 8) + (m + LittleEndian(e, 4))), [4],
        j' + (LittleEndian(r', 8) + (m' + LittleEndian(e', 4))));
      Split(j, LittleEndian(r, 8) + (m + LittleEndian(e, 4)), j', LittleEndian(r', 8) + (m' + LittleEndian(e', 4)));
      Split(LittleEndian(r, 8), m + LittleEndian(e, 4), LittleEndian(r', 8), m' + LittleEndian(e', 4));
      Split(m, LittleEndian(e, 4), m', LittleEndian(e', 4));
      WordsEqual(r, r', 8);
      WordsEqual(e, e', 4);
  }

  lemma RegistrationsEqual(a: TxCall, b: TxCall)
    requires a.RegisterAttestCoordinator? && b.RegisterAttestCoordinator?
    ensures CallBytes(a) == CallBytes(b) <==> SameCall(a, b)
  {
    match (a, b)
    case (RegisterAttestCoordinator(j, c, _), RegisterAttestCoordinator(j', c', _)) =>
      var x, x' := LengthBytes(|c|) + Flatten(Sort(c)), LengthBytes(|c'|) + Flatten(Sort(c'));
      Split([5], j + x, [5], j' + x');
      Split(j, x, j', x');
      CoordinatorsEqual(c, c');
  }

  lemma PedigreesEqual(a: TxCall, b: TxCall)
    requires a.AttestPedigree? && b.AttestPedigree?
    ensures CallBytes(a) == CallBytes(b) <==> a == b
  {
    match (a, b)
    case (AttestPedigree(j, l, s, g, u), AttestPedigree(j', l', s', g', u')) =>
      Split([6], j + (l + (s + (g + u))), [6], j' + (l' + (s' + (g' + u'))));
      Split(j, l + (s + (g + u)), j', l' + (s' + (g' + u')));
      Split(l, s + (g + u), l', s' + (g' + u'));
      Split(s, g + u, s', g' + u');
      Split(g, u, g', u');
  }

  lemma ConfigurationsEqual(a: TxCall, b: TxCall)
    requires a.SetGovernance? && b.SetGovernance?
    ensures CallBytes(a) == CallBytes(b) <==> SameCall(a, b)
  {
    Split([7], Prefixed(a.configCbor), [7], Prefixed(b.configCbor));
    PrefixedEqual(a.configCbor, b.configCbor);
  }

  function Tag(call: TxCall): byte {
    match call
    case Transfer(_, _) => 0
    case DeployContract(_, _) => 1
    case CallContract(_, _, _) => 2
    case UpgradeCrypto(_, _, _, _) => 3
    case AttestRound(_, _, _, _) => 4
    case RegisterAttestCoordinator(_, _, _) => 5
    case AttestPedigree(_, _, _, _, _) => 6
    case SetGovernance(_, _) => 7
  }

  lemma TagComesFirst(call: TxCall)
    ensures CallBytes(call) != [] && CallBytes(call)[0] == Tag(call)
  {}

  /** A call's encoding fixes the call, up to proofs and coordinator order. */
  lemma CallBytesIdentifyCalls(a: TxCall, b: TxCall)
    requires LengthsFit(a) && LengthsFit(b)
    ensures CallBytes(a) == CallBytes(b) <==> SameCall(a, b)
  {
    TagComesFirst(a);
    TagComesFirst(b);
    if Tag(a) == Tag(b) {
      match a
      case Transfer(_, _) => TransfersEqual(a, b);
      case DeployContract(_, _) => ContractsEqual(a, b);
      case CallContract(_, _, _) => ContractsEqual(a, b);
      case UpgradeCrypto(_, _, _, _) => UpgradesEqual(a, b);
      case AttestRound(_, _, _, _) => RoundsEqual(a, b);
      case RegisterAttestCoordinator(_, _, _) => RegistrationsEqual(a, b);
      case AttestPedigree(_, _, _, _, _) => PedigreesEqual(a, b);
      case SetGovernance(_, _) => ConfigurationsEqual(a, b);
    }
  }

  /** Two transactions have the same signing preimage exactly when they agree
      on nonce, sender, fee and call, ignoring proofs and coordinator order. */
  lemma SigningBytesIdentifyTransactions(a: TxBody, b: TxBody)
    requires LengthsFit(a.call) && LengthsFit(b.call)
    ensures SigningBytes(a) == SigningBytes(b) <==> SameSigned(a, b)
  {
    WordSizes();
    var (x, y) := (CallBytes(a.call), CallBytes(b.call));
    var (f, g) := (LittleEndian(a.feeSat, 8), LittleEndian(b.feeSat, 8));
    Split(SIGN_TAG, LittleEndian(a.nonce, 8) + (a.sender + (x + f)), SIGN_TAG,
      LittleEndian(b.nonce, 8) + (b.sender + (y + g)));
    Split(LittleEndian(a.nonce, 8), a.sender + (x + f), LittleEndian(b.nonce, 8), b.sender + (y + g));
    Split(a.sender, x + f, b.sender, y + g);
    Split(x, f, y, g);
    WordsEqual(a.nonce, b.nonce, 8);
    WordsEqual(a.feeSat, b.feeSat, 8);
    CallBytesIdentifyCalls(a.call, b.call);
  }

  /** The body preimage additionally fixes the gas limit and the witness hash. */
  lemma BodyBytesIdentifyTransactions(a: TxBody, b: TxBody)
    requires LengthsFit(a.call) && LengthsFit(b.call)
    ensures BodyBytes(a) == BodyBytes(b) <==>
            SameSigned(a, b) && a.gasLimit == b.gasLimit && a.witnessHash == b.witnessHash
  {
    WordSizes();
    var (x, y) := (CallBytes(a.call), CallBytes(b.call));
    var (u, v) := (LittleEndian(a.gasLimit, 4) + a.witnessHash, LittleEndian(b.gasLimit, 4) + b.witnessHash);
    var (f, g) := (LittleEndian(a.feeSat, 8) + u, LittleEndian(b.feeSat, 8) + v);
    Split(BODY_TAG, LittleEndian(a.nonce, 8) + (a.sender + (x + f)), BODY_TAG,
      LittleEndian(b.nonce, 8) + (b.sender + (y + g)));
    Split(LittleEndian(a.nonce, 8), a.sender + (x + f), LittleEndian(b.nonce, 8), b.sender + (y + g));
    Split(a.sender, x + f, b.sender, y + g);
    Split(x, f, y, g);
    Split(LittleEndian(a.feeSat, 8), u, LittleEndian(b.feeSat, 8), v);
    Split(LittleEndian(a.gasLimit, 4), a.witnessHash, LittleEndian(b.gasLimit, 4), b.witnessHash);
    WordsEqual(a.nonce, b.nonce, 8);
    WordsEqual(a.feeSat, b.feeSat, 8);
    WordsEqual(a.gasLimit, b.gasLimit, 4);
    CallBytesIdentifyCalls(a.call, b.call);
  }

  /** A witness preimage fixes the whole witness. */
  lemma WitnessBytesIdentifyWitnesses(a: Witness, b: Witness)
    requires |a.sig| < LENGTHS && |b.sig| < LENGTHS
    ensures WitnessBytes(a) == WitnessBytes(b) <==> a == b
  {
    var (k, l) := (KeyBytes(a.pubkey), KeyBytes(b.pubkey));
    Split(WITNESS_TAG, [a.sigAlgo] + (LengthBytes(|a.sig|) + (a.sig + k)), WITNESS_TAG,
      [b.sigAlgo] + (LengthBytes(|b.sig|) + (b.sig + l)));
    Split([a.sigAlgo], LengthBytes(|a.sig|) + (a.sig + k), [b.sigAlgo], LengthBytes(|b.sig|) + (b.sig + l));
    FieldThenRestEqual(a.sig, k, b.sig, l);
    assert [a.sigAlgo] == [b.sigAlgo] <==> a.sigAlgo == b.sigAlgo by {
      assert [a.sigAlgo][0] == a.sigAlgo && [b.sigAlgo][0] == b.sigAlgo;
    }
    KeyBytesEqual(a.pubkey, b.pubkey);
  }

  lemma LengthsEqual(a: nat, b: nat)
    requires a < LENGTHS && b < LENGTHS
    ensures LengthBytes(a) == LengthBytes(b) <==> a == b
  {
    WordSizes();
    if LengthBytes(a) == LengthBytes(b) { LittleEndianInjective(a, b, 4); }
  }

  lemma FieldThenRestEqual(s: seq<byte>, k: seq<byte>, t: seq<byte>, l: seq<byte>)
    requires |s| < LENGTHS && |t| < LENGTHS
    ensures LengthBytes(|s|) + (s + k) == LengthBytes(|t|) + (t + l) <==> s == t && k == l
  {
    LengthsEqual(|s|, |t|);
    Split(LengthBytes(|s|), s + k, LengthBytes(|t|), t + l);
    if |s| == |t| { Split(s, k, t, l); }
  }

  lemma KeyBytesEqual(a: PubKeyRef, b: PubKeyRef)
    ensures KeyBytes(a) == KeyBytes(b) <==> a == b
  {
    assert KeyBytes(a)[0] == KeyBytes(b)[0] || KeyBytes(a) != KeyBytes(b);
    match (a, b)
    case (Known(i), Known(j)) => Split([0], i, [0], j);
    case (Inline(x), Inline(y)) => Split([1], Prefixed(x), [1], Prefixed(y)); PrefixedEqual(x, y);
    case (_, _) =>
  }

  /** A root preimage fixes the whole list of leaves, and with it the order and
      number of a block's transactions or witnesses. */
  lemma RootBytesIdentifyLeaves(tag: seq<byte>, a: seq<Hash>, b: seq<Hash>)
    ensures RootBytes(tag, a) == RootBytes(tag, b) <==> a == b
  {
    Split(tag, LengthBytes(|a|) + Flatten(a), tag, LengthBytes(|b|) + Flatten(b));
    Split(LengthBytes(|a|), Flatten(a), LengthBytes(|b|), Flatten(b));
    if Flatten(a) == Flatten(b) { FlattenInjective(a, b, 32); }
  }

  /** Preimages of different kinds never coincide, whatever they encode. */
  lemma DomainsAreDisjoint(a: TxBody, b: TxBody, w: Witness, tag: seq<byte>, leaves: seq<Hash>)
    requires tag == TX_ROOT_TAG || tag == WITNESS_ROOT_TAG
    ensures SigningBytes(a) != BodyBytes(b)
    ensures WitnessBytes(w) != SigningBytes(a) && WitnessBytes(w) != BodyBytes(b)
    ensures RootBytes(tag, leaves) != SigningBytes(a) && RootBytes(tag, leaves) != BodyBytes(b)
            && RootBytes(tag, leaves) != WitnessBytes(w)
  {
    var s, t, u, v := SigningBytes(a), BodyBytes(b), WitnessBytes(w), RootBytes(tag, leaves);
    assert s[2] == 116 && s[4] == 115;
    assert t[2] == 116 && t[4] == 98;
    assert u[2] == 119 && u[5] == 0;
    assert v[2] == tag[2] && v[4] == tag[4] && v[5] == tag[5];
  }
}
