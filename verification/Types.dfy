/** Transactions, witnesses and blocks (crates/core/src/tx.rs,
    crates/core/src/block.rs). */
module Types {
  import opened Machine

  type AccountId = s: seq<byte> | |s| == 20 witness seq(20, _ => 0)
  type Hash = s: seq<byte> | |s| == 32 witness seq(32, _ => 0)
  type LotId = s: seq<byte> | |s| == 16 witness seq(16, _ => 0)
  type CageCode = s: seq<byte> | |s| == 5 witness seq(5, _ => 0)

  datatype PubKeyRef = Known(id: AccountId) | Inline(key: seq<byte>)

  datatype TxCall =
    | Transfer(to: AccountId, amount: u128)
    | DeployContract(codeRef: Hash, initArgs: seq<byte>)
    | CallContract(contract: AccountId, methodName: seq<byte>, args: seq<byte>)
    | UpgradeCrypto(targetHeight: u64, newSigAlgo: byte, newHashAlgo: byte, govProof: seq<byte>)
    | AttestRound(jobId: Hash, roundId: u64, modelHash: Hash, dpEpsilonMilli: u32)
    | RegisterAttestCoordinator(jobId: Hash, coordinators: seq<AccountId>, govProof: seq<byte>)
    | AttestPedigree(jobId: Hash, lotId: LotId, supplier: Hash, cageCode: CageCode, authority: Hash)
    | SetGovernance(configCbor: seq<byte>, govProof: seq<byte>)

  datatype TxBody = TxBody(nonce: u64, sender: AccountId, call: TxCall, feeSat: u64, gasLimit: u32, witnessHash: Hash)

  datatype Witness = Witness(sigAlgo: byte, sig: seq<byte>, pubkey: PubKeyRef)

  datatype BlockHeader = BlockHeader(
    version: u32, height: u64, parent: Hash, timestamp: u64, bits: u32, nonce: u64,
    txRoot: Hash, witnessRoot: Hash, stateRoot: Hash, reflectRoot: Hash, coinbase: Hash,
    sigAlgo: byte, hashAlgo: byte)

  datatype Block = Block(header: BlockHeader, txs: seq<TxBody>, witnesses: seq<Witness>)
}
