/** The ledger's state: typed records under subtree-scoped keys, and accounts
    (crates/state/src/accounts.rs, subtrees.rs, the key builders of apply.rs). */
module State {
  import opened Machine
  import opened Bytes
  import opened Types
  import G = Governance

  datatype Subtree = Accounts | Code | Storage | Meta | Reflect | Blocks | Headers | Witnesses | Attest

  datatype Account = Account(balance: u128, nonce: u64, pubkey: seq<byte>, sigAlgo: byte)
  datatype PendingUpgrade = PendingUpgrade(targetHeight: u64, sigAlgo: byte, hashAlgo: byte, announcedAt: u64)
  datatype ActiveCrypto = ActiveCrypto(sigAlgo: byte, hashAlgo: byte, activatedAt: u64)
  datatype Reflection = Reflection(
    bits: u32, activeAddresses: nat, feeSum: u128, emission: u128, rH: i128, rA: i128, stabilityBias: int)

  datatype Record =
    | AccountRec(account: Account)
    | GovernanceRec(config: G.Config)
    | PendingRec(pending: PendingUpgrade)
    | ActiveRec(active: ActiveCrypto)
    | AuthorityRec(jobId: Hash, coordinators: seq<AccountId>, registeredAt: u64)
    | AttestRec(jobId: Hash, roundId: u64, modelHash: Hash, dpEpsilonMilli: u32, coordinator: AccountId,
    blockHeight: u64, blockTimestamp: u64)
    | PedigreeRec(jobId: Hash, lotId: LotId, supplier: Hash, cageCode: CageCode, authority: Hash, attester: AccountId,
                  blockHeight: u64, blockTimestamp: u64)
    | ReflectionRec(reflection: Reflection)

  datatype Key = Key(sub: Subtree, bytes: seq<byte>)
  type Db = map<Key, Record>

  const EMPTY_ACCOUNT: Account := Account(0, 0, [], 0)
  const GOVERNANCE: Key := Key(Meta, G.Ascii("governance"))
  const UPGRADE: Key := Key(Meta, G.Ascii("upgrade_crypto"))
  const ACTIVE: Key := Key(Meta, G.Ascii("active_crypto"))
  const LATEST: Key := Key(Reflect, G.Ascii("latest"))

  function AccountKey(id: AccountId): Key { Key(Accounts, id) }

  function AuthorityKey(jobId: Hash): Key { Key(Meta, G.Ascii("attau") + jobId) }

  function AttestKey(jobId: Hash, roundId: u64): Key { Key(Attest, jobId + BigEndian(roundId, 8)) }

  function PedigreeKey(jobId: Hash, lotId: LotId): Key { Key(Attest, G.Ascii("ped/") + (jobId + lotId)) }

  function ReflectKey(height: u64): Key { Key(Reflect, G.Ascii("block/") + BigEndian(height, 8)) }

  /** Attestation, pedigree and reflection records never land on an account,
      governance, upgrade or active-suite key, nor on each other. */
  lemma RecordKeysAreApart(id: AccountId, job: Hash, job': Hash, round: u64, lot: LotId, height: u64)
    ensures var ks := [AccountKey(id), GOVERNANCE, UPGRADE, ACTIVE, LATEST, AuthorityKey(job), AttestKey(job, round),
            PedigreeKey(job', lot), ReflectKey(height)];
            forall i, j :: 0 <= i < j < |ks| ==> ks[i] != ks[j]
    ensures AuthorityKey(job) == AuthorityKey(job') <==> job == job'
  {
    assert |GOVERNANCE.bytes| == 10 && |UPGRADE.bytes| == 14 && |ACTIVE.bytes| == 13 && |AuthorityKey(job).bytes| == 37;
    assert |LATEST.bytes| == 6 && |ReflectKey(height).bytes| == 14 && |AttestKey(job, round).bytes| == 40
      && |PedigreeKey(job', lot).bytes| == 52;
    assert AuthorityKey(job).bytes[5..] == job && AuthorityKey(job').bytes[5..] == job';
  }

  function Load(db: Db, id: AccountId): Option<Account> {
    if AccountKey(id) in db && db[AccountKey(id)].AccountRec? then Some(db[AccountKey(id)].account) else None
  }

  function LoadOrDefault(db: Db, id: AccountId): Account {
    if Load(db, id).Some? then Load(db, id).value else EMPTY_ACCOUNT
  }

  function Save(db: Db, id: AccountId, a: Account): Db { db[AccountKey(id) := AccountRec(a)] }

  function GovernanceOf(db: Db): Option<G.Config> {
    if GOVERNANCE in db && db[GOVERNANCE].GovernanceRec? then Some(db[GOVERNANCE].config) else None
  }

  function PendingOf(db: Db): Option<PendingUpgrade> {
    if UPGRADE in db && db[UPGRADE].PendingRec? then Some(db[UPGRADE].pending) else None
  }

  function ActiveOf(db: Db): Option<ActiveCrypto> {
    if ACTIVE in db && db[ACTIVE].ActiveRec? then Some(db[ACTIVE].active) else None
  }

  function AuthorityOf(db: Db, jobId: Hash): Option<seq<AccountId>> {
    if AuthorityKey(jobId) in db && db[AuthorityKey(jobId)].AuthorityRec?
      then Some(db[AuthorityKey(jobId)].coordinators) else None
  }

  lemma SaveThenLoad(db: Db, id: AccountId, a: Account, other: AccountId)
    ensures Load(Save(db, id, a), other) == if other == id then Some(a) else Load(db, other)
  {}

  /** An account never saved has no coins, starts at nonce zero and has no key. */
  lemma UnknownAccountIsEmpty(db: Db, id: AccountId)
    requires Key(Accounts, id) !in db
    ensures Load(db, id) == None && LoadOrDefault(db, id) == Account(0, 0, [], 0)
  {}

  class Store {
    var data: Db

    constructor ()
      ensures data == map[]
    {
      data := map[];
    }

    method Put(k: Key, r: Record)
      modifies this
      ensures data == old(data)[k := r]
    {
      data := data[k := r];
    }

    method SaveAccount(id: AccountId, a: Account)
      modifies this
      ensures data == Save(old(data), id, a)
    {
      Put(AccountKey(id), AccountRec(a));
    }
  }

  // ---- The sum of all balances ----

  function Balance(k: Key, r: Record): nat { if k.sub.Accounts? && r.AccountRec? then r.account.balance else 0 }

  ghost function Total(db: Db): nat
    decreases |db|
  {
    if db == map[] then 0
    else
      var k :| k in db;
      Shrinks(db, k);
      Balance(k, db[k]) + Total(db - {k})
  }

  lemma Shrinks(db: Db, k: Key)
    requires k in db
    ensures |db - {k}| < |db|
  {
    assert (db - {k}).Keys == db.Keys - {k};
    assert |db| == |db.Keys|;
  }

  lemma {:induction false} TotalRemove(db: Db, k: Key)
    requires k in db
    ensures Total(db) == Balance(k, db[k]) + Total(db - {k})
    decreases |db|
  {
    var j :| j in db && Total(db) == Balance(j, db[j]) + Total(db - {j});
    if j != k {
      Shrinks(db, j);
      Shrinks(db, k);
      TotalRemove(db - {j}, k);
      TotalRemove(db - {k}, j);
      assert db - {j} - {k} == db - {k} - {j};
    }
  }

  /** Writing one record moves the total by that record's change. */
  lemma TotalPut(db: Db, k: Key, r: Record)
    ensures Total(db[k := r]) + (if k in db then Balance(k, db[k]) else 0) == Total(db) + Balance(k, r)
  {
    TotalRemove(db[k := r], k);
    assert db[k := r] - {k} == db - {k};
    if k in db { TotalRemove(db, k); } else { assert db - {k} == db; }
  }

  lemma BalanceAtMostTotal(db: Db, id: AccountId)
    ensures LoadOrDefault(db, id).balance <= Total(db)
  {
    if AccountKey(id) in db { TotalRemove(db, AccountKey(id)); }
  }

  lemma TotalSave(db: Db, id: AccountId, a: Account)
    ensures Total(Save(db, id, a)) + LoadOrDefault(db, id).balance == Total(db) + a.balance
  {
    TotalPut(db, AccountKey(id), AccountRec(a));
  }

  lemma TotalElsewhere(db: Db, k: Key, r: Record)
    requires !k.sub.Accounts?
    ensures Total(db[k := r]) == Total(db)
  {
    TotalPut(db, k, r);
  }
}
