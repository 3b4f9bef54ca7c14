/** Pending transactions (crates/node/src/mempool.rs). */
module Mempool {
  import opened Machine
  import opened Order
  import opened Encoding
  import opened Types

  datatype PendingTx = PendingTx(body: TxBody, wit: Witness, receivedMs: u64)
  datatype Reject = WitnessHashMismatch | Duplicate
  type Pool = map<Hash, PendingTx>

  /** The entry a full pool evicts first: oldest arrival, then smallest hash. */
  predicate Older(pool: Pool, a: Hash, b: Hash) {
    a in pool && b in pool &&
    (pool[a].receivedMs < pool[b].receivedMs || (pool[a].receivedMs == pool[b].receivedMs && LexLess(a, b)))
  }

  /** The order blocks are filled in: highest fee, then smallest hash. */
  predicate Outranks(pool: Pool, a: Hash, b: Hash) {
    a in pool && b in pool &&
    (pool[a].body.feeSat > pool[b].body.feeSat || (pool[a].body.feeSat == pool[b].body.feeSat && LexLess(a, b)))
  }

  lemma PoolOrders(pool: Pool)
    ensures StrictOrder((a, b) => Older(pool, a, b), pool.Keys)
    ensures StrictOrder((a, b) => Outranks(pool, a, b), pool.Keys)
  {
    forall a, b | a in pool.Keys && b in pool.Keys
      ensures a != b <==> LexLess(a, b) || LexLess(b, a)
      ensures !(LexLess(a, b) && LexLess(b, a))
    {
      LexTotal(a, b);
    }
    forall a, b, c | a in pool.Keys && b in pool.Keys && c in pool.Keys && LexLess(a, b) && LexLess(b, c)
      ensures LexLess(a, c)
    {
      LexTransitive(a, b, c);
    }
  }

  function Oldest(pool: Pool): (h: Hash)
    requires pool != map[]
    ensures h in pool && forall k :: k in pool ==> k == h || Older(pool, h, k)
  {
    PoolOrders(pool);
    var less := (a, b) => Older(pool, a, b);
    AscendingAscends(pool.Keys, less);
    var h := Ascending(pool.Keys, less)[0];
    assert h in Ascending(pool.Keys, less);
    assert forall k :: k in pool ==> k == h || less(h, k);
    h
  }

  function Ranked(pool: Pool): seq<Hash> {
    PoolOrders(pool);
    Ascending(pool.Keys, (a, b) => Outranks(pool, a, b))
  }

  lemma RankedShape(pool: Pool)
    ensures |Ranked(pool)| == |pool| && forall h :: h in Ranked(pool) <==> h in pool
    ensures forall i, j :: 0 <= i < j < |Ranked(pool)| ==> Outranks(pool, Ranked(pool)[i], Ranked(pool)[j])
  {
    PoolOrders(pool);
    AscendingAscends(pool.Keys, (a, b) => Outranks(pool, a, b));
    assert |pool| == |pool.Keys|;
  }

  function Best(pool: Pool, max: nat): seq<Hash> {
    RankedShape(pool);
    Ranked(pool)[..Min(max, |pool|)]
  }

  /** Block selection is strictly ordered by fee, then hash; it takes as many as
      there are, up to `max`; and nothing left out precedes anything taken. */
  lemma BestIsBest(pool: Pool, max: nat)
    ensures |Best(pool, max)| == Min(max, |pool|) && forall h :: h in Best(pool, max) ==> h in pool
    ensures forall i :: 0 <= i < |Best(pool, max)| ==> Best(pool, max)[i] in pool
    ensures forall i, j :: 0 <= i < j < |Best(pool, max)| ==> Outranks(pool, Best(pool, max)[i], Best(pool, max)[j])
    ensures forall h, g :: h in Best(pool, max) && g in pool && g !in Best(pool, max) ==> Outranks(pool, h, g)
  {
    RankedShape(pool);
    var all, best := Ranked(pool), Best(pool, max);
    assert forall i :: 0 <= i < |best| ==> best[i] == all[i] && all[i] in all;
    forall h, g | h in best && g in pool && g !in best ensures Outranks(pool, h, g) {
      var i :| 0 <= i < |best| && best[i] == h;
      var k :| 0 <= k < |all| && all[k] == g;
      if k < |best| { assert best[k] == g; }
    }
  }

  /** The same without the order's name: of any two entries taken, the earlier pays
      the higher fee, or the same one and has the smaller hash; and so does any
      entry taken against any left out. */
  lemma HighestFeesFirst(pool: Pool, max: nat)
    ensures var best := Best(pool, max);
            && (forall h :: h in best ==> h in pool)
            && (forall i, j :: 0 <= i < j < |best| ==>
                  var x, y := pool[best[i]].body.feeSat, pool[best[j]].body.feeSat;
                  x > y || (x == y && LexLess(best[i], best[j])))
            && (forall h, g :: h in best && g in pool && g !in best ==>
                  var x, y := pool[h].body.feeSat, pool[g].body.feeSat;
                  x > y || (x == y && LexLess(h, g)))
  {
    BestIsBest(pool, max);
    var best := Best(pool, max);
    forall i, j | 0 <= i < j < |best|
      ensures var x, y := pool[best[i]].body.feeSat, pool[best[j]].body.feeSat;
              x > y || (x == y && LexLess(best[i], best[j]))
    {
      assert Outranks(pool, best[i], best[j]);
    }
    forall h, g | h in best && g in pool && g !in best
      ensures var x, y := pool[h].body.feeSat, pool[g].body.feeSat; x > y || (x == y && LexLess(h, g))
    {
      assert Outranks(pool, h, g);
    }
  }

  /** Admission adds the entry; below capacity nothing else changes, and at capacity
      exactly one entry leaves: the one that arrived first, and of several the one
      with the smallest hash. */
  lemma OldestMakesRoom(pool: Pool, cap: nat, h: Hash, p: PendingTx) returns (gone: Option<Hash>)
    requires h !in pool
    ensures gone.None? <==> |pool| < cap || pool == map[]
    ensures gone.Some? ==> gone.value in pool && forall k :: k in pool && k != gone.value ==>
              pool[gone.value].receivedMs < pool[k].receivedMs
              || (pool[gone.value].receivedMs == pool[k].receivedMs && LexLess(gone.value, k))
    ensures forall k :: k in Admitted(pool, cap, h, p) <==> k == h || (k in pool && gone != Some(k))
    ensures forall k :: k in Admitted(pool, cap, h, p) ==>
              Admitted(pool, cap, h, p)[k] == if k == h then p else pool[k]
  {
    gone := if |pool| >= cap && pool != map[] then Some(Oldest(pool)) else None;
    if gone.Some? {
      forall k | k in pool && k != gone.value ensures Older(pool, gone.value, k) {}
    }
  }

  lemma BestAreEntries(pool: Pool, max: nat)
    ensures forall i :: 0 <= i < |Best(pool, max)| ==> Best(pool, max)[i] in pool
  {
    BestIsBest(pool, max);
  }

  /** An entry stored under `h`: its body hashes to `h` and commits to its witness. */
  predicate Keyed(hash: seq<byte> -> Hash, h: Hash, p: PendingTx) {
    hash(BodyBytes(p.body)) == h && p.body.witnessHash == hash(WitnessBytes(p.wit))
  }

  predicate AllKeyed(hash: seq<byte> -> Hash, pool: Pool) { forall h | h in pool :: Keyed(hash, h, pool[h]) }

  /** A full pool makes room by dropping its oldest entry. */
  function Admitted(pool: Pool, cap: nat, h: Hash, p: PendingTx): Pool {
    (if |pool| >= cap && pool != map[] then pool - {Oldest(pool)} else pool)[h := p]
  }

  lemma AdmittedKeepsPool(pool: Pool, cap: nat, h: Hash, p: PendingTx, hash: seq<byte> -> Hash)
    requires |pool| <= Max(cap, 1) && AllKeyed(hash, pool) && h !in pool && Keyed(hash, h, p)
    ensures |Admitted(pool, cap, h, p)| <= Max(cap, 1) && AllKeyed(hash, Admitted(pool, cap, h, p))
  {
    if |pool| >= cap && pool != map[] {
      OneLess(pool, Oldest(pool));
      OneMore(pool - {Oldest(pool)}, h, p, hash);
    } else {
      OneMore(pool, h, p, hash);
    }
  }

  lemma OneLess(pool: Pool, h: Hash)
    requires h in pool
    ensures |pool - {h}| == |pool| - 1
  {
    assert (pool - {h}).Keys == pool.Keys - {h};
  }

  lemma OneMore(pool: Pool, h: Hash, p: PendingTx, hash: seq<byte> -> Hash)
    requires AllKeyed(hash, pool) && Keyed(hash, h, p)
    ensures |pool[h := p]| <= |pool| + 1 && AllKeyed(hash, pool[h := p])
  {
    assert pool[h := p].Keys == pool.Keys + {h};
  }

  method Entries(pool: Pool, hashes: seq<Hash>) returns (r: seq<PendingTx>)
    requires forall i :: 0 <= i < |hashes| ==> hashes[i] in pool
    ensures |r| == |hashes| && forall i :: 0 <= i < |r| ==> r[i] == pool[hashes[i]]
  {
    r := [];
    var i := 0;
    while i < |hashes|
      invariant 0 <= i <= |hashes| && |r| == i
      invariant forall k :: 0 <= k < i ==> r[k] == pool[hashes[k]]
    {
      r := r + [pool[hashes[i]]];
      i := i + 1;
    }
  }

  class Mempool {
    const hash: seq<byte> -> Hash
    const cap: nat
    var inner: Pool

    /** Never above capacity, every entry under its own body hash, and every
        body committed to its witness. A capacity of zero still holds one. */
    ghost predicate Valid()
      reads this
    {
      |inner| <= Max(cap, 1) && AllKeyed(hash, inner)
    }

    constructor (cap: nat, hash: seq<byte> -> Hash)
      ensures Valid() && inner == map[] && this.cap == cap && this.hash == hash
    {
      this.cap, this.hash := cap, hash;
      inner := map[];
    }

    method Submit(body: TxBody, wit: Witness, now: u64) returns (r: Result<Hash, Reject>)
      requires Valid()
      modifies this`inner
      ensures Valid()
      ensures var h := hash(BodyBytes(body));
              if body.witnessHash != hash(WitnessBytes(wit)) then
                r == Err(WitnessHashMismatch) && inner == old(inner)
              else if h in old(inner) then
                r == Err(Duplicate) && inner == old(inner)
              else r == Ok(h) && inner == Admitted(old(inner), cap, h, PendingTx(body, wit, now))
    {
      var witnessHash := WitnessHash(wit, hash);
      if body.witnessHash != witnessHash { return Err(WitnessHashMismatch); }
      var h := BodyHash(body, hash);
      if h in inner { return Err(Duplicate); }
      AdmittedKeepsPool(inner, cap, h, PendingTx(body, wit, now), hash);
      if |inner| >= cap && inner != map[] {
        var oldest := Oldest(inner);
        inner := inner - {oldest};
      }
      inner := inner[h := PendingTx(body, wit, now)];
      return Ok(h);
    }

    /** The `max` best entries, each still under its own body hash. */
    method PullForBlock(max: nat) returns (r: seq<PendingTx>)
      requires Valid()
      ensures |r| == |Best(inner, max)|
      ensures forall i :: 0 <= i < |r| ==> Best(inner, max)[i] in inner && r[i] == inner[Best(inner, max)[i]]
    {
      BestAreEntries(inner, max);
      r := Entries(inner, Best(inner, max));
    }

    method Confirm(hashes: seq<Hash>)
      requires Valid()
      modifies this`inner
      ensures Valid() && inner == Without(old(inner), hashes)
    {
      ghost var before := inner;
      var i := 0;
      assert Without(before, hashes[..0]) == before;
      while i < |hashes|
        invariant 0 <= i <= |hashes|
        invariant inner == Without(before, hashes[..i])
      {
        WithoutStep(before, hashes, i);
        inner := inner - {hashes[i]};
        i := i + 1;
      }
      assert hashes[..i] == hashes;
      WithoutKeepsPool(before, hashes, hash);
    }
  }

  function Without(pool: Pool, hashes: seq<Hash>): Pool { map h | h in pool && h !in hashes :: pool[h] }

  lemma WithoutStep(pool: Pool, hashes: seq<Hash>, i: nat)
    requires i < |hashes|
    ensures Without(pool, hashes[..i + 1]) == Without(pool, hashes[..i]) - {hashes[i]}
  {
    assert hashes[..i + 1] == hashes[..i] + [hashes[i]];
  }

  lemma WithoutKeepsPool(pool: Pool, hashes: seq<Hash>, hash: seq<byte> -> Hash)
    requires AllKeyed(hash, pool)
    ensures AllKeyed(hash, Without(pool, hashes)) && |Without(pool, hashes)| <= |pool|
  {
    var kept := Without(pool, hashes).Keys;
    assert pool.Keys == kept + (pool.Keys - kept);
  }
}
