/** The in-memory and the persistent state store (crates/state/src/store.rs,
    rocks_store.rs): two layouts, one commitment. */
module Stores {
  import opened Machine
  import opened Bytes
  import opened Order
  import opened Encoding
  import opened Types

  const ROOT_TAG: seq<byte> := [80, 71, 109, 101, 109, 114, 111, 111, 116, 0]  // "PGmemroot\0"

  datatype StoreKey = StoreKey(sub: byte, key: seq<byte>)

  /** Tuple order: what Rust derives for `(u8, Vec<u8>)`. */
  predicate KeyLess(a: StoreKey, b: StoreKey) {
    a.sub < b.sub || (a.sub == b.sub && LexLess(a.key, b.key))
  }

  /** The persistent layout of a key. */
  function Tagged(k: StoreKey): seq<byte> { [k.sub] + k.key }

  function Untagged(raw: seq<byte>): StoreKey
    requires raw != []
  {
    StoreKey(raw[0], raw[1..])
  }

  /** The persistent layout of a whole map: same values under tagged keys. */
  function Laid(data: map<StoreKey, seq<byte>>): (db: map<seq<byte>, seq<byte>>)
    ensures forall raw :: At(db, raw) == if raw == [] then None else MemAt(data, Untagged(raw))
  {
    var db := map raw | raw in TaggedKeys(data.Keys) :: data[Untagged(raw)];
    assert forall raw :: At(db, raw) == if raw == [] then None else MemAt(data, Untagged(raw));
    db
  }

  function TaggedKeys(keys: set<StoreKey>): (raws: set<seq<byte>>)
    ensures forall raw :: raw in raws <==> raw != [] && Untagged(raw) in keys
  {
    var raws := set k | k in keys :: Tagged(k);
    assert forall raw :: raw in raws <==> raw != [] && Untagged(raw) in keys by {
      forall raw ensures raw in raws <==> raw != [] && Untagged(raw) in keys {
        if raw in raws { var k :| k in keys && raw == Tagged(k); SameKey(raw, k); }
        if raw != [] && Untagged(raw) in keys { SameKey(raw, Untagged(raw)); }
      }
    }
    raws
  }

  function At(db: map<seq<byte>, seq<byte>>, raw: seq<byte>): Option<seq<byte>> {
    if raw in db then Some(db[raw]) else None
  }

  function MemAt(data: map<StoreKey, seq<byte>>, k: StoreKey): Option<seq<byte>> {
    if k in data then Some(data[k]) else None
  }

  lemma LaidAt(data: map<StoreKey, seq<byte>>, raw: seq<byte>)
    ensures At(Laid(data), raw) == if raw == [] then None else MemAt(data, Untagged(raw))
  {}

  lemma SameAt(a: map<seq<byte>, seq<byte>>, b: map<seq<byte>, seq<byte>>)
    requires forall raw :: At(a, raw) == At(b, raw)
    ensures a == b
  {
    forall raw ensures (raw in a <==> raw in b) && (raw in a ==> a[raw] == b[raw]) { assert At(a, raw) == At(b, raw); }
  }

  function Imported(db: map<seq<byte>, seq<byte>>, data: map<StoreKey, seq<byte>>): map<seq<byte>, seq<byte>> {
    db + Laid(data)
  }

  function EntryBytes(k: StoreKey, v: seq<byte>): seq<byte> {
    [k.sub] + (LengthBytes(|k.key|) + (k.key + (LengthBytes(|v|) + v)))
  }

  function EntriesBytes(keys: seq<StoreKey>, data: map<StoreKey, seq<byte>>): seq<byte>
    requires forall k :: k in keys ==> k in data
  {
    if keys == [] then [] else EntryBytes(keys[0], data[keys[0]]) + EntriesBytes(keys[1..], data)
  }

  lemma KeysOrdered(keys: set<StoreKey>)
    ensures StrictOrder(KeyLess, keys)
  {
    forall a, b | a in keys && b in keys
      ensures (a != b <==> KeyLess(a, b) || KeyLess(b, a)) && !(KeyLess(a, b) && KeyLess(b, a))
    {
      LexTotal(a.key, b.key);
    }
    forall a, b, c | a in keys && b in keys && c in keys && KeyLess(a, b) && KeyLess(b, c) ensures KeyLess(a, c) {
      if a.sub == b.sub == c.sub { LexTransitive(a.key, b.key, c.key); }
    }
  }

  function Iteration(keys: set<StoreKey>): seq<StoreKey> {
    KeysOrdered(keys);
    Ascending(keys, KeyLess)
  }

  lemma IterationCovers(keys: set<StoreKey>)
    ensures StrictOrder(KeyLess, keys) && Ascends(Iteration(keys), keys, KeyLess)
    ensures forall k :: k in Iteration(keys) <==> k in keys
  {
    KeysOrdered(keys);
    AscendingAscends(keys, KeyLess);
  }

  /** The bytes the root commits to: every entry, in canonical order. */
  function Preimage(data: map<StoreKey, seq<byte>>): seq<byte> {
    IterationCovers(data.Keys);
    EntriesBytes(Iteration(data.Keys), data)
  }

  function RootOf(data: map<StoreKey, seq<byte>>, hash: seq<byte> -> Hash): Hash { hash(ROOT_TAG + Preimage(data)) }

  function Raw(keys: set<seq<byte>>): seq<seq<byte>> {
    LexOrders(keys);
    Ascending(keys, LexLess)
  }

  lemma RawCovers(keys: set<seq<byte>>)
    ensures StrictOrder(LexLess, keys) && Ascends(Raw(keys), keys, LexLess)
    ensures forall k :: k in Raw(keys) <==> k in keys
  {
    LexOrders(keys);
    AscendingAscends(keys, LexLess);
  }

  /** What the persistent store's root walk produces from a raw database: the
      empty key is skipped, every other key is split at its first byte. */
  function RawEntries(keys: seq<seq<byte>>, db: map<seq<byte>, seq<byte>>): seq<byte>
    requires forall k :: k in keys ==> k in db
  {
    if keys == [] then []
    else (if keys[0] == [] then [] else EntryBytes(Untagged(keys[0]), db[keys[0]])) + RawEntries(keys[1..], db)
  }

  function RawPreimage(db: map<seq<byte>, seq<byte>>): seq<byte> {
    RawCovers(db.Keys);
    RawEntries(Raw(db.Keys), db)
  }

  function Part(data: map<StoreKey, seq<byte>>, keys: seq<StoreKey>): map<StoreKey, seq<byte>> {
    map k | k in data && k in keys :: data[k]
  }

  lemma NothingImported(db: map<seq<byte>, seq<byte>>, data: map<StoreKey, seq<byte>>)
    ensures Imported(db, Part(data, [])) == db
  {
    assert Laid(Part(data, [])) == map[];
  }

  lemma PartAll(data: map<StoreKey, seq<byte>>, keys: seq<StoreKey>)
    requires forall k :: k in keys <==> k in data
    ensures Part(data, keys) == data
  {}

  lemma PartGrows(data: map<StoreKey, seq<byte>>, keys: seq<StoreKey>, i: nat)
    requires i < |keys| && keys[i] in data
    ensures Part(data, keys[..i + 1]) == Part(data, keys[..i])[keys[i] := data[keys[i]]]
  {
    assert keys[..i + 1] == keys[..i] + [keys[i]];
  }

  lemma SameKey(raw: seq<byte>, k: StoreKey)
    ensures Tagged(k) != [] && Untagged(Tagged(k)) == k
    ensures raw != [] ==> (Untagged(raw) == k <==> raw == Tagged(k))
  {
    assert Tagged(k)[1..] == k.key;
    if raw != [] { assert raw == [raw[0]] + raw[1..]; }
  }

  lemma PutLaid(data: map<StoreKey, seq<byte>>, k: StoreKey, v: seq<byte>)
    ensures Laid(data)[Tagged(k) := v] == Laid(data[k := v])
  {
    var put, laid := Laid(data)[Tagged(k) := v], Laid(data[k := v]);
    forall raw ensures At(put, raw) == At(laid, raw) {
      SameKey(raw, k);
      LaidAt(data, raw);
      LaidAt(data[k := v], raw);
    }
    SameAt(put, laid);
  }

  lemma PutLays(db: map<seq<byte>, seq<byte>>, data: map<StoreKey, seq<byte>>, k: StoreKey, v: seq<byte>)
    ensures Imported(db, data)[Tagged(k) := v] == Imported(db, data[k := v])
  {
    PutLaid(data, k, v);
    SumThenPut(db, Laid(data), Tagged(k), v);
  }

  lemma SumThenPut(a: map<seq<byte>, seq<byte>>, b: map<seq<byte>, seq<byte>>, k: seq<byte>, v: seq<byte>)
    ensures (a + b)[k := v] == a + b[k := v]
  {}

  /** One entry appended to the root buffer. */
  function Appended(buf: seq<byte>, k: StoreKey, v: seq<byte>): seq<byte> {
    buf + [k.sub] + LengthBytes(|k.key|) + k.key + LengthBytes(|v|) + v
  }

  lemma AppendedEntry(buf: seq<byte>, k: StoreKey, v: seq<byte>, rest: seq<byte>)
    ensures Appended(buf, k, v) + rest == buf + (EntryBytes(k, v) + rest)
  {
    Chunks6(buf, [k.sub], LengthBytes(|k.key|), k.key, LengthBytes(|v|), v, rest);
    EntryThenRest(k, v, rest);
  }

  lemma EntriesStep(keys: seq<StoreKey>, i: nat, data: map<StoreKey, seq<byte>>)
    requires i < |keys| && forall k :: k in keys ==> k in data
    ensures EntriesBytes(keys[i..], data) == EntryBytes(keys[i], data[keys[i]]) + EntriesBytes(keys[i + 1..], data)
  {
    assert keys[i..][1..] == keys[i + 1..];
  }

  lemma RawEntriesStep(keys: seq<seq<byte>>, i: nat, db: map<seq<byte>, seq<byte>>)
    requires i < |keys| && forall k :: k in keys ==> k in db
    ensures keys[i] != [] ==>
              RawEntries(keys[i..], db) == EntryBytes(Untagged(keys[i]), db[keys[i]]) + RawEntries(keys[i + 1..], db)
    ensures keys[i] == [] ==> RawEntries(keys[i..], db) == RawEntries(keys[i + 1..], db)
  {
    assert keys[i..][1..] == keys[i + 1..];
  }

  class MemState {
    const hash: seq<byte> -> Hash
    var data: map<StoreKey, seq<byte>>

    constructor (hash: seq<byte> -> Hash)
      ensures data == map[] && this.hash == hash
      ensures forall s: byte, k: seq<byte> :: Get(s, k) == None
    {
      this.hash := hash;
      data := map[];
    }

    method Put(sub: byte, key: seq<byte>, value: seq<byte>)
      modifies this`data
      ensures data == old(data)[StoreKey(sub, key) := value]
      ensures Get(sub, key) == Some(value)
      ensures forall s: byte, k: seq<byte> :: s != sub || k != key ==> Get(s, k) == old(Get(s, k))
    {
      data := data[StoreKey(sub, key) := value];
    }

    function Get(sub: byte, key: seq<byte>): Option<seq<byte>>
      reads this
    {
      if StoreKey(sub, key) in data then Some(data[StoreKey(sub, key)]) else None
    }

    method Root() returns (r: Hash)
      ensures r == RootOf(data, hash)
    {
      var entries := data;
      IterationCovers(entries.Keys);
      var keys := Iteration(entries.Keys);
      var buf: seq<byte> := [];
      var i := 0;
      while i < |keys|
        invariant 0 <= i <= |keys|
        invariant buf + EntriesBytes(keys[i..], entries) == Preimage(entries)
      {
        EntriesStep(keys, i, entries);
        AppendedEntry(buf, keys[i], entries[keys[i]], EntriesBytes(keys[i + 1..], entries));
        buf := Appended(buf, keys[i], entries[keys[i]]);
        i := i + 1;
      }
      assert keys[i..] == [] && buf == Preimage(entries);
      r := hash(ROOT_TAG + buf);
    }
  }

  class RocksState {
    const hash: seq<byte> -> Hash
    var db: map<seq<byte>, seq<byte>>
    var cachedRoot: Option<Hash>

    /** A cached root is always the root of what is stored. */
    ghost predicate Valid()
      reads this
    {
      cachedRoot.Some? ==> cachedRoot.value == hash(ROOT_TAG + RawPreimage(db))
    }

    constructor (hash: seq<byte> -> Hash, db: map<seq<byte>, seq<byte>>)
      ensures Valid() && this.db == db && this.hash == hash
    {
      this.hash := hash;
      this.db := db;
      cachedRoot := None;
    }

    method Put(sub: byte, key: seq<byte>, value: seq<byte>)
      requires Valid()
      modifies this`db, this`cachedRoot
      ensures Valid() && db == old(db)[Tagged(StoreKey(sub, key)) := value]
      ensures Get(sub, key) == Some(value)
      ensures forall s: byte, k: seq<byte> :: s != sub || k != key ==> Get(s, k) == old(Get(s, k))
    {
      forall s: byte, k: seq<byte> | s != sub || k != key ensures Tagged(StoreKey(s, k)) != Tagged(StoreKey(sub, key)) {
        SameKey(Tagged(StoreKey(s, k)), StoreKey(sub, key));
        SameKey(Tagged(StoreKey(s, k)), StoreKey(s, k));
      }
      db := db[Tagged(StoreKey(sub, key)) := value];
      cachedRoot := None;
    }

    function Get(sub: byte, key: seq<byte>): Option<seq<byte>>
      reads this
    {
      if Tagged(StoreKey(sub, key)) in db then Some(db[Tagged(StoreKey(sub, key))]) else None
    }

    /** Cached or recomputed, the answer is the same. */
    method Root() returns (r: Hash)
      requires Valid()
      modifies this`cachedRoot
      ensures Valid() && r == hash(ROOT_TAG + RawPreimage(db)) && cachedRoot == Some(r)
    {
      if cachedRoot.Some? { return cachedRoot.value; }
      var entries := db;
      RawCovers(entries.Keys);
      var keys := Raw(entries.Keys);
      var buf: seq<byte> := [];
      var i := 0;
      while i < |keys|
        invariant 0 <= i <= |keys|
        invariant buf + RawEntries(keys[i..], entries) == RawPreimage(entries)
      {
        RawEntriesStep(keys, i, entries);
        if keys[i] != [] {
          AppendedEntry(buf, Untagged(keys[i]), entries[keys[i]], RawEntries(keys[i + 1..], entries));
          buf := Appended(buf, Untagged(keys[i]), entries[keys[i]]);
        }
        i := i + 1;
      }
      assert keys[i..] == [] && buf == RawPreimage(entries);
      r := hash(ROOT_TAG + buf);
      cachedRoot := Some(r);
    }

    /** Bulk import writes every source entry over what is already there. */
    method ImportFrom(src: MemState)
      requires Valid()
      modifies this`db, this`cachedRoot
      ensures Valid() && db == Imported(old(db), src.data)
    {
      var entries, before := src.data, db;
      IterationCovers(entries.Keys);
      var keys := Iteration(entries.Keys);
      var batch := before;
      var i := 0;
      NothingImported(before, entries);
      while i < |keys|
        invariant 0 <= i <= |keys|
        invariant batch == Imported(before, Part(entries, keys[..i]))
      {
        var k := keys[i];
        PartGrows(entries, keys, i);
        PutLays(before, Part(entries, keys[..i]), k, entries[k]);
        batch := batch[Tagged(k) := entries[k]];
        i := i + 1;
      }
      assert keys[..i] == keys;
      PartAll(entries, keys);
      db := batch;
      cachedRoot := None;
    }
  }

  // ---- The two stores agree ----

  function TagAll(keys: seq<StoreKey>): (raw: seq<seq<byte>>)
    ensures |raw| == |keys| && forall i :: 0 <= i < |keys| ==> raw[i] == Tagged(keys[i])
  {
    if keys == [] then [] else [Tagged(keys[0])] + TagAll(keys[1..])
  }

  /** Tuple order is tagged-byte order. */
  lemma TagAllAscends(keys: seq<StoreKey>, all: set<StoreKey>)
    requires StrictOrder(KeyLess, all) && Ascends(keys, all, KeyLess)
    ensures Ascends(TagAll(keys), TaggedKeys(all), LexLess)
  {
    var raw := TagAll(keys);
    forall i, j | 0 <= i < j < |raw| ensures LexLess(raw[i], raw[j]) { TagKeepsOrder(keys[i], keys[j]); }
    forall r ensures r in raw <==> r in TaggedKeys(all) {
      if r in raw {
        var i :| 0 <= i < |raw| && raw[i] == r;
        SameKey(r, keys[i]);
        assert keys[i] in keys;
      }
      if r in TaggedKeys(all) {
        assert Untagged(r) in keys;
        var i :| 0 <= i < |keys| && keys[i] == Untagged(r);
        SameKey(r, keys[i]);
        assert raw[i] == r;
      }
    }
  }

  /** Laying a map out for the persistent store does not change the commitment. */
  lemma LayoutKeepsPreimage(data: map<StoreKey, seq<byte>>)
    ensures RawPreimage(Laid(data)) == Preimage(data)
  {
    var keys, db := Iteration(data.Keys), Laid(data);
    LaidKeys(data);
    IterationCovers(data.Keys);
    RawCovers(db.Keys);
    TagAllAscends(keys, data.Keys);
    AscendsUnique(TagAll(keys), Raw(db.Keys), db.Keys, LexLess);
    EntriesAgree(keys, TagAll(keys), data, db);
  }

  lemma LaidKeys(data: map<StoreKey, seq<byte>>)
    ensures Laid(data).Keys == TaggedKeys(data.Keys)
  {
    forall raw ensures raw in Laid(data).Keys <==> raw in TaggedKeys(data.Keys) { LaidAt(data, raw); }
  }

  lemma TagKeepsOrder(a: StoreKey, b: StoreKey)
    ensures LexLess(Tagged(a), Tagged(b)) <==> KeyLess(a, b)
  {
    assert Tagged(a)[1..] == a.key && Tagged(b)[1..] == b.key;
  }

  lemma {:induction false} EntriesAgree(keys: seq<StoreKey>, raw: seq<seq<byte>>, data: map<StoreKey, seq<byte>>,
                                        db: map<seq<byte>, seq<byte>>)
    requires |keys| == |raw| && forall i :: 0 <= i < |keys| ==> raw[i] == Tagged(keys[i])
    requires (forall k :: k in keys ==> k in data) && (forall r :: r in raw ==> r in db) && db == Laid(data)
    ensures RawEntries(raw, db) == EntriesBytes(keys, data)
  {
    if keys == [] {
    } else {
      SameKey(raw[0], keys[0]);
      assert keys[0] in keys && raw[0] in raw;
      LaidAt(data, raw[0]);
      EntriesAgree(keys[1..], raw[1..], data, db);
    }
  }

  datatype PutOp = PutOp(sub: byte, key: seq<byte>, value: seq<byte>)

  function MemAfter(ops: seq<PutOp>): map<StoreKey, seq<byte>> {
    if ops == [] then map[]
    else var op := ops[|ops| - 1]; MemAfter(ops[..|ops| - 1])[StoreKey(op.sub, op.key) := op.value]
  }

  function RocksAfter(ops: seq<PutOp>): map<seq<byte>, seq<byte>> {
    if ops == [] then map[]
    else var op := ops[|ops| - 1]; RocksAfter(ops[..|ops| - 1])[Tagged(StoreKey(op.sub, op.key)) := op.value]
  }

  /** After any sequence of puts the persistent store is the in-memory one laid
      out, so every get agrees and so does the root preimage. */
  lemma {:induction false} StoresAgree(ops: seq<PutOp>)
    ensures RocksAfter(ops) == Laid(MemAfter(ops))
    ensures RawPreimage(RocksAfter(ops)) == Preimage(MemAfter(ops))
    ensures forall k: StoreKey ::
              (k in MemAfter(ops) <==> Tagged(k) in RocksAfter(ops)) &&
              (k in MemAfter(ops) ==> MemAfter(ops)[k] == RocksAfter(ops)[Tagged(k)])
  {
    if ops == [] {
    } else {
      var op := ops[|ops| - 1];
      StoresAgree(ops[..|ops| - 1]);
      PutLaid(MemAfter(ops[..|ops| - 1]), StoreKey(op.sub, op.key), op.value);
    }
    LayoutKeepsPreimage(MemAfter(ops));
    forall k: StoreKey ensures
      (k in MemAfter(ops) <==> Tagged(k) in RocksAfter(ops)) &&
      (k in MemAfter(ops) ==> MemAfter(ops)[k] == RocksAfter(ops)[Tagged(k)])
    {
      SameKey(Tagged(k), k);
      LaidAt(MemAfter(ops), Tagged(k));
    }
  }

  /** Both stores answer with the last value put under a key, and with nothing
      where none was. */
  lemma {:induction false} GetIsLastPut(m: MemState, r: RocksState, ops: seq<PutOp>, sub: byte, key: seq<byte>)
    requires m.data == MemAfter(ops) && r.db == RocksAfter(ops)
    ensures m.Get(sub, key) == r.Get(sub, key)
    ensures m.Get(sub, key) == None <==> forall op :: op in ops ==> op.sub != sub || op.key != key
    ensures forall i :: 0 <= i < |ops| && ops[i].sub == sub && ops[i].key == key
                        && (forall j :: i < j < |ops| ==> ops[j].sub != sub || ops[j].key != key)
                        ==> m.Get(sub, key) == Some(ops[i].value)
  {
    StoresAgree(ops);
    assert StoreKey(sub, key) in MemAfter(ops) <==> Tagged(StoreKey(sub, key)) in RocksAfter(ops);
    LastPutStays(ops, sub, key);
  }

  lemma {:induction false} LastPutStays(ops: seq<PutOp>, sub: byte, key: seq<byte>)
    ensures StoreKey(sub, key) !in MemAfter(ops) <==> forall op :: op in ops ==> op.sub != sub || op.key != key
    ensures forall i :: 0 <= i < |ops| && ops[i].sub == sub && ops[i].key == key
                        && (forall j :: i < j < |ops| ==> ops[j].sub != sub || ops[j].key != key)
                        ==> StoreKey(sub, key) in MemAfter(ops) && MemAfter(ops)[StoreKey(sub, key)] == ops[i].value
  {
    if ops != [] {
      var front, last := ops[..|ops| - 1], ops[|ops| - 1];
      assert ops == front + [last];
      LastPutStays(front, sub, key);
      forall i | 0 <= i < |ops| && ops[i].sub == sub && ops[i].key == key
                 && (forall j :: i < j < |ops| ==> ops[j].sub != sub || ops[j].key != key)
        ensures StoreKey(sub, key) in MemAfter(ops) && MemAfter(ops)[StoreKey(sub, key)] == ops[i].value
      {
        if i < |front| {
          assert front[i] == ops[i] && forall j :: i < j < |front| ==> front[j] == ops[j];
        }
      }
    }
  }

  // ---- The commitment identifies the state ----

  predicate LengthsFit(data: map<StoreKey, seq<byte>>) {
    forall k | k in data :: |k.key| < LENGTHS && |data[k]| < LENGTHS
  }

  lemma EntryDecodes(k: StoreKey, v: seq<byte>, x: seq<byte>, l: StoreKey, w: seq<byte>, y: seq<byte>)
    requires |k.key| < LENGTHS && |v| < LENGTHS && |l.key| < LENGTHS && |w| < LENGTHS
    requires EntryBytes(k, v) + x == EntryBytes(l, w) + y
    ensures k == l && v == w && x == y
  {
    var (a, b) := (LengthBytes(|v|) + (v + x), LengthBytes(|w|) + (w + y));
    EntryThenRest(k, v, x);
    EntryThenRest(l, w, y);
    Split([k.sub], LengthBytes(|k.key|) + (k.key + a), [l.sub], LengthBytes(|l.key|) + (l.key + b));
    assert [k.sub][0] == [l.sub][0];
    FieldThenRestEqual(k.key, a, l.key, b);
    FieldThenRestEqual(v, x, w, y);
  }

  lemma EntryThenRest(k: StoreKey, v: seq<byte>, x: seq<byte>)
    ensures EntryBytes(k, v) + x == [k.sub] + (LengthBytes(|k.key|) + (k.key + (LengthBytes(|v|) + (v + x))))
  {
    Chunks6([], [k.sub], LengthBytes(|k.key|), k.key, LengthBytes(|v|), v, x);
    assert [] + EntryBytes(k, v) == EntryBytes(k, v);
    assert [] + ([k.sub] + (LengthBytes(|k.key|) + (k.key + (LengthBytes(|v|) + (v + x)))))
      == [k.sub] + (LengthBytes(|k.key|) + (k.key + (LengthBytes(|v|) + (v + x))));
  }

  lemma {:induction false} EntriesDecode(ks: seq<StoreKey>, a: map<StoreKey, seq<byte>>, ls: seq<StoreKey>,
                                         b: map<StoreKey, seq<byte>>)
    requires (forall k :: k in ks ==> k in a) && (forall k :: k in ls ==> k in b) && LengthsFit(a) && LengthsFit(b)
    requires EntriesBytes(ks, a) == EntriesBytes(ls, b)
    ensures ks == ls && forall k :: k in ks ==> a[k] == b[k]
  {
    if ks == [] || ls == [] {
    } else {
      var k, l := ks[0], ls[0];
      assert k in ks && l in ls;
      EntryDecodes(k, a[k], EntriesBytes(ks[1..], a), l, b[l], EntriesBytes(ls[1..], b));
      EntriesDecode(ks[1..], a, ls[1..], b);
      assert ks == [k] + ks[1..] && ls == [l] + ls[1..];
    }
  }

  /** A root preimage parses back to exactly one map. */
  lemma PreimageIdentifiesState(a: map<StoreKey, seq<byte>>, b: map<StoreKey, seq<byte>>)
    requires LengthsFit(a) && LengthsFit(b)
    ensures Preimage(a) == Preimage(b) <==> a == b
  {
    IterationCovers(a.Keys);
    IterationCovers(b.Keys);
    if Preimage(a) == Preimage(b) {
      EntriesDecode(Iteration(a.Keys), a, Iteration(b.Keys), b);
      assert a.Keys == b.Keys;
    }
  }

  /** Importing a state into a store keeps its commitment exactly when every
      entry already there is overwritten; an empty store is the usual case. */
  lemma ImportKeepsRootIff(before: map<StoreKey, seq<byte>>, src: map<StoreKey, seq<byte>>)
    requires LengthsFit(before) && LengthsFit(src)
    ensures Imported(Laid(before), src) == Laid(before + src)
    ensures RawPreimage(Imported(Laid(before), src)) == Preimage(src) <==> before.Keys <= src.Keys
  {
    LaidSum(before, src);
    LayoutKeepsPreimage(before + src);
    SumLengthsFit(before, src);
    PreimageIdentifiesState(before + src, src);
    if before.Keys <= src.Keys {
      assert before + src == src;
      LayoutKeepsPreimage(src);
    } else {
      var k :| k in before.Keys && k !in src.Keys;
      assert k in before + src;
    }
  }

  lemma SumLengthsFit(a: map<StoreKey, seq<byte>>, b: map<StoreKey, seq<byte>>)
    requires LengthsFit(a) && LengthsFit(b)
    ensures LengthsFit(a + b)
  {}

  lemma LaidSum(a: map<StoreKey, seq<byte>>, b: map<StoreKey, seq<byte>>)
    ensures Laid(a) + Laid(b) == Laid(a + b)
  {
    var sum, laid := Laid(a) + Laid(b), Laid(a + b);
    forall raw ensures At(sum, raw) == At(laid, raw) {
      LaidAt(a, raw);
      LaidAt(b, raw);
      LaidAt(a + b, raw);
    }
    SameAt(sum, laid);
  }

  lemma ImportIntoEmptyKeepsRoot(src: map<StoreKey, seq<byte>>)
    ensures RawPreimage(Imported(map[], src)) == Preimage(src)
  {
    assert Imported(map[], src) == Laid(src);
    LayoutKeepsPreimage(src);
  }
}
