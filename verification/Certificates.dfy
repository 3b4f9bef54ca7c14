/** What an accepted certificate consists of, field by field
    (crates/finality/src/lib.rs), and whom a pair of conflicting aggregates
    convicts. */
module Certificates {
  import opened Machine
  import opened Order
  import opened Types
  import opened Finality

  // ---- Single votes ----

  /** The first member recorded under the voter's id, with the vote's algorithm,
      verifies the vote's signature over everything else in it. */
  ghost predicate SignedByMember(y: Crypto, members: seq<ValidatorPubkey>, v: Vote) {
    exists i :: 0 <= i < |members| && members[i].id == v.validator
      && (forall j :: 0 <= j < i ==> members[j].id != v.validator)
      && members[i].sigAlgo == v.sigAlgo
      && y.verify(v.sigAlgo, members[i].pubkey, v.sig, Payload(v.epoch, v.round, v.height, v.blockHash, v.validator))
  }

  lemma {:induction false} FindFirst(members: seq<ValidatorPubkey>, id: Hash, i: nat)
    requires i < |members| && members[i].id == id && forall j :: 0 <= j < i ==> members[j].id != id
    ensures Find(members, id) == Some(members[i])
  {
    if i > 0 {
      forall j | 0 <= j < i - 1 ensures members[1..][j].id != id { assert members[1..][j] == members[j + 1]; }
      FindFirst(members[1..], id, i - 1);
    }
  }

  lemma {:induction false} FirstFound(members: seq<ValidatorPubkey>, id: Hash) returns (i: nat)
    requires Find(members, id).Some?
    ensures i < |members| && members[i].id == id && forall j :: 0 <= j < i ==> members[j].id != id
  {
    if members[0].id == id {
      i := 0;
    } else {
      var k := FirstFound(members[1..], id);
      i := k + 1;
      forall j | 0 <= j < i ensures members[j].id != id { if j > 0 { assert members[1..][j - 1] == members[j]; } }
    }
  }

  /** A vote passes exactly when it is for the committee's epoch and its member's
      key verifies it. */
  lemma VoteCountsIff(y: Crypto, c: Committee, v: Vote)
    ensures VerifyVote(y, c, v) == None <==> v.epoch == c.epoch && SignedByMember(y, c.members, v)
  {
    if VerifyVote(y, c, v) == None {
      var i := FirstFound(c.members, v.validator);
      FindFirst(c.members, v.validator, i);
    }
    if v.epoch == c.epoch && SignedByMember(y, c.members, v) {
      var i :| 0 <= i < |c.members| && c.members[i].id == v.validator
        && (forall j :: 0 <= j < i ==> c.members[j].id != v.validator)
        && c.members[i].sigAlgo == v.sigAlgo
        && y.verify(v.sigAlgo, c.members[i].pubkey, v.sig,
                    Payload(v.epoch, v.round, v.height, v.blockHash, v.validator));
      FindFirst(c.members, v.validator, i);
    }
  }

  /** A refused vote has the defect its error names, and the first of them. */
  lemma VoteErrorsNameDefects(y: Crypto, c: Committee, v: Vote)
    requires VerifyVote(y, c, v).Some?
    ensures var e := VerifyVote(y, c, v).value;
            if v.epoch != c.epoch then e == EpochMismatch(v.epoch, c.epoch)
            else if forall i :: 0 <= i < |c.members| ==> c.members[i].id != v.validator then
              e == NotInCommittee(v.validator)
            else exists i :: 0 <= i < |c.members| && c.members[i].id == v.validator
                             && e == if c.members[i].sigAlgo != v.sigAlgo then AlgoMismatch(v.sigAlgo)
                                     else BadSignature(v.validator)
  {
    if exists i :: 0 <= i < |c.members| && c.members[i].id == v.validator {
      assert exists m :: m in c.members && m.id == v.validator;
      var i := FirstFound(c.members, v.validator);
      FindFirst(c.members, v.validator, i);
    }
  }

  /** A certificate is accepted exactly when it is for the committee's epoch, has
      a quorum of votes by different voters, and every vote is for its round,
      height and block and signed by a member. */
  lemma CertAcceptedIff(y: Crypto, c: Committee, cert: Cert)
    ensures Accepted(y, c, cert) <==>
            && cert.epoch == c.epoch && |cert.votes| >= c.quorum
            && (forall i, j :: 0 <= i < j < |cert.votes| ==> cert.votes[i].validator != cert.votes[j].validator)
            && (forall v :: v in cert.votes ==>
                 && v.epoch == cert.epoch && v.round == cert.round && v.height == cert.height
                 && v.blockHash == cert.blockHash && SignedByMember(y, c.members, v))
  {
    forall v | v in cert.votes
      ensures VerifyVote(y, c, v) == None <==> v.epoch == c.epoch && SignedByMember(y, c.members, v)
    {
      VoteCountsIff(y, c, v);
    }
  }

  // ---- Marked slots ----

  /** Bit `i` of a bitmap, lowest bit of the first byte first. */
  predicate BitSet(bitmap: seq<byte>, i: nat) { i / 8 < |bitmap| && bitmap[i / 8] / Pow(2, i % 8) % 2 == 1 }

  function Bits(bitmap: seq<byte>): nat -> bool { (i: nat) => BitSet(bitmap, i) }

  /** The marks among the first `n` slots, in ascending order. */
  ghost predicate Lists(slots: seq<nat>, marks: nat -> bool, n: nat) {
    && (forall k :: 0 <= k < |slots| ==> slots[k] < n && marks(slots[k]))
    && (forall i: nat :: i < n && marks(i) ==> i in slots)
    && (forall i, j :: 0 <= i < j < |slots| ==> slots[i] < slots[j])
  }

  lemma {:induction false} AscendingFits(slots: seq<nat>, n: nat)
    requires forall k :: 0 <= k < |slots| ==> slots[k] < n
    requires forall i, j :: 0 <= i < j < |slots| ==> slots[i] < slots[j]
    ensures |slots| <= n
  {
    if slots != [] {
      assert slots[|slots| - 1] < n;
      AscendingFits(slots[..|slots| - 1], n - 1);
    }
  }

  lemma SignerIsBitSet(bitmap: seq<byte>, i: nat)
    ensures IsSigner(bitmap, i) <==> BitSet(bitmap, i)
  {
    assert Pow(2, 0) == 1 && Pow(2, 1) == 2 && Pow(2, 2) == 4 && Pow(2, 3) == 8;
    assert Pow(2, 4) == 16 && Pow(2, 5) == 32 && Pow(2, 6) == 64 && Pow(2, 7) == 128;
  }

  lemma {:induction false} MarkedSlots(marks: nat -> bool, n: nat) returns (slots: seq<nat>)
    ensures Lists(slots, marks, n)
  {
    if n == 0 {
      slots := [];
    } else {
      var front := MarkedSlots(marks, n - 1);
      slots := front + if marks(n - 1) then [n - 1] else [];
    }
  }

  /** A list for `n` slots is one for the slots before the last, and that one. */
  lemma ListsPrefix(slots: seq<nat>, marks: nat -> bool, n: nat) returns (front: seq<nat>)
    requires n > 0 && Lists(slots, marks, n)
    ensures slots == front + if marks(n - 1) then [n - 1] else []
    ensures Lists(front, marks, n - 1)
  {
    front := slots;
    if marks(n - 1) {
      var k :| 0 <= k < |slots| && slots[k] == n - 1;
      assert slots[k] <= slots[|slots| - 1] < n;
      front := slots[..|slots| - 1];
      assert slots == front + [n - 1];
    }
  }

  lemma {:induction false} MarkedCountsSlots(slots: seq<nat>, bitmap: seq<byte>, n: nat)
    requires Lists(slots, Bits(bitmap), n)
    ensures |slots| == Marked(bitmap, 0, n)
    decreases n
  {
    if n == 0 {
      AscendingFits(slots, n);
    } else {
      var front := ListsPrefix(slots, Bits(bitmap), n);
      SignerIsBitSet(bitmap, n - 1);
      MarkedCountsSlots(front, bitmap, n - 1);
    }
  }

  function KeysAt(members: seq<ValidatorPubkey>, slots: seq<nat>): (keys: seq<seq<byte>>)
    requires forall k :: 0 <= k < |slots| ==> slots[k] < |members|
    ensures |keys| == |slots| && forall k :: 0 <= k < |keys| ==> keys[k] == members[slots[k]].pubkey
  {
    seq(|slots|, k requires 0 <= k < |slots| => members[slots[k]].pubkey)
  }

  lemma KeysAppend(members: seq<ValidatorPubkey>, front: seq<nat>, last: seq<nat>)
    requires members != [] && (forall k :: 0 <= k < |front| ==> front[k] < |members| - 1)
    requires last == [] || last == [|members| - 1]
    ensures forall k :: 0 <= k < |front + last| ==> (front + last)[k] < |members|
    ensures KeysAt(members, front + last)
         == KeysAt(members[..|members| - 1], front) + if last == [] then [] else [members[|members| - 1].pubkey]
  {}

  /** The keys that go into an aggregate are the marked members', in order. */
  lemma {:induction false} KeysAreMarked(members: seq<ValidatorPubkey>, bitmap: seq<byte>, slots: seq<nat>)
    requires Lists(slots, Bits(bitmap), |members|)
    ensures SignerKeys(members, bitmap) == KeysAt(members, slots)
  {
    if members == [] {
      AscendingFits(slots, 0);
    } else {
      var n := |members| - 1;
      var front := ListsPrefix(slots, Bits(bitmap), n + 1);
      SignerIsBitSet(bitmap, n);
      KeysAreMarked(members[..n], bitmap, front);
      KeysAppend(members, front, if BitSet(bitmap, n) then [n] else []);
    }
  }

  // ---- Aggregates ----

  /** The key aggregated from the members in `slots` verifies the aggregate's
      signature on its epoch, round, height and block. */
  ghost predicate SignedTogether(y: Crypto, members: seq<ValidatorPubkey>, slots: seq<nat>, cert: AggregatedCert)
    requires forall k :: 0 <= k < |slots| ==> slots[k] < |members|
  {
    var key := y.aggregate(KeysAt(members, slots));
    key.Some? && y.verifyAggregate(key.value, cert.aggSig,
                                   SharedPayload(cert.epoch, cert.round, cert.height, cert.blockHash))
  }

  /** An aggregate is accepted exactly when it is for the committee's epoch, its
      bitmap has a quorum of bits set, it and every marked member use the one
      algorithm that aggregates, and the marked members signed its block. */
  lemma AggregateAcceptedIff(y: Crypto, c: Committee, cert: AggregatedCert, slots: seq<nat>, bits: seq<nat>)
    requires Lists(slots, Bits(cert.bitmap), |c.members|) && Lists(bits, Bits(cert.bitmap), 8 * |cert.bitmap|)
    ensures AggregateAccepted(y, c, cert) <==>
            && cert.epoch == c.epoch && |bits| >= c.quorum && cert.aggSigAlgo == 5
            && slots != [] && (forall k :: 0 <= k < |slots| ==> c.members[slots[k]].sigAlgo == 5)
            && SignedTogether(y, c.members, slots, cert)
  {
    SignerCountIsMarked(cert.bitmap);
    MarkedCountsSlots(bits, cert.bitmap, 8 * |cert.bitmap|);
    KeysAreMarked(c.members, cert.bitmap, slots);
    AggregatableSlots(c.members, cert.bitmap, slots);
  }

  lemma AggregatableSlots(members: seq<ValidatorPubkey>, bitmap: seq<byte>, slots: seq<nat>)
    requires Lists(slots, Bits(bitmap), |members|)
    ensures AllAggregatable(members, bitmap) <==> forall k :: 0 <= k < |slots| ==> members[slots[k]].sigAlgo == 5
  {
    forall i: nat | i < |members| ensures IsSigner(bitmap, i) <==> Bits(bitmap)(i) { SignerIsBitSet(bitmap, i); }
    MarkedAll(members, slots, Bits(bitmap), (i: nat) => IsSigner(bitmap, i));
  }

  lemma MarkedAll(members: seq<ValidatorPubkey>, slots: seq<nat>, marks: nat -> bool, signs: nat -> bool)
    requires Lists(slots, marks, |members|) && forall i: nat :: i < |members| ==> (signs(i) <==> marks(i))
    ensures (forall i: nat :: i < |members| && signs(i) ==> members[i].sigAlgo == 5)
       <==> (forall k :: 0 <= k < |slots| ==> members[slots[k]].sigAlgo == 5)
  {}

  lemma ListsClear(slots: seq<nat>, marks: nat -> bool, m: nat, n: nat)
    requires Lists(slots, marks, m) && forall i: nat :: i >= Min(m, n) ==> !marks(i)
    ensures Lists(slots, marks, n)
  {}

  function AsSet(slots: seq<nat>): set<nat> { set i | i in slots }

  lemma {:induction false} SlotSet(slots: seq<nat>)
    requires forall i, j :: 0 <= i < j < |slots| ==> slots[i] < slots[j]
    ensures |AsSet(slots)| == |slots|
  {
    if slots != [] {
      var front, last := slots[..|slots| - 1], slots[|slots| - 1];
      SlotSet(front);
      assert slots == front + [last];
      assert AsSet(slots) == AsSet(front) + {last} && last !in AsSet(front);
    }
  }

  /** Two aggregates accepted for one round and different blocks, with no bits set
      past the committee, were signed together by two sets of members that share at
      least 2·quorum − n. */
  lemma ConflictingAggregatesShareSigners(y: Crypto, c: Committee, a: AggregatedCert, b: AggregatedCert)
      returns (s: seq<nat>, t: seq<nat>)
    requires AggregateAccepted(y, c, a) && AggregateAccepted(y, c, b)
    requires a.round == b.round && (a.height != b.height || a.blockHash != b.blockHash)
    requires forall i: nat :: i >= |c.members| ==> !BitSet(a.bitmap, i) && !BitSet(b.bitmap, i)
    ensures Lists(s, Bits(a.bitmap), |c.members|) && Lists(t, Bits(b.bitmap), |c.members|)
    ensures SignedTogether(y, c.members, s, a) && SignedTogether(y, c.members, t, b) && a.epoch == b.epoch
    ensures |AsSet(s) * AsSet(t)| >= 2 * c.quorum - |c.members|
  {
    s := SignersOf(y, c, a);
    t := SignersOf(y, c, b);
    SlotSet(s);
    SlotSet(t);
    UpToSize(|c.members|);
    Overlap(AsSet(s), AsSet(t), UpTo(|c.members|));
  }

  function UpTo(n: nat): set<nat> { if n == 0 then {} else UpTo(n - 1) + {n - 1} }

  lemma {:induction false} UpToSize(n: nat)
    ensures |UpTo(n)| == n && forall i: nat :: i in UpTo(n) <==> i < n
  {
    if n > 0 { UpToSize(n - 1); }
  }

  /** With no bits past the committee, an accepted aggregate was signed together by
      at least a quorum of members. */
  lemma SignersOf(y: Crypto, c: Committee, cert: AggregatedCert) returns (slots: seq<nat>)
    requires AggregateAccepted(y, c, cert) && forall i: nat :: i >= |c.members| ==> !BitSet(cert.bitmap, i)
    ensures Lists(slots, Bits(cert.bitmap), |c.members|) && |slots| >= c.quorum
    ensures SignedTogether(y, c.members, slots, cert)
  {
    slots := MarkedSlots(Bits(cert.bitmap), |c.members|);
    var bits := MarkedSlots(Bits(cert.bitmap), 8 * |cert.bitmap|);
    AggregateAcceptedIff(y, c, cert, slots, bits);
    forall i: nat | i >= Min(8 * |cert.bitmap|, |c.members|) ensures !Bits(cert.bitmap)(i) {
      assert i >= 8 * |cert.bitmap| ==> !BitSet(cert.bitmap, i);
    }
    ListsClear(bits, Bits(cert.bitmap), 8 * |cert.bitmap|, |c.members|);
    MarkedCountsSlots(bits, cert.bitmap, |c.members|);
    MarkedCountsSlots(slots, cert.bitmap, |c.members|);
  }
}
