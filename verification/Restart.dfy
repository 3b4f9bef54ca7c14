/** What a restart rebuilds (crates/node/src/main.rs replaying the log that
    crates/node/src/rpc.rs wrote): the live state, unless some rejected block
    has failed late, and then never again. */
module Restart {
  import opened Machine
  import opened Types
  import opened State
  import opened Node
  import opened Supply
  import L = Ledger
  import E = Emission
  import F = Atomicity
  import R = Replay

  lemma AttemptAgreesIff(o: Rules, env: L.Env, cfg: Config, start: Db, live: Live, block: Block, now: u64)
    requires Real(o, env, cfg) && E.Affordable(cfg.emission) && Backed(cfg, live)
    requires WellFormed(o, cfg, live.log) && Agrees(o, cfg, start, live) && |live.log| <= U64_MAX
    ensures var (after, reject) := Try(o, cfg, live, block, now);
            && WellFormed(o, cfg, after.log)
            && after.log == (if reject.None? then live.log + [block] else live.log)
            && (reject.Some? ==> after.books.totals == live.books.totals)
            && (!FailsLateAt(o, env, cfg, live, block, now) ==> Agrees(o, cfg, start, after))
            && (R.NoncesBelowMax(block) ==>
               (Agrees(o, cfg, start, after) <==> !FailsLateAt(o, env, cfg, live, block, now)))
  {
    TryKeepsAgreement(o, cfg, start, live, block, now);
    if FailsLateAt(o, env, cfg, live, block, now) {
      if R.NoncesBelowMax(block) { LateFailureRaises(o, env, cfg, live, block, now); }
    } else {
      OtherAttemptsAreAtomic(o, env, cfg, live, block, now);
    }
  }

  lemma LateFailureRaises(o: Rules, env: L.Env, cfg: Config, live: Live, block: Block, now: u64)
    requires Real(o, env, cfg) && FailsLateAt(o, env, cfg, live, block, now) && R.NoncesBelowMax(block)
    ensures var (after, reject) := Try(o, cfg, live, block, now);
            && reject.Some? && after.log == live.log && block.txs != []
            && R.NonceOf(live.books.db, block.txs[0].sender) < R.NonceOf(after.books.db, block.txs[0].sender)
  {
    var reward := RewardFor(o, live.books, block.header, RewardParentTime(cfg, Tip(live.log)));
    F.LateFailuresWrite(env, live.books.db, block, reward);
    assert o.ledger(live.books.db, L.Paid(block, reward)) == L.Apply(env, live.books.db, block, reward);
  }

  // ---- Divergence ----

  /** The log no longer replays, or replays to some smaller nonce. */
  ghost predicate Diverged(o: Rules, cfg: Config, start: Db, live: Live) {
    match Replay(o, cfg, start, live.log)
    case Err(_) => true
    case Ok(books) => exists id: AccountId :: R.NonceOf(books.db, id) < R.NonceOf(live.books.db, id)
  }

  /** A block accepted on two stores keeps their nonces apart: it cannot carry a
      transaction of an account on which they differ. */
  lemma AcceptedKeepsNoncesApart(env: L.Env, a: Db, b: Db, block: Block, ra: u128, rb: u128, id: AccountId)
    requires R.NoncesBelowMax(block) && R.NonceOf(a, id) < R.NonceOf(b, id)
    requires L.Apply(env, a, block, ra).outcome.Ok? && L.Apply(env, b, block, rb).outcome.Ok?
    ensures R.NonceOf(L.Apply(env, a, block, ra).db, id) < R.NonceOf(L.Apply(env, b, block, rb).db, id)
  {
    R.AcceptedBlockNonces(env, a, block, ra, id);
    R.AcceptedBlockNonces(env, b, block, rb, id);
  }

  /** Extending two books by one block keeps their nonces apart, or fails. */
  lemma ExtendKeepsApart(o: Rules, env: L.Env, cfg: Config, a: Books, b: Books, block: Block, ta: u64, tb: u64,
                         id: AccountId)
    requires Real(o, env, cfg) && R.NoncesBelowMax(block) && R.NonceOf(a.db, id) < R.NonceOf(b.db, id)
    requires Extend(o, a, block, ta).1.None? && Extend(o, b, block, tb).1.None?
    ensures R.NonceOf(Extend(o, a, block, ta).0.db, id) < R.NonceOf(Extend(o, b, block, tb).0.db, id)
  {
    var ra, rb := RewardFor(o, a, block.header, ta), RewardFor(o, b, block.header, tb);
    assert o.ledger(a.db, L.Paid(block, ra)) == L.Apply(env, a.db, block, ra);
    assert o.ledger(b.db, L.Paid(block, rb)) == L.Apply(env, b.db, block, rb);
    AcceptedKeepsNoncesApart(env, a.db, b.db, block, ra, rb, id);
  }

  lemma RejectedKeepsNonces(o: Rules, env: L.Env, cfg: Config, live: Live, block: Block, now: u64, id: AccountId)
    requires Real(o, env, cfg) && Try(o, cfg, live, block, now).1.Some?
    ensures var after := Try(o, cfg, live, block, now).0;
            after.log == live.log && R.NonceOf(live.books.db, id) <= R.NonceOf(after.books.db, id)
  {
    var reward := RewardFor(o, live.books, block.header, RewardParentTime(cfg, Tip(live.log)));
    R.BlockRaisesNonces(env, live.books.db, block, reward);
    assert o.ledger(live.books.db, L.Paid(block, reward)) == L.Apply(env, live.books.db, block, reward);
  }

  lemma AcceptedStaysDiverged(o: Rules, env: L.Env, cfg: Config, start: Db, live: Live, block: Block, now: u64)
    requires Real(o, env, cfg) && WellFormed(o, cfg, live.log) && |live.log| <= U64_MAX && R.NoncesBelowMax(block)
    requires Diverged(o, cfg, start, live) && Try(o, cfg, live, block, now).1.None?
    ensures Diverged(o, cfg, start, Try(o, cfg, live, block, now).0)
  {
    var n, all := |live.log|, live.log + [block];
    ReplayIsLocal(o, cfg, start, live.log, [block], n);
    assert all[n] == block && Try(o, cfg, live, block, now).0.log == all;
    if Replay(o, cfg, start, live.log).Ok? && Replay(o, cfg, start, all).Ok? {
      var books := Replay(o, cfg, start, live.log).value;
      var id: AccountId :| R.NonceOf(books.db, id) < R.NonceOf(live.books.db, id);
      ExtendKeepsApart(o, env, cfg, books, live.books, block, ReplayParentTime(cfg, all, block.header.height),
                       RewardParentTime(cfg, Tip(live.log)), id);
      assert R.NonceOf(Replay(o, cfg, start, all).value.db, id)
        < R.NonceOf(Try(o, cfg, live, block, now).0.books.db, id);
    }
  }

  /** Once diverged, no block brings the log back into agreement. */
  lemma DivergenceLasts(o: Rules, env: L.Env, cfg: Config, start: Db, live: Live, block: Block, now: u64)
    requires Real(o, env, cfg) && WellFormed(o, cfg, live.log) && |live.log| <= U64_MAX && R.NoncesBelowMax(block)
    requires Diverged(o, cfg, start, live)
    ensures Diverged(o, cfg, start, Try(o, cfg, live, block, now).0)
  {
    if Try(o, cfg, live, block, now).1.None? {
      AcceptedStaysDiverged(o, env, cfg, start, live, block, now);
    } else if Replay(o, cfg, start, live.log).Ok? {
      var books := Replay(o, cfg, start, live.log).value;
      var id: AccountId :| R.NonceOf(books.db, id) < R.NonceOf(live.books.db, id);
      RejectedKeepsNonces(o, env, cfg, live, block, now, id);
      assert R.NonceOf(books.db, id) < R.NonceOf(Try(o, cfg, live, block, now).0.books.db, id);
    }
  }

  // ---- Runs ----

  lemma TryKeepsForm(o: Rules, cfg: Config, live: Live, block: Block, now: u64)
    requires WellFormed(o, cfg, live.log) && |live.log| <= U64_MAX
    ensures WellFormed(o, cfg, Try(o, cfg, live, block, now).0.log)
    ensures |Try(o, cfg, live, block, now).0.log| <= |live.log| + 1
  {
    if CheckHeader(o, cfg, Tip(live.log), block, now).None? { AppendKeepsForm(o, cfg, live.log, block, now); }
  }

  lemma {:induction false} RunKeepsForm(o: Rules, cfg: Config, live: Live, attempts: seq<Attempt>)
    requires WellFormed(o, cfg, live.log) && |live.log| + |attempts| <= U64_MAX
    ensures WellFormed(o, cfg, RunOf(o, cfg, live, attempts).log)
    ensures |RunOf(o, cfg, live, attempts).log| <= |live.log| + |attempts|
  {
    if attempts != [] {
      var front, last := attempts[..|attempts| - 1], attempts[|attempts| - 1];
      RunKeepsForm(o, cfg, live, front);
      TryKeepsForm(o, cfg, RunOf(o, cfg, live, front), last.block, last.now);
    }
  }

  lemma {:induction false} CleanRunsAgree(o: Rules, env: L.Env, cfg: Config, start: Db, live: Live,
                                          attempts: seq<Attempt>)
    requires Real(o, env, cfg) && E.Affordable(cfg.emission) && Backed(cfg, live)
    requires WellFormed(o, cfg, live.log) && Agrees(o, cfg, start, live) && |live.log| + |attempts| <= U64_MAX
    requires forall a :: a in attempts ==> |a.block.txs| <= U64_MAX
    requires Clean(o, env, cfg, live, attempts)
    ensures Agrees(o, cfg, start, RunOf(o, cfg, live, attempts))
  {
    if attempts != [] {
      var front, last := attempts[..|attempts| - 1], attempts[|attempts| - 1];
      CleanRunsAgree(o, env, cfg, start, live, front);
      RunKeepsForm(o, cfg, live, front);
      SupplyIsBacked(o, env, cfg, live, front);
      AttemptAgreesIff(o, env, cfg, start, RunOf(o, cfg, live, front), last.block, last.now);
    }
  }

  lemma {:induction false} OtherRunsDiverge(o: Rules, env: L.Env, cfg: Config, start: Db, live: Live,
                                            attempts: seq<Attempt>)
    requires Real(o, env, cfg) && E.Affordable(cfg.emission) && Backed(cfg, live)
    requires WellFormed(o, cfg, live.log) && Agrees(o, cfg, start, live) && |live.log| + |attempts| <= U64_MAX
    requires forall a :: a in attempts ==> |a.block.txs| <= U64_MAX && R.NoncesBelowMax(a.block)
    requires !Clean(o, env, cfg, live, attempts)
    ensures Diverged(o, cfg, start, RunOf(o, cfg, live, attempts))
  {
    var front, last := attempts[..|attempts| - 1], attempts[|attempts| - 1];
    assert last in attempts;
    var before := RunOf(o, cfg, live, front);
    RunKeepsForm(o, cfg, live, front);
    if Clean(o, env, cfg, live, front) {
      CleanRunsAgree(o, env, cfg, start, live, front);
      LateFailureRaises(o, env, cfg, before, last.block, last.now);
    } else {
      OtherRunsDiverge(o, env, cfg, start, live, front);
      DivergenceLasts(o, env, cfg, start, before, last.block, last.now);
    }
  }

  /** A restarted node: what its log replays to, from a start without coins. */
  ghost predicate Restarted(o: Rules, cfg: Config, start: Db, live: Live) {
    && Total(start) == 0 && WellFormed(o, cfg, live.log) && Agrees(o, cfg, start, live)
    && forall b :: b in live.log ==> |b.txs| <= U64_MAX
  }

  /** One attempt on a restarted node. Which way it goes is
      decided by the headers and the store before the attempt. */
  lemma RestartAgreement(o: Rules, env: L.Env, cfg: Config, start: Db, live: Live, block: Block, now: u64)
    requires Real(o, env, cfg) && E.Affordable(cfg.emission) && Restarted(o, cfg, start, live) && |live.log| <= U64_MAX
    ensures var (after, reject) := Try(o, cfg, live, block, now);
            && WellFormed(o, cfg, after.log)
            && after.log == (if reject.None? then live.log + [block] else live.log)
            && (reject.Some? ==> after.books.totals == live.books.totals)
            && (!FailsLateAt(o, env, cfg, live, block, now) ==> Agrees(o, cfg, start, after))
            && (R.NoncesBelowMax(block) ==>
               (Agrees(o, cfg, start, after) <==> !FailsLateAt(o, env, cfg, live, block, now)))
  {
    AgreeingIsBacked(o, env, cfg, start, live);
    AttemptAgreesIff(o, env, cfg, start, live, block, now);
  }

  /** After any run of accepted and rejected blocks of which none failed late, a
      restart rebuilds exactly the live ledger, minted total and last reward. */
  lemma CleanRunsRestart(o: Rules, env: L.Env, cfg: Config, start: Db, live: Live, attempts: seq<Attempt>)
    requires Real(o, env, cfg) && E.Affordable(cfg.emission) && Restarted(o, cfg, start, live)
    requires |live.log| + |attempts| <= U64_MAX && forall a :: a in attempts ==> |a.block.txs| <= U64_MAX
    requires Clean(o, env, cfg, live, attempts)
    ensures Agrees(o, cfg, start, RunOf(o, cfg, live, attempts))
  {
    AgreeingIsBacked(o, env, cfg, start, live);
    CleanRunsAgree(o, env, cfg, start, live, attempts);
  }

  /** Restart agreement, exactly: over any run of accepted and rejected blocks
      with nonces below the limit, a restart rebuilds the live state if and only
      if no block failed late. One that did is never made good. */
  lemma RestartAfterRun(o: Rules, env: L.Env, cfg: Config, start: Db, live: Live, attempts: seq<Attempt>)
    requires Real(o, env, cfg) && E.Affordable(cfg.emission) && Restarted(o, cfg, start, live)
    requires |live.log| + |attempts| <= U64_MAX
    requires forall a :: a in attempts ==> |a.block.txs| <= U64_MAX && R.NoncesBelowMax(a.block)
    ensures Agrees(o, cfg, start, RunOf(o, cfg, live, attempts)) <==> Clean(o, env, cfg, live, attempts)
  {
    AgreeingIsBacked(o, env, cfg, start, live);
    if Clean(o, env, cfg, live, attempts) {
      CleanRunsAgree(o, env, cfg, start, live, attempts);
    } else {
      OtherRunsDiverge(o, env, cfg, start, live, attempts);
    }
  }
}
