/** Calendar emission (crates/consensus/src/emission.rs) and what it adds up to
    over a whole run of blocks. */
module Emission {
  import opened Machine

  datatype Params = Params(
    initialReward: u128,
    secondsPerHalving: u64,
    targetBlockMs: u64,
    supplyCap: u128,
    slewPercent: u32,
    bootstrapHeight: u64,
    bootstrapPercent: u32)
  {
    function HalvingMs(): nat { secondsPerHalving * 1000 }

    function BlocksPerHalving(): nat
      requires targetBlockMs > 0
    {
      HalvingMs() / targetBlockMs
    }

    predicate Degenerate() { secondsPerHalving == 0 || targetBlockMs == 0 }
  }

  /** The defaults: 50 coins per block, four-year halvings, 21 million coins. */
  const BITCOIN_LIKE: Params :=
    Params(5_000_000_000, 126_000_000, 600_000, 2_100_000_000_000_000, 25, 2016, 50)

  function Halved(reward: nat, n: nat): nat { if n == 0 then reward else Halved(reward, n - 1) / 2 }

  /** Whole epochs paid out in full, without saturation. */
  function EpochsTotal(reward: nat, blocks: nat, n: nat): nat {
    if n == 0 then 0
    else
      MulNonNegative(Halved(reward, n - 1), blocks);
      EpochsTotal(reward, blocks, n - 1) + Halved(reward, n - 1) * blocks
  }

  /** Blocks that fit in the first `e` milliseconds of an epoch of `h`. */
  function PartialBlocks(e: nat, blocks: nat, h: nat): (n: nat)
    requires h > 0
  {
    DivLower(0, SatMul(e, blocks), h);
    SatMul(e, blocks) / h
  }

  /** The calendar's cumulative supply before it is capped: whole epochs at
      halving rewards, plus the blocks that fit in the running epoch. */
  function Uncapped(r0: nat, blocks: nat, h: nat, epoch: nat, e: nat): nat
    requires h > 0
  {
    MulNonNegative(Halved(r0, epoch), PartialBlocks(e, blocks, h));
    EpochsTotal(r0, blocks, epoch) + Halved(r0, epoch) * PartialBlocks(e, blocks, h)
  }

  /** Scheduled supply `t` milliseconds after genesis. */
  function Scheduled(t: u64, p: Params): u128 {
    if t == 0 || p.Degenerate() then 0
    else
      var h := p.HalvingMs();
      Position(t, h);
      if t / h >= 64 then p.supplyCap
      else Min(Uncapped(p.initialReward, p.BlocksPerHalving(), h, t / h, t % h), p.supplyCap)
  }

  lemma Position(t: nat, h: int)
    requires h > 0
    ensures 0 <= t / h && 0 <= t % h < h && t == h * (t / h) + t % h
  {
    DivLower(0, t, h);
  }

  /** `scheduled_supply_at`, with its saturating 128-bit accumulation. */
  method ScheduledSupplyAt(t: u64, p: Params) returns (s: u128)
    ensures s == Scheduled(t, p)
  {
    if t == 0 { return 0; }
    if p.HalvingMs() == 0 || p.targetBlockMs == 0 { return 0; }
    var h, blocks := p.HalvingMs(), p.BlocksPerHalving();
    Position(t, h);
    var epoch := t / h;
    if epoch >= 64 { return p.supplyCap; }
    var cumulative: u128 := 0;
    var reward: u128 := p.initialReward;
    var i := 0;
    while i < epoch
      invariant 0 <= i <= epoch
      invariant reward == Halved(p.initialReward, i)
      invariant cumulative == Min(EpochsTotal(p.initialReward, blocks, i), U128_MAX)
    {
      MulNonNegative(reward, blocks);
      cumulative := SatAdd(cumulative, SatMul(reward, blocks));
      reward := reward / 2;
      i := i + 1;
    }
    var elapsed := t - epoch * h;
    var partial := PartialBlocks(elapsed, blocks, h);
    cumulative := SatAdd(cumulative, SatMul(reward, partial));
    s := Min(cumulative, p.supplyCap);
  }

  // ---- The schedule ----

  lemma {:induction false} HalvedShrinks(reward: nat, n: nat)
    ensures Halved(reward, n) <= reward
  {
    if n > 0 { HalvedShrinks(reward, n - 1); }
  }

  lemma PartialFits(e: nat, blocks: nat, h: nat)
    requires e < h
    ensures PartialBlocks(e, blocks, h) <= blocks
    ensures PartialBlocks(e, blocks, h) * h <= e * blocks
  {
    var full := SatMul(e, blocks);
    var n := full / h;
    DivLower(n, full, h);
    MulMonotone(e, h, blocks);
    if n > blocks { ProductMonotone(h, h, blocks + 1, n); assert h * (blocks + 1) == h * blocks + h; }
  }

  lemma PartialMonotone(e: nat, e': nat, blocks: nat, h: nat)
    requires h > 0 && e <= e'
    ensures PartialBlocks(e, blocks, h) <= PartialBlocks(e', blocks, h)
  {
    MulMonotone(e, e', blocks);
    DivMonotone(SatMul(e, blocks), SatMul(e', blocks), h);
  }

  /** `Uncapped` stays between the epoch boundaries around it. */
  lemma UncappedWithinEpoch(r0: nat, blocks: nat, h: nat, epoch: nat, e: nat)
    requires e < h
    ensures EpochsTotal(r0, blocks, epoch) <= Uncapped(r0, blocks, h, epoch, e) <= EpochsTotal(r0, blocks, epoch + 1)
  {
    PartialFits(e, blocks, h);
    MulMonotone(PartialBlocks(e, blocks, h), blocks, Halved(r0, epoch));
  }

  lemma {:induction false} EpochsTotalMonotone(reward: nat, blocks: nat, m: nat, n: nat)
    requires m <= n
    ensures EpochsTotal(reward, blocks, m) <= EpochsTotal(reward, blocks, n)
    decreases n
  {
    if m < n {
      EpochsTotalMonotone(reward, blocks, m, n - 1);
      MulNonNegative(Halved(reward, n - 1), blocks);
    }
  }

  lemma UncappedMonotone(r0: nat, blocks: nat, h: nat, epoch: nat, e: nat, epoch': nat, e': nat)
    requires e < h && e' < h
    requires epoch < epoch' || (epoch == epoch' && e <= e')
    ensures Uncapped(r0, blocks, h, epoch, e) <= Uncapped(r0, blocks, h, epoch', e')
  {
    if epoch == epoch' {
      PartialMonotone(e, e', blocks, h);
      MulMonotone(PartialBlocks(e, blocks, h), PartialBlocks(e', blocks, h), Halved(r0, epoch));
    } else {
      UncappedWithinEpoch(r0, blocks, h, epoch, e);
      EpochsTotalMonotone(r0, blocks, epoch + 1, epoch');
      UncappedWithinEpoch(r0, blocks, h, epoch', e');
    }
  }

  /** The schedule never falls, for any parameters, across epoch boundaries
      and across the jump to the cap at epoch 64. */
  lemma ScheduleMonotone(t: u64, t': u64, p: Params)
    requires t <= t'
    ensures Scheduled(t, p) <= Scheduled(t', p) <= p.supplyCap
  {
    if t > 0 && !p.Degenerate() {
      var h := p.HalvingMs();
      Position(t, h);
      Position(t', h);
      DivMonotone(t, t', h);
      if t / h == t' / h { assert t % h <= t' % h; }
      UncappedMonotone(p.initialReward, p.BlocksPerHalving(), h, t / h, t % h, t' / h, t' % h);
    }
  }

  lemma {:induction false} EpochsTotalAtFullRate(reward: nat, blocks: nat, n: nat)
    ensures EpochsTotal(reward, blocks, n) <= reward * blocks * n
  {
    if n > 0 {
      EpochsTotalAtFullRate(reward, blocks, n - 1);
      HalvedShrinks(reward, n - 1);
      MulMonotone(Halved(reward, n - 1), reward, blocks);
      SplitProduct(reward * blocks, n - 1, 1);
    }
  }

  lemma {:induction false} EpochsTotalGeometric(reward: nat, blocks: nat, n: nat)
    ensures EpochsTotal(reward, blocks, n) + 2 * Halved(reward, n) * blocks <= 2 * reward * blocks
  {
    if n > 0 {
      EpochsTotalGeometric(reward, blocks, n - 1);
      MulMonotone(2 * Halved(reward, n), Halved(reward, n - 1), blocks);
      MulAssociative(2, Halved(reward, n - 1), blocks);
    }
  }

  /** Before epoch 64 the schedule pays at most the initial reward per target
      interval elapsed. */
  lemma ScheduleBelowFullRate(t: u64, p: Params)
    requires !p.Degenerate() && t / p.HalvingMs() < 64
    ensures Scheduled(t, p) * p.targetBlockMs <= p.initialReward * t
  {
    var h, blocks, r0, target := p.HalvingMs(), p.BlocksPerHalving(), p.initialReward, p.targetBlockMs;
    Position(t, h);
    DivLower(blocks, h, target);
    var count := blocks * (t / h) + PartialBlocks(t % h, blocks, h);
    UncappedAtFullRate(r0, blocks, h, t / h, t % h, count);
    BlocksFitInTime(blocks, h, target, t / h, t % h, count, t);
    MulMonotone(Scheduled(t, p), r0 * count, target);
    MulAssociative(r0, count, target);
    MulMonotone(count * target, t, r0);
  }

  lemma SplitProduct(a: nat, b: nat, c: nat)
    ensures a * (b + c) == a * b + a * c
  {}

  lemma UncappedAtFullRate(r0: nat, blocks: nat, h: nat, epoch: nat, e: nat, count: nat)
    requires h > 0 && count == blocks * epoch + PartialBlocks(e, blocks, h)
    ensures Uncapped(r0, blocks, h, epoch, e) <= r0 * count
  {
    var partial := PartialBlocks(e, blocks, h);
    EpochsTotalAtFullRate(r0, blocks, epoch);
    HalvedShrinks(r0, epoch);
    MulMonotone(Halved(r0, epoch), r0, partial);
    SplitProduct(r0, blocks * epoch, partial);
    MulAssociative(r0, blocks, epoch);
  }

  lemma BlocksFitInTime(blocks: nat, h: nat, target: nat, epoch: nat, e: nat, count: nat, t: nat)
    requires e < h && blocks * target <= h && t == h * epoch + e
    requires count == blocks * epoch + PartialBlocks(e, blocks, h)
    ensures count * target <= t
  {
    var partial := PartialBlocks(e, blocks, h);
    PartialFits(e, blocks, h);
    PartialInTime(partial, blocks, h, target, e);
    MulMonotone(blocks * target, h, epoch);
    assert count * target == (blocks * epoch) * target + partial * target;
    MulAssociative(blocks, target, epoch);
    MulAssociative(blocks, epoch, target);
  }

  lemma PartialInTime(partial: nat, blocks: nat, h: nat, target: nat, e: nat)
    requires h > 0 && partial * h <= e * blocks && blocks * target <= h
    ensures partial * target <= e
  {
    MulMonotone(partial * h, e * blocks, target);
    MulMonotone(blocks * target, h, e);
    MulAssociative(e, blocks, target);
    MulAssociative(partial, h, target);
    if partial * target > e {
      ProductMonotone(e, partial * target, h, h);
    }
  }

  /** When the cap is at least twice the first epoch, it never binds before
      epoch 64: the schedule is the exact, unsaturated sum. */
  lemma CapNeverBinds(t: u64, p: Params)
    requires 0 < t && !p.Degenerate() && t / p.HalvingMs() < 64
    requires 2 * p.initialReward * p.BlocksPerHalving() <= p.supplyCap
    ensures 0 <= t / p.HalvingMs() && 0 <= t % p.HalvingMs()
    ensures Scheduled(t, p) == Uncapped(p.initialReward, p.BlocksPerHalving(), p.HalvingMs(), t / p.HalvingMs(),
            t % p.HalvingMs())
  {
    var h := p.HalvingMs();
    Position(t, h);
    var r0, blocks, epoch := p.initialReward, p.BlocksPerHalving(), t / h;
    UncappedWithinEpoch(r0, blocks, h, epoch, t % h);
    EpochsTotalGeometric(r0, blocks, epoch + 1);
    MulNonNegative(2 * Halved(r0, epoch + 1), blocks);
  }

  /** Where the calendar stands `e` milliseconds into epoch `n`: it has paid `k`
      of that epoch's rewards on top of the full epochs before it exactly while
      the elapsed share of the epoch lies between `k` and `k + 1` blocks. */
  lemma SchedulePaysWholeBlocks(t: u64, p: Params, n: nat, e: nat, k: nat)
    requires !p.Degenerate() && t == p.HalvingMs() * n + e && e < p.HalvingMs() && n < 64
    requires k * p.HalvingMs() <= SatMul(e, p.BlocksPerHalving()) < (k + 1) * p.HalvingMs()
    ensures Scheduled(t, p)
         == Min(EpochsTotal(p.initialReward, p.BlocksPerHalving(), n) + Halved(p.initialReward, n) * k, p.supplyCap)
  {
    var h, blocks := p.HalvingMs(), p.BlocksPerHalving();
    MulNonNegative(h, n);
    DivUnique(t, h, n, e);
    QuotientBetween(SatMul(e, blocks), h, k);
    if t == 0 {
      NothingYet(h, n, k, p.initialReward, blocks);
    } else {
      assert Uncapped(p.initialReward, blocks, h, t / h, t % h)
        == EpochsTotal(p.initialReward, blocks, n) + Halved(p.initialReward, n) * k;
    }
  }

  lemma QuotientBetween(a: nat, h: int, k: nat)
    requires h > 0 && k * h <= a < (k + 1) * h
    ensures a / h == k
  {
    DivLower(k, a, h);
    DivLower(k + 1, a, h);
  }

  lemma NothingYet(h: nat, n: nat, k: nat, r0: nat, blocks: nat)
    requires h > 0 && h * n == 0 && k == 0
    ensures EpochsTotal(r0, blocks, n) + Halved(r0, n) * k == 0
  {
    if n > 0 { ProductMonotone(1, h, 1, n); }
  }

  /** Where the target interval divides the halving period, that is once per
      target interval. */
  lemma ScheduleKeepsTime(t: u64, p: Params, n: nat, k: nat)
    requires !p.Degenerate() && p.HalvingMs() == p.BlocksPerHalving() * p.targetBlockMs
             && p.BlocksPerHalving() <= U64_MAX
    requires t == p.HalvingMs() * n + k * p.targetBlockMs && n < 64 && k < p.BlocksPerHalving()
    ensures Scheduled(t, p)
         == Min(EpochsTotal(p.initialReward, p.BlocksPerHalving(), n) + Halved(p.initialReward, n) * k, p.supplyCap)
  {
    var h, blocks, target := p.HalvingMs(), p.BlocksPerHalving(), p.targetBlockMs;
    MulNonNegative(h, n);
    MulNonNegative(k, target);
    ProductMonotone(k, blocks, target, target);
    ProductMonotone(k * target, U64_MAX, blocks, U64_MAX);
    MulAssociative(k, target, blocks);
    assert SatMul(k * target, blocks) == k * h && (k + 1) * h == k * h + h;
    SchedulePaysWholeBlocks(t, p, n, k * target, k);
  }

  // ---- One block's reward ----

  function EpochReward(t: u64, p: Params): nat {
    var epoch := t / Max(p.HalvingMs(), 1);
    Position(t, Max(p.HalvingMs(), 1));
    if epoch >= 64 then 0 else Halved(p.initialReward, epoch)
  }

  /** The epoch reward's share of the time since the parent. */
  function TimeShare(p: Params, t: u64, elapsed: u64): nat {
    Position(SatMul(EpochReward(t, p), Max(elapsed, 1)), Max(p.targetBlockMs, 1));
    SatMul(EpochReward(t, p), Max(elapsed, 1)) / Max(p.targetBlockMs, 1)
  }

  function BootstrapShare(p: Params, t: u64): nat { SatMul(EpochReward(t, p), p.bootstrapPercent) / 100 }

  /** What the calendar, the epoch, the time since the parent and the bootstrap
      phase each allow; the reward before the slew limit is the least of them. */
  function Unslewed(p: Params, t: u64, elapsed: u64, minted: u128, height: u64): nat {
    var reward := Min(SatSub(Scheduled(t, p), minted), Min(EpochReward(t, p), TimeShare(p, t, elapsed)));
    if height < p.bootstrapHeight then Min(reward, BootstrapShare(p, t)) else reward
  }

  /** The slew limit in percent, as the code's own bounds make it effective. */
  function SlewStep(p: Params): (q: nat)
    ensures 1 <= q <= 100
  {
    Min(100, Max(p.slewPercent, 1))
  }

  function SlewUp(previous: nat, p: Params): nat { SatMul(previous, 100 + Max(p.slewPercent, 1)) / 100 }

  function SlewDown(previous: nat, p: Params): nat { SatMul(previous, 100 - SlewStep(p)) / 100 }

  /** The slew clamp. Its lower bound is applied last. */
  function Slewed(reward: nat, previous: Option<u128>, p: Params): nat {
    if previous.None? || previous.value == 0 then reward
    else Max(SlewDown(previous.value, p), Min(reward, SlewUp(previous.value, p)))
  }

  function Elapsed(since: u64, ts: u64): u64 { if ts <= since then 0 else ts - since }

  /** `current_reward_with_height`. */
  function Reward(p: Params, genesis: u64, ts: u64, parentTs: u64, minted: u128, height: u64,
                  previous: Option<u128>): (r: u128) {
    if ts <= genesis then 0
    else
      UnslewedAtMost(p, ts - genesis, Elapsed(parentTs, ts), minted, height);
      SlewedAtMost(Unslewed(p, ts - genesis, Elapsed(parentTs, ts), minted, height), previous, p);
      Slewed(Unslewed(p, ts - genesis, Elapsed(parentTs, ts), minted, height), previous, p)
  }

  method CurrentRewardWithHeight(p: Params, genesis: u64, ts: u64, parentTs: u64, minted: u128, height: u64,
                                 previous: Option<u128>)
    returns (reward: u128)
    ensures reward == Reward(p, genesis, ts, parentTs, minted, height, previous)
  {
    if ts <= genesis { return 0; }
    var t := ts - genesis;
    var scheduled := ScheduledSupplyAt(t, p);
    var owed := SatSub(scheduled, minted);
    var epochReward := EpochReward(t, p);
    var elapsed := Max(Elapsed(parentTs, ts), 1);
    Position(SatMul(epochReward, elapsed), Max(p.targetBlockMs, 1));
    var proportional := SatMul(epochReward, elapsed) / Max(p.targetBlockMs, 1);
    UnslewedAtMost(p, t, Elapsed(parentTs, ts), minted, height);
    var least := Min(owed, Min(epochReward, proportional));
    if height < p.bootstrapHeight {
      least := Min(least, SatMul(epochReward, p.bootstrapPercent) / 100);
    }
    SlewedAtMost(least, previous, p);
    if previous.Some? && previous.value > 0 {
      var percent := Max(p.slewPercent, 1);
      var up := SatMul(previous.value, 100 + percent) / 100;
      var down := SatMul(previous.value, if percent <= 100 then 100 - percent else 0) / 100;
      assert down <= up;  // so the clamp cannot panic
      least := Max(down, Min(least, up));
    }
    reward := least;
  }

  lemma UnslewedAtMost(p: Params, t: u64, elapsed: u64, minted: u128, height: u64)
    ensures Unslewed(p, t, elapsed, minted, height) <= Min(p.initialReward, SatSub(Scheduled(t, p), minted))
    ensures height < p.bootstrapHeight ==>
            Unslewed(p, t, elapsed, minted, height) <= p.initialReward * p.bootstrapPercent / 100
  {
    Position(t, Max(p.HalvingMs(), 1));
    HalvedShrinks(p.initialReward, t / Max(p.HalvingMs(), 1));
    MulMonotone(EpochReward(t, p), p.initialReward, p.bootstrapPercent);
  }

  lemma SlewedAtMost(reward: nat, previous: Option<u128>, p: Params)
    ensures previous.Some? ==> SlewDown(previous.value, p) <= previous.value
    ensures previous.Some? ==> 100 * SlewDown(previous.value, p) <= (100 - SlewStep(p)) * previous.value
    ensures previous.Some? ==> SlewDown(previous.value, p) <= SlewUp(previous.value, p)
    ensures Slewed(reward, previous, p) <= Max(reward, if previous.Some? then SlewDown(previous.value, p) else 0)
  {
    if previous.Some? {
      var q := SlewStep(p);
      MulMonotone(100 - q, 100, previous.value);
      MulMonotone(100 - q, 100 + Max(p.slewPercent, 1), previous.value);
    }
  }

  /** The lower slew limit overrides every cap alike: a reward passes a bound
      that the unslewed one respects exactly when that limit passes it. */
  lemma RewardExceedsIff(p: Params, genesis: u64, ts: u64, parentTs: u64, minted: u128, height: u64,
                         previous: Option<u128>, bound: nat)
    requires ts > genesis && Unslewed(p, ts - genesis, Elapsed(parentTs, ts), minted, height) <= bound
    ensures Reward(p, genesis, ts, parentTs, minted, height, previous) > bound <==>
            previous.Some? && SlewDown(previous.value, p) > bound
  {
    SlewedAtMost(Unslewed(p, ts - genesis, Elapsed(parentTs, ts), minted, height), previous, p);
  }

  /** A block is paid more than the calendar owes, than its epoch's reward, than
      that reward's share of the time since the parent, or than the bootstrap
      share, exactly when the slew limit's lower bound lies above it. */
  lemma RewardExceedsCapsIff(p: Params, genesis: u64, ts: u64, parentTs: u64, minted: u128, height: u64,
                             previous: Option<u128>)
    requires ts > genesis
    ensures var r, t, elapsed := Reward(p, genesis, ts, parentTs, minted, height, previous), ts - genesis,
            Elapsed(parentTs, ts);
            var down := if previous.Some? then SlewDown(previous.value, p) else 0;
            && (r > SatSub(Scheduled(t, p), minted) <==> down > SatSub(Scheduled(t, p), minted))
            && (r > EpochReward(t, p) <==> down > EpochReward(t, p))
            && (r > TimeShare(p, t, elapsed) <==> down > TimeShare(p, t, elapsed))
            && (height < p.bootstrapHeight ==> (r > BootstrapShare(p, t) <==> down > BootstrapShare(p, t)))
  {
    var t, elapsed := ts - genesis, Elapsed(parentTs, ts);
    RewardExceedsIff(p, genesis, ts, parentTs, minted, height, previous, SatSub(Scheduled(t, p), minted));
    RewardExceedsIff(p, genesis, ts, parentTs, minted, height, previous, EpochReward(t, p));
    RewardExceedsIff(p, genesis, ts, parentTs, minted, height, previous, TimeShare(p, t, elapsed));
    if height < p.bootstrapHeight {
      RewardExceedsIff(p, genesis, ts, parentTs, minted, height, previous, BootstrapShare(p, t));
    }
  }

  /** The calendar's case, for any time: a block is paid more than the calendar
      owes exactly when the slew limit's lower bound lies above what is owed. */
  lemma RewardExceedsCalendarIff(p: Params, genesis: u64, ts: u64, parentTs: u64, minted: u128, height: u64,
                                 previous: Option<u128>)
    ensures var owed := SatSub(Scheduled(Elapsed(genesis, ts), p), minted);
            Reward(p, genesis, ts, parentTs, minted, height, previous) > owed <==>
            ts > genesis && previous.Some? && SlewDown(previous.value, p) > owed
  {
    if ts > genesis { RewardExceedsCapsIff(p, genesis, ts, parentTs, minted, height, previous); }
  }

  /** Past the bootstrap phase and with no previous reward, a block catches up
      with the calendar completely exactly when what is owed fits both the
      epoch's reward and that reward's share of the time since the parent. */
  lemma CalendarIsPaidIff(p: Params, genesis: u64, ts: u64, parentTs: u64, minted: u128, height: u64)
    requires ts > genesis && height >= p.bootstrapHeight
    ensures var owed, most := SatSub(Scheduled(ts - genesis, p), minted), EpochReward(ts - genesis, p);
            Reward(p, genesis, ts, parentTs, minted, height, None) == owed <==>
            owed <= most && owed * Max(p.targetBlockMs, 1) <= Min(U128_MAX, most * Max(Elapsed(parentTs, ts), 1))
  {
    var owed, most := SatSub(Scheduled(ts - genesis, p), minted), EpochReward(ts - genesis, p);
    var e, target := Max(Elapsed(parentTs, ts), 1), Max(p.targetBlockMs, 1);
    ShareOfTime(owed, most, e, target);
    assert Reward(p, genesis, ts, parentTs, minted, height, None) == Min(owed, Min(most, SatMul(most, e) / target));
  }

  lemma ShareOfTime(owed: nat, most: nat, e: nat, target: int)
    requires target > 0
    ensures owed <= SatMul(most, e) / target <==> owed * target <= Min(U128_MAX, most * e)
  {
    DivLower(owed, SatMul(most, e), target);
  }

  /** How far one reward may move. After a paid block it stays within the slew
      percentage of that block's reward, to the satoshi; otherwise, however long
      the stall before it, it earns at most the initial reward per target
      interval since its parent. */
  lemma RewardMovesWithinBand(p: Params, genesis: u64, ts: u64, parentTs: u64, minted: u128, height: u64,
                              previous: Option<u128>)
    requires ts > genesis
    ensures var r := Reward(p, genesis, ts, parentTs, minted, height, previous);
            if previous.Some? && previous.value > 0 then
              && 100 * r <= (100 + Max(p.slewPercent, 1)) * previous.value
              && 100 * r + 99 >= Min(U128_MAX, (100 - SlewStep(p)) * previous.value)
            else
              r * Max(p.targetBlockMs, 1) <= p.initialReward * Max(Elapsed(parentTs, ts), 1)
  {
    var reward := Unslewed(p, ts - genesis, Elapsed(parentTs, ts), minted, height);
    assert Reward(p, genesis, ts, parentTs, minted, height, previous) == Slewed(reward, previous, p);
    if previous.Some? && previous.value > 0 {
      SlewedWithinBand(reward, previous.value, p);
    } else {
      UnslewedInProportion(p, ts - genesis, Elapsed(parentTs, ts), minted, height);
    }
  }

  lemma SlewedWithinBand(reward: nat, previous: u128, p: Params)
    requires previous > 0
    ensures 100 * Slewed(reward, Some(previous), p) <= (100 + Max(p.slewPercent, 1)) * previous
    ensures 100 * Slewed(reward, Some(previous), p) + 99 >= Min(U128_MAX, (100 - SlewStep(p)) * previous)
  {
    SlewedAtMost(reward, Some(previous), p);
    HundredthsOf(previous, 100 + Max(p.slewPercent, 1));
    HundredthsOf(previous, 100 - SlewStep(p));
  }

  lemma HundredthsOf(x: nat, percent: nat)
    ensures 100 * (SatMul(x, percent) / 100) <= percent * x
    ensures 100 * (SatMul(x, percent) / 100) + 99 >= Min(U128_MAX, percent * x)
  {
    MulNonNegative(x, percent);
  }

  lemma UnslewedInProportion(p: Params, t: u64, elapsed: u64, minted: u128, height: u64)
    ensures Unslewed(p, t, elapsed, minted, height) * Max(p.targetBlockMs, 1) <= p.initialReward * Max(elapsed, 1)
  {
    var epochReward, e, target := EpochReward(t, p), Max(elapsed, 1), Max(p.targetBlockMs, 1);
    Position(t, Max(p.HalvingMs(), 1));
    HalvedShrinks(p.initialReward, t / Max(p.HalvingMs(), 1));
    MulMonotone(epochReward, p.initialReward, e);
    Position(SatMul(epochReward, e), target);
    MulMonotone(Unslewed(p, t, elapsed, minted, height), SatMul(epochReward, e) / target, target);
  }

  // ---- Runs of blocks ----

  datatype Stamp = Stamp(height: u64, timestamp: u64)
  datatype Totals = Totals(minted: u128, previous: Option<u128>)

  function Last(t: Totals): u128 { if t.previous.Some? then t.previous.value else 0 }

  type RewardRule = (u64, u64, u128, u64, Option<u128>) -> u128

  /** The reward as a rule of time, parent time, minted total, height and last reward. */
  function RuleOf(p: Params, genesis: u64): RewardRule {
    (ts: u64, parentTs: u64, minted: u128, height: u64, previous: Option<u128>) =>
      Reward(p, genesis, ts, parentTs, minted, height, previous)
  }

  /** Counting one reward. */
  function Counted(t: Totals, reward: u128): Totals { Totals(SatAdd(t.minted, reward), Some(reward)) }

  /** The bookkeeping the node does around every accepted block. */
  function Pay(p: Params, genesis: u64, block: Stamp, parentTs: u64, t: Totals): Totals {
    Counted(t, Reward(p, genesis, block.timestamp, parentTs, t.minted, block.height, t.previous))
  }

  function ParentTs(genesis: u64, blocks: seq<Stamp>, i: nat): u64
    requires i <= |blocks|
  {
    if i == 0 then genesis else blocks[i - 1].timestamp
  }

  function RunTotals(p: Params, genesis: u64, blocks: seq<Stamp>): Totals {
    if |blocks| == 0 then Totals(0, None)
    else
      var n := |blocks| - 1;
      Pay(p, genesis, blocks[n], ParentTs(genesis, blocks, n), RunTotals(p, genesis, blocks[..n]))
  }

  lemma RunStep(p: Params, genesis: u64, run: seq<Stamp>, before: Totals, reward: u128)
    requires run != [] && RunTotals(p, genesis, run[..|run| - 1]) == before && before.minted + reward <= U128_MAX
    requires var last := run[|run| - 1];
             Reward(p, genesis, last.timestamp, ParentTs(genesis, run, |run| - 1), before.minted, last.height,
               before.previous) == reward
    ensures RunTotals(p, genesis, run) == Totals(before.minted + reward, Some(reward))
  {}

  ghost predicate TimeOrdered(blocks: seq<Stamp>) {
    forall i, j :: 0 <= i < j < |blocks| ==> blocks[i].timestamp <= blocks[j].timestamp
  }

  ghost predicate HeightOrdered(blocks: seq<Stamp>) {
    forall i, j :: 0 <= i < j < |blocks| ==> blocks[i].height <= blocks[j].height
  }

  /** The potential: what has been minted, plus what the slew limit can still
      force out, never outgrows the calendar by more than one reward's worth. */
  ghost predicate Bounded(p: Params, genesis: u64, now: u64, t: Totals) {
    var q := SlewStep(p);
    && Last(t) <= p.initialReward
    && q * t.minted + (100 - q) * Last(t) <= q * Scheduled(Elapsed(genesis, now), p) + (100 - q) * p.initialReward
  }

  lemma PayKeepsBound(p: Params, genesis: u64, before: u64, block: Stamp, parentTs: u64, t: Totals)
    requires Bounded(p, genesis, before, t) && before <= block.timestamp
    ensures Bounded(p, genesis, block.timestamp, Pay(p, genesis, block, parentTs, t))
  {
    var r := Reward(p, genesis, block.timestamp, parentTs, t.minted, block.height, t.previous);
    StepRaisesPotential(p, genesis, before, block, parentTs, t, SatAdd(t.minted, r));
  }

  lemma StepRaisesPotential(p: Params, genesis: u64, before: u64, block: Stamp, parentTs: u64, t: Totals, minted: nat)
    requires Bounded(p, genesis, before, t) && before <= block.timestamp
    requires minted <= t.minted + Reward(p, genesis, block.timestamp, parentTs, t.minted, block.height, t.previous)
    ensures var r, q := Reward(p, genesis, block.timestamp, parentTs, t.minted, block.height, t.previous), SlewStep(p);
            r <= p.initialReward && q * minted + (100 - q) * r <= q * Scheduled(Elapsed(genesis, block.timestamp), p)
              + (100 - q) * p.initialReward
  {
    var ts := block.timestamp;
    var s, s' := Scheduled(Elapsed(genesis, before), p), Scheduled(Elapsed(genesis, ts), p);
    ScheduleMonotone(Elapsed(genesis, before), Elapsed(genesis, ts), p);
    var r := Reward(p, genesis, ts, parentTs, t.minted, block.height, t.previous);
    if ts > genesis {
      UnslewedAtMost(p, ts - genesis, Elapsed(parentTs, ts), t.minted, block.height);
      SlewedAtMost(Unslewed(p, ts - genesis, Elapsed(parentTs, ts), t.minted, block.height), t.previous, p);
    }
    PotentialStep(SlewStep(p), t.minted, minted, Last(t), r, s, s', p.initialReward);
  }

  // ---- Runs that leave their caps ----

  lemma BitcoinLikeEpochs()
    ensures BITCOIN_LIKE.HalvingMs() == 126_000_000_000 && BITCOIN_LIKE.BlocksPerHalving() == 210_000
  {}

  lemma MillisecondShare(ts: u64)
    requires 600_000 < ts < 1_200_000
    ensures EpochReward(ts, BITCOIN_LIKE) == 5_000_000_000 && TimeShare(BITCOIN_LIKE, ts, 1) == 8_333
  {
    BitcoinLikeEpochs();
    DivUnique(ts, 126_000_000_000, 0, ts);
  }

  /** A block mined a millisecond after its parent shares in almost nothing. */
  lemma NextMillisecond(ts: u64, minted: u128, height: u64, previous: u128)
    requires 600_000 < ts < 1_200_000 && 20_000 <= previous && 100 * previous <= U128_MAX
    ensures Reward(BITCOIN_LIKE, 0, ts, ts - 1, minted, height, Some(previous)) == previous * 75 / 100
  {
    MillisecondShare(ts);
  }

  const EARLY: seq<Stamp> := [Stamp(0, 0), Stamp(1, 600_000), Stamp(2, 600_001), Stamp(3, 600_002)]

  function EarlyPaid(n: nat): u128 {
    if n == 2 then 2_500_000_000 else if n == 3 then 1_875_000_000 else if n == 4 then 1_406_250_000 else 0
  }

  function EarlyBooks(n: nat): Totals {
    if n == 0 then Totals(0, None)
    else if n == 1 then Totals(0, Some(0))
    else if n == 2 then Totals(2_500_000_000, Some(2_500_000_000))
    else if n == 3 then Totals(4_375_000_000, Some(1_875_000_000))
    else Totals(5_781_250_000, Some(1_406_250_000))
  }

  lemma EarlyTotals(p: Params, run: seq<Stamp>, n: nat)
    requires p == BITCOIN_LIKE && run == EARLY && n <= 4
    ensures RunTotals(p, 0, run[..n]) == EarlyBooks(n)
  {
    if n > 0 {
      EarlyTotals(p, run, n - 1);
      assert run[..n][..n - 1] == run[..n - 1];
      EarlyStep(p, run[..n], n);
    }
  }

  lemma EarlyStep(p: Params, run: seq<Stamp>, n: nat)
    requires p == BITCOIN_LIKE && 0 < n <= 4 && run == EARLY[..n] && RunTotals(p, 0, run[..n - 1]) == EarlyBooks(n - 1)
    ensures RunTotals(p, 0, run) == EarlyBooks(n)
  {
    EarlyReward(p, run, n);
    RunStep(p, 0, run, EarlyBooks(n - 1), EarlyPaid(n));
  }

  lemma EarlyReward(p: Params, run: seq<Stamp>, n: nat)
    requires p == BITCOIN_LIKE && 0 < n <= 4 && run == EARLY[..n]
    ensures var b, last := EarlyBooks(n - 1), run[n - 1];
            Reward(p, 0, last.timestamp, ParentTs(0, run, n - 1), b.minted, last.height, b.previous) == EarlyPaid(n)
  {
    if n == 2 { FirstInterval(); }
    if n == 3 { NextMillisecond(600_001, 2_500_000_000, 2, 2_500_000_000); }
    if n == 4 { NextMillisecond(600_002, 4_375_000_000, 3, 1_875_000_000); }
  }

  lemma EarlyRun(p: Params, run: seq<Stamp>)
    requires p == BITCOIN_LIKE && run == EARLY
    ensures RunTotals(p, 0, run) == EarlyBooks(4)
  {
    EarlyTotals(p, run, 4);
    assert run[..4] == run;
  }

  /** Blocks one target interval, and then two single milliseconds, after
      genesis: the calendar owes 50 coins and the run is paid nearly 58. */
  lemma OverpaymentHappens() returns (p: Params, run: seq<Stamp>)
    ensures p == BITCOIN_LIKE && run == EARLY && TimeOrdered(run)
    ensures Scheduled(600_002, p) == 5_000_000_000 && RunTotals(p, 0, run).minted == 5_781_250_000
  {
    p, run := BITCOIN_LIKE, EARLY;
    BitcoinLikeEpochs();
    SchedulePaysWholeBlocks(600_002, p, 0, 600_002, 1);
    EarlyRun(p, run);
  }

  /** In the same run the third block earns 18.75 coins for one millisecond,
      whose share is a few thousand satoshi. */
  lemma TimeShareIsOverridden() returns (p: Params, run: seq<Stamp>)
    ensures p == BITCOIN_LIKE && run == EARLY[..3] && TimeOrdered(run)
    ensures TimeShare(p, run[2].timestamp, run[2].timestamp - run[1].timestamp) == 8_333
    ensures RunTotals(p, 0, run).previous == Some(1_875_000_000)
  {
    p, run := BITCOIN_LIKE, EARLY[..3];
    MillisecondShare(600_001);
    EarlyTotals(p, EARLY, 3);
  }

  lemma FirstInterval()
    ensures Reward(BITCOIN_LIKE, 0, 600_000, 0, 0, 1, Some(0)) == 2_500_000_000
  {
    var p := BITCOIN_LIKE;
    BitcoinLikeEpochs();
    SchedulePaysWholeBlocks(600_000, p, 0, 600_000, 1);
    DivUnique(600_000, 126_000_000_000, 0, 600_000);
    assert EpochReward(600_000, p) == 5_000_000_000 && TimeShare(p, 600_000, 600_000) == 5_000_000_000;
  }

  const HALVING: u64 := 126_000_000_000

  lemma BeforeHalving(p: Params)
    requires p == BITCOIN_LIKE
    ensures EpochReward(HALVING - 1, p) == 5_000_000_000
    ensures Scheduled(HALVING - 1, p) >= 5_000_000_000 && TimeShare(p, HALVING - 1, HALVING - 1) >= 5_000_000_000
  {
    BitcoinLikeEpochs();
    SchedulePaysWholeBlocks(HALVING - 1, p, 0, HALVING - 1, 209_999);
    DivUnique(HALVING - 1, HALVING, 0, HALVING - 1);
  }

  lemma AtHalving(p: Params)
    requires p == BITCOIN_LIKE
    ensures EpochReward(HALVING, p) == 2_500_000_000
  {
    BitcoinLikeEpochs();
    DivUnique(HALVING, HALVING, 1, 0);
    assert Halved(5_000_000_000, 1) == 2_500_000_000;
  }

  lemma SharesAtHalving(p: Params)
    requires p == BITCOIN_LIKE
    ensures TimeShare(p, HALVING, 1) == 4_166 && BootstrapShare(p, HALVING) == 1_250_000_000
  {
    AtHalving(p);
  }

  lemma PaidBeforeHalving(p: Params, height: u64, first: nat)
    requires p == BITCOIN_LIKE && first == if height < p.bootstrapHeight then 2_500_000_000 else 5_000_000_000
    ensures Reward(p, 0, HALVING - 1, 0, 0, height, None) == first
  {
    BeforeHalving(p);
  }

  lemma PaidAfterHalving(p: Params, height: u64, first: nat)
    requires p == BITCOIN_LIKE && (first == 2_500_000_000 || first == 5_000_000_000)
    ensures Reward(p, 0, HALVING, HALVING - 1, first, height, Some(first)) == first * 75 / 100
  {
    SharesAtHalving(p);
    var unslewed := Unslewed(p, HALVING, 1, first, height);
    assert unslewed <= TimeShare(p, HALVING, 1);
    assert SlewDown(first, p) == first * 75 / 100 && SlewUp(first, p) == first * 125 / 100;
    assert Slewed(unslewed, Some(first), p) == first * 75 / 100;
  }

  lemma PaidAcrossHalving(p: Params, run: seq<Stamp>, height: u64, first: nat)
    requires p == BITCOIN_LIKE && height < U64_MAX
    requires run == [Stamp(height, HALVING - 1), Stamp(height + 1, HALVING)]
    requires first == if height < p.bootstrapHeight then 2_500_000_000 else 5_000_000_000
    ensures RunTotals(p, 0, run).previous == Some(first * 75 / 100)
  {
    PaidBeforeHalving(p, height, first);
    PaidAfterHalving(p, height + 1, first);
    assert run[..1][..0] == [] && run[..2] == run;
    RunStep(p, 0, run[..1], Totals(0, None), first);
    RunStep(p, 0, run, Totals(first, Some(first)), first * 75 / 100);
  }

  /** Two blocks across the first halving, at any height: the slew limit pays the
      second three quarters of the first. That is 37.5 coins in an era of 25, and
      in the bootstrap phase 18.75 where its share of the era is 12.5. */
  lemma HalvingOverridesCaps(height: u64) returns (p: Params, run: seq<Stamp>, first: nat)
    requires height < U64_MAX
    ensures p == BITCOIN_LIKE && run == [Stamp(height, HALVING - 1), Stamp(height + 1, HALVING)]
    ensures EpochReward(HALVING, p) == 2_500_000_000 && BootstrapShare(p, HALVING) == 1_250_000_000
    ensures first == if height < p.bootstrapHeight then 2_500_000_000 else 5_000_000_000
    ensures RunTotals(p, 0, run).previous == Some(first * 75 / 100)
  {
    p, run := BITCOIN_LIKE, [Stamp(height, HALVING - 1), Stamp(height + 1, HALVING)];
    first := if height < p.bootstrapHeight then 2_500_000_000 else 5_000_000_000;
    AtHalving(p);
    SharesAtHalving(p);
    PaidAcrossHalving(p, run, height, first);
  }

  /** Parameters whose worst-case supply fits 128 bits. */
  predicate Affordable(p: Params) {
    SlewStep(p) * p.supplyCap + (100 - SlewStep(p)) * p.initialReward <= SlewStep(p) * U128_MAX
  }

  /** Every chain the node can be configured for is affordable: the cap is
      fixed and the initial reward is a 64-bit number. */
  lemma NodeParametersAreAffordable(p: Params)
    requires p.supplyCap == 2_100_000_000_000_000 && p.initialReward <= U64_MAX
    ensures Affordable(p)
  {
    var q := SlewStep(p);
    MulMonotone(1, q, U128_MAX - p.supplyCap);
    MulMonotone(100 - q, 99, p.initialReward);
    assert q * (U128_MAX - p.supplyCap) == q * U128_MAX - q * p.supplyCap;
  }

  /** Under affordable parameters the minted counter never saturates. */
  lemma MintingNeverSaturates(p: Params, genesis: u64, before: u64, block: Stamp, parentTs: u64, t: Totals)
    requires Bounded(p, genesis, before, t) && before <= block.timestamp && Affordable(p)
    ensures t.minted + Reward(p, genesis, block.timestamp, parentTs, t.minted, block.height, t.previous) <= U128_MAX
  {
    var r := Reward(p, genesis, block.timestamp, parentTs, t.minted, block.height, t.previous);
    StepRaisesPotential(p, genesis, before, block, parentTs, t, t.minted + r);
    ScheduleMonotone(0, Elapsed(genesis, block.timestamp), p);
    DivideOut(SlewStep(p), t.minted + r, r, Scheduled(Elapsed(genesis, block.timestamp), p), p.supplyCap,
      p.initialReward, U128_MAX);
  }

  lemma AtLeastOneMore(q: nat, limit: nat, x: nat)
    requires limit < x
    ensures q * limit + q <= q * x
  {
    ProductMonotone(q, q, limit + 1, x);
  }

  lemma DivideOut(q: nat, x: nat, r: nat, s: nat, cap: nat, r0: nat, limit: nat)
    requires 1 <= q <= 100 && s <= cap
    requires q * x + (100 - q) * r <= q * s + (100 - q) * r0
    requires q * cap + (100 - q) * r0 <= q * limit
    ensures x <= limit
  {
    MulMonotone(s, cap, q);
    MulNonNegative(100 - q, r);
    if x > limit { AtLeastOneMore(q, limit, x); }
  }

  /** The arithmetic of one step: either the reward was owed, or it is at most
      the slew limit's share of the last one. */
  lemma PotentialStep(q: nat, minted: nat, minted': nat, last: nat, r: nat, s: nat, s': nat, r0: nat)
    requires 1 <= q <= 100 && s <= s' && minted' <= minted + r && r <= r0
    requires q * minted + (100 - q) * last <= q * s + (100 - q) * r0
    requires r == 0 || r <= s' - minted || 100 * r <= (100 - q) * last
    ensures q * minted' + (100 - q) * r <= q * s' + (100 - q) * r0
  {
    MulMonotone(minted', minted + r, q);
    MulMonotone(s, s', q);
    if r != 0 && r <= s' - minted {
      MulMonotone(minted + r, s', q);
      MulMonotone(r, r0, 100 - q);
    } else {
      SlewedStep(q, minted, last, r);
    }
  }

  lemma SlewedStep(q: nat, minted: nat, last: nat, r: nat)
    requires q <= 100 && (r == 0 || 100 * r <= (100 - q) * last)
    ensures q * (minted + r) + (100 - q) * r <= q * minted + (100 - q) * last
  {
    MulNonNegative(100 - q, last);
    assert q * (minted + r) == q * minted + q * r;
    assert q * r + (100 - q) * r == 100 * r;
  }

  /** Over every run of blocks with ordered timestamps, from nothing minted:
      minted supply stays within (100-q)/q initial rewards of the calendar, and
      no block is paid more than the initial reward. */
  lemma {:induction false} EmissionBound(p: Params, genesis: u64, blocks: seq<Stamp>)
    requires TimeOrdered(blocks)
    ensures Bounded(p, genesis, ParentTs(genesis, blocks, |blocks|), RunTotals(p, genesis, blocks))
  {
    var n := |blocks| - 1;
    if n < 0 {
    } else {
      EmissionBound(p, genesis, blocks[..n]);
      if n == 0 {
        FirstBlockBound(p, genesis, blocks[0]);
      } else {
        PayKeepsBound(p, genesis, blocks[n - 1].timestamp, blocks[n], blocks[n - 1].timestamp,
          RunTotals(p, genesis, blocks[..n]));
      }
    }
  }

  lemma FirstBlockBound(p: Params, genesis: u64, block: Stamp)
    ensures Bounded(p, genesis, block.timestamp, Pay(p, genesis, block, genesis, Totals(0, None)))
  {
    PayKeepsBound(p, genesis, 0, block, genesis, Totals(0, None));
  }

  /** The bound in the form operators quote: with the default 25% slew limit,
      at most three initial rewards above the calendar and the cap. */
  lemma DefaultSlewBound(p: Params, genesis: u64, blocks: seq<Stamp>)
    requires TimeOrdered(blocks) && p.slewPercent == 25
    ensures var minted := RunTotals(p, genesis, blocks).minted;
            minted <= Scheduled(Elapsed(genesis, ParentTs(genesis, blocks, |blocks|)), p) + 3 * p.initialReward
                   <= p.supplyCap + 3 * p.initialReward
  {
    EmissionBound(p, genesis, blocks);
    BoundedByThreeRewards(p, genesis, ParentTs(genesis, blocks, |blocks|), RunTotals(p, genesis, blocks));
  }

  lemma BoundedByThreeRewards(p: Params, genesis: u64, now: u64, t: Totals)
    requires Bounded(p, genesis, now, t) && p.slewPercent == 25
    ensures t.minted <= Scheduled(Elapsed(genesis, now), p) + 3 * p.initialReward <= p.supplyCap + 3 * p.initialReward
  {
    var s := Scheduled(Elapsed(genesis, now), p);
    ScheduleMonotone(0, Elapsed(genesis, now), p);
    assert 25 * t.minted + 75 * Last(t) <= 25 * s + 75 * p.initialReward by { assert SlewStep(p) == 25; }
  }

  /** With a slew limit of 100% or more the clamp never forces anything out,
      and minted supply never exceeds the calendar at all. */
  lemma FullSlewIsExact(p: Params, genesis: u64, blocks: seq<Stamp>)
    requires TimeOrdered(blocks) && p.slewPercent >= 100
    ensures RunTotals(p, genesis, blocks).minted <= Scheduled(Elapsed(genesis, ParentTs(genesis, blocks, |blocks|)), p)
  {
    EmissionBound(p, genesis, blocks);
    var t := RunTotals(p, genesis, blocks);
    assert SlewStep(p) == 100;
    assert 100 * t.minted + 0 * Last(t) <= 100 * Scheduled(Elapsed(genesis, ParentTs(genesis, blocks, |blocks|)), p)
      + 0 * p.initialReward;
  }

  /** `current_reward`: no height, no previous reward. */
  function CurrentReward(p: Params, genesis: u64, ts: u64, parentTs: u64, minted: u128): u128 {
    Reward(p, genesis, ts, parentTs, minted, U64_MAX, None)
  }

  function CalendarTotal(p: Params, genesis: u64, blocks: seq<Stamp>): u128 {
    if |blocks| == 0 then 0
    else
      var n := |blocks| - 1;
      var minted := CalendarTotal(p, genesis, blocks[..n]);
      SatAdd(minted, CurrentReward(p, genesis, blocks[n].timestamp, ParentTs(genesis, blocks, n), minted))
  }

  /** Without the slew limit, minted supply never exceeds the calendar. */
  lemma {:induction false} CalendarRewardsTrackSchedule(p: Params, genesis: u64, blocks: seq<Stamp>)
    requires TimeOrdered(blocks)
    ensures CalendarTotal(p, genesis, blocks) <= Scheduled(Elapsed(genesis, ParentTs(genesis, blocks, |blocks|)), p)
  {
    var n := |blocks| - 1;
    if n < 0 {
    } else {
      CalendarRewardsTrackSchedule(p, genesis, blocks[..n]);
      var minted, ts := CalendarTotal(p, genesis, blocks[..n]), blocks[n].timestamp;
      var before := ParentTs(genesis, blocks, n);
      assert blocks[..n] == [] ==> minted == 0;
      ScheduleMonotone(if n == 0 then 0 else Elapsed(genesis, before), Elapsed(genesis, ts), p);
      if ts > genesis { UnslewedAtMost(p, ts - genesis, Elapsed(before, ts), minted, U64_MAX); }
    }
  }

  /** No reward at a height below the bootstrap height exceeds the bootstrap
      share of the initial reward, in any run of non-decreasing heights. */
  lemma {:induction false} BootstrapRewardsCapped(p: Params, genesis: u64, blocks: seq<Stamp>)
    requires |blocks| > 0 && HeightOrdered(blocks) && blocks[|blocks| - 1].height < p.bootstrapHeight
    ensures Last(RunTotals(p, genesis, blocks)) <= p.initialReward * p.bootstrapPercent / 100
  {
    var n := |blocks| - 1;
    var front := RunTotals(p, genesis, blocks[..n]);
    MulNonNegative(p.initialReward, p.bootstrapPercent);
    if n > 0 { BootstrapRewardsCapped(p, genesis, blocks[..n]); }
    BootstrapBlockCapped(p, genesis, blocks[n], ParentTs(genesis, blocks, n), front,
      p.initialReward * p.bootstrapPercent / 100);
  }

  lemma BootstrapBlockCapped(p: Params, genesis: u64, b: Stamp, parentTs: u64, t: Totals, cap: nat)
    requires b.height < p.bootstrapHeight && Last(t) <= cap == p.initialReward * p.bootstrapPercent / 100
    ensures Reward(p, genesis, b.timestamp, parentTs, t.minted, b.height, t.previous) <= cap
  {
    if b.timestamp > genesis {
      UnslewedAtMost(p, b.timestamp - genesis, Elapsed(parentTs, b.timestamp), t.minted, b.height);
      SlewedAtMost(Unslewed(p, b.timestamp - genesis, Elapsed(parentTs, b.timestamp), t.minted, b.height), t.previous,
        p);
    }
  }
}
