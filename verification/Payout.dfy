/** What a block is paid, in terms of the parameters alone
    (crates/consensus/src/emission.rs): the halvings, the caps, and the band a
    reward moves in from block to block. */
module Payout {
  import opened Machine
  import opened Emission

  // ---- Halvings ----

  lemma {:induction false} HalvedIsShifted(reward: nat, n: nat)
    ensures Halved(reward, n) * Pow(2, n) <= reward < (Halved(reward, n) + 1) * Pow(2, n)
  {
    if n > 0 {
      HalvedIsShifted(reward, n - 1);
      HalvedOnce(Halved(reward, n - 1), Pow(2, n - 1), reward);
    }
  }

  lemma HalvedOnce(a: nat, p: nat, reward: nat)
    requires a * p <= reward < (a + 1) * p
    ensures a / 2 * (2 * p) <= reward < (a / 2 + 1) * (2 * p)
  {
    MulMonotone(a / 2 * 2, a, p);
    MulMonotone(a + 1, (a / 2 + 1) * 2, p);
    MulAssociative(a / 2, 2, p);
    MulAssociative(a / 2 + 1, 2, p);
  }

  /** In the `n`-th halving period after genesis the nominal reward is the initial
      one shifted right by `n` bits, and from the 64th on it is nothing. */
  lemma EpochRewardIsShifted(t: u64, p: Params, n: nat)
    requires Max(p.secondsPerHalving * 1000, 1) * n <= t < Max(p.secondsPerHalving * 1000, 1) * (n + 1)
    ensures n < 64 ==> EpochReward(t, p) * Pow(2, n) <= p.initialReward < (EpochReward(t, p) + 1) * Pow(2, n)
    ensures n >= 64 ==> EpochReward(t, p) == 0
  {
    var h := Max(p.secondsPerHalving * 1000, 1);
    QuotientBetween(t, h, n);
    HalvedIsShifted(p.initialReward, n);
  }

  // ---- The calendar ----

  /** `e` milliseconds into halving period `n`, the calendar has paid what it had
      at the start of the period, plus the period's reward for every whole block
      that the elapsed share of the period holds, up to the cap. */
  lemma CalendarWithinPeriod(p: Params, n: nat, e: nat, k: nat)
    requires p.secondsPerHalving > 0 && p.targetBlockMs > 0 && n < 64
    requires 0 <= p.secondsPerHalving * 1000 * n && p.secondsPerHalving * 1000 * n + e <= U64_MAX
    requires e < p.secondsPerHalving * 1000
    requires var h := p.secondsPerHalving * 1000; k * h <= SatMul(e, h / p.targetBlockMs) < (k + 1) * h
    ensures var start: u64 := p.secondsPerHalving * 1000 * n;
            Scheduled(start + e, p) == Min(Scheduled(start, p) + EpochReward(start, p) * k, p.supplyCap)
  {
    var h := p.secondsPerHalving * 1000;
    var start: u64 := h * n;
    SchedulePaysWholeBlocks(start + e, p, n, e, k);
    SchedulePaysWholeBlocks(start, p, n, 0, 0);
    DivUnique(start, h, n, 0);
    MulNonNegative(Halved(p.initialReward, n), k);
  }

  /** A whole period pays its reward for every target interval in it. */
  lemma CalendarOverPeriod(p: Params, n: nat)
    requires p.secondsPerHalving > 0 && p.targetBlockMs > 0 && n < 63
    requires 0 <= p.secondsPerHalving * 1000 * n <= p.secondsPerHalving * 1000 * (n + 1) <= U64_MAX
    ensures var h := p.secondsPerHalving * 1000;
            Scheduled(h * (n + 1), p)
              == Min(Scheduled(h * n, p) + EpochReward(h * n, p) * (h / p.targetBlockMs), p.supplyCap)
  {
    var h := p.secondsPerHalving * 1000;
    SchedulePaysWholeBlocks(h * n, p, n, 0, 0);
    SchedulePaysWholeBlocks(h * (n + 1), p, n + 1, 0, 0);
    DivUnique(h * n, h, n, 0);
    MulNonNegative(Halved(p.initialReward, n), p.BlocksPerHalving());
  }

  /** Nothing is owed at genesis or by a calendar without halvings or blocks, and
      everything after 64 periods. */
  lemma CalendarEnds(t: u64, p: Params)
    ensures Scheduled(0, p) == 0
    ensures p.secondsPerHalving == 0 || p.targetBlockMs == 0 ==> Scheduled(t, p) == 0
    ensures p.secondsPerHalving > 0 && p.targetBlockMs > 0 && t >= 64 * (p.secondsPerHalving * 1000) ==>
              Scheduled(t, p) == p.supplyCap
  {
    if p.secondsPerHalving > 0 { DivLower(64, t, p.secondsPerHalving * 1000); }
  }

  // ---- The caps ----

  /** With no paid block before it, a block earns the greatest amount that the
      calendar still owes, the period's reward allows, that reward's share of the
      time since the parent allows and, below the bootstrap height, the bootstrap
      percentage allows. */
  lemma RewardIsGreatestAllowed(p: Params, genesis: u64, ts: u64, parentTs: u64, minted: u128, height: u64,
                                previous: Option<u128>, x: nat)
    requires ts > genesis && (previous == None || previous == Some(0))
    ensures var most, elapsed := EpochReward(ts - genesis, p), Max(ts - parentTs, 1);
            x <= Reward(p, genesis, ts, parentTs, minted, height, previous) <==>
            && (x == 0 || minted + x <= Scheduled(ts - genesis, p))
            && x <= most
            && x * Max(p.targetBlockMs, 1) <= Min(most * elapsed, U128_MAX)
            && (height < p.bootstrapHeight ==> 100 * x <= Min(most * p.bootstrapPercent, U128_MAX))
  {
    var most, elapsed := EpochReward(ts - genesis, p), Max(ts - parentTs, 1);
    MulNonNegative(most, elapsed);
    DivLower(x, SatMul(most, elapsed), Max(p.targetBlockMs, 1));
    DivLower(x, SatMul(most, p.bootstrapPercent), 100);
    assert elapsed == Max(Elapsed(parentTs, ts), 1);
  }

  /** A block at or before genesis time earns nothing. */
  lemma NothingBeforeGenesis(p: Params, genesis: u64, ts: u64, parentTs: u64, minted: u128, height: u64,
                             previous: Option<u128>)
    requires ts <= genesis
    ensures Reward(p, genesis, ts, parentTs, minted, height, previous) == 0
  {}

  /** `current_reward` is the same without the bootstrap percentage, which no height
      is known to apply to. */
  lemma CurrentRewardIsGreatest(p: Params, genesis: u64, ts: u64, parentTs: u64, minted: u128, x: nat)
    requires ts > genesis
    ensures var most, elapsed := EpochReward(ts - genesis, p), Max(ts - parentTs, 1);
            x <= CurrentReward(p, genesis, ts, parentTs, minted) <==>
            && (x == 0 || minted + x <= Scheduled(ts - genesis, p))
            && x <= most
            && x * Max(p.targetBlockMs, 1) <= Min(most * elapsed, U128_MAX)
  {
    RewardIsGreatestAllowed(p, genesis, ts, parentTs, minted, U64_MAX, None, x);
  }

  // ---- The band ----

  /** After a paid block the reward is what it would be without one, if that lies
      within the slew percentage of the last reward, and otherwise, to the satoshi,
      the end of that band it lies beyond: upwards as well as downwards. */
  lemma RewardStaysInBand(p: Params, genesis: u64, ts: u64, parentTs: u64, minted: u128, height: u64, last: u128)
    requires ts > genesis && last > 0
    ensures var r := Reward(p, genesis, ts, parentTs, minted, height, Some(last));
            var free := Reward(p, genesis, ts, parentTs, minted, height, None);
            var percent := Max(p.slewPercent, 1);
            var low, high := Min((100 - Min(percent, 100)) * last, U128_MAX), Min((100 + percent) * last, U128_MAX);
            && (low <= 100 * free <= high ==> r == free)
            && (100 * free > high ==> 100 * r <= high <= 100 * r + 99)
            && (100 * free < low ==> 100 * r <= low <= 100 * r + 99)
  {
    var t, elapsed := ts - genesis, Elapsed(parentTs, ts);
    SlewedToBand(Unslewed(p, t, elapsed, minted, height), last, p);
  }

  lemma SlewedToBand(free: nat, last: u128, p: Params)
    requires last > 0
    ensures var r, percent := Slewed(free, Some(last), p), Max(p.slewPercent, 1);
            var low, high := Min((100 - Min(percent, 100)) * last, U128_MAX), Min((100 + percent) * last, U128_MAX);
            && (low <= 100 * free <= high ==> r == free)
            && (100 * free > high ==> 100 * r <= high <= 100 * r + 99)
            && (100 * free < low ==> 100 * r <= low <= 100 * r + 99)
  {
    var percent := Max(p.slewPercent, 1);
    MulMonotone(100 - Min(percent, 100), 100 + percent, last);
    Hundredth(last, 100 + percent);
    Hundredth(last, 100 - Min(percent, 100));
    Between(free, Min((100 - Min(percent, 100)) * last, U128_MAX), Min((100 + percent) * last, U128_MAX));
  }

  lemma Hundredth(x: nat, percent: nat)
    ensures SatMul(x, percent) / 100 == Min(percent * x, U128_MAX) / 100
  {}

  lemma Between(free: nat, low: nat, high: nat)
    requires low <= high
    ensures var r := Max(low / 100, Min(free, high / 100));
            && (low <= 100 * free <= high ==> r == free)
            && (100 * free > high ==> 100 * r <= high <= 100 * r + 99)
            && (100 * free < low ==> 100 * r <= low <= 100 * r + 99)
  {}

  // ---- Out of the bootstrap phase ----

  const CLIMB: seq<Stamp> :=
    [Stamp(2015, 1_200_000), Stamp(2016, 1_800_000), Stamp(2017, 2_400_000), Stamp(2018, 3_000_000),
     Stamp(2019, 3_600_000)]

  function ClimbPaid(n: nat): u128 {
    if n == 1 then 2_500_000_000 else if n == 2 then 3_125_000_000 else if n == 3 then 3_906_250_000
    else if n == 4 then 4_882_812_500 else 5_000_000_000
  }

  function ClimbBooks(n: nat): Totals {
    if n == 0 then Totals(0, None)
    else if n == 1 then Totals(2_500_000_000, Some(2_500_000_000))
    else if n == 2 then Totals(5_625_000_000, Some(3_125_000_000))
    else if n == 3 then Totals(9_531_250_000, Some(3_906_250_000))
    else if n == 4 then Totals(14_414_062_500, Some(4_882_812_500))
    else Totals(19_414_062_500, Some(5_000_000_000))
  }

  lemma OnScheduleShare(p: Params, k: nat, elapsed: nat)
    requires p == BITCOIN_LIKE && 2 <= k <= 6 && 600_000 <= elapsed <= 1_200_000
    ensures EpochReward(600_000 * k, p) == 5_000_000_000 && Scheduled(600_000 * k, p) == 5_000_000_000 * k
    ensures TimeShare(p, 600_000 * k, elapsed) >= 5_000_000_000
  {
    BitcoinLikeEpochs();
    SchedulePaysWholeBlocks(600_000 * k, p, 0, 600_000 * k, k);
    DivUnique(600_000 * k, 126_000_000_000, 0, 600_000 * k);
  }

  lemma ClimbReward(p: Params, run: seq<Stamp>, n: nat)
    requires p == BITCOIN_LIKE && 0 < n <= 5 && run == CLIMB[..n]
    ensures var b, last := ClimbBooks(n - 1), run[n - 1];
            Reward(p, 0, last.timestamp, ParentTs(0, run, n - 1), b.minted, last.height, b.previous) == ClimbPaid(n)
  {
    var last, parentTs := run[n - 1], ParentTs(0, run, n - 1);
    assert last.timestamp == 600_000 * (n + 1);
    OnScheduleShare(p, n + 1, last.timestamp - parentTs);
  }

  lemma {:induction false} ClimbTotals(p: Params, run: seq<Stamp>, n: nat)
    requires p == BITCOIN_LIKE && run == CLIMB && n <= 5
    ensures RunTotals(p, 0, run[..n]) == ClimbBooks(n)
  {
    if n > 0 {
      ClimbTotals(p, run, n - 1);
      assert run[..n][..n - 1] == run[..n - 1];
      ClimbStep(p, run[..n], n);
    }
  }

  lemma ClimbStep(p: Params, run: seq<Stamp>, n: nat)
    requires p == BITCOIN_LIKE && 0 < n <= 5 && run == CLIMB[..n] && RunTotals(p, 0, run[..n - 1]) == ClimbBooks(n - 1)
    ensures RunTotals(p, 0, run) == ClimbBooks(n)
  {
    ClimbReward(p, run, n);
    RunStep(p, 0, run, ClimbBooks(n - 1), ClimbPaid(n));
  }

  /** On-schedule blocks across the bootstrap height: the last one of the phase
      earns half the era's reward, the next ones a quarter more each, and the
      fifth the era's reward in full. */
  lemma RewardsClimbBack() returns (p: Params, run: seq<Stamp>)
    ensures p == BITCOIN_LIKE && run == CLIMB && TimeOrdered(run) && run[0].height + 1 == p.bootstrapHeight
    ensures forall n :: 0 < n <= 5 ==> RunTotals(p, 0, run[..n]).previous == Some(ClimbPaid(n))
  {
    p, run := BITCOIN_LIKE, CLIMB;
    forall n | 0 < n <= 5 ensures RunTotals(p, 0, run[..n]).previous == Some(ClimbPaid(n)) { ClimbTotals(p, run, n); }
  }
}
