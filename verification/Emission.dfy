/** The subsidy schedule (src/protocol.rs): per-block rewards, the epoch loop that totals them,
    and the cap that the total respects. */
module Emission {
  import opened Arithmetic
  import opened Types

  const COIN: u64 := 100_000_000
  const INITIAL_REWARD_UNITS: u64 := 100 * COIN
  const MAX_SUPPLY_COINS: u64 := 420_480_000
  const MAX_SUPPLY_UNITS: u64 := MAX_SUPPLY_COINS * COIN
  const HALVING_INTERVAL_BLOCKS: u64 := MAX_SUPPLY_UNITS / (2 * INITIAL_REWARD_UNITS)

  datatype EmissionSchedule = EmissionSchedule(
    maximumSupply: u64,
    halvingInterval: u64,
    initialReward: u64,
    maxHalvings: u32,
    finalRewardBlock: u64,
    totalSubsidyBlocks: u64)
  {
    /** A zero interval divides by zero; 64 or more halvings shift a u64 out of range. */
    predicate Valid() {
      halvingInterval > 0 && maxHalvings <= 64
    }
  }

  /** EmissionSchedule::new */
  function NewSchedule(maximumSupply: u64, halvingInterval: u64, initialReward: u64, maxHalvings: u32)
    : EmissionSchedule
  {
    var final := SaturatingMul(halvingInterval, maxHalvings);
    EmissionSchedule(maximumSupply, halvingInterval, initialReward, maxHalvings, final, final)
  }

  const DEFAULT: EmissionSchedule :=
    NewSchedule(MAX_SUPPLY_UNITS, HALVING_INTERVAL_BLOCKS, INITIAL_REWARD_UNITS, 34)

  /** `reward >> count` */
  function Halve(reward: nat, count: nat): nat {
    if count == 0 then reward else Halve(reward, count - 1) / 2
  }

  lemma {:induction false} HalveShrinks(reward: nat, count: nat)
    ensures Halve(reward, count) <= reward
  {
    if count > 0 {
      HalveShrinks(reward, count - 1);
    }
  }

  lemma {:induction false} HalveStaysZero(reward: nat, count: nat, later: nat)
    requires Halve(reward, count) == 0 && count <= later
    ensures Halve(reward, later) == 0
  {
    if count < later {
      HalveStaysZero(reward, count, later - 1);
    }
  }

  /** EmissionSchedule::block_reward */
  function BlockReward(s: EmissionSchedule, height: nat): u64
    requires s.Valid()
  {
    HalveShrinks(s.initialReward, height / s.halvingInterval);
    if height / s.halvingInterval >= s.maxHalvings then 0
    else Halve(s.initialReward, height / s.halvingInterval)
  }

  /** The subsidy of the first `n` blocks, one block at a time. */
  function Issued(s: EmissionSchedule, n: nat): nat
    requires s.Valid()
  {
    if n == 0 then 0 else Issued(s, n - 1) + BlockReward(s, n - 1)
  }

  lemma {:induction false} RewardInEpoch(s: EmissionSchedule, epoch: nat, offset: nat, height: nat)
    requires s.Valid() && epoch < s.maxHalvings && offset < s.halvingInterval
    requires height == epoch * s.halvingInterval + offset
    ensures BlockReward(s, height) == Halve(s.initialReward, epoch)
  {
    Quotient(s.halvingInterval, epoch, offset);
  }

  /** Blocks of one epoch all pay the same reward. */
  lemma {:induction false} EpochTotal(s: EmissionSchedule, epoch: nat, start: nat, blocks: nat)
    requires s.Valid() && epoch < s.maxHalvings && blocks <= s.halvingInterval
    requires start == epoch * s.halvingInterval
    ensures Issued(s, start + blocks) == Issued(s, start) + Halve(s.initialReward, epoch) * blocks
  {
    if blocks > 0 {
      EpochTotal(s, epoch, start, blocks - 1);
      RewardInEpoch(s, epoch, blocks - 1, start + blocks - 1);
      MulAdd(blocks - 1, 1, Halve(s.initialReward, epoch));
      assert Issued(s, start + blocks) == Issued(s, start + blocks - 1) + BlockReward(s, start + blocks - 1);
    }
  }

  /** Nothing is issued after a point from which every reward is zero. */
  lemma {:induction false} NothingAfter(s: EmissionSchedule, from: nat, n: nat)
    requires s.Valid() && from <= n
    requires forall i :: from <= i < n ==> BlockReward(s, i) == 0
    ensures Issued(s, n) == Issued(s, from)
  {
    if from < n {
      NothingAfter(s, from, n - 1);
    }
  }

  lemma {:induction false} IssuedMonotone(s: EmissionSchedule, m: nat, n: nat)
    requires s.Valid() && m <= n
    ensures Issued(s, m) <= Issued(s, n)
  {
    if m < n {
      IssuedMonotone(s, m, n - 1);
    }
  }

  /** From the epoch on in which the reward has become zero, every block pays nothing. */
  lemma {:induction false} ZeroFromEpoch(s: EmissionSchedule, epoch: nat, n: nat)
    requires s.Valid() && epoch * s.halvingInterval <= n
    requires epoch >= s.maxHalvings || Halve(s.initialReward, epoch) == 0
    ensures Issued(s, n) == Issued(s, epoch * s.halvingInterval)
  {
    forall i | epoch * s.halvingInterval <= i < n
      ensures BlockReward(s, i) == 0
    {
      QuotientAtLeast(s.halvingInterval, epoch, i);
      if epoch < s.maxHalvings {
        HalveStaysZero(s.initialReward, epoch, i / s.halvingInterval);
      }
    }
    NothingAfter(s, epoch * s.halvingInterval, n);
  }

  lemma RewardAtMostInitial(s: EmissionSchedule, height: nat)
    requires s.Valid()
    ensures BlockReward(s, height) <= s.initialReward
  {
    HalveShrinks(s.initialReward, height / s.halvingInterval);
  }

  lemma {:induction false} IssuedAtMost(s: EmissionSchedule, n: nat)
    requires s.Valid()
    ensures Issued(s, n) <= n * s.initialReward
  {
    if n > 0 {
      IssuedAtMost(s, n - 1);
      RewardAtMostInitial(s, n - 1);
      MulAdd(n - 1, 1, s.initialReward);
    }
  }

  lemma ProductFits(a: u64, b: u64)
    ensures a * b < U128_LIMIT
  {
    MulMonotone(a, U64_LIMIT - 1, b);
  }

  lemma {:induction false} IssuedFits(s: EmissionSchedule, n: u64)
    requires s.Valid()
    ensures Issued(s, n) < U128_LIMIT
  {
    IssuedAtMost(s, n);
    ProductFits(n, s.initialReward);
  }

  /** EmissionSchedule::issued_through: the loop over whole epochs computes the block-by-block sum, and no
      step of it leaves u128. Only `height + 1` can overflow: it then traps, or wraps to no blocks at all. */
  method IssuedThrough(s: EmissionSchedule, overflowChecks: bool, height: u64) returns (r: Result<u128>)
    requires s.Valid()
    ensures r ==
      if height < MAX_U64 then Ok(Issued(s, height + 1)) else if overflowChecks then Trap else Ok(0)
  {
    if height == MAX_U64 {
      return if overflowChecks then Trap else Ok(0);
    }
    var blocks: u64 := height + 1;
    var total: u128 := 0;
    var remaining: u64 := blocks;
    var reward: u128 := s.initialReward;
    var halvings: u32 := 0;
    while remaining > 0 && halvings < s.maxHalvings
      invariant remaining <= blocks && halvings <= s.maxHalvings
      invariant reward == Halve(s.initialReward, halvings)
      invariant total == Issued(s, blocks - remaining)
      invariant remaining == 0 || blocks - remaining == halvings * s.halvingInterval
      decreases s.maxHalvings - halvings
    {
      var epochBlocks := if s.halvingInterval < remaining then s.halvingInterval else remaining;
      EpochTotal(s, halvings, blocks - remaining, epochBlocks);
      IssuedFits(s, blocks - remaining + epochBlocks);
      MulAdd(halvings, 1, s.halvingInterval);
      total := total + reward * epochBlocks;
      remaining := remaining - epochBlocks;
      halvings := halvings + 1;
      reward := reward / 2;
      if reward == 0 {
        break;
      }
    }
    if remaining > 0 {
      ZeroFromEpoch(s, halvings, blocks);
    }
    r := Ok(total);
  }

  /** What is issued before block `offset` of an epoch, plus twice the rest of that epoch's budget,
      never rises. */
  lemma {:induction false} BudgetLeft(s: EmissionSchedule, epoch: nat, offset: nat, n: nat)
    requires s.Valid() && epoch < s.maxHalvings && offset < s.halvingInterval
    requires n == epoch * s.halvingInterval + offset
    ensures Issued(s, n) + Halve(s.initialReward, epoch) * (2 * s.halvingInterval - offset)
         <= 2 * s.initialReward * s.halvingInterval
    decreases n
  {
    var interval, reward := s.halvingInterval, Halve(s.initialReward, epoch);
    if offset > 0 {
      BudgetLeft(s, epoch, offset - 1, n - 1);
      RewardInEpoch(s, epoch, offset - 1, n - 1);
      MulAdd(2 * interval - offset, 1, reward);
    } else if epoch > 0 {
      MulAdd(epoch - 1, 1, interval);
      BudgetLeft(s, epoch - 1, interval - 1, n - 1);
      RewardInEpoch(s, epoch - 1, interval - 1, n - 1);
      HalvedBudget(Halve(s.initialReward, epoch - 1), reward, interval);
    } else {
      SwapFactors(s.initialReward, interval);
    }
  }

  lemma HalvedBudget(reward: nat, next: nat, interval: nat)
    requires 2 * next <= reward && interval > 0
    ensures next * (2 * interval - 0) + reward <= reward * (2 * interval - (interval - 1))
  {
    SwapFactors(next, interval);
    MulMonotone(2 * next, reward, interval);
    MulAdd(interval, 1, reward);
  }

  /** Issuance stops at `final_reward_block`. */
  lemma {:induction false} IssuedFinal(s: EmissionSchedule, n: nat)
    requires s.Valid() && s.maxHalvings * s.halvingInterval <= n
    ensures Issued(s, n) == Issued(s, s.maxHalvings * s.halvingInterval)
  {
    ZeroFromEpoch(s, s.maxHalvings, n);
  }

  lemma IssuedWithin(s: EmissionSchedule, epoch: nat, offset: nat, n: nat)
    requires s.Valid() && epoch < s.maxHalvings && offset < s.halvingInterval
    requires n == epoch * s.halvingInterval + offset
    ensures Issued(s, n + 1) <= 2 * s.initialReward * s.halvingInterval
  {
    BudgetLeft(s, epoch, offset, n);
    RewardInEpoch(s, epoch, offset, n);
    MulMonotone(1, 2 * s.halvingInterval - offset, Halve(s.initialReward, epoch));
  }

  /** No schedule issues more than twice its initial reward times its interval. */
  lemma {:induction false} IssuedBounded(s: EmissionSchedule, n: nat)
    requires s.Valid()
    ensures Issued(s, n) <= 2 * s.initialReward * s.halvingInterval
  {
    var last := s.maxHalvings * s.halvingInterval;
    if n > last {
      IssuedFinal(s, n);
      IssuedBounded(s, last);
    } else if n > 0 {
      var epoch, offset := (n - 1) / s.halvingInterval, (n - 1) % s.halvingInterval;
      Division(n - 1, s.halvingInterval);
      if epoch >= s.maxHalvings {
        MulMonotone(s.maxHalvings, epoch, s.halvingInterval);
      }
      IssuedWithin(s, epoch, offset, n - 1);
    }
  }

  /** The rewards of the first `epochs` epochs, one per epoch. */
  function EpochRewards(reward: nat, epochs: nat): nat {
    if epochs == 0 then 0 else EpochRewards(reward, epochs - 1) + Halve(reward, epochs - 1)
  }

  lemma {:induction false} WholeEpochs(s: EmissionSchedule, epochs: nat)
    requires s.Valid() && epochs <= s.maxHalvings
    ensures Issued(s, epochs * s.halvingInterval) == EpochRewards(s.initialReward, epochs) * s.halvingInterval
  {
    if epochs > 0 {
      WholeEpochs(s, epochs - 1);
      EpochTotal(s, epochs - 1, (epochs - 1) * s.halvingInterval, s.halvingInterval);
      MulAdd(EpochRewards(s.initialReward, epochs - 1), Halve(s.initialReward, epochs - 1), s.halvingInterval);
      MulAdd(epochs - 1, 1, s.halvingInterval);
    }
  }

  lemma {:induction false} OneEpoch(reward: nat, more: nat)
    ensures Halve(reward, more + 1) == Halve(reward / 2, more)
    ensures EpochRewards(reward, more + 1) == reward + EpochRewards(reward / 2, more)
  {
    if more > 0 {
      OneEpoch(reward, more - 1);
    }
  }

  lemma FourEpochs(r0: nat, r1: nat, r2: nat, r3: nat, next: nat, more: nat)
    requires r1 == r0 / 2 && r2 == r1 / 2 && r3 == r2 / 2 && next == r3 / 2
    ensures EpochRewards(r0, more + 4) == r0 + r1 + r2 + r3 + EpochRewards(next, more)
  {
    OneEpoch(r0, more + 3);
    OneEpoch(r1, more + 2);
    OneEpoch(r2, more + 1);
    OneEpoch(r3, more);
  }

  /** The epoch rewards of the default schedule, four at a time. */
  lemma {:induction false} DefaultEpochs(epochs: nat)
    requires epochs >= 32
    ensures EpochRewards(INITIAL_REWARD_UNITS, epochs) == 19_999_999_986 + EpochRewards(2, epochs - 32)
  {
    FourEpochs(10000000000, 5000000000, 2500000000, 1250000000, 625000000, epochs - 4);
    FourEpochs(625000000, 312500000, 156250000, 78125000, 39062500, epochs - 8);
    FourEpochs(39062500, 19531250, 9765625, 4882812, 2441406, epochs - 12);
    FourEpochs(2441406, 1220703, 610351, 305175, 152587, epochs - 16);
    FourEpochs(152587, 76293, 38146, 19073, 9536, epochs - 20);
    FourEpochs(9536, 4768, 2384, 1192, 596, epochs - 24);
    FourEpochs(596, 298, 149, 74, 37, epochs - 28);
    FourEpochs(37, 18, 9, 4, 2, epochs - 32);
  }

  /** The default schedule stays under its cap at every height, and what it issues in the end is
      19,999,999,989 times 2,102,400 units: short of the advertised exact cap. */
  lemma {:induction false} DefaultSupply(n: nat)
    ensures DEFAULT.Valid() && DEFAULT.finalRewardBlock == 34 * 2_102_400
    ensures Issued(DEFAULT, n) <= 19_999_999_989 * 2_102_400 < DEFAULT.maximumSupply
    ensures n >= DEFAULT.finalRewardBlock ==> Issued(DEFAULT, n) == 19_999_999_989 * 2_102_400
  {
    var last := 34 * 2_102_400;
    DefaultEpochs(34);
    WholeEpochs(DEFAULT, 34);
    if n >= last {
      IssuedFinal(DEFAULT, n);
    } else {
      IssuedMonotone(DEFAULT, n, last);
    }
  }
}
