/**
  An account's share of the elastic limits, and the block-by-block adjustment of
  the limits themselves.
 */
module ElasticLimits {
  import opened ArenaTypes
  import opened ResourceUsage

  // ----- an account's share -------------------------------------------------

  datatype Limit = Limit(used: int, available: int, max: int, lastOrdinal: nat, currentUsed: int)

  /** The units a window can serve: the elastic limit over the window, capped for a greylisted account. */
  function Capacity(virtualLimit: nat, window: nat, paramMax: nat, greylistLimit: nat): nat
  {
    window * if Greylisted(virtualLimit, paramMax, greylistLimit) then paramMax * greylistLimit % U64 else virtualLimit
  }

  predicate Greylisted(virtualLimit: nat, paramMax: nat, greylistLimit: nat)
  {
    greylistLimit < MAX_ELASTIC_MULTIPLIER && paramMax * greylistLimit % U64 < virtualLimit
  }

  /** An account's part of the capacity, by weight. */
  function Share(capacity: nat, weight: nat, totalWeight: nat): nat
    requires totalWeight > 0
  {
    DivFloor(capacity * weight % U128, totalWeight)
  }

  /** What the account limits report; an account without a weight has no limit. */
  method LimitInfo(weight: int, totalWeight: nat, virtualLimit: nat, window: nat, paramMax: nat, usage: Usage,
                   greylistLimit: nat, slot: Option<nat>)
    returns (limit: Limit, greylisted: bool)
    requires window > 0
    ensures weight < 0 || totalWeight == 0 ==> limit == Limit(-1, -1, -1, usage.lastOrdinal, -1) && !greylisted
    ensures 0 <= weight && 0 < totalWeight ==>
              var max := Share(Capacity(virtualLimit, window, paramMax, greylistLimit), weight, totalWeight);
              && limit.max == AsI64(max)
              && limit.used == AsI64(Used(usage, window))
              && limit.available == AsI64(Available(max, Used(usage, window)))
              && limit.currentUsed == AsI64(if slot.Some? && slot.value > usage.lastOrdinal
                                            then Used(AddUsage(usage, 0, slot.value, window), window)
                                            else Used(usage, window))
              && limit.lastOrdinal == usage.lastOrdinal
              && greylisted == Greylisted(virtualLimit, paramMax, greylistLimit)
              && (max < I64_LIMIT && Used(usage, window) < I64_LIMIT ==>
                  limit.available == if limit.max <= limit.used then 0 else limit.max - limit.used)
  {
    hide DivCeil, DivFloor, AddUsage, AsI64;
    NothingAvailable();
    if weight < 0 || totalWeight == 0 {
      return Limit(-1, -1, -1, usage.lastOrdinal, -1), false;
    }
    greylisted := false;
    var capacity := window;
    if greylistLimit < MAX_ELASTIC_MULTIPLIER {
      var greylistedVirtual := paramMax * greylistLimit % U64;
      if greylistedVirtual < virtualLimit {
        capacity := capacity * greylistedVirtual;
        greylisted := true;
      } else {
        capacity := capacity * virtualLimit;
      }
    } else {
      capacity := capacity * virtualLimit;
    }
    var max := DivFloor(capacity * weight % U128, totalWeight);
    var used := DivCeil(usage.valueEx * window, PRECISION);
    var available := if max <= used then 0 else AsI64(max - used);
    if max < I64_LIMIT && used < I64_LIMIT {
      SmallAsI64(max);
      SmallAsI64(used);
      SmallAsI64(Available(max, used));
    }
    var currentUsed := used;
    if slot.Some? && slot.value > usage.lastOrdinal {
      var projected := new Accumulator(usage);
      projected.Add(0, slot.value, window);
      currentUsed := DivCeil(projected.valueEx * window, PRECISION);
    }
    limit := Limit(AsI64(used), available, AsI64(max), usage.lastOrdinal, AsI64(currentUsed));
  }

  lemma SmallAsI64(n: nat)
    requires n < I64_LIMIT
    ensures AsI64(n) == n
  {
  }

  lemma NothingAvailable()
    ensures AsI64(0) == 0
  {
  }

  /** A greylist never leaves an account more capacity than the elastic limit gives it. */
  lemma GreylistNeverRaises(virtualLimit: nat, window: nat, paramMax: nat, greylistLimit: nat)
    ensures Capacity(virtualLimit, window, paramMax, greylistLimit)
            <= Capacity(virtualLimit, window, paramMax, MAX_ELASTIC_MULTIPLIER)
    ensures Capacity(virtualLimit, window, paramMax, MAX_ELASTIC_MULTIPLIER) == window * virtualLimit
  {
    if Greylisted(virtualLimit, paramMax, greylistLimit) {
      MulMonoRight(paramMax * greylistLimit % U64, virtualLimit, window);
    }
  }

  /** Waiting never raises what an account has used. */
  lemma ProjectionShrinks(u: Usage, slot: nat, window: nat)
    requires window > 0 && u.valueEx < U64
    ensures Used(AddUsage(u, 0, slot, window), window) <= Used(u, window)
  {
    hide Contribution, AtOrdinal, Used;
    AtOrdinalShrinks(u, slot, window);
    NoContribution(window);
    SmallMod(AtOrdinal(u, slot, window), 0);
    UsedShrinks(AtOrdinal(u, slot, window), u, window);
    UsedOnlyValue(AddUsage(u, 0, slot, window), AtOrdinal(u, slot, window), window);
  }

  function Sum(s: seq<nat>): nat
  {
    if s == [] then 0 else Sum(s[..|s| - 1]) + s[|s| - 1]
  }

  function Shares(capacity: nat, weights: seq<nat>, totalWeight: nat): (shares: seq<nat>)
    requires totalWeight > 0
    ensures |shares| == |weights|
  {
    seq(|weights|, i requires 0 <= i < |weights| => Share(capacity, weights[i], totalWeight))
  }

  lemma {:induction false} SharesBound(capacity: nat, weights: seq<nat>, totalWeight: nat)
    requires totalWeight > 0
    ensures Sum(Shares(capacity, weights, totalWeight)) * totalWeight <= capacity * Sum(weights)
  {
    hide DivFloor, Share;
    if weights != [] {
      var n := |weights| - 1;
      var init, w := weights[..n], weights[n];
      SharesBound(capacity, init, totalWeight);
      assert Shares(capacity, weights, totalWeight)[..n] == Shares(capacity, init, totalWeight);
      OneShare(capacity, w, totalWeight);
      AddProducts(Sum(Shares(capacity, init, totalWeight)), Share(capacity, w, totalWeight), totalWeight);
      AddProducts(Sum(init), w, capacity);
      assert capacity * Sum(weights) == Sum(weights) * capacity;
      assert capacity * Sum(init) == Sum(init) * capacity;
    }
  }

  lemma AddProducts(a: nat, b: nat, c: nat)
    ensures (a + b) * c == a * c + b * c
  {
  }

  lemma OneShare(capacity: nat, weight: nat, totalWeight: nat)
    requires totalWeight > 0
    ensures Share(capacity, weight, totalWeight) * totalWeight <= capacity * weight
  {
    hide DivFloor;
    ModShrinks(capacity * weight);
  }

  /** A share is the weight's part of the capacity, rounded down and by less than one unit. */
  lemma ShareIsExact(capacity: nat, weight: nat, totalWeight: nat)
    requires totalWeight > 0 && capacity * weight < U128
    ensures var share := Share(capacity, weight, totalWeight);
            share * totalWeight <= capacity * weight < (share + 1) * totalWeight
  {
    hide DivFloor;
    SmallProduct(capacity * weight);
    AddProducts(Share(capacity, weight, totalWeight), 1, totalWeight);
  }

  lemma SmallProduct(n: nat)
    requires n < U128
    ensures n % U128 == n
  {
  }

  /** A greylisted account gets the window at the greylist's multiple of the base limit, when that is less. */
  lemma GreylistCaps(virtualLimit: nat, window: nat, paramMax: nat, greylistLimit: nat)
    requires paramMax * greylistLimit < U64
    ensures var capped := greylistLimit < MAX_ELASTIC_MULTIPLIER && paramMax * greylistLimit < virtualLimit;
            && Greylisted(virtualLimit, paramMax, greylistLimit) == capped
            && Capacity(virtualLimit, window, paramMax, greylistLimit) ==
               (if capped then window * (paramMax * greylistLimit) else window * virtualLimit)
  {
  }

  lemma ModShrinks(n: nat)
    ensures n % U128 <= n
  {
  }

  /**
    The shares handed out never add up to more than the capacity, while the weights
    add up to no more than the total.
   */
  lemma SharesFitCapacity(capacity: nat, weights: seq<nat>, totalWeight: nat)
    requires totalWeight > 0 && Sum(weights) <= totalWeight
    ensures Sum(Shares(capacity, weights, totalWeight)) <= capacity
  {
    hide Sum, Shares;
    SharesBound(capacity, weights, totalWeight);
    MulMono(Sum(weights), totalWeight, capacity);
    var s := Sum(Shares(capacity, weights, totalWeight));
    AddProducts(capacity, 1, totalWeight);
    assert capacity * Sum(weights) == Sum(weights) * capacity && capacity * totalWeight == totalWeight * capacity;
    Cancel(s, capacity + 1, totalWeight);
  }

  // ----- the elastic limits -------------------------------------------------

  datatype ElasticParams = ElasticParams(target: nat, max: nat, periods: nat, maxMultiplier: nat, contract: (nat, nat),
                                         expand: (nat, nat))

  predicate ParamsOK(p: ElasticParams)
  {
    p.periods > 0 && p.contract.1 > 0 && p.expand.1 > 0
  }

  function Cap(p: ElasticParams): nat
  {
    p.max * p.maxMultiplier
  }

  function Scaled(current: nat, ratio: (nat, nat)): nat
    requires ratio.1 > 0
  {
    DivFloor(current * ratio.0, ratio.1)
  }

  function Elastic(current: nat, average: nat, p: ElasticParams): nat
    requires ParamsOK(p)
  {
    var result := Scaled(current, if average > p.target then p.contract else p.expand) % U64;
    var raised := if result < p.max then p.max else result;
    var cap := Cap(p) % U64;
    if raised < cap then raised else cap
  }

  /** No product of the parameters leaves 64 bits while the limit is at most its cap. */
  predicate ParamsFit(p: ElasticParams)
  {
    && ParamsOK(p) && p.maxMultiplier >= 1 && Cap(p) < U64
    && Scaled(Cap(p), p.expand) < U64 && Scaled(Cap(p), p.contract) < U64
  }

  predicate InRange(limit: nat, p: ElasticParams)
  {
    p.max <= limit <= Cap(p)
  }

  /** One resource of the state row: the block average, the elastic limit and what the current block used. */
  datatype Block = Block(average: Usage, limit: nat, pending: nat)

  function BlockStep(b: Block, blockNum: nat, p: ElasticParams): Block
    requires ParamsOK(p)
  {
    var average := AddUsage(b.average, b.pending, blockNum, p.periods);
    Block(average, Elastic(b.limit, Average(average.valueEx), p), 0)
  }

  /** The state row's resource accounting. */
  class ResourceState {
    const averageCpu: Accumulator
    const averageNet: Accumulator
    var virtualCpu: nat
    var virtualNet: nat
    var pendingCpu: nat
    var pendingNet: nat

    ghost function Cpu(): Block
      reads this, averageCpu
    {
      Block(averageCpu.Value(), virtualCpu, pendingCpu)
    }

    ghost function Net(): Block
      reads this, averageNet
    {
      Block(averageNet.Value(), virtualNet, pendingNet)
    }

    constructor (cpuMax: nat, netMax: nat)
      ensures fresh(averageCpu) && fresh(averageNet) && averageCpu != averageNet
      ensures Cpu() == Block(Usage(0, 0, 0), cpuMax, 0) && Net() == Block(Usage(0, 0, 0), netMax, 0)
    {
      averageCpu := new Accumulator(Usage(0, 0, 0));
      averageNet := new Accumulator(Usage(0, 0, 0));
      virtualCpu, virtualNet, pendingCpu, pendingNet := cpuMax, netMax, 0, 0;
    }

    /** Folds the block's use into the averages and moves both limits. */
    method ProcessBlockUsage(blockNum: nat, cpu: ElasticParams, net: ElasticParams)
      requires averageCpu != averageNet && ParamsOK(cpu) && ParamsOK(net)
      modifies this, averageCpu, averageNet
      ensures Cpu() == BlockStep(old(Cpu()), blockNum, cpu) && Net() == BlockStep(old(Net()), blockNum, net)
      ensures pendingCpu == 0 && pendingNet == 0
    {
      hide AddUsage, Elastic, DivCeil;
      averageCpu.Add(pendingCpu, blockNum, cpu.periods);
      virtualCpu := Elastic(virtualCpu, Average(averageCpu.valueEx), cpu);
      pendingCpu := 0;
      averageNet.Add(pendingNet, blockNum, net.periods);
      virtualNet := Elastic(virtualNet, Average(averageNet.valueEx), net);
      pendingNet := 0;
    }
  }

  lemma MulMonoRight(a: nat, b: nat, c: nat)
    requires a <= b
    ensures c * a <= c * b
  {
  }

  /** Whatever the average and the limit before it, the limit ends up between its floor and its cap. */
  lemma ElasticInRange(current: nat, average: nat, p: ElasticParams)
    requires ParamsFit(p)
    ensures InRange(Elastic(current, average, p), p)
  {
    hide Scaled;
    MulMonoRight(1, p.maxMultiplier, p.max);
  }

  /**
    The new limit, by arithmetic alone: the old one times the contract ratio when
    use is above target and times the expand ratio otherwise, rounded down, and
    then no less than the floor and no more than the cap.
   */
  lemma ElasticExact(current: nat, average: nat, p: ElasticParams) returns (q: nat)
    requires ParamsFit(p) && InRange(current, p)
    ensures var (num, den) := if average > p.target then p.contract else p.expand;
            q * den <= current * num < (q + 1) * den
    ensures Elastic(current, average, p) == if q < p.max then p.max else if q < Cap(p) then q else Cap(p)
  {
    hide Scaled, Cap, InRange, Elastic;
    var ratio := if average > p.target then p.contract else p.expand;
    q := Scaled(current, ratio);
    ScaledExact(current, ratio);
    UpToCap(current, p);
    FloorAtMost(current, Cap(p), ratio);
    ElasticClamps(current, average, p);
  }

  lemma ElasticClamps(current: nat, average: nat, p: ElasticParams)
    requires ParamsFit(p)
    ensures var q := Scaled(current, if average > p.target then p.contract else p.expand);
            q < U64 ==>
            Elastic(current, average, p) == if q < p.max then p.max else if q < Cap(p) then q else Cap(p)
  {
    hide Scaled, Cap;
    FloorBelowCap(p);
  }

  lemma ScaledExact(current: nat, ratio: (nat, nat))
    requires ratio.1 > 0
    ensures var q := Scaled(current, ratio); q * ratio.1 <= current * ratio.0 < (q + 1) * ratio.1
  {
    hide DivFloor;
    AddProducts(Scaled(current, ratio), 1, ratio.1);
  }

  lemma UpToCap(current: nat, p: ElasticParams)
    requires InRange(current, p)
    ensures current <= Cap(p)
  {
  }

  lemma FloorBelowCap(p: ElasticParams)
    requires ParamsFit(p)
    ensures p.max <= Cap(p)
  {
    hide Scaled;
    MulMonoRight(1, p.maxMultiplier, p.max);
  }

  lemma ScalesUp(current: nat, ratio: (nat, nat))
    requires ratio.1 > 0 && ratio.0 >= ratio.1
    ensures Scaled(current, ratio) >= current
  {
    hide DivFloor;
    MulMonoRight(ratio.1, ratio.0, current);
    var q := DivFloor(current * ratio.0, ratio.1);
    AddProducts(q, 1, ratio.1);
    Cancel(current, q + 1, ratio.1);
  }

  /** With use at or below target and an expand ratio of at least 1, a limit in range does not fall. */
  lemma QuietNeverFalls(current: nat, average: nat, p: ElasticParams)
    requires ParamsFit(p) && InRange(current, p) && average <= p.target && p.expand.0 >= p.expand.1
    ensures Elastic(current, average, p) >= current
  {
    hide Scaled, Cap;
    ScalesUp(current, p.expand);
    FloorAtMost(current, Cap(p), p.expand);
  }

  /** With use above target and a contract ratio of at most 1, a limit in range does not rise. */
  lemma BusyNeverRises(current: nat, average: nat, p: ElasticParams)
    requires ParamsFit(p) && InRange(current, p) && p.target < average && p.contract.0 <= p.contract.1
    ensures Elastic(current, average, p) <= current
  {
    hide Scaled, Cap;
    ScalesDown(current, p.contract);
  }

  lemma ScalesDown(current: nat, ratio: (nat, nat))
    requires ratio.1 > 0 && ratio.0 <= ratio.1
    ensures Scaled(current, ratio) <= current
  {
    hide DivFloor;
    ScaleDown(current, ratio.0, ratio.1);
  }

  function Blocks(b: Block, from: nat, pendings: seq<nat>, p: ElasticParams): Block
    requires ParamsOK(p)
    decreases |pendings|
  {
    if pendings == [] then b else Blocks(BlockStep(b.(pending := pendings[0]), from, p), from + 1, pendings[1..], p)
  }

  /** The charges a run of blocks makes: each block's use at its number. */
  function BlockCharges(from: nat, pendings: seq<nat>): (charges: seq<Charge>)
    ensures |charges| == |pendings|
    ensures forall i :: 0 <= i < |charges| ==> charges[i] == Charge(pendings[i], from + i)
  {
    seq(|pendings|, i requires 0 <= i < |pendings| => Charge(pendings[i], from + i))
  }

  lemma {:induction false} AverageFollows(b: Block, from: nat, pendings: seq<nat>, p: ElasticParams)
    requires ParamsOK(p)
    ensures Blocks(b, from, pendings, p).average == AfterCharges(b.average, BlockCharges(from, pendings), p.periods)
    decreases |pendings|
  {
    hide AddUsage, Elastic;
    if pendings != [] {
      AverageFollows(BlockStep(b.(pending := pendings[0]), from, p), from + 1, pendings[1..], p);
      assert BlockCharges(from, pendings)[1..] == BlockCharges(from + 1, pendings[1..]);
    }
  }

  /**
    Over every run of blocks the average the limit follows is within a millionth a
    block of the exact decaying sum of what the blocks used.
   */
  lemma AverageTracksUse(b: Block, from: nat, pendings: seq<nat>, p: ElasticParams)
    requires ParamsOK(p) && StaysSmall(b.average, BlockCharges(from, pendings), p.periods)
    ensures var exact := ExactAfter(b.average.valueEx as real, b.average.lastOrdinal, BlockCharges(from, pendings),
                                    p.periods);
            Near(Blocks(b, from, pendings, p).average.valueEx, exact, |pendings| as real)
  {
    hide Blocks, AfterCharges, ExactAfter, StaysSmall;
    AverageFollows(b, from, pendings, p);
    TracksExactAverage(b.average, b.average.valueEx as real, 0.0, BlockCharges(from, pendings), p.periods);
  }

  /** After every block of every run the limit is between its floor and its cap. */
  lemma {:induction false} LimitStaysInRange(b: Block, from: nat, pendings: seq<nat>, p: ElasticParams)
    requires ParamsFit(p) && (pendings == [] ==> InRange(b.limit, p))
    ensures InRange(Blocks(b, from, pendings, p).limit, p)
    decreases |pendings|
  {
    hide ParamsFit, ParamsOK, InRange, Elastic, AddUsage;
    FitIsOK(p);
    if pendings != [] {
      var b' := b.(pending := pendings[0]);
      ElasticInRange(b'.limit, Average(AddUsage(b'.average, b'.pending, from, p.periods).valueEx), p);
      LimitStaysInRange(BlockStep(b', from, p), from + 1, pendings[1..], p);
    }
  }

  lemma FitIsOK(p: ElasticParams)
    requires ParamsFit(p)
    ensures ParamsOK(p) && p.periods > 0
  {
  }

  // ----- empty blocks -------------------------------------------------------

  /** `n` consecutive blocks that used nothing. */
  function Empties(b: Block, from: nat, n: nat, p: ElasticParams): Block
    requires ParamsOK(p)
    decreases n
  {
    if n == 0 then b else Empties(BlockStep(b.(pending := 0), from, p), from + 1, n - 1, p)
  }

  /** The expand ratio moves every limit from the floor up by at least one. */
  predicate Expands(p: ElasticParams)
  {
    p.expand.0 > p.expand.1 && p.max * (p.expand.0 - p.expand.1) >= p.expand.1
  }

  lemma DecayStrictly(v: nat, window: nat)
    requires 0 < v < U64 && window > 0
    ensures Decay(v, 1, window) < v
  {
    hide DivFloor;
    OneLess(v, window);
    if 1 < window {
      Cancel(DivFloor(v * (window - 1), window), v, window);
    }
  }

  lemma OneLess(v: nat, w: nat)
    requires w > 0
    ensures v * (w - 1) == v * w - v
  {
  }

  /** An empty block right after the last one lowers a positive average, and keeps a zero one. */
  lemma EmptyLowers(u: Usage, window: nat)
    requires window > 0 && u.valueEx < U64
    ensures var u' := AddUsage(u, 0, u.lastOrdinal + 1, window);
            && u'.lastOrdinal == u.lastOrdinal + 1 && u'.valueEx < U64
            && (u.valueEx > 0 ==> u'.valueEx < u.valueEx) && (u.valueEx == 0 ==> u'.valueEx == 0)
  {
    hide Contribution, Decay;
    NoContribution(window);
    var v := Decay(u.valueEx, 1, window);
    SmallMod(v, 0);
    if u.valueEx > 0 {
      DecayStrictly(u.valueEx, window);
    }
  }

  /** Any first block leaves its own number behind and does not raise the average. */
  lemma FirstEmpty(u: Usage, ordinal: nat, window: nat)
    requires window > 0 && u.valueEx < U64
    ensures var u' := AddUsage(u, 0, ordinal, window); u'.lastOrdinal == ordinal && u'.valueEx <= u.valueEx < U64
  {
    hide Contribution, AtOrdinal;
    NoContribution(window);
    AtOrdinalShrinks(u, ordinal, window);
    SmallMod(AtOrdinal(u, ordinal, window), 0);
  }

  lemma GrowsByOne(current: nat, p: ElasticParams)
    requires ParamsOK(p) && Expands(p) && p.max <= current
    ensures Scaled(current, p.expand) >= current + 1
  {
    hide DivFloor;
    var (num, den) := p.expand;
    var q := DivFloor(current * num, den);
    MulMono(p.max, current, num - den);
    assert current * num == current * (num - den) + current * den;
    AddProducts(current, 1, den);
    AddProducts(q, 1, den);
    Cancel(current + 1, q + 1, den);
    MulMono(current + 1, q + 1, den);
  }

  lemma FloorAtMost(current: nat, cap: nat, ratio: (nat, nat))
    requires ratio.1 > 0 && current <= cap
    ensures Scaled(current, ratio) <= Scaled(cap, ratio)
  {
    hide DivFloor;
    MulMono(current, cap, ratio.0);
    FloorMono(current * ratio.0, cap * ratio.0, ratio.1);
  }

  /** With use at or below target, a limit below the cap rises and a limit at the cap stays. */
  lemma QuietRises(current: nat, average: nat, p: ElasticParams)
    requires ParamsFit(p) && Expands(p) && InRange(current, p) && average <= p.target
    ensures var next := Elastic(current, average, p);
            InRange(next, p) && (current < Cap(p) ==> next > current) && (current == Cap(p) ==> next == current)
  {
    hide Scaled, Cap, Expands;
    GrowsByOne(current, p);
    FloorAtMost(current, Cap(p), p.expand);
    ElasticInRange(current, average, p);
  }

  lemma ZeroAverage()
    ensures Average(0) == 0
  {
  }

  lemma {:induction false} AtRest(b: Block, from: nat, n: nat, p: ElasticParams)
    requires ParamsFit(p) && Expands(p) && InRange(b.limit, p) && b.average.valueEx == 0
    requires b.average.lastOrdinal + 1 == from
    requires n >= Cap(p) - b.limit
    ensures var r := Empties(b, from, n, p); r.average.valueEx == 0 && r.limit == Cap(p)
    decreases n
  {
    hide ParamsFit, ParamsOK, Expands, Elastic, AddUsage, Average;
    FitIsOK(p);
    if n > 0 {
      EmptyLowers(b.average, p.periods);
      ZeroAverage();
      QuietRises(b.limit, 0, p);
      AtRest(BlockStep(b.(pending := 0), from, p), from + 1, n - 1, p);
    }
  }

  lemma {:induction false} Drains(b: Block, from: nat, n: nat, p: ElasticParams)
    requires ParamsFit(p) && Expands(p) && InRange(b.limit, p) && b.average.valueEx < U64
    requires b.average.lastOrdinal + 1 == from
    requires n >= b.average.valueEx + Cap(p) - p.max
    ensures var r := Empties(b, from, n, p); r.average.valueEx == 0 && r.limit == Cap(p)
    decreases n
  {
    hide ParamsFit, ParamsOK, Expands, Elastic, AddUsage, Average;
    FitIsOK(p);
    if b.average.valueEx == 0 {
      AtRest(b, from, n, p);
    } else {
      RangeOrder(b.limit, p);
      EmptyLowers(b.average, p.periods);
      var next := BlockStep(b.(pending := 0), from, p);
      ElasticInRange(b.limit, Average(next.average.valueEx), p);
      Drains(next, from + 1, n - 1, p);
    }
  }

  lemma RangeOrder(limit: nat, p: ElasticParams)
    requires InRange(limit, p)
    ensures p.max <= Cap(p)
  {
  }

  /**
    A long enough run of consecutive empty blocks, at any block numbers, drives
    the average to zero and the limit to its cap, and there they stay.
   */
  lemma EmptyBlocksReachCap(b: Block, from: nat, n: nat, p: ElasticParams)
    requires ParamsFit(p) && Expands(p) && b.average.valueEx < U64
    requires n > b.average.valueEx + Cap(p) - p.max
    ensures var r := Empties(b, from, n, p); Average(r.average.valueEx) == 0 && r.limit == Cap(p)
  {
    hide ParamsFit, ParamsOK, Expands, Elastic, AddUsage, Average;
    FitIsOK(p);
    ElasticInRange(b.limit, Average(AddUsage(b.average, 0, from, p.periods).valueEx), p);
    var first := BlockStep(b.(pending := 0), from, p);
    RangeOrder(first.limit, p);
    FirstEmpty(b.average, from, p.periods);
    Drains(first, from + 1, n - 1, p);
    ZeroAverage();
  }
}
