/**
  Net and cpu accounting: the moving-average accumulator, what an account may
  still use of its share, and the elastic limits that follow the block average.
 */
module ResourceUsage {

  const U64: nat := 0x1_0000_0000_0000_0000
  const I64_LIMIT: nat := 0x8000_0000_0000_0000
  const U128: nat := 0x1_0000_0000_0000_0000_0000_0000_0000_0000
  const PRECISION: nat := 1_000_000
  const MAX_ELASTIC_MULTIPLIER: nat := 1000

  function DivFloor(num: nat, den: nat): (q: nat)
    requires den > 0
    ensures q * den <= num < q * den + den
  {
    num / den
  }

  function DivCeil(num: nat, den: nat): (q: nat)
    requires den > 0
    ensures num <= q * den < num + den
  {
    num / den + if num % den == 0 then 0 else 1
  }

  lemma MulMono(a: nat, b: nat, c: nat)
    requires a <= b
    ensures a * c <= b * c
  {
  }

  lemma Cancel(a: nat, b: nat, c: nat)
    ensures a * c < b * c ==> a < b
  {
    if b <= a {
      MulMono(b, a, c);
    }
  }

  lemma FloorMono(a: nat, b: nat, den: nat)
    requires a <= b && den > 0
    ensures DivFloor(a, den) <= DivFloor(b, den)
  {
    hide DivFloor;
    var p, q := DivFloor(a, den), DivFloor(b, den);
    assert (q + 1) * den == q * den + den;
    Cancel(p, q + 1, den);
  }

  lemma CeilMono(a: nat, b: nat, den: nat)
    requires a <= b && den > 0
    ensures DivCeil(a, den) <= DivCeil(b, den)
  {
    hide DivCeil;
    var p, q := DivCeil(a, den), DivCeil(b, den);
    assert (q + 1) * den == q * den + den;
    Cancel(p, q + 1, den);
  }

  lemma CeilAdd(whole: nat, part: nat, den: nat)
    requires den > 0
    ensures DivCeil(whole * den + part, den) == whole + DivCeil(part, den)
  {
    hide DivCeil;
    var q, c := DivCeil(whole * den + part, den), DivCeil(part, den);
    assert (whole + c) * den == whole * den + c * den;
    assert (whole + c + 1) * den == (whole + c) * den + den;
    assert (q + 1) * den == q * den + den;
    Cancel(q, whole + c + 1, den);
    Cancel(whole + c, q + 1, den);
  }

  // ----- the accumulator ----------------------------------------------------

  datatype Usage = Usage(valueEx: nat, consumed: nat, lastOrdinal: nat)

  function Average(valueEx: nat): nat
  {
    DivCeil(valueEx, PRECISION)
  }

  /** What is left of an average after `delta` of `window` ordinals. */
  function Decay(valueEx: nat, delta: nat, window: nat): (v: nat)
    requires window > 0
    ensures v <= valueEx
  {
    if delta == 0 then valueEx
    else if delta < window then
      ScaleDown(valueEx, window - delta, window);
      DivFloor(valueEx * (window - delta), window)
    else 0
  }

  lemma ScaleDown(v: nat, num: nat, den: nat)
    requires num <= den && den > 0
    ensures DivFloor(v * num, den) <= v
  {
    hide DivFloor;
    MulMono(num, den, v);
    var q := DivFloor(v * num, den);
    assert (v + 1) * den == v * den + den;
    Cancel(q, v + 1, den);
  }

  /** The average once it is `ordinal`'s turn; a step backwards starts over. */
  function AtOrdinal(u: Usage, ordinal: nat, window: nat): nat
    requires window > 0
  {
    if ordinal < u.lastOrdinal then 0 else Decay(u.valueEx, ordinal - u.lastOrdinal, window)
  }

  function Contribution(units: nat, window: nat): nat
    requires window > 0
  {
    DivCeil(units * PRECISION, window)
  }

  /** The accumulator after `units` more at `ordinal`, in 64-bit arithmetic. */
  function AddUsage(u: Usage, units: nat, ordinal: nat, window: nat): Usage
    requires window > 0
  {
    var v := AtOrdinal(u, ordinal, window);
    Usage((v + Contribution(units, window) % U64) % U64,
          ((if ordinal < u.lastOrdinal then 0 else if ordinal == u.lastOrdinal then u.consumed else Average(v))
           + units) % U64,
          ordinal)
  }

  /** The accumulator of one resource; it is updated in place. */
  class Accumulator {
    var valueEx: nat
    var consumed: nat
    var lastOrdinal: nat

    ghost function Value(): Usage
      reads this
    {
      Usage(valueEx, consumed, lastOrdinal)
    }

    constructor (u: Usage)
      ensures Value() == u
    {
      valueEx, consumed, lastOrdinal := u.valueEx, u.consumed, u.lastOrdinal;
    }

    method Add(units: nat, ordinal: nat, window: nat)
      requires window > 0
      modifies this
      ensures Value() == AddUsage(old(Value()), units, ordinal, window)
    {
      hide DivFloor, DivCeil;
      if ordinal < lastOrdinal {
        valueEx, consumed, lastOrdinal := 0, 0, ordinal;
      }
      var contribution := DivCeil(units * PRECISION, window) % U64;
      if lastOrdinal != ordinal {
        if lastOrdinal + window > ordinal {
          var delta := ordinal - lastOrdinal;
          valueEx := DivFloor(valueEx * (window - delta), window);
        } else {
          valueEx := 0;
        }
        lastOrdinal := ordinal;
        consumed := DivCeil(valueEx, PRECISION);
      }
      consumed := (consumed + units) % U64;
      valueEx := (valueEx + contribution) % U64;
    }
  }

  // ----- what an account may use --------------------------------------------

  /** What an account has used of its window, rounded up to whole units. */
  function Used(u: Usage, window: nat): nat
  {
    DivCeil(u.valueEx * window, PRECISION)
  }

  /** A 64-bit pattern read as a signed number. */
  function AsI64(n: nat): (i: int)
    ensures i <= n
  {
    if n % U64 < I64_LIMIT then n % U64 else n % U64 - U64
  }

  function Available(max: nat, used: nat): nat
  {
    if max <= used then 0 else max - used
  }

  /** How much more than `units` a charge adds to the window, through rounding, in millionths. */
  function Excess(units: nat, window: nat): (x: nat)
    requires window > 0
    ensures x < window
  {
    Contribution(units, window) * window - units * PRECISION
  }

  /** The charge below `n` units, if any, that rounding favours most. */
  function WorstBelow(n: nat, window: nat): (units: nat)
    requires window > 0
    ensures forall u :: 0 <= u < n ==> Excess(u, window) <= Excess(units, window)
    ensures n > 0 ==> units < n
  {
    if n <= 1 then 0
    else
      var units := WorstBelow(n - 1, window);
      if Excess(units, window) < Excess(n - 1, window) then n - 1 else units
  }

  /** How far rounding can carry the reported use above its limit. */
  function Slack(window: nat): nat
    requires window > 0
  {
    DivCeil(Excess(WorstBelow(window, window), window), PRECISION)
  }

  lemma {:induction false} ExcessPeriodic(units: nat, k: nat, window: nat)
    requires window > 0
    ensures Excess(units + k * window, window) == Excess(units, window)
    decreases k
  {
    hide DivCeil;
    if k > 0 {
      ExcessPeriodic(units, k - 1, window);
      var u := units + (k - 1) * window;
      assert units + k * window == u + window;
      assert (u + window) * PRECISION == PRECISION * window + u * PRECISION;
      CeilAdd(PRECISION, u * PRECISION, window);
      assert (PRECISION + Contribution(u, window)) * window == PRECISION * window + Contribution(u, window) * window;
    }
  }

  /** In numbers: at most one unit for every million ordinals of the window, or part of them. */
  lemma SlackBound(window: nat)
    requires window > 0
    ensures Slack(window) <= DivCeil(window - 1, PRECISION)
  {
    hide DivCeil, Excess, WorstBelow;
    CeilMono(Excess(WorstBelow(window, window), window), window - 1, PRECISION);
  }

  /** No charge of any size is favoured more by rounding than some charge below the window's length. */
  lemma ExcessAtMostWorst(units: nat, window: nat)
    requires window > 0
    ensures Excess(units, window) <= Excess(WorstBelow(window, window), window)
  {
    hide Excess, WorstBelow;
    var k, u := units / window, units % window;
    assert units == u + k * window;
    ExcessPeriodic(u, k, window);
  }

  /** The limit leaves the accumulator inside 64 bits. */
  predicate LimitFits(max: nat, window: nat)
  {
    max * PRECISION + window < U64 * window
  }

  datatype Charge = Charge(units: nat, ordinal: nat)

  /** Every charge is at most what was reported available just before it. */
  ghost predicate Allowed(u: Usage, charges: seq<Charge>, max: nat, window: nat)
    requires window > 0
    decreases |charges|
  {
    charges == [] ||
    (charges[0].units <= Available(max, Used(u, window))
     && Allowed(AddUsage(u, charges[0].units, charges[0].ordinal, window), charges[1..], max, window))
  }

  function AfterCharges(u: Usage, charges: seq<Charge>, window: nat): Usage
    requires window > 0
    decreases |charges|
  {
    if charges == [] then u
    else AfterCharges(AddUsage(u, charges[0].units, charges[0].ordinal, window), charges[1..], window)
  }

  lemma AtOrdinalShrinks(u: Usage, ordinal: nat, window: nat)
    requires window > 0
    ensures AtOrdinal(u, ordinal, window) <= u.valueEx
  {
  }

  /** What one charge adds to the window, before rounding to whole units. */
  lemma ChargeBound(v: nat, was: nat, units: nat, used: nat, window: nat)
    requires window > 0 && v <= was && was * window <= used * PRECISION
    ensures (v + Contribution(units, window)) * window <= (used + units) * PRECISION
            + Excess(WorstBelow(window, window), window)
  {
    hide WorstBelow, Contribution;
    var c := Contribution(units, window);
    MulMono(v, was, window);
    ExcessAtMostWorst(units, window);
    assert (v + c) * window == v * window + c * window;
  }

  lemma LeftExact(u: Usage, ordinal: nat, window: nat)
    requires window > 0
    ensures var left := AtOrdinal(u, ordinal, window);
            && (ordinal < u.lastOrdinal || u.lastOrdinal + window <= ordinal ==> left == 0)
            && (ordinal == u.lastOrdinal ==> left == u.valueEx)
            && (u.lastOrdinal < ordinal < u.lastOrdinal + window ==>
                left * window <= u.valueEx * (window - (ordinal - u.lastOrdinal)) < left * window + window)
  {
    hide DivFloor;
  }

  lemma RoundedUp(units: nat, left: nat, window: nat)
    requires window > 0
    ensures units * PRECISION <= Contribution(units, window) * window < units * PRECISION + window
    ensures left <= Average(left) * PRECISION < left + PRECISION
  {
    hide DivCeil;
  }

  /** What a charge adds to, while the sums fit in 64 bits. */
  lemma AddedTo(u: Usage, units: nat, ordinal: nat, window: nat)
    requires window > 0
    ensures var u', left := AddUsage(u, units, ordinal, window), AtOrdinal(u, ordinal, window);
            && u'.lastOrdinal == ordinal
            && (left + Contribution(units, window) < U64 ==> u'.valueEx == left + Contribution(units, window))
            && var base := if ordinal < u.lastOrdinal then 0 else
               if ordinal == u.lastOrdinal then u.consumed else Average(left);
               base + units < U64 ==> u'.consumed == base + units
  {
    hide AtOrdinal, Contribution, Average;
    var left, added := AtOrdinal(u, ordinal, window), Contribution(units, window);
    if left + added < U64 {
      SmallMod(left, added);
    }
  }

  /**
    The accumulator after a charge, by arithmetic alone. `left` is what is left of the
    average: nothing after a step back or a whole window, else the old average in
    proportion to what is left of the window, rounded down. `added` is the charge
    spread over the window, rounded up. `consumed` starts over after a step back, and
    at a later ordinal from what is left, in whole units rounded up.
   */
  lemma AddExact(u: Usage, units: nat, ordinal: nat, window: nat) returns (left: nat, added: nat, whole: nat)
    requires window > 0
    ensures ordinal < u.lastOrdinal ==> left == 0
    ensures ordinal == u.lastOrdinal ==> left == u.valueEx
    ensures u.lastOrdinal < ordinal < u.lastOrdinal + window ==>
              left * window <= u.valueEx * (window - (ordinal - u.lastOrdinal)) < left * window + window
    ensures u.lastOrdinal + window <= ordinal ==> left == 0
    ensures units * PRECISION <= added * window < units * PRECISION + window
    ensures left <= whole * PRECISION < left + PRECISION
    ensures var u' := AddUsage(u, units, ordinal, window);
            && u'.lastOrdinal == ordinal
            && (left + added < U64 ==> u'.valueEx == left + added)
            && var base := if ordinal < u.lastOrdinal then 0 else
               if ordinal == u.lastOrdinal then u.consumed else whole;
               base + units < U64 ==> u'.consumed == base + units
  {
    hide DivFloor, DivCeil, AtOrdinal, Contribution, Average, AddUsage;
    left, added := AtOrdinal(u, ordinal, window), Contribution(units, window);
    whole := Average(left);
    LeftExact(u, ordinal, window);
    RoundedUp(units, left, window);
    AddedTo(u, units, ordinal, window);
  }

  /** One allowed charge keeps the reported use within the slack of the limit, without leaving 64 bits. */
  lemma ChargeKeeps(u: Usage, c: Charge, max: nat, window: nat)
    requires window > 0 && LimitFits(max, window) && Used(u, window) <= max + Slack(window) && u.valueEx < U64
    requires c.units <= Available(max, Used(u, window))
    ensures var u' := AddUsage(u, c.units, c.ordinal, window);
            && Used(u', window) <= max + Slack(window) && u'.valueEx < U64
            && u'.valueEx == AtOrdinal(u, c.ordinal, window) + Contribution(c.units, window)
  {
    hide Contribution, AtOrdinal, Used, Slack, LimitFits, Available;
    var v, used := AtOrdinal(u, c.ordinal, window), Used(u, window);
    AtOrdinalShrinks(u, c.ordinal, window);
    if c.units == 0 {
      NoContribution(window);
      UsedShrinks(v, u, window);
    } else {
      AvailableFits(max, used, c.units);
      UsedExact(u, window);
      ChargeFits(v, u.valueEx, c.units, used, max, window);
    }
    SmallMod(v, Contribution(c.units, window));
    UsedOnlyValue(AddUsage(u, c.units, c.ordinal, window), v + Contribution(c.units, window), window);
  }

  lemma SmallMod(v: nat, c: nat)
    requires v + c < U64
    ensures (v + c % U64) % U64 == v + c
  {
  }

  lemma AvailableFits(max: nat, used: nat, units: nat)
    requires 0 < units <= Available(max, used)
    ensures used + units <= max
  {
  }

  /** The reported use is the average over the window in whole units, rounded up and by less than one. */
  lemma UsedExact(u: Usage, window: nat)
    ensures u.valueEx * window <= Used(u, window) * PRECISION < u.valueEx * window + PRECISION
  {
  }

  lemma UsedOnlyValue(u: Usage, v: nat, window: nat)
    requires u.valueEx == v
    ensures Used(u, window) == DivCeil(v * window, PRECISION)
  {
  }

  lemma UsedShrinks(v: nat, u: Usage, window: nat)
    requires v <= u.valueEx
    ensures DivCeil(v * window, PRECISION) <= Used(u, window)
  {
    hide DivCeil;
    MulMono(v, u.valueEx, window);
    CeilMono(v * window, u.valueEx * window, PRECISION);
  }

  lemma ChargeFits(v: nat, was: nat, units: nat, used: nat, max: nat, window: nat)
    requires window > 0 && LimitFits(max, window) && v <= was && was * window <= used * PRECISION && used + units <= max
    ensures v + Contribution(units, window) < U64
    ensures DivCeil((v + Contribution(units, window)) * window, PRECISION) <= max + Slack(window)
  {
    hide DivCeil, Contribution, Excess, WorstBelow;
    ChargeBound(v, was, units, used, window);
    var sum, worst := v + Contribution(units, window), Excess(WorstBelow(window, window), window);
    MulMono(used + units, max, PRECISION);
    Cancel(sum, U64, window);
    CeilMono(sum * window, max * PRECISION + worst, PRECISION);
    CeilAdd(max, worst, PRECISION);
  }

  lemma NoContribution(window: nat)
    requires window > 0
    ensures Contribution(0, window) == 0
  {
  }

  /**
    Over any run of charges, at any ordinals, each within what was available
    just before it, the reported use never exceeds the limit by more than the slack.
   */
  lemma {:induction false} UseStaysWithinLimit(u: Usage, charges: seq<Charge>, max: nat, window: nat)
    requires window > 0 && LimitFits(max, window) && Used(u, window) <= max + Slack(window) && u.valueEx < U64
    requires Allowed(u, charges, max, window)
    ensures Used(AfterCharges(u, charges, window), window) <= max + Slack(window)
    decreases |charges|
  {
    hide Used, Slack, AddUsage, LimitFits, Available;
    if charges != [] {
      ChargeKeeps(u, charges[0], max, window);
      UseStaysWithinLimit(AddUsage(u, charges[0].units, charges[0].ordinal, window), charges[1..], max, window);
    }
  }

  /** What is reported available is a signed 64-bit number; an amount too large for it reads as negative. */
  ghost predicate AllowedAsReported(u: Usage, charges: seq<Charge>, max: nat, window: nat)
    requires window > 0
    decreases |charges|
  {
    charges == [] ||
    (charges[0].units <= AsI64(Available(max, Used(u, window)))
     && AllowedAsReported(AddUsage(u, charges[0].units, charges[0].ordinal, window), charges[1..], max, window))
  }

  lemma {:induction false} ReportedAllowed(u: Usage, charges: seq<Charge>, max: nat, window: nat)
    requires window > 0 && AllowedAsReported(u, charges, max, window)
    ensures Allowed(u, charges, max, window)
    decreases |charges|
  {
    hide Used, AddUsage;
    if charges != [] {
      ReportedAllowed(AddUsage(u, charges[0].units, charges[0].ordinal, window), charges[1..], max, window);
    }
  }

  /** So it is for charges within what is reported. */
  lemma ReportedUseStaysWithinLimit(u: Usage, charges: seq<Charge>, max: nat, window: nat)
    requires window > 0 && LimitFits(max, window) && Used(u, window) <= max + Slack(window) && u.valueEx < U64
    requires AllowedAsReported(u, charges, max, window)
    ensures Used(AfterCharges(u, charges, window), window) <= max + Slack(window)
  {
    hide Used, Slack, LimitFits, Allowed, AllowedAsReported, AfterCharges;
    ReportedAllowed(u, charges, max, window);
    UseStaysWithinLimit(u, charges, max, window);
  }

  /** The slack is the least bound, for every window: some limit, used up by one charge, reports all of it in excess. */
  lemma SlackIsReached(window: nat) returns (units: nat)
    requires window > 0
    ensures var u := Usage(0, 0, 0);
            && LimitFits(units, window) && Allowed(u, [Charge(units, 0)], units, window)
            && Used(AfterCharges(u, [Charge(units, 0)], window), window) == units + Slack(window)
  {
    hide DivCeil, WorstBelow, Contribution, Excess;
    units := WorstBelow(window, window);
    MulMono(units, window, PRECISION);
    assert LimitFits(units, window);
    UnusedIsZero(window);
    var charges := [Charge(units, 0)];
    assert charges[1..] == [];
    FirstCharge(units, window);
    CeilAdd(units, Excess(units, window), PRECISION);
  }

  lemma UnusedIsZero(window: nat)
    requires window > 0
    ensures Used(Usage(0, 0, 0), window) == 0
  {
  }

  lemma FirstCharge(units: nat, window: nat)
    requires window > 0 && LimitFits(units, window)
    ensures var v := AddUsage(Usage(0, 0, 0), units, 0, window).valueEx;
            v * window == units * PRECISION + Excess(units, window)
  {
    hide DivCeil;
    var c := Contribution(units, window);
    Cancel(c, U64, window);
    SmallMod(0, c);
  }

  // ----- what one ordinal consumed ------------------------------------------

  function UnitsOf(charges: seq<Charge>): nat
  {
    if charges == [] then 0 else charges[0].units + UnitsOf(charges[1..])
  }

  /** Charges at one ordinal add up in `consumed`, on top of what it was. */
  lemma {:induction false} ConsumedAddsUp(u: Usage, charges: seq<Charge>, window: nat)
    requires window > 0 && u.consumed + UnitsOf(charges) < U64
    requires forall i :: 0 <= i < |charges| ==> charges[i].ordinal == u.lastOrdinal
    ensures AfterCharges(u, charges, window).consumed == u.consumed + UnitsOf(charges)
    decreases |charges|
  {
    hide Contribution, AtOrdinal;
    if charges != [] {
      ConsumedAddsUp(AddUsage(u, charges[0].units, charges[0].ordinal, window), charges[1..], window);
    }
  }

  lemma {:induction false} ChargesSplit(u: Usage, a: seq<Charge>, b: seq<Charge>, window: nat)
    requires window > 0
    ensures AfterCharges(u, a + b, window) == AfterCharges(AfterCharges(u, a, window), b, window)
    decreases |a|
  {
    hide AddUsage;
    if a == [] {
      assert a + b == b;
    } else {
      assert (a + b)[0] == a[0] && (a + b)[1..] == a[1..] + b;
      ChargesSplit(AddUsage(u, a[0].units, a[0].ordinal, window), a[1..], b, window);
    }
  }

  /**
    After any run, `consumed` is what the charges of the last ordinal add up to,
    on top of what is left, by then, of the average before it.
   */
  lemma ConsumedByOrdinal(u: Usage, earlier: seq<Charge>, last: seq<Charge>, ordinal: nat, window: nat)
    requires window > 0 && last != [] && forall i :: 0 <= i < |last| ==> last[i].ordinal == ordinal
    requires var before := AfterCharges(u, earlier, window);
             before.lastOrdinal < ordinal && Average(AtOrdinal(before, ordinal, window)) + UnitsOf(last) < U64
    ensures AfterCharges(u, earlier + last, window).consumed ==
            Average(AtOrdinal(AfterCharges(u, earlier, window), ordinal, window)) + UnitsOf(last)
  {
    hide Contribution, AtOrdinal, Average;
    var before := AfterCharges(u, earlier, window);
    ChargesSplit(u, earlier, last, window);
    ConsumedAddsUp(AddUsage(before, last[0].units, ordinal, window), last[1..], window);
  }

  // ----- against the exact average ------------------------------------------

  function Ratio(n: nat, den: nat): (x: real)
    requires den > 0
    ensures x * den as real == n as real
  {
    n as real / den as real
  }

  /** The exact decaying sum the accumulator stands for, without rounding. */
  function Exact(r: real, last: nat, c: Charge, window: nat): real
    requires window > 0
  {
    (if c.ordinal < last then 0.0
     else if c.ordinal == last then r
     else if c.ordinal - last < window then r * Ratio(window - (c.ordinal - last), window)
     else 0.0)
    + Ratio(c.units * PRECISION, window)
  }

  function ExactAfter(r: real, last: nat, charges: seq<Charge>, window: nat): real
    requires window > 0
    decreases |charges|
  {
    if charges == [] then r
    else ExactAfter(Exact(r, last, charges[0], window), charges[0].ordinal, charges[1..], window)
  }

  /** No step of the run leaves 64 bits. */
  predicate StaysSmall(u: Usage, charges: seq<Charge>, window: nat)
    requires window > 0
    decreases |charges|
  {
    charges == [] ||
    (AtOrdinal(u, charges[0].ordinal, window) + Contribution(charges[0].units, window) < U64
     && StaysSmall(AddUsage(u, charges[0].units, charges[0].ordinal, window), charges[1..], window))
  }

  predicate Near(v: nat, r: real, error: real)
  {
    r - error <= v as real <= r + error
  }

  lemma {:induction false} MulReal(a: nat, b: nat)
    ensures (a * b) as real == a as real * b as real
    decreases a
  {
    if a > 0 {
      MulReal(a - 1, b);
      assert a * b == (a - 1) * b + b;
      assert a as real == (a - 1) as real + 1.0;
      Distribute((a - 1) as real, 1.0, b as real);
    }
  }

  lemma Distribute(a: real, b: real, c: real)
    ensures (a + b) * c == a * c + b * c
  {
  }

  lemma CancelReal(a: real, b: real, d: real)
    requires d > 0.0
    ensures a * d <= b * d ==> a <= b
    ensures a * d < b * d ==> a < b
  {
  }

  lemma Between(q: real, x: real, n: real, d: real)
    requires d > 0.0 && x * d == n
    ensures q * d <= n < q * d + d ==> x - 1.0 < q <= x
    ensures n <= q * d < n + d ==> x <= q < x + 1.0
  {
    Distribute(q, 1.0, d);
    Distribute(x, 1.0, d);
    CancelReal(q, x, d);
    CancelReal(x, q, d);
    CancelReal(x, q + 1.0, d);
    CancelReal(q, x + 1.0, d);
  }

  lemma FloorReal(n: nat, den: nat)
    requires den > 0
    ensures Ratio(n, den) - 1.0 < DivFloor(n, den) as real <= Ratio(n, den)
  {
    hide DivFloor, Ratio;
    MulReal(DivFloor(n, den), den);
    Between(DivFloor(n, den) as real, Ratio(n, den), n as real, den as real);
  }

  lemma CeilReal(n: nat, den: nat)
    requires den > 0
    ensures Ratio(n, den) <= DivCeil(n, den) as real < Ratio(n, den) + 1.0
  {
    hide DivCeil, Ratio;
    MulReal(DivCeil(n, den), den);
    Between(DivCeil(n, den) as real, Ratio(n, den), n as real, den as real);
  }

  lemma RatioBelowOne(n: nat, den: nat)
    requires n <= den && den > 0
    ensures 0.0 <= Ratio(n, den) <= 1.0
  {
    hide Ratio;
    BelowOne(Ratio(n, den), n as real, den as real);
  }

  lemma BelowOne(x: real, n: real, d: real)
    requires d > 0.0 && x * d == n && 0.0 <= n <= d
    ensures 0.0 <= x <= 1.0
  {
    Products(d, d);
    CancelReal(0.0, x, d);
    CancelReal(x, 1.0, d);
  }

  lemma RatioOfProduct(v: nat, num: nat, den: nat)
    requires den > 0
    ensures Ratio(v * num, den) == v as real * Ratio(num, den)
  {
    hide Ratio;
    MulReal(v, num);
    Regroup(v as real, Ratio(num, den), den as real);
    var a, b := Ratio(v * num, den), v as real * Ratio(num, den);
    CancelReal(a, b, den as real);
    CancelReal(b, a, den as real);
  }

  lemma Regroup(a: real, b: real, c: real)
    ensures (a * b) * c == a * (b * c)
  {
  }

  /** Scaling down by at most 1 does not make an error larger. */
  lemma ScaledError(v: real, r: real, error: real, f: real)
    requires 0.0 <= f <= 1.0 && 0.0 <= error && r - error <= v <= r + error
    ensures r * f - error <= v * f <= r * f + error
  {
    Shrinks(v - r, error, f);
    Distribute(r, v - r, f);
  }

  lemma Shrinks(d: real, error: real, f: real)
    requires 0.0 <= f <= 1.0 && -error <= d <= error
    ensures -error <= d * f <= error
    decreases d < 0.0
  {
    if d >= 0.0 {
      MulLess(f, 1.0, d);
      MulLess(0.0, d, f);
      Products(f, d);
    } else {
      Shrinks(-d, error, f);
      Negated(d, f);
    }
  }

  lemma Products(f: real, d: real)
    ensures d * f == f * d && 1.0 * d == d && 0.0 * f == 0.0
  {
  }

  lemma Negated(d: real, f: real)
    ensures (-d) * f == -(d * f)
  {
  }

  lemma MulLess(a: real, b: real, f: real)
    requires a <= b && 0.0 <= f
    ensures a * f <= b * f
  {
  }

  lemma DecayNear(valueEx: nat, r: real, error: real, delta: nat, window: nat)
    requires 0 < delta < window && 0.0 <= error && Near(valueEx, r, error)
    ensures var exact := r * Ratio(window - delta, window);
            exact - error - 1.0 <= Decay(valueEx, delta, window) as real <= exact + error
  {
    hide DivFloor, Ratio;
    FloorReal(valueEx * (window - delta), window);
    RatioOfProduct(valueEx, window - delta, window);
    RatioBelowOne(window - delta, window);
    ScaledError(valueEx as real, r, error, Ratio(window - delta, window));
  }

  /** One charge adds at most 1, in units of a millionth, to the distance from the exact average. */
  lemma ChargeNear(u: Usage, r: real, error: real, c: Charge, window: nat)
    requires window > 0 && 0.0 <= error && Near(u.valueEx, r, error)
    requires AtOrdinal(u, c.ordinal, window) + Contribution(c.units, window) < U64
    ensures Near(AddUsage(u, c.units, c.ordinal, window).valueEx, Exact(r, u.lastOrdinal, c, window), error + 1.0)
  {
    hide DivFloor, DivCeil, Decay, Contribution, Ratio;
    SmallMod(AtOrdinal(u, c.ordinal, window), Contribution(c.units, window));
    ContributionNear(c.units, window);
    if u.lastOrdinal < c.ordinal && c.ordinal - u.lastOrdinal < window {
      DecayNear(u.valueEx, r, error, c.ordinal - u.lastOrdinal, window);
    } else if u.lastOrdinal <= c.ordinal {
      DecayEnds(u.valueEx, c.ordinal - u.lastOrdinal, window);
    }
  }

  lemma ContributionNear(units: nat, window: nat)
    requires window > 0
    ensures var x := Ratio(units * PRECISION, window); x <= Contribution(units, window) as real < x + 1.0
  {
    CeilReal(units * PRECISION, window);
  }

  lemma DecayEnds(valueEx: nat, delta: nat, window: nat)
    requires window > 0
    ensures delta == 0 ==> Decay(valueEx, delta, window) == valueEx
    ensures delta >= window ==> Decay(valueEx, delta, window) == 0
  {
  }

  /** After any run of charges the stored average is within one millionth a charge of the exact decaying sum. */
  lemma {:induction false} TracksExactAverage(u: Usage, r: real, error: real, charges: seq<Charge>, window: nat)
    requires window > 0 && 0.0 <= error && Near(u.valueEx, r, error) && StaysSmall(u, charges, window)
    ensures Near(AfterCharges(u, charges, window).valueEx, ExactAfter(r, u.lastOrdinal, charges, window),
                 error + |charges| as real)
    decreases |charges|
  {
    hide AddUsage, Exact, Contribution, AtOrdinal;
    if charges != [] {
      var c := charges[0];
      ChargeNear(u, r, error, c, window);
      OrdinalMoves(u, c, window);
      TracksExactAverage(AddUsage(u, c.units, c.ordinal, window), Exact(r, u.lastOrdinal, c, window), error + 1.0,
                         charges[1..], window);
    }
  }

  lemma OrdinalMoves(u: Usage, c: Charge, window: nat)
    requires window > 0
    ensures AddUsage(u, c.units, c.ordinal, window).lastOrdinal == c.ordinal
  {
  }
}
