/**
  Account limits: each account has a committed row and, while a change is staged,
  a pending row; the state row keeps the totals of the positive committed limits.
 */
module AccountLimits {
  import opened ArenaTypes
  import opened ResourceUsage
  import opened ElasticLimits

  datatype Limits = Limits(ramBytes: int, netWeight: int, cpuWeight: int)

  const UNLIMITED := Limits(-1, -1, -1)

  /** Totals of the three limits, as 64-bit numbers or as exact sums. */
  datatype Totals = Totals(ram: nat, net: nat, cpu: nat)

  function Positive(n: int): nat
  {
    if n > 0 then n else 0
  }

  function Counted(l: Limits): Totals
  {
    Totals(Positive(l.ramBytes), Positive(l.netWeight), Positive(l.cpuWeight))
  }

  function Plus(a: Totals, b: Totals): Totals
  {
    Totals(a.ram + b.ram, a.net + b.net, a.cpu + b.cpu)
  }

  /** The positive limits of all accounts, added up. */
  ghost function SumOf(m: map<nat, Limits>): Totals
    decreases |m|
  {
    if owner: nat :| owner in m then Plus(Counted(m[owner]), SumOf(m - {owner})) else Totals(0, 0, 0)
  }

  lemma PlusSwaps(a: Totals, b: Totals, c: Totals)
    ensures Plus(a, Plus(b, c)) == Plus(b, Plus(a, c))
  {
  }

  /** The sum does not depend on the order the accounts are added in. */
  lemma {:induction false} SumWithout(m: map<nat, Limits>, owner: nat)
    requires owner in m
    ensures SumOf(m) == Plus(Counted(m[owner]), SumOf(m - {owner}))
    decreases |m|
  {
    hide Counted, Plus;
    var first: nat :| first in m && SumOf(m) == Plus(Counted(m[first]), SumOf(m - {first}));
    if first != owner {
      SumWithout(m - {first}, owner);
      SumWithout(m - {owner}, first);
      assert (m - {first}) - {owner} == (m - {owner}) - {first};
      PlusSwaps(Counted(m[first]), Counted(m[owner]), SumOf(m - {first} - {owner}));
    }
  }

  lemma SumWith(m: map<nat, Limits>, owner: nat, l: Limits)
    ensures SumOf(m[owner := l]) == Plus(Counted(l), SumOf(m - {owner}))
  {
    hide Counted, Plus;
    SumWithout(m[owner := l], owner);
    assert m[owner := l] - {owner} == m - {owner};
  }

  // ----- totals in 64 bits --------------------------------------------------

  predicate Small(t: Totals)
  {
    t.ram < U64 && t.net < U64 && t.cpu < U64
  }

  /** How far totals kept in 64 bits are from exact sums. */
  function Gap(t: Totals, sum: Totals): Totals
  {
    Totals((t.ram - sum.ram) % U64, (t.net - sum.net) % U64, (t.cpu - sum.cpu) % U64)
  }

  const NO_GAP := Totals(0, 0, 0)

  /** Takes the old limit out of a total and puts the new one in. */
  function UpdateTotal(total: nat, was: int, now: int): nat
  {
    var less := if was > 0 then (total - was) % U64 else total;
    if now > 0 then (less + now) % U64 else less
  }

  lemma {:induction false} Shifted(n: int, q: nat)
    ensures (n + q * U64) % U64 == n % U64
  {
    if q > 0 {
      Shifted(n, q - 1);
      assert n + q * U64 == n + (q - 1) * U64 + U64;
    }
  }

  /** Reducing early does not matter. */
  lemma ModFirst(x: int, y: int)
    ensures (x % U64 + y) % U64 == (x + y) % U64
  {
    var q := x / U64;
    assert x == q * U64 + x % U64;
    if q >= 0 {
      Shifted(x % U64 + y, q);
    } else {
      Shifted(x + y, 0 - q);
    }
  }

  lemma UpdateKeepsGap(total: nat, rest: nat, was: int, now: int)
    ensures (UpdateTotal(total, was, now) - (Positive(now) + rest)) % U64 == (total - (Positive(was) + rest)) % U64
  {
    var less := if was > 0 then (total - was) % U64 else total;
    ModFirst(total - was, 0 - rest);
    ModFirst(less + now, 0 - (now + rest));
  }

  function Updated(t: Totals, was: Limits, now: Limits): Totals
  {
    Totals(UpdateTotal(t.ram, was.ramBytes, now.ramBytes),
           UpdateTotal(t.net, was.netWeight, now.netWeight),
           UpdateTotal(t.cpu, was.cpuWeight, now.cpuWeight))
  }

  /** Replacing one account's limits keeps the totals as far from the sums as they were. */
  lemma TotalsFollow(m: map<nat, Limits>, owner: nat, l: Limits, t: Totals)
    requires owner in m
    ensures Gap(Updated(t, m[owner], l), SumOf(m[owner := l])) == Gap(t, SumOf(m))
  {
    hide UpdateTotal, SumOf, Positive;
    SumWithout(m, owner);
    SumWith(m, owner, l);
    var rest, was := SumOf(m - {owner}), m[owner];
    UpdateKeepsGap(t.ram, rest.ram, was.ramBytes, l.ramBytes);
    UpdateKeepsGap(t.net, rest.net, was.netWeight, l.netWeight);
    UpdateKeepsGap(t.cpu, rest.cpu, was.cpuWeight, l.cpuWeight);
  }

  lemma UpdatedSmall(t: Totals, was: Limits, now: Limits)
    requires Small(t)
    ensures Small(Updated(t, was, now))
  {
  }

  /** Without a gap, totals that fit 64 bits are the sums. */
  lemma NoGapIsSum(t: Totals, sum: Totals)
    requires Small(t) && Small(sum)
    ensures Gap(t, sum) == NO_GAP <==> t == sum
  {
    SameNumber(t.ram, sum.ram);
    SameNumber(t.net, sum.net);
    SameNumber(t.cpu, sum.cpu);
  }

  lemma SameNumber(a: nat, b: nat)
    requires a < U64 && b < U64
    ensures (a - b) % U64 == 0 <==> a == b
  {
  }

  // ----- no step overflows --------------------------------------------------

  predicate AtMost(a: Totals, b: Totals)
  {
    a.ram <= b.ram && a.net <= b.net && a.cpu <= b.cpu
  }

  /** Taking the old limits out and putting the new ones in stays inside 64 bits all the way. */
  predicate StaysInside(t: Totals, was: Limits, now: Limits)
  {
    && AtMost(Counted(was), t)
    && t.ram - Positive(was.ramBytes) + Positive(now.ramBytes) < U64
    && t.net - Positive(was.netWeight) + Positive(now.netWeight) < U64
    && t.cpu - Positive(was.cpuWeight) + Positive(now.cpuWeight) < U64
  }

  function Max(a: int, b: int): int
  {
    if a < b then b else a
  }

  /** For each account the larger of what is committed and what is staged, limit by limit. */
  function Larger(committed: map<nat, Limits>, pending: map<nat, Limits>): map<nat, Limits>
  {
    map a | a in committed ::
      if a in pending
      then Limits(Max(committed[a].ramBytes, pending[a].ramBytes), Max(committed[a].netWeight, pending[a].netWeight),
                  Max(committed[a].cpuWeight, pending[a].cpuWeight))
      else committed[a]
  }

  lemma {:induction false} SumAtMost(m: map<nat, Limits>, big: map<nat, Limits>)
    requires m.Keys == big.Keys && forall a :: a in m ==> AtMost(Counted(m[a]), Counted(big[a]))
    ensures AtMost(SumOf(m), SumOf(big))
    decreases |m|
  {
    hide Counted;
    if owner: nat :| owner in m && SumOf(m) == Plus(Counted(m[owner]), SumOf(m - {owner})) {
      SumWithout(big, owner);
      SumAtMost(m - {owner}, big - {owner});
    }
  }

  /** With exact totals, and sums that fit before and after, replacing one account's limits stays inside 64 bits. */
  lemma ReplaceInside(m: map<nat, Limits>, owner: nat, l: Limits)
    requires owner in m && Small(SumOf(m[owner := l]))
    ensures StaysInside(SumOf(m), m[owner], l)
  {
    hide SumOf;
    SumWithout(m, owner);
    SumWith(m, owner, l);
  }

  // ----- the rows -----------------------------------------------------------

  /** What an account's limits read as: the staged ones if there are any. */
  function Effective(committed: map<nat, Limits>, pending: map<nat, Limits>, account: nat): Option<Limits>
  {
    if account in pending then Some(pending[account])
    else if account in committed then Some(committed[account])
    else None
  }

  /** Committing one staged change leaves every reading as it was. */
  lemma CommitReadsSame(committed: map<nat, Limits>, pending: map<nat, Limits>, owner: nat)
    requires owner in pending
    ensures forall a ::
            Effective(committed[owner := pending[owner]], pending - {owner}, a) == Effective(committed, pending, a)
  {
  }

  class LimitTables {
    var usage: map<nat, nat>
    var committed: map<nat, Limits>
    var pending: map<nat, Limits>
    var totals: Option<Totals>

    /** Only accounts with limits have staged ones, and the state row's totals are 64-bit numbers. */
    ghost predicate Valid()
      reads this
    {
      pending.Keys <= committed.Keys && (totals.Some? ==> Small(totals.value))
    }

    /** The state row is there and its totals are the sums of the committed limits, up to 64 bits. */
    ghost predicate Agrees()
      reads this
    {
      totals.Some? && Gap(totals.value, SumOf(committed)) == NO_GAP
    }

    constructor ()
      ensures Valid() && usage == map[] && committed == map[] && pending == map[] && totals.None?
    {
      usage, committed, pending, totals := map[], map[], map[], None;
    }

    /** Creates the state row; its totals agree if what is committed adds up to nothing, as at the start. */
    method InitializeState()
      requires Valid()
      modifies this`totals
      ensures Valid() && totals.Some?
      ensures old(totals).Some? ==> totals == old(totals)
      ensures old(totals).None? ==> totals == Some(Totals(0, 0, 0))
      ensures old(totals).None? ==> (Agrees() <==> Gap(NO_GAP, SumOf(committed)) == NO_GAP)
    {
      hide SumOf;
      if totals.None? {
        totals := Some(NO_GAP);
      }
    }

    /**
      Gives an account a usage row and unlimited limits. Refused when it has a usage
      row, and then nothing changes; or when it has limits, and then the usage row
      stays.
     */
    method InitializeAccount(owner: nat) returns (ok: bool)
      requires Valid()
      modifies this
      ensures Valid() && pending == old(pending) && totals == old(totals) && (Agrees() <==> old(Agrees()))
      ensures ok <==> owner !in old(usage) && owner !in old(committed)
      ensures usage == if owner in old(usage) then old(usage) else old(usage)[owner := 0]
      ensures committed == if ok then old(committed)[owner := UNLIMITED] else old(committed)
    {
      hide SumOf;
      if owner in usage {
        return false;
      }
      usage := usage[owner := 0];
      if owner in committed {
        return false;
      }
      SumWith(committed, owner, UNLIMITED);
      assert committed - {owner} == committed;
      committed := committed[owner := UNLIMITED];
      return true;
    }

    /** Stages new limits; the committed row and the totals wait for the next processing. */
    method SetAccountLimits(account: nat, limits: Limits)
      requires Valid()
      modifies this`pending
      ensures Valid()
      ensures forall a :: Effective(committed, pending, a) ==
                          if a == account && a in committed then Some(limits) else Effective(committed, old(pending), a)
    {
      hide SumOf;
      if account !in pending {
        if account !in committed {
          return;
        }
        pending := pending[account := committed[account]];
      }
      pending := pending[account := limits];
    }

    /** Commits one staged change. */
    method ProcessOne(owner: nat) returns (ghost inside: bool)
      requires Valid() && owner in pending
      modifies this`committed, this`pending, this`totals
      ensures Valid() && committed == old(committed)[owner := old(pending)[owner]] && pending == old(pending) - {owner}
      ensures totals.Some? <==> old(totals).Some?
      ensures totals.Some? ==> Gap(totals.value, SumOf(committed)) == Gap(old(totals).value, SumOf(old(committed)))
      ensures inside <==>
              old(totals).None? || StaysInside(old(totals).value, old(committed)[owner], old(pending)[owner])
    {
      hide SumOf, Updated, Gap, StaysInside;
      var limits := pending[owner];
      var was := committed[owner];
      inside := totals.None? || StaysInside(totals.value, was, limits);
      committed := committed[owner := limits];
      if totals.Some? {
        TotalsFollow(old(committed), owner, limits, totals.value);
        UpdatedSmall(totals.value, was, limits);
        totals := Some(Updated(totals.value, was, limits));
      }
      pending := pending - {owner};
    }

    /**
      Commits every staged change. What each account's limits read as does not
      change, and the totals, if there are any, stay as near the sums as they
      were. `inside` says that no subtraction or addition on the way left 64
      bits: none does if the totals agree and the larger of the committed and the
      staged limits, added up over the accounts, fit.
     */
    method ProcessUpdates() returns (ghost inside: bool)
      requires Valid()
      modifies this`committed, this`pending, this`totals
      ensures Valid() && pending == map[] && committed.Keys == old(committed.Keys)
      ensures forall a :: Effective(committed, pending, a) == Effective(old(committed), old(pending), a)
      ensures totals.Some? <==> old(totals).Some?
      ensures totals.Some? ==> Gap(totals.value, SumOf(committed)) == Gap(old(totals).value, SumOf(old(committed)))
      ensures Agrees() <==> old(Agrees())
      ensures old(Agrees()) && Small(SumOf(Larger(old(committed), old(pending)))) ==> inside
    {
      hide SumOf, Effective, Gap, Larger, Small, StaysInside;
      inside := true;
      ghost var big := Larger(committed, pending);
      OldsBelow(committed, pending);
      while exists owner :: owner in pending
        invariant Valid() && committed.Keys == old(committed.Keys) == big.Keys
        invariant forall a :: Effective(committed, pending, a) == Effective(old(committed), old(pending), a)
        invariant totals.Some? <==> old(totals).Some?
        invariant totals.Some? ==> Gap(totals.value, SumOf(committed)) == Gap(old(totals).value, SumOf(old(committed)))
        invariant Below(committed, pending, big)
        invariant old(Agrees()) && Small(SumOf(big)) ==> inside
        decreases |pending|
      {
        var owner :| owner in pending;
        CommitReadsSame(committed, pending, owner);
        BelowNext(committed, pending, big, owner);
        if Agrees() && Small(SumOf(big)) {
          InsideNow(committed, pending, big, owner, totals.value);
        }
        ghost var one := ProcessOne(owner);
        inside := inside && one;
      }
      assert pending == map[];
    }
  }

  /** Both what is committed and what is staged count at most as `big` does. */
  ghost predicate Below(committed: map<nat, Limits>, pending: map<nat, Limits>, big: map<nat, Limits>)
  {
    && committed.Keys == big.Keys
    && (forall a :: a in committed ==> AtMost(Counted(committed[a]), Counted(big[a])))
    && (forall a :: a in pending && a in big ==> AtMost(Counted(pending[a]), Counted(big[a])))
  }

  lemma OldsBelow(committed: map<nat, Limits>, pending: map<nat, Limits>)
    ensures Below(committed, pending, Larger(committed, pending))
  {
  }

  lemma BelowNext(committed: map<nat, Limits>, pending: map<nat, Limits>, big: map<nat, Limits>, owner: nat)
    requires Below(committed, pending, big) && owner in pending && owner in committed
    ensures Below(committed[owner := pending[owner]], pending - {owner}, big)
  {
    hide AtMost, Counted;
  }

  lemma InsideNow(committed: map<nat, Limits>, pending: map<nat, Limits>, big: map<nat, Limits>, owner: nat, t: Totals)
    requires Below(committed, pending, big) && owner in pending && owner in committed
    requires Small(SumOf(big)) && Small(t) && Gap(t, SumOf(committed)) == NO_GAP
    ensures StaysInside(t, committed[owner], pending[owner])
  {
    hide SumOf, Counted, Gap, StaysInside;
    SumAtMost(committed, big);
    BelowNext(committed, pending, big, owner);
    SumAtMost(committed[owner := pending[owner]], big);
    NoGapIsSum(t, SumOf(committed));
    ReplaceInside(committed, owner, pending[owner]);
  }

  // ----- with the elastic limits --------------------------------------------

  ghost function NetWeights(m: map<nat, Limits>, owners: seq<nat>): (weights: seq<nat>)
    requires forall i :: 0 <= i < |owners| ==> owners[i] in m
    ensures |weights| == |owners|
  {
    seq(|owners|, i requires 0 <= i < |owners| => Positive(m[owners[i]].netWeight))
  }

  lemma {:induction false} WeightsInTotal(m: map<nat, Limits>, owners: seq<nat>)
    requires forall i :: 0 <= i < |owners| ==> owners[i] in m
    requires forall i, j :: 0 <= i < j < |owners| ==> owners[i] != owners[j]
    ensures Sum(NetWeights(m, owners)) <= SumOf(m).net
    decreases |owners|
  {
    hide SumOf;
    if owners != [] {
      var n := |owners| - 1;
      var last := owners[n];
      SumWithout(m, last);
      WeightsInTotal(m - {last}, owners[..n]);
      assert NetWeights(m, owners)[..n] == NetWeights(m - {last}, owners[..n]);
    }
  }

  /**
    With nothing staged, the shares of any accounts out of a net capacity, taken
    with the total the state row keeps, never add up to more than that capacity.
   */
  lemma NetSharesFit(m: map<nat, Limits>, owners: seq<nat>, capacity: nat, t: Totals)
    requires forall i :: 0 <= i < |owners| ==> owners[i] in m
    requires forall i, j :: 0 <= i < j < |owners| ==> owners[i] != owners[j]
    requires Gap(t, SumOf(m)) == NO_GAP && Small(t) && 0 < SumOf(m).net && Small(SumOf(m))
    ensures t.net > 0 && Sum(Shares(capacity, NetWeights(m, owners), t.net)) <= capacity
  {
    hide SumOf, Sum, Shares, NetWeights, Gap;
    NoGapIsSum(t, SumOf(m));
    WeightsInTotal(m, owners);
    SharesFitCapacity(capacity, NetWeights(m, owners), SumOf(m).net);
  }
}
