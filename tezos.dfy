/** The single-delegate delegation extension: an account delegates to one
    baker; the baker's usage is measured against 70% of its capacity, and a
    payout projection is added to the delegator's display list after the
    details have been handed out. */
module TezosDelegation {
  import opened Common

  const HoursPerCycle: int := 68
  const MillisPerHour: int := 3_600_000

  /** Share of a baker's published capacity that counts as full. */
  const CapacityShare: real := 0.7

  const NextPayoutId: string := "nextPayout"
  const EstimatedReturnId: string := "estimatedReturn"

  const AcceptsDelegation: string := "Accepts Delegation"
  const ReachedFullCapacity: string := "Reached Full Capacity"
  const Deactivated: string := "Deactivated"

  const MultipleBakersError: string := "Multiple bakers are not supported."

  datatype ActionKind = Delegate | Undelegate | OtherKind(name: string)

  datatype DelegatorAction = DelegatorAction(kind: ActionKind, args: seq<string>)

  datatype Payout = Payout(cycles: int, time: string)

  /** A trusted baker from the remote configuration. */
  datatype BakerConfig = BakerConfig(address: string, name: string, fee: real, payout: Option<Payout>)

  datatype BakerInfo = BakerInfo(bakerCapacity: nat, stakingBalance: nat, bakingActive: bool)

  datatype DelegateeDetails = DelegateeDetails(
    name: string,
    status: string,
    usageDetails: UsageDetails,
    displayDetails: seq<DisplayItem>,
    extraDetails: Option<BakerConfig>)

  /** The fields of a delegatee's details that the payout projection reads. */
  datatype Delegatee = Delegatee(address: string, extraDetails: Option<BakerConfig>)

  datatype MainAction = MainAction(kind: Option<ActionKind>, isAvailable: bool, paramName: Option<string>, description: string)

  /** What the chain says about the account's delegation. */
  datatype DelegationInfo = DelegationInfo(isDelegated: bool, delegatedDate: Option<int>)

  datatype DelegatorExtra = DelegatorExtra(delegateAction: MainAction, undelegateAction: MainAction, extraDetails: DelegationInfo)

  /** A baker's rewards for one cycle; `payout` is a time in milliseconds. */
  datatype RewardInfo = RewardInfo(
    totalRewards: real,
    totalFees: real,
    stakingBalance: real,
    delegatedBalance: real,
    payout: int)

  /** The two values the payout projection computes; `None` is the original's null. */
  datatype PayoutProjection = PayoutProjection(nextPayout: Option<int>, returnPerCycle: Option<Quotient>)

  /** The base class's replace-by-id of one display item (not part of this model). */
  type WidgetUpdate = (seq<DisplayItem>, string, Option<DisplayItem>) -> seq<DisplayItem>

  // ---------------------------------------------------------------------------
  // Delegatee details

  /** `usageDetails` of a baker: staking balance over 70% of its capacity. */
  function BakerUsage(info: BakerInfo): (u: UsageDetails)
    ensures u.total == info.bakerCapacity as real * CapacityShare
    ensures u.current == info.stakingBalance as real
    ensures u.usage.Exact? <==> info.bakerCapacity > 0
    ensures u.usage.Exact? ==> u.usage.value * u.total == u.current
  {
    var total := info.bakerCapacity as real * CapacityShare;
    var current := info.stakingBalance as real;
    UsageDetails(Divide(current, total), current, total)
  }

  function BakerStatus(bakingActive: bool, usage: Quotient): (s: string)
    ensures s == AcceptsDelegation <==> bakingActive && LessThan(usage, 1.0)
    ensures s == ReachedFullCapacity <==> bakingActive && !LessThan(usage, 1.0)
    ensures s == Deactivated <==> !bakingActive
  {
    if bakingActive && LessThan(usage, 1.0) then AcceptsDelegation
    else if bakingActive then ReachedFullCapacity
    else Deactivated
  }

  /** An active baker accepts delegations exactly while its staking balance is
      below 70% of its capacity (a zero capacity never accepts). */
  lemma AcceptsIffBelowCap(info: BakerInfo)
    ensures BakerStatus(info.bakingActive, BakerUsage(info).usage) == AcceptsDelegation
        <==> info.bakingActive && (info.stakingBalance as real) < info.bakerCapacity as real * CapacityShare
  {
    var u := BakerUsage(info);
    if u.usage.Exact? {
      assert u.total > 0.0;
      BelowOneIffBelowTotal(u.usage.value, u.total, u.current);
    }
  }

  lemma BelowOneIffBelowTotal(q: real, total: real, current: real)
    requires total > 0.0 && q * total == current
    ensures q < 1.0 <==> current < total
  {
    if q < 1.0 {
      assert q * total < 1.0 * total;
    } else {
      assert q * total >= 1.0 * total;
    }
  }

  lemma OverCapacityExample()
    ensures var u := BakerUsage(BakerInfo(10000, 8000, true));
      && u.total == 7000.0
      && u.usage == Exact(8000.0 / 7000.0)
      && BakerStatus(true, u.usage) == ReachedFullCapacity
  {
  }

  function PayoutScheduleText(p: Payout): Text {
    Schedule(p.cycles, p.time)
  }

  /** Fee and payout schedule of a known baker, "Unknown" for any other. A
      known baker without a payout schedule makes the original throw. */
  function CreateDelegateeDisplayDetails(config: Option<BakerConfig>): (r: Result<seq<DisplayItem>>)
    ensures r.Err? <==> config.Some? && config.value.payout.None?
    ensures r.Ok? ==> |r.value| == 2 && r.value[0].description == "Fee" && r.value[1].description == "Payout Schedule"
    ensures r.Ok? && config.None? ==> r.value[0].text == Literal("Unknown") && r.value[1].text == Literal("Unknown")
    ensures r.Ok? && config.Some? ==>
      r.value[0].text == Percent(config.value.fee) && r.value[1].text == PayoutScheduleText(config.value.payout.value)
  {
    match config
    case None =>
      Ok([IconText(None, "logo-usd", Literal("Unknown"), "Fee"),
          IconText(None, "sync", Literal("Unknown"), "Payout Schedule")])
    case Some(c) =>
      if c.payout.None? then Err("Cannot read property 'cycles' of undefined")
      else
        Ok([IconText(None, "logo-usd", Percent(c.fee), "Fee"),
            IconText(None, "sync", PayoutScheduleText(c.payout.value), "Payout Schedule")])
  }

  /** The configuration that applies to a baker: the configured one's own, none for any other. */
  function ConfigFor(airGapBaker: BakerConfig, address: string): Option<BakerConfig> {
    if address == airGapBaker.address then Some(airGapBaker) else None
  }

  /** The details record of one baker; building its display items fails for a
      configured baker without a payout schedule. */
  function BakerDetails(airGapBaker: BakerConfig, address: string, info: BakerInfo): (r: Result<DelegateeDetails>)
    ensures r.Ok? <==> CreateDelegateeDisplayDetails(ConfigFor(airGapBaker, address)).Ok?
    ensures r.Ok? ==>
      && r.value.name == (if address == airGapBaker.address then airGapBaker.name else "unknown")
      && r.value.status == BakerStatus(info.bakingActive, BakerUsage(info).usage)
      && r.value.usageDetails == BakerUsage(info)
      && r.value.displayDetails == CreateDelegateeDisplayDetails(ConfigFor(airGapBaker, address)).value
      && r.value.extraDetails == ConfigFor(airGapBaker, address)
  {
    var isAirGapBaker := address == airGapBaker.address;
    var usage := BakerUsage(info);
    var displayDetails :- CreateDelegateeDisplayDetails(ConfigFor(airGapBaker, address));
    Ok(DelegateeDetails(
      if isAirGapBaker then airGapBaker.name else "unknown",
      BakerStatus(info.bakingActive, usage.usage),
      usage,
      displayDetails,
      ConfigFor(airGapBaker, address)))
  }

  /** At most one baker: more is rejected, none (or an empty address) gives no
      details; one baker gives exactly one entry, unless its info fetch fails
      or it is the configured baker and has no payout schedule. */
  function GetExtraDelegateesDetails(airGapBaker: BakerConfig, addresses: seq<string>, bakerInfo: string -> Result<BakerInfo>)
    : (r: Result<seq<DelegateeDetails>>)
    ensures |addresses| > 1 ==> r == Err(MultipleBakersError)
    ensures |addresses| == 0 ==> r == Ok([])
    ensures |addresses| == 1 && addresses[0] == "" ==> r == Ok([])
    ensures |addresses| == 1 && addresses[0] != "" && bakerInfo(addresses[0]).Err? ==> r.Err?
    ensures |addresses| == 1 && addresses[0] != "" && bakerInfo(addresses[0]).Ok? ==>
      (r.Ok? <==> CreateDelegateeDisplayDetails(ConfigFor(airGapBaker, addresses[0])).Ok?)
    ensures r.Ok? && |addresses| == 1 && addresses[0] != "" ==> |r.value| == 1
    ensures r.Ok? && r.value != [] ==>
      var address := addresses[0];
      var info := bakerInfo(address).value;
      var config := ConfigFor(airGapBaker, address);
      && |addresses| == 1 && bakerInfo(address).Ok?
      && |r.value| == 1
      && r.value[0].usageDetails == BakerUsage(info)
      && r.value[0].status == BakerStatus(info.bakingActive, BakerUsage(info).usage)
      && r.value[0].name == (if address == airGapBaker.address then airGapBaker.name else "unknown")
      && r.value[0].displayDetails == CreateDelegateeDisplayDetails(config).value
      && r.value[0].extraDetails == config
  {
    if |addresses| > 1 then Err(MultipleBakersError)
    else if |addresses| == 0 || addresses[0] == "" then Ok([])
    else
      var info :- bakerInfo(addresses[0]);
      var details :- BakerDetails(airGapBaker, addresses[0], info);
      Ok([details])
  }

  // ---------------------------------------------------------------------------
  // Delegator actions

  function FindKind(available: seq<DelegatorAction>, k: ActionKind): (r: Option<DelegatorAction>)
    ensures r.Some? <==> exists a :: a in available && a.kind == k
    ensures r.Some? ==> r.value in available && r.value.kind == k
  {
    if available == [] then None
    else if available[0].kind == k then Some(available[0])
    else FindKind(available[1..], k)
  }

  function CreateDelegateAction(available: seq<DelegatorAction>): (r: MainAction)
    ensures r.isAvailable <==> exists a :: a in available && a.kind == Delegate
    ensures r.isAvailable ==> r.kind == Some(Delegate) && r.paramName == Some("delegate")
    ensures !r.isAvailable ==> r.kind.None? && r.description == "Can't delegate"
  {
    if FindKind(available, Delegate).Some? then
      MainAction(Some(Delegate), true, Some("delegate"), "Delegate description")
    else
      MainAction(None, false, None, "Can't delegate")
  }

  function CreateUndelegateAction(available: seq<DelegatorAction>): (r: MainAction)
    ensures r.isAvailable <==> exists a :: a in available && a.kind == Undelegate
    ensures r.isAvailable ==> r.kind == Some(Undelegate) && r.paramName.None?
    ensures !r.isAvailable ==> r.kind.None? && r.description == "Can't undelegate"
  {
    if FindKind(available, Undelegate).Some? then
      MainAction(Some(Undelegate), true, None, "Undelegate description")
    else
      MainAction(None, false, None, "Can't undelegate")
  }

  /** The delegator half: both fetches must succeed. */
  function GetExtraDelegatorDetailsFromAddress(available: Result<seq<DelegatorAction>>, info: Result<DelegationInfo>)
    : (r: Result<DelegatorExtra>)
    ensures r.Ok? <==> available.Ok? && info.Ok?
    ensures r.Ok? ==>
      && r.value.delegateAction == CreateDelegateAction(available.value)
      && r.value.undelegateAction == CreateUndelegateAction(available.value)
      && r.value.extraDetails == info.value
  {
    var actions :- available;
    var extra :- info;
    Ok(DelegatorExtra(CreateDelegateAction(actions), CreateUndelegateAction(actions), extra))
  }

  // ---------------------------------------------------------------------------
  // Payout projection

  /** Hours added to a moment: `hoursPerCycle * 7 + payoutCycles || 0`. Addition
      binds tighter than `||`, so undefined cycles (a NaN sum) add nothing. */
  function PayoutDelayHours(payoutCycles: Option<int>): (h: int)
    ensures payoutCycles.None? ==> h == 0
    ensures payoutCycles.Some? ==> h == HoursPerCycle * 7 + payoutCycles.value
  {
    match payoutCycles
    case None => 0
    case Some(c) =>
      var sum := HoursPerCycle * 7 + c;
      if sum == 0 then 0 else sum
  }

  function AddPayoutDelayToMoment(time: int, payoutCycles: Option<int>): (t: int)
    ensures t - time == PayoutDelayHours(payoutCycles) * MillisPerHour
  {
    time + PayoutDelayHours(payoutCycles) * MillisPerHour
  }

  /** The first cycle in which the delegator had a delegated balance. */
  function FirstDelegatedCycle(rewards: seq<RewardInfo>): (r: Option<RewardInfo>)
    ensures r.None? <==> forall x :: x in rewards ==> x.delegatedBalance <= 0.0
    ensures r.Some? ==> exists i ::
      && 0 <= i < |rewards|
      && rewards[i] == r.value
      && r.value.delegatedBalance > 0.0
      && (forall j :: 0 <= j < i ==> rewards[j].delegatedBalance <= 0.0)
  {
    if rewards == [] then None
    else if rewards[0].delegatedBalance > 0.0 then Some(rewards[0])
    else
      var rest := FirstDelegatedCycle(rewards[1..]);
      assert forall x :: x in rewards ==> x == rewards[0] || x in rewards[1..];
      if rest.Some? then
        var i :| && 0 <= i < |rewards[1..]|
                 && rewards[1..][i] == rest.value
                 && (forall j :: 0 <= j < i ==> rewards[1..][j].delegatedBalance <= 0.0);
        assert rewards[i + 1] == rest.value;
        rest
      else
        rest
  }

  /** Next payout: now plus the delay when not delegating; otherwise the payout
      of the first delegated cycle (or now plus the delay), moved later to the
      delegation date plus the delay when that is later. */
  function GetNextPayoutMoment(
    isDelegating: bool,
    delegatedDate: Option<int>,
    rewards: seq<RewardInfo>,
    payoutCycles: Option<int>,
    now: int): (t: int)
    ensures !isDelegating ==> t == AddPayoutDelayToMoment(now, payoutCycles)
    ensures isDelegating ==>
      var fromDelegation := AddPayoutDelayToMoment(delegatedDate.GetOr(now), payoutCycles);
      var first := FirstDelegatedCycle(rewards);
      var scheduled := if first.Some? then first.value.payout else AddPayoutDelayToMoment(now, payoutCycles);
      && t >= fromDelegation
      && t >= scheduled
      && (t == fromDelegation || t == scheduled)
  {
    if isDelegating then
      var first := FirstDelegatedCycle(rewards);
      var nextPayout := if first.Some? then first.value.payout else AddPayoutDelayToMoment(now, payoutCycles);
      var fromDelegation := AddPayoutDelayToMoment(delegatedDate.GetOr(now), payoutCycles);
      if fromDelegation > nextPayout then fromDelegation else nextPayout
    else
      AddPayoutDelayToMoment(now, payoutCycles)
  }

  /** A delegator without a delegated cycle yet is projected one delay after
      the later of now and its delegation date. */
  lemma NoDelegatedCycleWaitsFullDelay(delegatedDate: int, rewards: seq<RewardInfo>, cycles: Option<int>, now: int)
    requires forall x :: x in rewards ==> x.delegatedBalance <= 0.0
    ensures GetNextPayoutMoment(true, Some(delegatedDate), rewards, cycles, now)
         == AddPayoutDelayToMoment(if delegatedDate > now then delegatedDate else now, cycles)
  {
  }

  /** (totalRewards + totalFees) / stakingBalance of one cycle. */
  function CycleReturn(r: RewardInfo): (q: Quotient)
    ensures q.Exact? <==> r.stakingBalance != 0.0
  {
    Divide(r.totalRewards + r.totalFees, r.stakingBalance)
  }

  /** A finite cycle return is the cycle's reference rate. */
  lemma CycleReturnIsRate(r: RewardInfo)
    ensures CycleReturn(r).Exact? ==> CycleReturn(r).value == Rate(r)
  {
  }

  /** A finite cycle return times the staking balance gives back the cycle's
      rewards plus fees. */
  lemma CycleReturnTimesStake(r: RewardInfo)
    ensures CycleReturn(r).Exact? ==> CycleReturn(r).value * r.stakingBalance == r.totalRewards + r.totalFees
  {
    if r.stakingBalance != 0.0 {
      DivisionUndone(r.totalRewards + r.totalFees, r.stakingBalance);
    }
  }

  lemma DivisionUndone(n: real, d: real)
    requires d != 0.0
    ensures (n / d) * d == n
  {
  }

  function AddQuotients(a: Quotient, b: Quotient): (c: Quotient)
    ensures c.Exact? <==> a.Exact? && b.Exact?
  {
    if a.Exact? && b.Exact? then Exact(a.value + b.value) else NotFinite
  }

  /** The `reduce` of the cycle returns, from the first to the last. */
  function SumReturns(rewards: seq<RewardInfo>): (q: Quotient)
    requires rewards != []
    ensures q.Exact? <==> forall x :: x in rewards ==> x.stakingBalance != 0.0
  {
    if |rewards| == 1 then CycleReturn(rewards[0])
    else
      assert forall x :: x in rewards ==> x in rewards[..|rewards| - 1] || x == rewards[|rewards| - 1];
      AddQuotients(SumReturns(rewards[..|rewards| - 1]), CycleReturn(rewards[|rewards| - 1]))
  }

  /** The reference rate of one cycle: what it earned over what was staked
      (a zero stake, where the original gets NaN or Infinity, counts as 0). */
  function Rate(r: RewardInfo): real {
    if r.stakingBalance == 0.0 then 0.0 else (r.totalRewards + r.totalFees) / r.stakingBalance
  }

  /** The reference total of the cycle rates, summed from the first cycle on. */
  function RateSum(rewards: seq<RewardInfo>): real {
    if rewards == [] then 0.0 else Rate(rewards[0]) + RateSum(rewards[1..])
  }

  lemma {:induction false} RateSumSnoc(rewards: seq<RewardInfo>, x: RewardInfo)
    ensures RateSum(rewards + [x]) == RateSum(rewards) + Rate(x)
  {
    if rewards == [] {
      assert [x][1..] == [];
    } else {
      assert (rewards + [x])[1..] == rewards[1..] + [x];
      RateSumSnoc(rewards[1..], x);
    }
  }

  /** When finite, the `reduce` of the cycle returns is the sum of the cycle rates. */
  lemma {:induction false} SumReturnsIsRateSum(rewards: seq<RewardInfo>)
    requires rewards != []
    ensures SumReturns(rewards).Exact? ==> SumReturns(rewards).value == RateSum(rewards)
  {
    var last := rewards[|rewards| - 1];
    CycleReturnIsRate(last);
    if |rewards| == 1 {
      assert rewards[1..] == [];
    } else {
      var init := rewards[..|rewards| - 1];
      SumReturnsIsRateSum(init);
      RateSumSnoc(init, last);
      assert init + [last] == rewards;
    }
  }

  /** Mean cycle return times the delegator's balance; an empty history makes
      the original's `reduce` throw, which leaves no estimate. */
  function AverageReturnPerCycle(rewards: seq<RewardInfo>, balance: real): (r: Option<Quotient>)
    ensures r.None? <==> rewards == []
    ensures r.Some? ==> (r.value.Exact? <==> forall x :: x in rewards ==> x.stakingBalance != 0.0)
    ensures r.Some? && r.value.Exact? ==> r.value.value == RateSum(rewards) / (|rewards| as real) * balance
  {
    if rewards == [] then None
    else
      SumReturnsIsRateSum(rewards);
      Some(Scale(MeanReturn(rewards), balance))
  }

  /** The estimate times the number of cycles is the sum of the cycle rates
      times the balance. */
  lemma AverageTimesCycles(rewards: seq<RewardInfo>, balance: real)
    ensures var r := AverageReturnPerCycle(rewards, balance);
      r.Some? && r.value.Exact? ==> r.value.value * (|rewards| as real) == RateSum(rewards) * balance
  {
    var r := AverageReturnPerCycle(rewards, balance);
    if r.Some? && r.value.Exact? {
      MeanUndone(r.value.value, RateSum(rewards), |rewards| as real, balance);
    }
  }

  lemma MeanUndone(v: real, sum: real, n: real, balance: real)
    requires n > 0.0 && v == sum / n * balance
    ensures v * n == sum * balance
  {
    assert sum / n * n == sum;
  }

  /** The sum of the cycle returns divided by the number of cycles. */
  function MeanReturn(rewards: seq<RewardInfo>): (q: Quotient)
    requires rewards != []
    ensures q.Exact? <==> SumReturns(rewards).Exact?
    ensures q.Exact? ==> q.value * (|rewards| as real) == SumReturns(rewards).value
  {
    var sum := SumReturns(rewards);
    if sum.Exact? then Divide(sum.value, |rewards| as real) else NotFinite
  }

  lemma SumOfEqualReturns(rewards: seq<RewardInfo>, q: real)
    requires rewards != []
    requires forall x :: x in rewards ==> CycleReturn(x) == Exact(q)
    ensures SumReturns(rewards) == Exact(|rewards| as real * q)
  {
    SumOfEqualReturnsRepeated(rewards, q);
    RepeatedIsProduct(|rewards|, q);
  }

  /** `q` added to itself `n` times. */
  function Repeated(n: nat, q: real): real {
    if n == 0 then 0.0 else Repeated(n - 1, q) + q
  }

  lemma {:induction false} RepeatedIsProduct(n: nat, q: real)
    ensures Repeated(n, q) == n as real * q
  {
    if n > 0 {
      RepeatedIsProduct(n - 1, q);
      assert (n - 1) as real * q + q == n as real * q;
    }
  }

  lemma {:induction false} SumOfEqualReturnsRepeated(rewards: seq<RewardInfo>, q: real)
    requires rewards != []
    requires forall x :: x in rewards ==> CycleReturn(x) == Exact(q)
    ensures SumReturns(rewards) == Exact(Repeated(|rewards|, q))
  {
    var last := rewards[|rewards| - 1];
    assert last in rewards;
    if |rewards| > 1 {
      var init := rewards[..|rewards| - 1];
      assert forall x :: x in init ==> x in rewards;
      SumOfEqualReturnsRepeated(init, q);
    }
  }

  /** When every cycle returned the same rate, the estimate is that rate times the balance. */
  lemma AverageOfEqualReturns(rewards: seq<RewardInfo>, q: real, balance: real)
    requires rewards != []
    requires forall x :: x in rewards ==> CycleReturn(x) == Exact(q)
    ensures AverageReturnPerCycle(rewards, balance) == Some(Exact(q * balance))
  {
    SumOfEqualReturns(rewards, q);
    MeanOfEqualReturns(rewards, q);
    assert Scale(Exact(q), balance) == Exact(q * balance);
  }

  lemma MeanOfEqualReturns(rewards: seq<RewardInfo>, q: real)
    requires rewards != []
    requires SumReturns(rewards) == Exact(|rewards| as real * q)
    ensures MeanReturn(rewards) == Exact(q)
  {
    var n := |rewards| as real;
    assert MeanReturn(rewards) == Divide(n * q, n);
    ProductDividedOut(n, q);
  }

  lemma ProductDividedOut(n: real, q: real)
    requires n != 0.0
    ensures Divide(n * q, n) == Exact(q)
  {
    assert (n * q) / n == q;
  }

  /** What `showFuturePayoutDetails` computes inside its try block: a failed
      reward fetch or a missing baker configuration leaves both values null;
      an empty reward history leaves only the return estimate null. */
  function ProjectPayouts(
    isDelegating: bool,
    delegatedDate: Option<int>,
    balance: real,
    bakerConfig: Option<BakerConfig>,
    rewards: Result<seq<RewardInfo>>,
    now: int): (p: PayoutProjection)
    ensures rewards.Err? || bakerConfig.None? ==> p == PayoutProjection(None, None)
    ensures rewards.Ok? && bakerConfig.Some? ==>
      var payout := bakerConfig.value.payout;
      && p.nextPayout == Some(GetNextPayoutMoment(isDelegating, delegatedDate, rewards.value,
                                                  if payout.Some? then Some(payout.value.cycles) else None, now))
      && p.returnPerCycle == AverageReturnPerCycle(rewards.value, balance)
      && (p.returnPerCycle.None? <==> rewards.value == [])
  {
    if rewards.Err? || bakerConfig.None? then PayoutProjection(None, None)
    else
      var config := bakerConfig.value;
      var cycles := if config.payout.Some? then Some(config.payout.value.cycles) else None;
      PayoutProjection(
        Some(GetNextPayoutMoment(isDelegating, delegatedDate, rewards.value, cycles, now)),
        AverageReturnPerCycle(rewards.value, balance))
  }

  function NextPayoutWidget(nextPayout: Option<int>, isDelegating: bool): (w: Option<DisplayItem>)
    ensures w.Some? <==> nextPayout.Some?
    ensures w.Some? ==> w.value.id == Some(NextPayoutId) && w.value.text == FromNow(nextPayout.value)
    ensures w.Some? ==> w.value.description == (if isDelegating then "Next Payout" else "First Payout")
  {
    match nextPayout
    case None => None
    case Some(t) =>
      Some(IconText(Some(NextPayoutId), "sync", FromNow(t), if isDelegating then "Next Payout" else "First Payout"))
  }

  function EstimatedReturnWidget(returnPerCycle: Option<Quotient>): (w: Option<DisplayItem>)
    ensures w.Some? <==> returnPerCycle.Some?
    ensures w.Some? ==> w.value.id == Some(EstimatedReturnId) && w.value.description == "Estimated Return per Cycle"
    ensures w.Some? ==> w.value.text == (if returnPerCycle.value.Exact? then Amount(returnPerCycle.value.value) else NotANumber)
  {
    match returnPerCycle
    case None => None
    case Some(q) =>
      Some(IconText(Some(EstimatedReturnId), "alarm", if q.Exact? then Amount(q.value) else NotANumber,
                    "Estimated Return per Cycle"))
  }

  // ---------------------------------------------------------------------------
  // Objects

  /** The delegator half of a result; its display list is updated in place
      after the result has been handed out. */
  class DelegatorDetails {
    const address: string
    const balance: real
    const isDelegating: bool
    const extraDetails: Option<DelegationInfo>
    var displayDetails: Option<seq<DisplayItem>>

    constructor (address: string, balance: real, isDelegating: bool, extraDetails: Option<DelegationInfo>,
                 displayDetails: Option<seq<DisplayItem>>)
      ensures this.address == address && this.balance == balance && this.isDelegating == isDelegating
      ensures this.extraDetails == extraDetails && this.displayDetails == displayDetails
    {
      this.address := address;
      this.balance := balance;
      this.isDelegating := isDelegating;
      this.extraDetails := extraDetails;
      this.displayDetails := displayDetails;
    }

    function DelegatedDate(): Option<int> {
      if extraDetails.Some? then extraDetails.value.delegatedDate else None
    }
  }

  class TezosDelegationExtensions {
    const airGapBakerConfig: BakerConfig
    const airGapDelegatee: string
    const delegateeLabel: string

    constructor (airGapBakerConfig: BakerConfig)
      ensures this.airGapBakerConfig == airGapBakerConfig
      ensures airGapDelegatee == airGapBakerConfig.address && delegateeLabel == "Baker"
    {
      this.airGapBakerConfig := airGapBakerConfig;
      airGapDelegatee := airGapBakerConfig.address;
      delegateeLabel := "Baker";
    }

    /** `create`: the extension for the first configured baker; without one,
        reading its address throws. */
    static method Create(bakersConfig: seq<BakerConfig>) returns (r: Result<TezosDelegationExtensions>)
      ensures r.Err? <==> bakersConfig == []
      ensures r.Ok? ==> fresh(r.value) && r.value.airGapBakerConfig == bakersConfig[0]
    {
      if bakersConfig == [] {
        r := Err("Cannot read property 'address' of undefined");
      } else {
        var e := new TezosDelegationExtensions(bakersConfig[0]);
        r := Ok(e);
      }
    }

    /** Replaces the two payout widgets of `delegator` by id, creating the list when absent. */
    method AddPayoutWidgets(delegator: DelegatorDetails, nextPayout: Option<int>, returnPerCycle: Option<Quotient>,
                            updateWidget: WidgetUpdate)
      modifies delegator
      ensures delegator.displayDetails == Some(
        updateWidget(
          updateWidget(old(delegator.displayDetails).GetOr([]), EstimatedReturnId, EstimatedReturnWidget(returnPerCycle)),
          NextPayoutId,
          NextPayoutWidget(nextPayout, delegator.isDelegating)))
    {
      if delegator.displayDetails.None? {
        delegator.displayDetails := Some([]);
      }
      var nextPayoutWidget := NextPayoutWidget(nextPayout, delegator.isDelegating);
      var estimatedReturnWidget := EstimatedReturnWidget(returnPerCycle);
      delegator.displayDetails := Some(updateWidget(delegator.displayDetails.value, EstimatedReturnId, estimatedReturnWidget));
      delegator.displayDetails := Some(updateWidget(delegator.displayDetails.value, NextPayoutId, nextPayoutWidget));
    }

    /** Fetches the baker's reward history and installs the projected payout
        widgets; any failure inside leaves the affected values null. */
    method ShowFuturePayoutDetails(
      baker: Delegatee,
      delegator: DelegatorDetails,
      delegationRewards: string -> Result<seq<RewardInfo>>,
      now: int,
      updateWidget: WidgetUpdate)
      modifies delegator
      ensures var p := ProjectPayouts(delegator.isDelegating, delegator.DelegatedDate(), delegator.balance,
                                      baker.extraDetails, delegationRewards(baker.address), now);
        delegator.displayDetails == Some(
          updateWidget(
            updateWidget(old(delegator.displayDetails).GetOr([]), EstimatedReturnId, EstimatedReturnWidget(p.returnPerCycle)),
            NextPayoutId,
            NextPayoutWidget(p.nextPayout, delegator.isDelegating)))
    {
      var nextPayout: Option<int> := None;
      var avgRoIPerCycle: Option<Quotient> := None;
      var bakerRewards := delegationRewards(baker.address);
      if bakerRewards.Ok? && baker.extraDetails.Some? {
        var config := baker.extraDetails.value;
        var cycles := if config.payout.Some? then Some(config.payout.value.cycles) else None;
        nextPayout := Some(GetNextPayoutMoment(delegator.isDelegating, delegator.DelegatedDate(), bakerRewards.value, cycles, now));
        if bakerRewards.value != [] {
          avgRoIPerCycle := AverageReturnPerCycle(bakerRewards.value, delegator.balance);
        }
      }
      AddPayoutWidgets(delegator, nextPayout, avgRoIPerCycle, updateWidget);
    }

    /** Runs the payout projection only when exactly one baker is shown. */
    method OnDetailsChange(
      delegatees: seq<Delegatee>,
      delegator: DelegatorDetails,
      delegationRewards: string -> Result<seq<RewardInfo>>,
      now: int,
      updateWidget: WidgetUpdate)
      modifies delegator
      ensures |delegatees| != 1 ==> delegator.displayDetails == old(delegator.displayDetails)
      ensures |delegatees| == 1 ==>
        var p := ProjectPayouts(delegator.isDelegating, delegator.DelegatedDate(), delegator.balance,
                                delegatees[0].extraDetails, delegationRewards(delegatees[0].address), now);
        delegator.displayDetails == Some(
          updateWidget(
            updateWidget(old(delegator.displayDetails).GetOr([]), EstimatedReturnId, EstimatedReturnWidget(p.returnPerCycle)),
            NextPayoutId,
            NextPayoutWidget(p.nextPayout, delegator.isDelegating)))
    {
      if |delegatees| == 1 {
        ShowFuturePayoutDetails(delegatees[0], delegator, delegationRewards, now, updateWidget);
      }
    }
  }
}
